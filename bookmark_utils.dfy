/**
 * Queries over the bookmark tree (src/modules/bookmarkUtils.js): the flat
 * list of bookmarks, its recency order, search matching and the recursive
 * counts shown in titles.
 */
module BookmarkUtils {
  import opened Js
  import opened Model

  // ------------------------------------------------------------ collecting

  /**
   * collectBookmarks: one entry per bookmark, labelled with the title of the
   * folder it sits in (`folderName` for a bookmark given on its own).
   */
  function CollectBookmarks(node: Node, folderName: string): seq<Entry>
    decreases node, 1
  {
    match node
    case Folder(_, title, children) => CollectChildren(children, title)
    case Leaf(_, _, _, _, _, _) => [Entry(node, folderName)]
  }

  function CollectChildren(children: seq<Node>, folderName: string): seq<Entry>
    decreases children, 0
  {
    if children == [] then []
    else CollectBookmarks(children[0], folderName) + CollectChildren(children[1..], folderName)
  }

  function Bookmarks(entries: seq<Entry>): (r: seq<Node>)
    ensures |r| == |entries| && forall i :: 0 <= i < |r| ==> r[i] == entries[i].bookmark
  {
    if entries == [] then [] else [entries[0].bookmark] + Bookmarks(entries[1..])
  }

  lemma {:induction false} BookmarksConcat(a: seq<Entry>, b: seq<Entry>)
    ensures Bookmarks(a + b) == Bookmarks(a) + Bookmarks(b)
  {
  }

  predicate IsLeaf(n: Node) { n.Leaf? }

  /**
   * The flat list holds exactly the leaves of the tree, in depth-first
   * left-to-right order, and nothing for folders.
   */
  lemma {:induction false} CollectIsLeavesInPreorder(node: Node, folderName: string)
    ensures Bookmarks(CollectBookmarks(node, folderName)) == Keep(Preorder(node), IsLeaf)
    decreases node, 1
  {
    match node
    case Folder(_, title, children) =>
      CollectChildrenIsLeavesInPreorder(children, title);
      KeepConcat([node], PreorderAll(children), IsLeaf);
      assert Preorder(node) == [node] + PreorderAll(children);
      assert Keep([node], IsLeaf) == [] by { assert [node][1..] == []; }
    case Leaf(_, _, _, _, _, _) =>
      assert Preorder(node) == [node];
      assert Keep([node], IsLeaf) == [node] by { assert [node][1..] == []; }
  }

  lemma {:induction false} CollectChildrenIsLeavesInPreorder(children: seq<Node>, folderName: string)
    ensures Bookmarks(CollectChildren(children, folderName)) == Keep(PreorderAll(children), IsLeaf)
    decreases children, 0
  {
    if children != [] {
      CollectIsLeavesInPreorder(children[0], folderName);
      CollectChildrenIsLeavesInPreorder(children[1..], folderName);
      BookmarksConcat(CollectBookmarks(children[0], folderName), CollectChildren(children[1..], folderName));
      KeepConcat(Preorder(children[0]), PreorderAll(children[1..]), IsLeaf);
    }
  }

  /** `leaf` is a direct child of a folder titled `title` somewhere in `node`. */
  ghost predicate InFolderTitled(node: Node, leaf: Node, title: string) {
    exists f :: f in Preorder(node) && f.Folder? && f.title == title && leaf in f.children
  }

  /**
   * Each entry's folder is the title of the folder that directly holds the
   * bookmark; a bookmark given on its own keeps the name passed in.
   */
  lemma {:induction false} CollectFolderIsParentTitle(node: Node, folderName: string)
    ensures forall e :: e in CollectBookmarks(node, folderName) ==>
      (node.Leaf? && e == Entry(node, folderName)) || InFolderTitled(node, e.bookmark, e.folder)
    decreases node, 1
  {
    match node
    case Folder(_, title, children) =>
      CollectChildrenFolderIsParentTitle(node, children, title);
    case Leaf(_, _, _, _, _, _) =>
  }

  lemma {:induction false} CollectChildrenFolderIsParentTitle(parent: Node, children: seq<Node>, title: string)
    requires parent.Folder? && parent.title == title
    requires forall c :: c in children ==> c in parent.children
    ensures forall e :: e in CollectChildren(children, title) ==> InFolderTitled(parent, e.bookmark, e.folder)
    decreases children
  {
    if children != [] {
      var c := children[0];
      CollectChildrenFolderIsParentTitle(parent, children[1..], title);
      CollectFolderIsParentTitle(c, title);
      forall e | e in CollectBookmarks(c, title)
        ensures InFolderTitled(parent, e.bookmark, e.folder)
      {
        if c.Leaf? && e == Entry(c, title) {
          assert parent in Preorder(parent);
        } else {
          var f :| f in Preorder(c) && f.Folder? && f.title == e.folder && e.bookmark in f.children;
          SubtreeInPreorder(parent, c);
          assert f in Preorder(parent);
        }
      }
    }
  }

  /** A child's nodes are among its parent's nodes. */
  lemma {:induction false} SubtreeInPreorder(parent: Node, c: Node)
    requires parent.Folder? && c in parent.children
    ensures forall n :: n in Preorder(c) ==> n in Preorder(parent)
  {
    var i :| 0 <= i < |parent.children| && parent.children[i] == c;
    ChildInPreorderAll(parent.children, i);
  }

  lemma {:induction false} ChildInPreorderAll(children: seq<Node>, i: nat)
    requires i < |children|
    ensures forall n :: n in Preorder(children[i]) ==> n in PreorderAll(children)
    decreases i
  {
    if i > 0 {
      ChildInPreorderAll(children[1..], i - 1);
    }
  }

  // ------------------------------------------------------------ recency order

  /** `dateLastUsed || dateAdded`. */
  function Recency(e: Entry): int {
    match e.bookmark
    case Leaf(_, _, _, _, added, lastUsed) => if lastUsed != 0 then lastUsed else added
    case Folder(_, _, _) => 0
  }

  /** Most recently used first. */
  ghost predicate SortedByRecency(s: seq<Entry>) {
    forall k, m :: 0 <= k < m < |s| ==> Recency(s[k]) >= Recency(s[m])
  }

  /** The entries of recency `v`, in order. */
  function Ties(s: seq<Entry>, v: int): seq<Entry> {
    if s == [] then [] else (if Recency(s[0]) == v then [s[0]] else []) + Ties(s[1..], v)
  }

  /** Entries of equal recency come in the same relative order in both lists. */
  ghost predicate SameTies(s: seq<Entry>, t: seq<Entry>) {
    forall v :: Ties(s, v) == Ties(t, v)
  }

  /**
   * sortBookmarksByRecent: sorts the caller's array in place, most recent
   * first, and returns that same array. The sort is stable, as
   * `Array.prototype.sort` is: entries of equal recency keep their order.
   */
  method SortBookmarksByRecent(a: array<Entry>) returns (r: array<Entry>)
    modifies a
    ensures r == a
    ensures SortedByRecency(a[..])
    ensures multiset(a[..]) == old(multiset(a[..]))
    ensures SameTies(a[..], old(a[..]))
    ensures SortedByRecency(old(a[..])) ==> a[..] == old(a[..])
  {
    var i := 0;
    while i < a.Length
      invariant 0 <= i <= a.Length
      invariant SortedByRecency(a[..i])
      invariant multiset(a[..]) == old(multiset(a[..]))
      invariant SameTies(a[..], old(a[..]))
      invariant SortedByRecency(old(a[..])) ==> a[..] == old(a[..])
    {
      InsertIntoSorted(a, i);
      i := i + 1;
    }
    assert a[..a.Length] == a[..];
    r := a;
  }

  /** One insertion step: moves `a[i]` left past every less recent entry. */
  method InsertIntoSorted(a: array<Entry>, i: nat)
    requires i < a.Length && SortedByRecency(a[..i])
    modifies a
    ensures SortedByRecency(a[..i + 1])
    ensures multiset(a[..]) == old(multiset(a[..]))
    ensures SameTies(a[..], old(a[..]))
    ensures i == 0 || Recency(old(a[i - 1])) >= Recency(old(a[i])) ==> a[..] == old(a[..])
  {
    if i == 0 || Recency(a[i - 1]) >= Recency(a[i]) {
      return;
    }
    ghost var s := a[..];
    var j := ShiftLessRecent(a, i);
    ShiftedLayout(a[..], s, i, j);
    InsertionStep(s, i, j);
    InsertionKeepsTies(s, i, j);
  }

  /**
   * The inner loop of the insertion step: shifts the less recent entries
   * before `a[i]` one place right and drops `a[i]` into the gap.
   */
  method ShiftLessRecent(a: array<Entry>, i: nat) returns (j: nat)
    requires i < a.Length
    modifies a
    ensures j <= i && a[j] == old(a[i])
    ensures forall k :: 0 <= k < j ==> a[k] == old(a[k])
    ensures forall k :: j < k <= i ==> a[k] == old(a[k - 1])
    ensures forall k :: i < k < a.Length ==> a[k] == old(a[k])
    ensures forall k :: j <= k < i ==> Recency(old(a[k])) < Recency(old(a[i]))
    ensures j > 0 ==> Recency(old(a[j - 1])) >= Recency(old(a[i]))
  {
    var x := a[i];
    j := i;
    while j > 0 && Recency(a[j - 1]) < Recency(x)
      invariant 0 <= j <= i
      invariant forall k :: 0 <= k < j ==> a[k] == old(a[k])
      invariant forall k :: j < k <= i ==> a[k] == old(a[k - 1])
      invariant forall k :: i < k < a.Length ==> a[k] == old(a[k])
      invariant forall k :: j <= k < i ==> Recency(old(a[k])) < Recency(x)
    {
      a[j] := a[j - 1];
      j := j - 1;
    }
    a[j] := x;
  }

  /** The array after the shift: the entries before `j`, then `s[i]`, then the shifted run, then the rest. */
  lemma ShiftedLayout(r: seq<Entry>, s: seq<Entry>, i: nat, j: nat)
    requires j <= i < |s| == |r| && r[j] == s[i]
    requires forall k :: 0 <= k < j ==> r[k] == s[k]
    requires forall k :: j < k <= i ==> r[k] == s[k - 1]
    requires forall k :: i < k < |r| ==> r[k] == s[k]
    ensures r == s[..j] + [s[i]] + s[j..i] + s[i + 1..]
  {
  }

  /**
   * Moving `s[i]` back to position `j`, after the entries at least as
   * recent and before the less recent ones, keeps the entries and extends
   * the ordered prefix by one.
   */
  lemma InsertionStep(s: seq<Entry>, i: nat, j: nat)
    requires j <= i < |s| && SortedByRecency(s[..i])
    requires forall k :: j <= k < i ==> Recency(s[k]) < Recency(s[i])
    requires j > 0 ==> Recency(s[j - 1]) >= Recency(s[i])
    ensures multiset(s[..j] + [s[i]] + s[j..i] + s[i + 1..]) == multiset(s)
    ensures SortedByRecency((s[..j] + [s[i]] + s[j..i] + s[i + 1..])[..i + 1])
  {
    InsertionKeepsEntries(s, i, j);
    InsertedPrefix(s, i, j);
    InsertionSorted(s[..i], j, s[i]);
  }

  lemma InsertionKeepsEntries(s: seq<Entry>, i: nat, j: nat)
    requires j <= i < |s|
    ensures multiset(s[..j] + [s[i]] + s[j..i] + s[i + 1..]) == multiset(s)
  {
    assert s == s[..j] + s[j..i] + [s[i]] + s[i + 1..];
  }

  lemma InsertedPrefix(s: seq<Entry>, i: nat, j: nat)
    requires j <= i < |s|
    ensures (s[..j] + [s[i]] + s[j..i] + s[i + 1..])[..i + 1] == s[..i][..j] + [s[i]] + s[..i][j..]
  {
  }

  /**
   * Moving `s[i]` back past strictly less recent entries keeps every run of
   * equal recency in its order: the insertion step is stable.
   */
  lemma InsertionKeepsTies(s: seq<Entry>, i: nat, j: nat)
    requires j <= i < |s|
    requires forall k :: j <= k < i ==> Recency(s[k]) < Recency(s[i])
    ensures SameTies(s[..j] + [s[i]] + s[j..i] + s[i + 1..], s)
  {
    var a, c, d := s[..j], s[j..i], s[i + 1..];
    InsertionSplit(s, i, j);
    assert forall k :: 0 <= k < |c| ==> Recency(c[k]) < Recency(s[i]) by {
      forall k | 0 <= k < |c| ensures Recency(c[k]) < Recency(s[i]) {
        assert c[k] == s[j + k];
      }
    }
    forall v ensures Ties(a + [s[i]] + c + d, v) == Ties(s, v) {
      TiesSwap(a, c, d, s[i], v);
    }
  }

  lemma InsertionSplit(s: seq<Entry>, i: nat, j: nat)
    requires j <= i < |s|
    ensures s == s[..j] + s[j..i] + [s[i]] + s[i + 1..]
  {
  }

  /** An entry moved in front of strictly less recent ones leaves every run of equal recency as it was. */
  lemma TiesSwap(a: seq<Entry>, c: seq<Entry>, d: seq<Entry>, x: Entry, v: int)
    requires forall k :: 0 <= k < |c| ==> Recency(c[k]) < Recency(x)
    ensures Ties(a + [x] + c + d, v) == Ties(a + c + [x] + d, v)
  {
    TiesConcat4(a, [x], c, d, v);
    TiesConcat4(a, c, [x], d, v);
    if v == Recency(x) {
      TiesNone(c, v);
    } else {
      assert Ties([x], v) == [] by {
        assert [x][1..] == [];
      }
    }
  }

  lemma {:induction false} TiesConcat(a: seq<Entry>, b: seq<Entry>, v: int)
    ensures Ties(a + b, v) == Ties(a, v) + Ties(b, v)
  {
    if a == [] {
      assert a + b == b;
    } else {
      assert (a + b)[0] == a[0];
      assert (a + b)[1..] == a[1..] + b;
      TiesConcat(a[1..], b, v);
      var h := if Recency(a[0]) == v then [a[0]] else [];
      calc {
        Ties(a + b, v);
        h + Ties(a[1..] + b, v);
        h + (Ties(a[1..], v) + Ties(b, v));
        { AppendAssoc(h, Ties(a[1..], v), Ties(b, v)); }
        (h + Ties(a[1..], v)) + Ties(b, v);
      }
    }
  }

  lemma TiesConcat4(a: seq<Entry>, b: seq<Entry>, c: seq<Entry>, d: seq<Entry>, v: int)
    ensures Ties(a + b + c + d, v) == Ties(a, v) + Ties(b, v) + Ties(c, v) + Ties(d, v)
  {
    TiesConcat(a + b + c, d, v);
    TiesConcat(a + b, c, v);
    TiesConcat(a, b, v);
  }

  lemma {:induction false} TiesNone(t: seq<Entry>, v: int)
    requires forall k :: 0 <= k < |t| ==> Recency(t[k]) != v
    ensures Ties(t, v) == []
  {
    if t != [] {
      TiesNone(t[1..], v);
    }
  }

  /** Inserting an entry after the ones at least as recent and before the less recent keeps the order. */
  lemma InsertionSorted(p: seq<Entry>, j: nat, x: Entry)
    requires j <= |p| && SortedByRecency(p)
    requires j > 0 ==> Recency(p[j - 1]) >= Recency(x)
    requires forall k :: j <= k < |p| ==> Recency(p[k]) < Recency(x)
    ensures SortedByRecency(p[..j] + [x] + p[j..])
  {
    var r := p[..j] + [x] + p[j..];
    forall k, m | 0 <= k < m < |r| ensures Recency(r[k]) >= Recency(r[m]) {
      if m < j {
        assert r[k] == p[k] && r[m] == p[m];
      } else if m == j {
        assert r[k] == p[k] && Recency(p[k]) >= Recency(p[j - 1]);
      } else if k < j {
        assert r[k] == p[k] && r[m] == p[m - 1];
      } else if k == j {
        assert r[m] == p[m - 1];
      } else {
        assert r[k] == p[k - 1] && r[m] == p[m - 1];
      }
    }
  }

  // ------------------------------------------------------------ search

  /**
   * containsSearchTerm: every piece of the term split at single spaces
   * occurs in the lower-cased text (the term itself is not lower-cased).
   */
  predicate ContainsSearchTerm(text: string, term: string) {
    var pieces := Split(term, ' ');
    forall i :: 0 <= i < |pieces| ==> Contains(Lower(text), pieces[i])
  }

  /** The empty term (and so an empty piece from a doubled space) matches any text. */
  lemma EmptyTermMatches(text: string)
    ensures ContainsSearchTerm(text, "")
  {
    EmptyIsEverywhere(Lower(text));
  }

  /** A term with no space matches when it occurs in the lower-cased text. */
  lemma SingleWord(text: string, word: string)
    requires ' ' !in word
    ensures ContainsSearchTerm(text, word) <==> Contains(Lower(text), word)
  {
    SplitWithoutSeparator(word, ' ');
    assert Split(word, ' ')[0] == word;
  }

  /** Matching a term is matching each of its space-separated words. */
  lemma {:induction false} TermIsConjunction(text: string, a: string, b: string)
    requires ' ' !in a
    ensures ContainsSearchTerm(text, a + " " + b) <==> ContainsSearchTerm(text, a) && ContainsSearchTerm(text, b)
  {
    SplitAround(a, b, ' ');
    assert a + " " + b == a + [' '] + b;
    AllOccurConcat(Lower(text), Split(a, ' '), Split(b, ' '));
  }

  /** Every piece of two lists occurs exactly when every piece of each occurs. */
  lemma AllOccurConcat(t: string, pa: seq<string>, pb: seq<string>)
    ensures (forall i :: 0 <= i < |pa + pb| ==> Contains(t, (pa + pb)[i]))
      <==> (forall i :: 0 <= i < |pa| ==> Contains(t, pa[i])) && (forall i :: 0 <= i < |pb| ==> Contains(t, pb[i]))
  {
    var p := pa + pb;
    if forall i :: 0 <= i < |p| ==> Contains(t, p[i]) {
      forall i | 0 <= i < |pb| ensures Contains(t, pb[i]) {
        assert p[i + |pa|] == pb[i];
      }
      forall i | 0 <= i < |pa| ensures Contains(t, pa[i]) {
        assert p[i] == pa[i];
      }
    }
  }

  /** Word order does not matter, and a doubled space changes nothing. */
  lemma WordOrderAndDoubledSpace(text: string, a: string, b: string)
    requires ' ' !in a && ' ' !in b
    ensures ContainsSearchTerm(text, a + " " + b) <==> ContainsSearchTerm(text, b + " " + a)
    ensures ContainsSearchTerm(text, a + "  " + b) <==> ContainsSearchTerm(text, a + " " + b)
  {
    TermIsConjunction(text, a, b);
    TermIsConjunction(text, b, a);
    assert a + "  " + b == a + " " + (" " + b);
    TermIsConjunction(text, a, " " + b);
    assert " " + b == "" + " " + b;
    TermIsConjunction(text, "", b);
    EmptyTermMatches(text);
  }

  /** `!searchTerm || searchTerm.trim() === ''`. */
  predicate IsBlankTerm(term: string) {
    term == "" || Trim(term) == ""
  }

  /**
   * matchesSearch: a blank term matches everything; otherwise the whole
   * lower-cased term must occur in the lower-cased title or url.
   */
  predicate MatchesSearch(bookmark: Node, term: string) {
    var url := if bookmark.Leaf? then bookmark.url else "";
    IsBlankTerm(term)
    || Contains(Lower(bookmark.title), Lower(term))
    || Contains(Lower(url), Lower(term))
  }

  /** For a one-word term the two matchers agree. */
  lemma MatchesSearchOneWord(bookmark: Node, word: string)
    requires bookmark.Leaf? && !IsBlankTerm(word) && ' ' !in word
    ensures MatchesSearch(bookmark, word) <==>
      ContainsSearchTerm(bookmark.title, Lower(word)) || ContainsSearchTerm(bookmark.url, Lower(word))
  {
    assert ' ' !in Lower(word);
    SingleWord(bookmark.title, Lower(word));
    SingleWord(bookmark.url, Lower(word));
  }

  /** matchesSearch never splits the term: "b a" is no match for "a b", unlike containsSearchTerm. */
  lemma MatchesSearchKeepsWordOrder()
    ensures !MatchesSearch(Leaf("1", "b a", "", "0", 0, 0), "a b")
    ensures ContainsSearchTerm("b a", "a b")
  {
    LowerOfLowercase("b a");
    LowerOfLowercase("a b");
    NotBlankAB();
    NotContainsAB();
    assert !Contains("", "a b");
    WordsOfBA();
  }

  lemma LowerOfLowercase(s: string)
    requires |s| == 3 && s[0] in "ab" && s[1] == ' ' && s[2] in "ab"
    ensures Lower(s) == s
  {
  }

  lemma NotBlankAB()
    ensures !IsBlankTerm("a b")
  {
    assert !IsBlank("a b") by { assert !IsSpace("a b"[0]); }
    TrimEmptyIffBlank("a b");
  }

  lemma NotContainsAB()
    ensures !Contains("b a", "a b")
  {
    assert !IsPrefix("a b", "b a") by { assert "b a"[..3][0] == 'b'; }
    assert "b a"[1..] == " a";
    assert " a"[1..] == "a";
    assert "a"[1..] == "";
    assert !Contains("", "a b");
    assert !Contains("a", "a b");
    assert !Contains(" a", "a b");
  }

  lemma WordsOfBA()
    ensures ContainsSearchTerm("b a", "a b")
  {
    TermIsConjunction("b a", "a", "b");
    assert "a" + " " + "b" == "a b";
    LowerOfLowercase("b a");
    ContainsAt("b a", "a", 2);
    ContainsAt("b a", "b", 0);
    SingleWord("b a", "a");
    SingleWord("b a", "b");
  }

  // ------------------------------------------------------------ counting

  /** The search test the counts apply to a bookmark: `!searchTerm || title match || url match`. */
  predicate CountsAsMatch(title: string, url: string, term: string) {
    term == "" || ContainsSearchTerm(title, term) || ContainsSearchTerm(url, term)
  }

  /** A bookmark with a url that passes the search test. */
  predicate IsMatchingBookmark(n: Node, term: string) {
    n.Leaf? && n.url != "" && CountsAsMatch(n.title, n.url, term)
  }

  /** countBookmarksRecursive, as a definition. */
  function CountMatching(node: Node, term: string): nat
    decreases node, 1
  {
    match node
    case Folder(_, _, children) => CountMatchingAll(children, term)
    case Leaf(_, _, _, _, _, _) => if IsMatchingBookmark(node, term) then 1 else 0
  }

  function CountMatchingAll(nodes: seq<Node>, term: string): nat
    decreases nodes, 0
  {
    if nodes == [] then 0 else CountMatching(nodes[0], term) + CountMatchingAll(nodes[1..], term)
  }

  lemma {:induction false} CountMatchingAllSnoc(nodes: seq<Node>, term: string, i: nat)
    requires i < |nodes|
    ensures CountMatchingAll(nodes[..i + 1], term) == CountMatchingAll(nodes[..i], term) + CountMatching(nodes[i], term)
    decreases i
  {
    if i > 0 {
      assert nodes[..i + 1][1..] == nodes[1..][..i];
      assert nodes[..i][1..] == nodes[1..][..i - 1];
      CountMatchingAllSnoc(nodes[1..], term, i - 1);
    } else {
      assert nodes[..1][1..] == [];
    }
  }

  /**
   * countBookmarksRecursive: the loop over a folder's children adds up
   * their counts; a bookmark counts 1 when it has a url and matches.
   */
  method CountBookmarksRecursive(node: Node, term: string) returns (count: nat)
    ensures count == CountMatching(node, term)
    decreases node
  {
    count := 0;
    if node.Folder? {
      var children := node.children;
      var i := 0;
      while i < |children|
        invariant 0 <= i <= |children|
        invariant count == CountMatchingAll(children[..i], term)
      {
        var c := CountBookmarksRecursive(children[i], term);
        CountMatchingAllSnoc(children, term, i);
        count := count + c;
        i := i + 1;
      }
      assert children[..|children|] == children;
    } else if node.url != "" {
      if CountsAsMatch(node.title, node.url, term) {
        count := count + 1;
      }
    }
  }

  /** The count is the number of matching bookmarks with a url among all nodes of the tree. */
  lemma {:induction false} CountIsMatchingNodes(node: Node, term: string)
    ensures CountMatching(node, term) == CountWhere(Preorder(node), n => IsMatchingBookmark(n, term))
    decreases node, 1
  {
    var p := (n: Node) => IsMatchingBookmark(n, term);
    match node
    case Folder(_, _, children) =>
      CountAllIsMatchingNodes(children, term);
      CountWhereConcat([node], PreorderAll(children), p);
      assert Preorder(node) == [node] + PreorderAll(children);
      assert CountWhere([node], p) == 0 by { assert [node][1..] == []; }
    case Leaf(_, _, _, _, _, _) =>
      assert Preorder(node) == [node];
      assert [node][1..] == [];
  }

  lemma {:induction false} CountAllIsMatchingNodes(nodes: seq<Node>, term: string)
    ensures CountMatchingAll(nodes, term) == CountWhere(PreorderAll(nodes), n => IsMatchingBookmark(n, term))
    decreases nodes, 0
  {
    if nodes != [] {
      CountIsMatchingNodes(nodes[0], term);
      CountAllIsMatchingNodes(nodes[1..], term);
      CountWhereConcat(Preorder(nodes[0]), PreorderAll(nodes[1..]), n => IsMatchingBookmark(n, term));
    }
  }

  lemma {:induction false} CountWhereMonotone<T>(s: seq<T>, p: T -> bool, q: T -> bool)
    requires forall x :: x in s && p(x) ==> q(x)
    ensures CountWhere(s, p) <= CountWhere(s, q)
  {
    if s != [] {
      CountWhereMonotone(s[1..], p, q);
    }
  }

  /**
   * With the empty term the count is the number of bookmarks that have a
   * url; with any term it is no larger.
   */
  lemma CountBounds(node: Node, term: string)
    ensures CountMatching(node, "") == CountWhere(Preorder(node), (n: Node) => n.Leaf? && n.url != "")
    ensures CountMatching(node, term) <= CountMatching(node, "")
  {
    CountIsMatchingNodes(node, "");
    CountIsMatchingNodes(node, term);
    var s := Preorder(node);
    CountWhereMonotone(s, n => IsMatchingBookmark(n, ""), (n: Node) => n.Leaf? && n.url != "");
    CountWhereMonotone(s, (n: Node) => n.Leaf? && n.url != "", n => IsMatchingBookmark(n, ""));
    CountWhereMonotone(s, n => IsMatchingBookmark(n, term), n => IsMatchingBookmark(n, ""));
  }

  // ------------------------------------------------------------ countItemsInFolder

  /** `filterOptions.find(option => option.value == filterId)`. */
  function FindByValue(options: seq<FilterOption>, v: JsVal): (r: Option<FilterOption>)
    ensures r.Some? ==> r.value in options && LooseEquals(r.value.value, v)
    ensures r.None? ==> forall i :: 0 <= i < |options| ==> !LooseEquals(options[i].value, v)
  {
    if options == [] then None
    else if LooseEquals(options[0].value, v) then Some(options[0])
    else FindByValue(options[1..], v)
  }

  /**
   * Under an active filter whose option is known, a folder that is neither
   * the filter folder nor on its `-id-` path is skipped.
   */
  predicate PrunedByFilter(folder: Node, filterId: JsVal, options: seq<FilterOption>) {
    IsActiveFilter(filterId)
    && FindByValue(options, filterId).Some?
    && Str(folder.id) != filterId
    && !IncludesVal(FindByValue(options, filterId).value.id, "-" + folder.id + "-")
  }

  /** countItemsInFolder, as a definition. */
  function FolderItemCount(node: Node, term: string, filterId: JsVal, options: seq<FilterOption>): (r: nat)
    ensures !node.Folder? ==> r == 0
    ensures node.Folder? && PrunedByFilter(node, filterId, options) ==> r == 0
    decreases node, 1
  {
    if !node.Folder? || PrunedByFilter(node, filterId, options) then 0
    else FolderItemCountAll(node.children, term, filterId, options)
  }

  /** What one child adds: a sub-folder its own count, a bookmark 1 if it has a url and matches. */
  function ChildItemCount(child: Node, term: string, filterId: JsVal, options: seq<FilterOption>): nat
    decreases child, 2
  {
    if child.Folder? then FolderItemCount(child, term, filterId, options)
    else CountMatching(child, term)
  }

  function FolderItemCountAll(nodes: seq<Node>, term: string, filterId: JsVal, options: seq<FilterOption>): nat
    decreases nodes, 0
  {
    if nodes == [] then 0
    else ChildItemCount(nodes[0], term, filterId, options) + FolderItemCountAll(nodes[1..], term, filterId, options)
  }

  lemma {:induction false} FolderItemCountAllSnoc(nodes: seq<Node>, term: string, filterId: JsVal, options: seq<FilterOption>, i: nat)
    requires i < |nodes|
    ensures FolderItemCountAll(nodes[..i + 1], term, filterId, options)
         == FolderItemCountAll(nodes[..i], term, filterId, options) + ChildItemCount(nodes[i], term, filterId, options)
    decreases i
  {
    if i > 0 {
      assert nodes[..i + 1][1..] == nodes[1..][..i];
      assert nodes[..i][1..] == nodes[1..][..i - 1];
      FolderItemCountAllSnoc(nodes[1..], term, filterId, options, i - 1);
    } else {
      assert nodes[..1][1..] == [];
    }
  }

  /**
   * countItemsInFolder: 0 for a bookmark; 0 for a folder the active filter
   * prunes; otherwise the folder's children counted one by one.
   */
  method CountItemsInFolder(folderNode: Node, term: string, filterId: JsVal, options: seq<FilterOption>)
    returns (count: nat)
    ensures count == FolderItemCount(folderNode, term, filterId, options)
    decreases folderNode
  {
    count := 0;
    if !folderNode.Folder? {
      return 0;
    }
    if IsActiveFilter(filterId) {
      var filterOption := FindByValue(options, filterId);
      if filterOption.Some? {
        if Str(folderNode.id) != filterId {
          var isParentOfFilter := IncludesVal(filterOption.value.id, "-" + folderNode.id + "-");
          if !isParentOfFilter {
            return 0;
          }
        }
      }
    }
    var children := folderNode.children;
    var i := 0;
    while i < |children|
      invariant 0 <= i <= |children|
      invariant count == FolderItemCountAll(children[..i], term, filterId, options)
    {
      var child := children[i];
      FolderItemCountAllSnoc(children, term, filterId, options, i);
      if child.Folder? {
        var c := CountItemsInFolder(child, term, filterId, options);
        count := count + c;
      } else if child.url != "" {
        if CountsAsMatch(child.title, child.url, term) {
          count := count + 1;
        }
      }
      i := i + 1;
    }
    assert children[..|children|] == children;
  }

  /** With no active filter, a folder's item count is its recursive bookmark count. */
  lemma {:induction false} UnfilteredItemCount(node: Node, term: string, filterId: JsVal, options: seq<FilterOption>)
    requires node.Folder? && !IsActiveFilter(filterId)
    ensures FolderItemCount(node, term, filterId, options) == CountMatching(node, term)
    decreases node, 1
  {
    UnfilteredItemCountAll(node.children, term, filterId, options);
  }

  lemma {:induction false} UnfilteredItemCountAll(nodes: seq<Node>, term: string, filterId: JsVal, options: seq<FilterOption>)
    requires !IsActiveFilter(filterId)
    ensures FolderItemCountAll(nodes, term, filterId, options) == CountMatchingAll(nodes, term)
    decreases nodes, 0
  {
    if nodes != [] {
      if nodes[0].Folder? {
        UnfilteredItemCount(nodes[0], term, filterId, options);
      }
      UnfilteredItemCountAll(nodes[1..], term, filterId, options);
    }
  }

  /** A filter only ever removes bookmarks from a folder's count. */
  lemma {:induction false} FilteredItemCountBound(node: Node, term: string, filterId: JsVal, options: seq<FilterOption>)
    ensures FolderItemCount(node, term, filterId, options) <= CountMatching(node, term)
    decreases node, 1
  {
    if node.Folder? {
      FilteredItemCountBoundAll(node.children, term, filterId, options);
    }
  }

  lemma {:induction false} FilteredItemCountBoundAll(nodes: seq<Node>, term: string, filterId: JsVal, options: seq<FilterOption>)
    ensures FolderItemCountAll(nodes, term, filterId, options) <= CountMatchingAll(nodes, term)
    decreases nodes, 0
  {
    if nodes != [] {
      FilteredItemCountBound(nodes[0], term, filterId, options);
      FilteredItemCountBoundAll(nodes[1..], term, filterId, options);
    }
  }

  // ------------------------------------------------------------ deleting

  /** `entries.filter(b => b.bookmark.id !== id)`. */
  function WithoutBookmark(entries: seq<Entry>, id: string): (r: seq<Entry>)
    ensures IsSubsequence(r, entries)
    ensures forall e :: e in r ==> e.bookmark.id != id
    ensures forall e: Entry :: e.bookmark.id != id ==> multiset(r)[e] == multiset(entries)[e]
  {
    if entries == [] then []
    else
      var rest := WithoutBookmark(entries[1..], id);
      assert entries == [entries[0]] + entries[1..];
      assert multiset(entries) == multiset([entries[0]]) + multiset(entries[1..]);
      if entries[0].bookmark.id != id then
        assert ([entries[0]] + rest)[1..] == rest;
        assert multiset([entries[0]] + rest) == multiset([entries[0]]) + multiset(rest);
        [entries[0]] + rest
      else
        SubsequenceOfTail(rest, entries);
        rest
  }

  /** Dropping entries from a recency-ordered list leaves it ordered. */
  lemma {:induction false} SubsequenceKeepsRecencyOrder(sub: seq<Entry>, s: seq<Entry>)
    requires IsSubsequence(sub, s) && SortedByRecency(s)
    ensures SortedByRecency(sub)
    decreases |s|
  {
    if sub != [] {
      assert s != [];
      assert SortedByRecency(s[1..]);
      if sub[0] == s[0] {
        SubsequenceKeepsRecencyOrder(sub[1..], s[1..]);
        SubsequenceMembers(sub[1..], s[1..]);
        forall k, m | 0 <= k < m < |sub| ensures Recency(sub[k]) >= Recency(sub[m]) {
          if k == 0 {
            assert sub[m] == sub[1..][m - 1];
            assert sub[m] in s[1..];
            var j :| 0 <= j < |s[1..]| && s[1..][j] == sub[m];
            assert s[j + 1] == sub[m];
          } else {
            assert sub[k] == sub[1..][k - 1] && sub[m] == sub[1..][m - 1];
          }
        }
      } else {
        SubsequenceKeepsRecencyOrder(sub, s[1..]);
      }
    }
  }

  /** Every element of a subsequence is an element of the sequence. */
  lemma {:induction false} SubsequenceMembers<T>(sub: seq<T>, s: seq<T>)
    requires IsSubsequence(sub, s)
    ensures forall x :: x in sub ==> x in s
    decreases |s|
  {
    if sub != [] {
      if sub[0] == s[0] {
        SubsequenceMembers(sub[1..], s[1..]);
        forall x | x in sub ensures x in s {
          if x != sub[0] {
            var k :| 0 <= k < |sub| && sub[k] == x;
            assert sub[1..][k - 1] == x;
            assert x in s[1..];
          }
        }
      } else {
        SubsequenceMembers(sub, s[1..]);
        forall x | x in s[1..] ensures x in s {
          var k :| 0 <= k < |s[1..]| && s[1..][k] == x;
          assert s[k + 1] == x;
        }
      }
    }
  }

  lemma {:induction false} SubsequenceOfTail<T>(sub: seq<T>, s: seq<T>)
    requires s != [] && IsSubsequence(sub, s[1..])
    ensures IsSubsequence(sub, s)
    decreases |s|, 0
  {
    if sub != [] && sub[0] == s[0] {
      SubsequenceDropFirst(sub, s[1..]);
    }
  }

  lemma {:induction false} SubsequenceDropFirst<T>(sub: seq<T>, s: seq<T>)
    requires sub != [] && IsSubsequence(sub, s)
    ensures IsSubsequence(sub[1..], s)
    decreases |s|, 1
  {
    if sub[0] != s[0] {
      SubsequenceDropFirst(sub, s[1..]);
    }
    if sub[1..] != [] {
      SubsequenceOfTail(sub[1..], s);
    }
  }
}
