/**
 * The new-tab page's own logic (src/main.js): the flat bookmark list it
 * keeps and re-sorts, the grid view's filtering and batched rendering, the
 * short-lived tree cache, its title and search variants, its filter option
 * list with "Unknown Folder" entries, and the folder lookup of the folder
 * view.
 */
module MainPage {
  import opened Js
  import opened Model
  import opened BookmarkUtils
  import opened Filter
  import opened UiUtils

  // ------------------------------------------------------------ the bookmark list

  /** `allBookmarks`, the list the page collects, sorts in place and filters. */
  class BookmarkList {
    var entries: seq<Entry>

    constructor()
      ensures entries == []
    {
      entries := [];
    }

    /** collectBookmarks(node, folderName): pushes one entry per bookmark below `node`. */
    method Collect(node: Node, folderName: string)
      modifies this
      ensures entries == old(entries) + CollectBookmarks(node, folderName)
      decreases node
    {
      if node.Folder? {
        var i := 0;
        while i < |node.children|
          invariant 0 <= i <= |node.children|
          invariant entries == old(entries) + CollectChildren(node.children[..i], node.title)
        {
          CollectChildrenSnoc(node.children, node.title, i);
          assert node.children[i] in node.children;
          Collect(node.children[i], node.title);
          i := i + 1;
        }
        assert node.children[..|node.children|] == node.children;
      } else {
        entries := entries + [Entry(node, folderName)];
      }
    }

    /**
     * `allBookmarks.sort(...)`: most recent first, stable, and an ordered
     * list is left as it is.
     */
    method Sort()
      modifies this
      ensures SortedByRecency(entries)
      ensures multiset(entries) == old(multiset(entries))
      ensures SameTies(entries, old(entries))
      ensures SortedByRecency(old(entries)) ==> entries == old(entries)
    {
      var s := entries;
      var a := new Entry[|s|](i requires 0 <= i < |s| => s[i]);
      assert a[..] == s;
      var sorted := SortBookmarksByRecent(a);
      entries := sorted[..];
    }

    /** Collects every bookmark under the root's children, then sorts (main.js, page load and refresh). */
    method Load(roots: seq<Node>)
      modifies this
      ensures SortedByRecency(entries)
      ensures multiset(entries) == multiset(CollectChildren(roots, ""))
      ensures SameTies(entries, CollectChildren(roots, ""))
    {
      entries := [];
      var i := 0;
      while i < |roots|
        invariant 0 <= i <= |roots|
        invariant entries == CollectChildren(roots[..i], "")
      {
        CollectChildrenSnoc(roots, "", i);
        Collect(roots[i], "");
        i := i + 1;
      }
      assert roots[..|roots|] == roots;
      Sort();
    }

    /**
     * The click handlers on a card's thumbnail and link: the first entry of
     * the clicked bookmark gets the click time as its `dateLastUsed`, and
     * the list is not re-sorted.
     */
    method MarkUsed(id: string, clickedTime: int)
      modifies this
      ensures entries == MarkUsedEntries(old(entries), id, clickedTime)
    {
      var i := 0;
      while i < |entries|
        invariant 0 <= i <= |entries|
        invariant entries == old(entries)
        invariant forall k :: 0 <= k < i ==> entries[k].bookmark.id != id
      {
        if entries[i].bookmark.id == id {
          entries := entries[i := WithLastUsed(entries[i], clickedTime)];
          return;
        }
        i := i + 1;
      }
    }

    /**
     * The list update of deleteBookmark: keeps every entry whose bookmark
     * id differs, then re-sorts. The list may be out of order after a click
     * (`MarkUsed`); when it is ordered the re-sort leaves the kept entries
     * in the order they had.
     */
    method Delete(id: string)
      modifies this
      ensures SortedByRecency(entries)
      ensures multiset(entries) == multiset(WithoutBookmark(old(entries), id))
      ensures SortedByRecency(old(entries)) ==> entries == WithoutBookmark(old(entries), id)
      ensures SameTies(entries, WithoutBookmark(old(entries), id))
    {
      entries := WithoutBookmark(entries, id);
      if SortedByRecency(old(entries)) {
        SubsequenceKeepsRecencyOrder(entries, old(entries));
      }
      Sort();
    }
  }

  /** The position of the first entry of bookmark `id`, or the length when there is none. */
  function FirstEntryOf(entries: seq<Entry>, id: string): (r: nat)
    ensures r <= |entries|
    ensures r < |entries| ==> entries[r].bookmark.id == id
    ensures forall k :: 0 <= k < r ==> entries[k].bookmark.id != id
  {
    if entries == [] then 0
    else if entries[0].bookmark.id == id then 0
    else 1 + FirstEntryOf(entries[1..], id)
  }

  /** `bookmark.dateLastUsed = clickedTime` on one entry's bookmark. */
  function WithLastUsed(e: Entry, time: int): (r: Entry)
    ensures r.folder == e.folder && r.bookmark.id == e.bookmark.id
    ensures e.bookmark.Leaf? && time != 0 ==> Recency(r) == time
  {
    match e.bookmark
    case Leaf(id, title, url, parentId, added, _) => Entry(Leaf(id, title, url, parentId, added, time), e.folder)
    case Folder(_, _, _) => e
  }

  /**
   * The list after a click on bookmark `id`: the same bookmarks in the same
   * places, only the first entry of `id` changed, and that one now as
   * recent as the click.
   */
  function MarkUsedEntries(entries: seq<Entry>, id: string, time: int): (r: seq<Entry>)
    ensures |r| == |entries|
    ensures forall k :: 0 <= k < |r| ==> r[k].bookmark.id == entries[k].bookmark.id && r[k].folder == entries[k].folder
    ensures forall k :: 0 <= k < |r| && k != FirstEntryOf(entries, id) ==> r[k] == entries[k]
    ensures FirstEntryOf(entries, id) == |entries| ==> r == entries
    ensures var j := FirstEntryOf(entries, id);
      j < |r| && entries[j].bookmark.Leaf? && time != 0 ==> Recency(r[j]) == time
  {
    var j := FirstEntryOf(entries, id);
    if j < |entries| then entries[j := WithLastUsed(entries[j], time)] else entries
  }

  /**
   * A click on a bookmark below the first one, later than the first one's
   * recency, leaves the list out of order; a delete is then the first
   * thing to re-sort it.
   */
  lemma ClickCanBreakOrder(entries: seq<Entry>, id: string, time: int)
    requires 0 < FirstEntryOf(entries, id) < |entries|
    requires entries[FirstEntryOf(entries, id)].bookmark.Leaf?
    requires time != 0 && time > Recency(entries[0])
    ensures !SortedByRecency(MarkUsedEntries(entries, id, time))
  {
    var r := MarkUsedEntries(entries, id, time);
    var j := FirstEntryOf(entries, id);
    assert r[0] == entries[0] && Recency(r[j]) == time;
  }

  lemma {:induction false} CollectChildrenSnoc(children: seq<Node>, folderName: string, i: nat)
    requires i < |children|
    ensures CollectChildren(children[..i + 1], folderName) == CollectChildren(children[..i], folderName) + CollectBookmarks(children[i], folderName)
    decreases i
  {
    if i == 0 {
      assert children[..1][1..] == [];
    } else {
      assert children[..i + 1][1..] == children[1..][..i];
      assert children[..i][1..] == children[1..][..i - 1];
      CollectChildrenSnoc(children[1..], folderName, i - 1);
    }
  }

  // ------------------------------------------------------------ search and the grid view

  /**
   * This page's containsSearchTerm: false for a missing or empty text or
   * term; otherwise the term is lower-cased and every piece of it split at
   * single spaces must occur in the lower-cased text.
   */
  predicate ContainsSearchTermGuarded(text: string, term: string) {
    text != "" && term != "" && ContainsSearchTerm(text, Lower(term))
  }

  /** Unlike the module's version, an empty term matches nothing and the term's case does not matter. */
  lemma GuardedSearchFacts(text: string, term: string)
    ensures !ContainsSearchTermGuarded(text, "") && !ContainsSearchTermGuarded("", term)
    ensures ContainsSearchTermGuarded(text, term) <==> ContainsSearchTermGuarded(text, Lower(term))
    ensures text != "" && term != "" && Lower(term) == term ==>
      (ContainsSearchTermGuarded(text, term) <==> ContainsSearchTerm(text, term))
  {
    LowerIdempotent(term);
  }

  /** An upper-case term: the page's version finds "A" in "a", the module's does not. */
  lemma GuardedIgnoresCaseModuleDoesNot()
    ensures ContainsSearchTermGuarded("a", "A")
    ensures !ContainsSearchTerm("a", "A")
  {
    assert Lower("A") == "a" && Lower("a") == "a";
    SingleWord("a", "a");
    SingleWord("a", "A");
    assert IsPrefix("a", "a");
    assert !IsPrefix("A", "a");
    assert !Contains("", "A");
  }

  function UrlOf(n: Node): string {
    if n.Leaf? then n.url else ""
  }

  /** `bookmark.parentId` as a JavaScript value: missing is `undefined`. */
  function ParentIdOf(n: Node): JsVal {
    if n.Leaf? && n.parentId != "" then Str(n.parentId) else Undefined
  }

  /**
   * The grid view's filter: an empty term or a title or url match, and under
   * an active folder filter also `parentId == FILTER_ID` (loose equality).
   */
  predicate GridMatches(e: Entry, term: string, filterId: JsVal) {
    (term == "" || ContainsSearchTermGuarded(e.bookmark.title, term) || ContainsSearchTermGuarded(UrlOf(e.bookmark), term))
    && (IsActiveFilter(filterId) ==> LooseEquals(ParentIdOf(e.bookmark), filterId))
  }

  /** The grid view's list: the matching entries, in the order of the sorted list. */
  function GridViewEntries(sorted: seq<Entry>, term: string, filterId: JsVal): (r: seq<Entry>)
    ensures IsSubsequence(r, sorted)
    ensures forall e :: e in r <==> e in sorted && GridMatches(e, term, filterId)
  {
    if sorted == [] then []
    else
      var rest := GridViewEntries(sorted[1..], term, filterId);
      assert sorted == [sorted[0]] + sorted[1..];
      if GridMatches(sorted[0], term, filterId) then
        assert ([sorted[0]] + rest)[1..] == rest;
        [sorted[0]] + rest
      else
        SubsequenceOfTail(rest, sorted);
        rest
  }

  /** With no term and no folder filter the grid shows the whole list. */
  lemma {:induction false} GridShowsAllUnfiltered(sorted: seq<Entry>, filterId: JsVal)
    requires !IsActiveFilter(filterId)
    ensures GridViewEntries(sorted, "", filterId) == sorted
  {
    if sorted != [] {
      GridShowsAllUnfiltered(sorted[1..], filterId);
      assert sorted == [sorted[0]] + sorted[1..];
    }
  }

  /** The grid keeps the recency order. */
  lemma GridIsRecencyOrdered(sorted: seq<Entry>, term: string, filterId: JsVal)
    requires SortedByRecency(sorted)
    ensures SortedByRecency(GridViewEntries(sorted, term, filterId))
  {
    SubsequenceKeepsRecencyOrder(GridViewEntries(sorted, term, filterId), sorted);
  }

  // ------------------------------------------------------------ batched rendering

  const BatchSize: nat := 100

  function Min(a: int, b: int): int {
    if a < b then a else b
  }

  /**
   * The scroll-driven loader of one grid: `currentBatch` and the indices
   * appended so far. loadBatch runs to completion before any other handler,
   * so its `isLoading` flag is always false between calls and is left out.
   */
  class GridPager {
    const total: nat
    var currentBatch: nat
    var rendered: seq<nat>

    /** Exactly the first `min(currentBatch * 100, total)` items are on the page, each once. */
    ghost predicate Valid()
      reads this
    {
      |rendered| == Min(currentBatch * BatchSize, total)
      && forall i :: 0 <= i < |rendered| ==> rendered[i] == i
    }

    constructor(total: nat)
      ensures Valid() && this.total == total && currentBatch == 0 && rendered == []
    {
      this.total := total;
      currentBatch := 0;
      rendered := [];
    }

    /** loadBatch: appends the items `[k*100, min(k*100 + 100, total))` and moves to batch k+1. */
    method LoadBatch()
      requires Valid()
      modifies this
      ensures Valid() && currentBatch == old(currentBatch) + 1
      ensures |rendered| >= |old(rendered)| && rendered[..|old(rendered)|] == old(rendered)
      ensures |rendered| == Min(|old(rendered)| + BatchSize, total)
    {
      var start := currentBatch * BatchSize;
      var end := Min(start + BatchSize, total);
      var i := start;
      while i < end
        invariant currentBatch == old(currentBatch)
        invariant start <= i && (i <= end || i == start)
        invariant |rendered| == Min(start, total) + (i - start)
        invariant rendered[..|old(rendered)|] == old(rendered)
        invariant forall j :: 0 <= j < |rendered| ==> rendered[j] == j
        invariant i < end ==> |rendered| == i
      {
        rendered := rendered + [i];
        i := i + 1;
      }
      NextBatch(currentBatch);
      currentBatch := currentBatch + 1;
    }

    /** The scroll handler: near the bottom and with items left, loads the next batch. */
    method OnScroll(nearBottom: bool)
      requires Valid()
      modifies this
      ensures Valid()
      ensures nearBottom && old(currentBatch) * BatchSize < total ==> currentBatch == old(currentBatch) + 1
      ensures !(nearBottom && old(currentBatch) * BatchSize < total) ==> rendered == old(rendered) && currentBatch == old(currentBatch)
    {
      if nearBottom {
        var totalLoaded := currentBatch * BatchSize;
        if totalLoaded < total {
          LoadBatch();
        }
      }
    }
  }

  lemma NextBatch(k: nat)
    ensures (k + 1) * BatchSize == k * BatchSize + BatchSize
  {
  }

  /** Once the loaded count reaches the list length everything is shown, and nothing twice. */
  lemma RenderedOnce(rendered: seq<nat>, total: nat, batches: nat)
    requires |rendered| == Min(batches * BatchSize, total)
    requires forall i :: 0 <= i < |rendered| ==> rendered[i] == i
    ensures forall i, j :: 0 <= i < j < |rendered| ==> rendered[i] != rendered[j]
    ensures forall i :: 0 <= i < |rendered| ==> rendered[i] < total
    ensures batches * BatchSize >= total ==> forall x :: 0 <= x < total ==> x in rendered
  {
    if batches * BatchSize >= total {
      forall x | 0 <= x < total ensures x in rendered {
        assert rendered[x] == x;
      }
    }
  }

  /**
   * showGridView: sorts the list, filters it, titles it and renders the
   * first batch if there is anything to show; scrolling is set up only
   * when there is more than one batch.
   */
  method ShowGridView(list: BookmarkList, term: string, filterId: JsVal, options: seq<FilterOption>)
    returns (shown: seq<Entry>, title: string, pager: GridPager, scrolls: bool)
    modifies list
    ensures SortedByRecency(list.entries) && multiset(list.entries) == old(multiset(list.entries))
    ensures SameTies(list.entries, old(list.entries))
    ensures SortedByRecency(old(list.entries)) ==> list.entries == old(list.entries)
    ensures shown == GridViewEntries(list.entries, term, filterId)
    ensures title == MainTitle(term, filterId, |shown|, true, options)
    ensures fresh(pager) && pager.Valid() && pager.total == |shown|
    ensures pager.rendered == (if |shown| > 0 then RangeFrom(0, Min(BatchSize, |shown|)) else [])
    ensures scrolls <==> |shown| > BatchSize
  {
    list.Sort();
    shown := GridViewEntries(list.entries, term, filterId);
    title := MainTitle(term, filterId, |shown|, true, options);
    pager := new GridPager(|shown|);
    if |shown| > 0 {
      pager.LoadBatch();
      assert pager.currentBatch == 1;
      forall i | 0 <= i < |pager.rendered| ensures pager.rendered[i] == RangeFrom(0, Min(BatchSize, |shown|))[i] {
      }
    }
    scrolls := |shown| > BatchSize;
  }

  /** `[lo, hi)` as a list. */
  function RangeFrom(lo: nat, hi: nat): (r: seq<nat>)
    ensures |r| == if hi >= lo then hi - lo else 0
    ensures forall i :: 0 <= i < |r| ==> r[i] == lo + i
    decreases hi - lo
  {
    if lo >= hi then [] else [lo] + RangeFrom(lo + 1, hi)
  }

  // ------------------------------------------------------------ the tree cache

  const CacheTtl: int := 5000

  /** The cached tree is served while it is present and younger than 5 seconds. */
  predicate CacheHit(data: Option<seq<Node>>, timestamp: int, now: int) {
    data.Some? && now - timestamp < CacheTtl
  }

  /** A hit never outlives the TTL, and a cleared cache never hits. */
  lemma CacheHitFacts(data: Option<seq<Node>>, timestamp: int, now: int)
    ensures CacheHit(data, timestamp, now) ==> now < timestamp + CacheTtl
    ensures !CacheHit(None, 0, now)
    ensures data.Some? && timestamp <= now < timestamp + CacheTtl ==> CacheHit(data, timestamp, now)
  {
  }

  /** `bookmarkCache`. */
  class BookmarkCache {
    var data: Option<seq<Node>>
    var timestamp: int

    constructor()
      ensures data == None && timestamp == 0
    {
      data := None;
      timestamp := 0;
    }

    /**
     * getCachedBookmarks at time `now`; `fetched` is what chrome.bookmarks.getTree
     * would deliver. A miss stores it with the time of the call.
     */
    method Get(now: int, fetched: seq<Node>) returns (r: seq<Node>)
      modifies this
      ensures CacheHit(old(data), old(timestamp), now) ==> r == old(data).value && data == old(data) && timestamp == old(timestamp)
      ensures !CacheHit(old(data), old(timestamp), now) ==> r == fetched && data == Some(fetched) && timestamp == now
    {
      if data.Some? && now - timestamp < CacheTtl {
        return data.value;
      }
      data := Some(fetched);
      timestamp := now;
      r := fetched;
    }

    /** The reset in refreshCurrentView. */
    method Clear()
      modifies this
      ensures data == None && timestamp == 0
    {
      data := None;
      timestamp := 0;
    }
  }

  /** refreshCurrentView clears the cache first, so the tree is always fetched again. */
  method Refresh(cache: BookmarkCache, now: int, fetched: seq<Node>) returns (r: seq<Node>)
    modifies cache
    ensures r == fetched && cache.data == Some(fetched) && cache.timestamp == now
  {
    cache.Clear();
    r := cache.Get(now, fetched);
  }

  // ------------------------------------------------------------ title

  /** This page's getDynamicTitle: as the module's, except a plain grid view says "Recent Bookmarks". */
  function MainTitle(term: string, filterId: JsVal, count: nat, gridView: bool, options: seq<FilterOption>): string {
    if !HasSearch(term) && !IsActiveFilter(filterId) && gridView then "Recent Bookmarks" + Count(count)
    else GetDynamicTitle(term, filterId, count, options)
  }

  /** Without search and filter: `Recent Bookmarks (n)` in the grid, `Bookmarks (n)` otherwise; else the module's title. */
  lemma MainTitleCases(term: string, filterId: JsVal, count: nat, gridView: bool, options: seq<FilterOption>)
    ensures !HasSearch(term) && !IsActiveFilter(filterId) ==>
      MainTitle(term, filterId, count, gridView, options) ==
        (if gridView then "Recent Bookmarks (" else "Bookmarks (") + NatToString(count) + ")"
    ensures HasSearch(term) || IsActiveFilter(filterId) ==>
      MainTitle(term, filterId, count, gridView, options) == GetDynamicTitle(term, filterId, count, options)
  {
    if !HasSearch(term) && !IsActiveFilter(filterId) {
      if gridView {
        assert "Recent Bookmarks" + Count(count) == "Recent Bookmarks (" + NatToString(count) + ")";
      } else {
        TitleShowsCount(term, filterId, count, options);
      }
    }
  }

  // ------------------------------------------------------------ filter options with unknown folders

  /** The entry added for a bookmark whose parent folder has no option. */
  function UnknownOption(parentId: string): FilterOption {
    FilterOption("Unknown Folder (" + parentId + ")", Str(parentId), Num(0), Str("unknown-" + parentId))
  }

  predicate IsUnknownOption(o: FilterOption) {
    o.id.Str? && IsPrefix("unknown-", o.id.s)
  }

  /** `options.find(opt => opt.value === v)` finds something. */
  predicate HasValue(options: seq<FilterOption>, v: JsVal) {
    exists i :: 0 <= i < |options| && options[i].value == v
  }

  /** This page's populateFilterOptions(nodes, level, path), pushing onto `acc`. */
  function MainOptions(acc: seq<FilterOption>, nodes: seq<Node>, level: nat, path: string): (r: seq<FilterOption>)
    ensures |acc| <= |r| && r[..|acc|] == acc
    decreases nodes, 0
  {
    if nodes == [] then acc
    else MainOptions(MainNodeOptions(acc, nodes[0], level, path), nodes[1..], level, path)
  }

  /** One node of the forEach: a titled folder's option and its sub-folders', or a leaf's unknown parent. */
  function MainNodeOptions(acc: seq<FilterOption>, node: Node, level: nat, path: string): (r: seq<FilterOption>)
    ensures |acc| <= |r| && r[..|acc|] == acc
    decreases node, 1
  {
    match node
    case Folder(id, title, children) =>
      var own := if title != "" then [OptionFor(node, level, path)] else [];
      var r := MainOptions(acc + own, children, level + 1, path + "-" + id);
      assert r[..|acc|] == r[..|acc + own|][..|acc|];
      r
    case Leaf(_, _, _, parentId, _, _) =>
      if parentId != "" && !HasValue(acc, Str(parentId)) then acc + [UnknownOption(parentId)] else acc
  }

  lemma {:induction false} MainOptionsConcat(acc: seq<FilterOption>, a: seq<Node>, b: seq<Node>, level: nat, path: string)
    ensures MainOptions(acc, a + b, level, path) == MainOptions(MainOptions(acc, a, level, path), b, level, path)
    decreases a
  {
    if a != [] {
      assert (a + b)[0] == a[0] && (a + b)[1..] == a[1..] + b;
      MainOptionsConcat(MainNodeOptions(acc, a[0], level, path), a[1..], b, level, path);
    } else {
      assert a + b == b;
    }
  }

  /** Taking one more node of the list runs the forEach body once more. */
  lemma MainOptionsStep(acc: seq<FilterOption>, nodes: seq<Node>, i: nat, level: nat, path: string)
    requires i < |nodes|
    ensures MainOptions(acc, nodes[..i + 1], level, path)
      == MainNodeOptions(MainOptions(acc, nodes[..i], level, path), nodes[i], level, path)
  {
    var m := MainOptions(acc, nodes[..i], level, path);
    MainOptionsConcat(acc, nodes[..i], [nodes[i]], level, path);
    assert nodes[..i + 1] == nodes[..i] + [nodes[i]];
    assert MainOptions(m, [nodes[i]], level, path) == MainNodeOptions(m, nodes[i], level, path) by {
      assert [nodes[i]][1..] == [];
    }
  }

  lemma MainNodeTitled(acc: seq<FilterOption>, node: Node, level: nat, path: string)
    requires node.Folder? && node.title != ""
    ensures MainNodeOptions(acc, node, level, path)
      == MainOptions(acc + [OptionFor(node, level, path)], node.children, level + 1, path + "-" + node.id)
  {
  }

  lemma MainNodeUntitled(acc: seq<FilterOption>, node: Node, level: nat, path: string)
    requires node.Folder? && node.title == ""
    ensures MainNodeOptions(acc, node, level, path) == MainOptions(acc, node.children, level + 1, path + "-" + node.id)
  {
    assert acc + [] == acc;
  }

  /** No "Unknown Folder" entry repeats the value of an entry before it. */
  ghost predicate UnknownsAreNew(options: seq<FilterOption>) {
    forall i, j :: 0 <= i < j < |options| && IsUnknownOption(options[j]) ==> options[i].value != options[j].value
  }

  /** The unknown-folder entries are never duplicated. */
  lemma {:induction false} MainOptionsUnknownsAreNew(acc: seq<FilterOption>, nodes: seq<Node>, level: nat, path: string)
    requires UnknownsAreNew(acc) && IsDashPath(path)
    ensures UnknownsAreNew(MainOptions(acc, nodes, level, path))
    decreases nodes, 0
  {
    if nodes != [] {
      MainNodeUnknownsAreNew(acc, nodes[0], level, path);
      MainOptionsUnknownsAreNew(MainNodeOptions(acc, nodes[0], level, path), nodes[1..], level, path);
    }
  }

  lemma {:induction false} MainNodeUnknownsAreNew(acc: seq<FilterOption>, node: Node, level: nat, path: string)
    requires UnknownsAreNew(acc) && IsDashPath(path)
    ensures UnknownsAreNew(MainNodeOptions(acc, node, level, path))
    decreases node, 1
  {
    match node
    case Folder(id, title, children) =>
      var own := if title != "" then [OptionFor(node, level, path)] else [];
      assert (path + "-" + id + "-")[0] == '-';
      assert UnknownsAreNew(acc + own) by {
        forall i, j | 0 <= i < j < |acc + own| && IsUnknownOption((acc + own)[j])
          ensures (acc + own)[i].value != (acc + own)[j].value
        {
          if j >= |acc| {
            assert false;
          }
        }
      }
      MainOptionsUnknownsAreNew(acc + own, children, level + 1, path + "-" + id);
    case Leaf(_, _, _, parentId, _, _) =>
  }

  /** After the traversal every bookmark with a parent id finds an option with that value. */
  lemma {:induction false} EveryParentHasOption(acc: seq<FilterOption>, nodes: seq<Node>, level: nat, path: string)
    ensures forall n :: n in PreorderAll(nodes) && n.Leaf? && n.parentId != "" ==>
      HasValue(MainOptions(acc, nodes, level, path), Str(n.parentId))
    decreases nodes, 0
  {
    if nodes != [] {
      var m := MainNodeOptions(acc, nodes[0], level, path);
      var r := MainOptions(acc, nodes, level, path);
      NodeParentHasOption(acc, nodes[0], level, path);
      EveryParentHasOption(m, nodes[1..], level, path);
      assert PreorderAll(nodes) == Preorder(nodes[0]) + PreorderAll(nodes[1..]);
      forall n | n in Preorder(nodes[0]) && n.Leaf? && n.parentId != "" ensures HasValue(r, Str(n.parentId)) {
        var i :| 0 <= i < |m| && m[i].value == Str(n.parentId);
        assert r[i] == r[..|m|][i];
      }
    }
  }

  lemma {:induction false} NodeParentHasOption(acc: seq<FilterOption>, node: Node, level: nat, path: string)
    ensures forall n :: n in Preorder(node) && n.Leaf? && n.parentId != "" ==>
      HasValue(MainNodeOptions(acc, node, level, path), Str(n.parentId))
    decreases node, 1
  {
    match node
    case Folder(id, title, children) =>
      var own := if title != "" then [OptionFor(node, level, path)] else [];
      EveryParentHasOption(acc + own, children, level + 1, path + "-" + id);
      assert Preorder(node) == [node] + PreorderAll(children);
    case Leaf(_, _, _, parentId, _, _) =>
      assert Preorder(node) == [node];
      var r := MainNodeOptions(acc, node, level, path);
      if parentId != "" && !HasValue(acc, Str(parentId)) {
        assert r[|acc|].value == Str(parentId);
      } else if parentId != "" {
        var i :| 0 <= i < |acc| && acc[i].value == Str(parentId);
        assert r[i] == acc[i];
      }
  }

  /** A path built from "" by appending `-id` never starts like an unknown-folder id. */
  predicate IsDashPath(path: string) {
    path == "" || path[0] == '-'
  }

  predicate IsFolderOption(o: FilterOption) {
    !IsUnknownOption(o)
  }

  /**
   * Apart from the "Unknown Folder" entries, this page's list holds exactly
   * the options of the module's populateFilterOptions, in the same order.
   */
  lemma {:induction false} FolderEntriesAsModule(acc: seq<FilterOption>, nodes: seq<Node>, level: nat, path: string)
    requires IsDashPath(path)
    ensures Keep(MainOptions(acc, nodes, level, path)[|acc|..], IsFolderOption) == PopulateFilterOptions(nodes, level, path)
    decreases nodes, 0
  {
    var r := MainOptions(acc, nodes, level, path);
    if nodes == [] {
      assert r[|acc|..] == [];
    } else {
      var m := MainNodeOptions(acc, nodes[0], level, path);
      assert r == MainOptions(m, nodes[1..], level, path);
      FolderEntriesAsModuleNode(acc, nodes[0], level, path);
      FolderEntriesAsModule(m, nodes[1..], level, path);
      SliceSplit(r, m, |acc|);
      KeepConcat(m[|acc|..], r[|m|..], IsFolderOption);
    }
  }

  /** A slice of `r` from inside its prefix `m` is the rest of `m` followed by the rest of `r`. */
  lemma SliceSplit<T>(r: seq<T>, m: seq<T>, k: nat)
    requires k <= |m| <= |r| && r[..|m|] == m
    ensures r[k..] == m[k..] + r[|m|..]
  {
    calc {
      r[k..];
      r[k..|m|] + r[|m|..];
      { assert r[k..|m|] == m[k..]; }
      m[k..] + r[|m|..];
    }
  }

  lemma {:induction false} FolderEntriesAsModuleNode(acc: seq<FilterOption>, node: Node, level: nat, path: string)
    requires IsDashPath(path)
    ensures Keep(MainNodeOptions(acc, node, level, path)[|acc|..], IsFolderOption) == FolderOptions(node, level, path)
    decreases node, 1
  {
    if node.Folder? {
      FolderEntriesAsModuleFolder(acc, node, level, path);
    } else {
      UnknownEntryIsNoFolder(acc, node, level, path);
    }
  }

  lemma {:induction false} FolderEntriesAsModuleFolder(acc: seq<FilterOption>, node: Node, level: nat, path: string)
    requires IsDashPath(path) && node.Folder?
    ensures Keep(MainNodeOptions(acc, node, level, path)[|acc|..], IsFolderOption) == FolderOptions(node, level, path)
    decreases node, 0
  {
    var r := MainNodeOptions(acc, node, level, path);
    var own := if node.title != "" then [OptionFor(node, level, path)] else [];
    var path' := path + "-" + node.id;
    assert path'[0] == '-';
    FolderEntriesAsModule(acc + own, node.children, level + 1, path');
    assert r == MainOptions(acc + own, node.children, level + 1, path');
    SliceSplit(r, acc + own, |acc|);
    assert (acc + own)[|acc|..] == own;
    KeepConcat(own, r[|acc + own|..], IsFolderOption);
    if node.title != "" {
      FolderOptionKept(node, level, path);
    } else {
      assert own == [];
    }
  }

  /** A folder's own option is never taken for an "Unknown Folder" entry. */
  lemma FolderOptionKept(node: Node, level: nat, path: string)
    requires IsDashPath(path) && node.Folder?
    ensures Keep([OptionFor(node, level, path)], IsFolderOption) == [OptionFor(node, level, path)]
  {
    assert (path + "-" + node.id + "-")[0] == '-';
    assert !IsUnknownOption(OptionFor(node, level, path));
    assert [OptionFor(node, level, path)][1..] == [];
  }

  lemma UnknownEntryIsNoFolder(acc: seq<FilterOption>, node: Node, level: nat, path: string)
    requires node.Leaf?
    ensures Keep(MainNodeOptions(acc, node, level, path)[|acc|..], IsFolderOption) == []
  {
    var r := MainNodeOptions(acc, node, level, path);
    if node.parentId != "" && !HasValue(acc, Str(node.parentId)) {
      assert r[|acc|..] == [UnknownOption(node.parentId)];
      assert IsPrefix("unknown-", "unknown-" + node.parentId);
      assert Keep([UnknownOption(node.parentId)], IsFolderOption) == [] by {
        assert [UnknownOption(node.parentId)][1..] == [];
      }
    } else {
      assert r[|acc|..] == [];
    }
  }

  /** `filterOptions`, seeded with "All" and filled by populateFilterOptions. */
  class MainFilterList {
    var options: seq<FilterOption>

    constructor()
      ensures options == [AllOption]
    {
      options := [AllOption];
    }

    /** populateFilterOptions(nodes, level, path). */
    method Populate(nodes: seq<Node>, level: nat, path: string)
      modifies this
      ensures options == MainOptions(old(options), nodes, level, path)
      decreases nodes, 0
    {
      var i := 0;
      while i < |nodes|
        invariant 0 <= i <= |nodes|
        invariant options == MainOptions(old(options), nodes[..i], level, path)
      {
        var node := nodes[i];
        MainOptionsStep(old(options), nodes, i, level, path);
        if node.Folder? {
          if node.title != "" {
            MainNodeTitled(options, node, level, path);
            options := options + [OptionFor(node, level, path)];
            PopulateFolder(node.children, level + 1, path + "-" + node.id, node);
          } else {
            MainNodeUntitled(options, node, level, path);
            PopulateFolder(node.children, level + 1, path + "-" + node.id, node);
          }
        } else if node.parentId != "" && !HasValue(options, Str(node.parentId)) {
          options := options + [UnknownOption(node.parentId)];
        }
        i := i + 1;
      }
      assert nodes[..|nodes|] == nodes;
    }

    /** The recursive call on a folder's children (`parent` only carries the termination measure). */
    method PopulateFolder(children: seq<Node>, level: nat, path: string, ghost parent: Node)
      requires parent.Folder? && children == parent.children
      modifies this
      ensures options == MainOptions(old(options), children, level, path)
      decreases parent, 2
    {
      Populate(children, level, path);
    }
  }

  // ------------------------------------------------------------ folder lookup

  /** The index of the first node of a list whose id strictly equals `id`. */
  function FirstWithId(nodes: seq<Node>, id: JsVal): (r: Option<nat>)
    ensures r.Some? ==> r.value < |nodes| && Str(nodes[r.value].id) == id
    ensures r.Some? ==> forall j :: 0 <= j < r.value ==> Str(nodes[j].id) != id
    ensures r.None? ==> forall n :: n in nodes ==> Str(n.id) != id
  {
    if nodes == [] then None
    else if Str(nodes[0].id) == id then Some(0)
    else
      match FirstWithId(nodes[1..], id)
      case Some(k) => Some(k + 1)
      case None => None
  }

  function NodeAt(nodes: seq<Node>, i: Option<nat>): Option<Node> {
    if i.Some? && i.value < |nodes| then Some(nodes[i.value]) else None
  }

  /** findFolderById: depth-first, the node itself before its children. */
  function FindFolderById(node: Node, id: JsVal): Option<Node>
    decreases node, 1
  {
    if Str(node.id) == id then Some(node)
    else if node.Folder? then FindInChildren(node.children, id)
    else None
  }

  function FindInChildren(children: seq<Node>, id: JsVal): Option<Node>
    decreases children, 0
  {
    if children == [] then None
    else
      var found := FindFolderById(children[0], id);
      if found.Some? then found else FindInChildren(children[1..], id)
  }

  /** The lookup returns the first node in pre-order with that id, or null. */
  lemma {:induction false} FindFolderIsFirstInPreorder(node: Node, id: JsVal)
    ensures FindFolderById(node, id) == NodeAt(Preorder(node), FirstWithId(Preorder(node), id))
    decreases node, 1
  {
    var p := Preorder(node);
    if Str(node.id) != id {
      FirstWithIdSkipsHead(p, id);
      if node.Folder? {
        assert p[1..] == PreorderAll(node.children);
        FindInChildrenIsFirst(node.children, id);
      } else {
        assert p[1..] == [];
      }
    }
  }

  /** A head without the id is passed over. */
  lemma FirstWithIdSkipsHead(nodes: seq<Node>, id: JsVal)
    requires nodes != [] && Str(nodes[0].id) != id
    ensures NodeAt(nodes, FirstWithId(nodes, id)) == NodeAt(nodes[1..], FirstWithId(nodes[1..], id))
    ensures FirstWithId(nodes, id).Some? <==> FirstWithId(nodes[1..], id).Some?
  {
  }

  lemma {:induction false} FindInChildrenIsFirst(children: seq<Node>, id: JsVal)
    ensures FindInChildren(children, id) == NodeAt(PreorderAll(children), FirstWithId(PreorderAll(children), id))
    decreases children, 0
  {
    if children != [] {
      FindFolderIsFirstInPreorder(children[0], id);
      FindInChildrenIsFirst(children[1..], id);
      assert PreorderAll(children) == Preorder(children[0]) + PreorderAll(children[1..]);
      FirstWithIdConcat(Preorder(children[0]), PreorderAll(children[1..]), id);
    }
  }

  lemma {:induction false} FirstWithIdConcat(a: seq<Node>, b: seq<Node>, id: JsVal)
    ensures NodeAt(a + b, FirstWithId(a + b, id)) ==
      if FirstWithId(a, id).Some? then NodeAt(a, FirstWithId(a, id)) else NodeAt(b, FirstWithId(b, id))
    decreases a
  {
    if a == [] {
      assert a + b == b;
    } else if Str(a[0].id) != id {
      assert (a + b)[0] == a[0] && (a + b)[1..] == a[1..] + b;
      FirstWithIdSkipsHead(a + b, id);
      FirstWithIdSkipsHead(a, id);
      FirstWithIdConcat(a[1..], b, id);
    } else {
      assert (a + b)[0] == a[0];
    }
  }
}
