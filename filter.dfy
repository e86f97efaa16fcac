/**
 * The folder-filter option lists (src/modules/filter.js): the indented,
 * path-encoded list built by populateFilterOptions, the flatter list of the
 * filter drop-down, and when the clear-filter button shows.
 */
module Filter {
  import opened Js
  import opened Model

  // ------------------------------------------------------------ populateFilterOptions

  /** The label indent of a level: none at 0, otherwise `level - 1` dashes and a space. */
  function Indent(level: nat): string {
    if level > 0 then Repeat('-', level - 1) + " " else ""
  }

  /** The option pushed for a titled folder at `level` below the ancestor path `path`. */
  function OptionFor(folder: Node, level: nat, path: string): FilterOption {
    FilterOption(Indent(level) + folder.title, Str(folder.id), Num(level), Str(path + "-" + folder.id + "-"))
  }

  /** populateFilterOptions(nodes, level, path). */
  function PopulateFilterOptions(nodes: seq<Node>, level: nat, path: string): seq<FilterOption>
    decreases nodes, 0
  {
    if nodes == [] then []
    else FolderOptions(nodes[0], level, path) + PopulateFilterOptions(nodes[1..], level, path)
  }

  /** What one node of the forEach contributes: its own option if titled, then its sub-folders'. */
  function FolderOptions(node: Node, level: nat, path: string): seq<FilterOption>
    decreases node, 1
  {
    if node.Folder? then
      (if node.title != "" then [OptionFor(node, level, path)] else [])
      + PopulateFilterOptions(node.children, level + 1, path + "-" + node.id)
    else []
  }

  predicate IsTitledFolder(n: Node) { n.Folder? && n.title != "" }

  /** A node of the tree with the folders that enclose it, outermost first. */
  datatype Placed = Placed(node: Node, ancestors: seq<Node>)

  /** Every node of `nodes` and below in pre-order, each with its enclosing folders after `above`. */
  function PlacedAll(nodes: seq<Node>, above: seq<Node>): seq<Placed>
    decreases nodes, 0
  {
    if nodes == [] then [] else PlacedNode(nodes[0], above) + PlacedAll(nodes[1..], above)
  }

  function PlacedNode(node: Node, above: seq<Node>): seq<Placed>
    decreases node, 1
  {
    [Placed(node, above)] + (if node.Folder? then PlacedAll(node.children, above + [node]) else [])
  }

  /** `path` followed by `-<id>` for each folder of `folders`, outermost first. */
  function PathThrough(path: string, folders: seq<Node>): string {
    if folders == [] then path
    else PathThrough(path, folders[..|folders| - 1]) + "-" + folders[|folders| - 1].id
  }

  predicate IsTitledPlaced(p: Placed) { IsTitledFolder(p.node) }

  /** The nodes of a placed list, in order. */
  function NodesOf(k: seq<Placed>): (r: seq<Node>)
    ensures |r| == |k| && forall i :: 0 <= i < |k| ==> r[i] == k[i].node
  {
    if k == [] then [] else [k[0].node] + NodesOf(k[1..])
  }

  /**
   * The option of a folder with `d` enclosing folders: level `level + d`,
   * the label of that level followed by its title, its id as value, and as
   * option id the path through every enclosing folder, titled or not, then
   * `-<id>-`.
   */
  function PlacedOption(q: Placed, level: nat, path: string): (o: FilterOption)
    ensures o.value == Str(q.node.id) && o.level == Num(level + |q.ancestors|)
    ensures o.text == Indent(level + |q.ancestors|) + q.node.title
    ensures o.id == Str(PathThrough(path, q.ancestors) + "-" + q.node.id + "-")
  {
    OptionFor(q.node, level + |q.ancestors|, PathThrough(path, q.ancestors))
  }

  /** The options describe the placed folders `k` one for one, as `PlacedOption`. */
  ghost predicate Describes(r: seq<FilterOption>, k: seq<Placed>, level: nat, path: string) {
    |r| == |k| && forall i :: 0 <= i < |r| ==> r[i] == PlacedOption(k[i], level, path)
  }

  lemma DescribesConcat(a: seq<FilterOption>, ka: seq<Placed>, b: seq<FilterOption>, kb: seq<Placed>, level: nat, path: string)
    requires Describes(a, ka, level, path) && Describes(b, kb, level, path)
    ensures Describes(a + b, ka + kb, level, path)
  {
    var r, k := a + b, ka + kb;
    forall i | 0 <= i < |r| ensures r[i] == PlacedOption(k[i], level, path) {
      if i < |a| {
        assert r[i] == a[i] && k[i] == ka[i];
      } else {
        assert r[i] == b[i - |a|] && k[i] == kb[i - |a|];
      }
    }
  }

  lemma PrefixTransitive(a: string, b: string, c: string)
    requires IsPrefix(a, b) && IsPrefix(b, c)
    ensures IsPrefix(a, c)
  {
    assert c[..|a|] == c[..|b|][..|a|];
  }

  /**
   * populateFilterOptions emits one option per titled folder, in pre-order
   * (a parent before its descendants), and nothing for bookmarks. Each
   * option's level is the start level plus the folder's depth, and its id
   * the path through all its enclosing folders, as in `Describes`.
   */
  lemma OptionsPerTitledFolder(nodes: seq<Node>, level: nat, path: string)
    ensures Describes(PopulateFilterOptions(nodes, level, path), Keep(PlacedAll(nodes, []), IsTitledPlaced), level, path)
  {
    OptionsPlaced(nodes, [], level, path);
  }

  /** The same below the enclosing folders `above`, whose level and path the call has already added. */
  lemma {:induction false} OptionsPlaced(nodes: seq<Node>, above: seq<Node>, level: nat, path: string)
    ensures Describes(PopulateFilterOptions(nodes, level + |above|, PathThrough(path, above)),
      Keep(PlacedAll(nodes, above), IsTitledPlaced), level, path)
    decreases nodes, 0
  {
    if nodes != [] {
      var l, p := level + |above|, PathThrough(path, above);
      FolderOptionsPlaced(nodes[0], above, level, path);
      OptionsPlaced(nodes[1..], above, level, path);
      KeepConcat(PlacedNode(nodes[0], above), PlacedAll(nodes[1..], above), IsTitledPlaced);
      DescribesConcat(FolderOptions(nodes[0], l, p), Keep(PlacedNode(nodes[0], above), IsTitledPlaced),
        PopulateFilterOptions(nodes[1..], l, p), Keep(PlacedAll(nodes[1..], above), IsTitledPlaced), level, path);
    }
  }

  lemma {:induction false} FolderOptionsPlaced(node: Node, above: seq<Node>, level: nat, path: string)
    ensures Describes(FolderOptions(node, level + |above|, PathThrough(path, above)),
      Keep(PlacedNode(node, above), IsTitledPlaced), level, path)
    decreases node, 1
  {
    var l, p := level + |above|, PathThrough(path, above);
    if node.Folder? {
      var down := above + [node];
      assert PathThrough(path, down) == p + "-" + node.id by {
        assert down[..|down| - 1] == above;
      }
      OptionsPlaced(node.children, down, level, path);
      var kids := PopulateFilterOptions(node.children, l + 1, p + "-" + node.id);
      KeepConcat([Placed(node, above)], PlacedAll(node.children, down), IsTitledPlaced);
      OwnOptionPlaced(node, above, level, path);
      var own := if node.title != "" then [OptionFor(node, l, p)] else [];
      DescribesConcat(own, Keep([Placed(node, above)], IsTitledPlaced),
        kids, Keep(PlacedAll(node.children, down), IsTitledPlaced), level, path);
    } else {
      assert Keep([Placed(node, above)], IsTitledPlaced) == [] by {
        assert [Placed(node, above)][1..] == [];
      }
    }
  }

  /** A folder's own option, if it has one, describes it. */
  lemma OwnOptionPlaced(node: Node, above: seq<Node>, level: nat, path: string)
    requires node.Folder?
    ensures Describes(if node.title != "" then [OptionFor(node, level + |above|, PathThrough(path, above))] else [],
      Keep([Placed(node, above)], IsTitledPlaced), level, path)
  {
    assert Keep([Placed(node, above)], IsTitledPlaced) == (if node.title != "" then [Placed(node, above)] else []) by {
      assert [Placed(node, above)][1..] == [];
    }
  }

  /** The placed list holds the nodes of the tree's pre-order, one for one. */
  lemma {:induction false} PlacedIsPreorder(nodes: seq<Node>, above: seq<Node>)
    ensures NodesOf(PlacedAll(nodes, above)) == PreorderAll(nodes)
    decreases nodes, 0
  {
    if nodes != [] {
      PlacedNodeIsPreorder(nodes[0], above);
      PlacedIsPreorder(nodes[1..], above);
      NodesOfConcat(PlacedNode(nodes[0], above), PlacedAll(nodes[1..], above));
    }
  }

  lemma {:induction false} PlacedNodeIsPreorder(node: Node, above: seq<Node>)
    ensures NodesOf(PlacedNode(node, above)) == Preorder(node)
    decreases node, 1
  {
    var below := if node.Folder? then PlacedAll(node.children, above + [node]) else [];
    if node.Folder? {
      PlacedIsPreorder(node.children, above + [node]);
    }
    NodesOfConcat([Placed(node, above)], below);
  }

  lemma NodesOfConcat(a: seq<Placed>, b: seq<Placed>)
    ensures NodesOf(a + b) == NodesOf(a) + NodesOf(b)
  {
  }

  /**
   * The ancestors a node is placed with are the folders that enclose it:
   * they extend `above`, a node with no more is one of `nodes`, and any
   * other is a child of its innermost ancestor, which is a folder.
   */
  lemma {:induction false} PlacedEnclosed(nodes: seq<Node>, above: seq<Node>)
    ensures forall q :: q in PlacedAll(nodes, above) ==> Encloses(q, above, nodes)
    decreases nodes, 0
  {
    if nodes != [] {
      PlacedNodeEnclosed(nodes[0], above);
      PlacedEnclosed(nodes[1..], above);
      forall q | q in PlacedAll(nodes, above) ensures Encloses(q, above, nodes) {
        if q in PlacedNode(nodes[0], above) {
          assert Encloses(q, above, [nodes[0]]);
        } else {
          assert Encloses(q, above, nodes[1..]);
        }
      }
    }
  }

  /** `q` is placed below `above`, among `nodes` or inside a folder. */
  ghost predicate Encloses(q: Placed, above: seq<Node>, nodes: seq<Node>) {
    && |above| <= |q.ancestors| && q.ancestors[..|above|] == above
    && (|q.ancestors| == |above| ==> q.node in nodes)
    && (|q.ancestors| > |above| ==>
         q.ancestors[|q.ancestors| - 1].Folder? && q.node in q.ancestors[|q.ancestors| - 1].children)
  }

  lemma {:induction false} PlacedNodeEnclosed(node: Node, above: seq<Node>)
    ensures forall q :: q in PlacedNode(node, above) ==> Encloses(q, above, [node])
    decreases node, 1
  {
    if node.Folder? {
      var down := above + [node];
      PlacedEnclosed(node.children, down);
      forall q | q in PlacedAll(node.children, down) ensures Encloses(q, above, [node]) {
        FolderStepEncloses(q, above, node);
      }
    }
  }

  lemma FolderStepEncloses(q: Placed, above: seq<Node>, node: Node)
    requires node.Folder? && Encloses(q, above + [node], node.children)
    ensures Encloses(q, above, [node])
  {
    var down := above + [node];
    assert q.ancestors[..|above|] == q.ancestors[..|down|][..|above|];
    if |q.ancestors| == |down| {
      assert q.ancestors[|q.ancestors| - 1] == down[|above|];
    }
  }

  /**
   * Every option generated inside a folder carries that folder on its id
   * path: its id contains `-<folder id>-`. A filter on any folder below
   * therefore never prunes the folder from the counts.
   */
  lemma OptionsInsideCarryAncestor(folder: Node, level: nat, path: string)
    requires folder.Folder?
    ensures forall o :: o in FolderOptions(folder, level, path) ==>
      o.id.Str? && Contains(o.id.s, "-" + folder.id + "-")
  {
    var sub := path + "-" + folder.id;
    var q := "-" + folder.id + "-";
    assert sub + "-" == path + q;
    OptionsStartWithPath(folder.children, level + 1, sub);
    forall o | o in FolderOptions(folder, level, path)
      ensures o.id.Str? && Contains(o.id.s, q)
    {
      if folder.title != "" && o == OptionFor(folder, level, path) {
        MarkerAfterPath(path, q, o.id.s);
      } else {
        assert o in PopulateFilterOptions(folder.children, level + 1, sub);
        MarkerAfterPath(path, q, o.id.s);
      }
    }
  }

  /** Every option id starts with the path followed by a dash. */
  lemma OptionsStartWithPath(nodes: seq<Node>, level: nat, path: string)
    ensures forall o :: o in PopulateFilterOptions(nodes, level, path) ==> o.id.Str? && IsPrefix(path + "-", o.id.s)
  {
    var rs := PopulateFilterOptions(nodes, level, path);
    var k := Keep(PlacedAll(nodes, []), IsTitledPlaced);
    OptionsPerTitledFolder(nodes, level, path);
    forall o | o in rs ensures o.id.Str? && IsPrefix(path + "-", o.id.s) {
      var i :| 0 <= i < |rs| && rs[i] == o;
      PlacedIdStartsWithPath(k[i], level, path);
    }
  }

  lemma PlacedIdStartsWithPath(q: Placed, level: nat, path: string)
    ensures IsPrefix(path + "-", PlacedOption(q, level, path).id.s)
  {
    PathPrefix(path, q.ancestors, q.node.id + "-");
    assert PathThrough(path, q.ancestors) + "-" + q.node.id + "-"
      == PathThrough(path, q.ancestors) + "-" + (q.node.id + "-");
  }

  /** A path through folders, then a dash, starts with the starting path and a dash. */
  lemma {:induction false} PathPrefix(path: string, folders: seq<Node>, tail: string)
    ensures IsPrefix(path + "-", PathThrough(path, folders) + "-" + tail)
    decreases |folders|
  {
    if folders == [] {
      assert (path + "-" + tail)[..|path + "-"|] == path + "-";
    } else {
      var f := folders[..|folders| - 1];
      var last := folders[|folders| - 1].id;
      PathPrefix(path, f, last + "-" + tail);
      assert PathThrough(path, folders) + "-" + tail == PathThrough(path, f) + "-" + (last + "-" + tail);
    }
  }

  lemma MarkerAfterPath(path: string, q: string, s: string)
    requires IsPrefix(path + q, s)
    ensures Contains(s, q)
  {
    assert s[|path|..|path| + |q|] == q;
    ContainsAt(s, q, |path|);
  }

  /**
   * The option ids below a titled folder start with that folder's own
   * option id: the path of every folder below it passes through it.
   */
  lemma OptionsBelowExtendFolderId(folder: Node, level: nat, path: string)
    requires folder.Folder? && folder.title != ""
    ensures forall o :: o in PopulateFilterOptions(folder.children, level + 1, path + "-" + folder.id) ==>
      o.id.Str? && IsPrefix(OptionFor(folder, level, path).id.s, o.id.s)
  {
    var sub := path + "-" + folder.id;
    OptionsStartWithPath(folder.children, level + 1, sub);
    assert OptionFor(folder, level, path).id.s == sub + "-";
  }

  // ------------------------------------------------------------ populateFilterDropdown

  /** The root folders that are never listed. */
  predicate IsSystemTitle(t: string) {
    t == "Bookmarks Bar" || t == "Other Bookmarks" || t == "Mobile Bookmarks"
  }

  predicate IsListedFolder(n: Node) { n.Folder? && n.title != "" && !IsSystemTitle(n.title) }

  /** `prefix ? prefix + " - " + title : title`. */
  function DisplayName(prefix: string, title: string): string {
    if prefix != "" then prefix + " - " + title else title
  }

  function DropdownOption(folder: Node, prefix: string): FilterOption {
    FilterOption(DisplayName(prefix, folder.title), Str(folder.id), Undefined, Str("folder-" + folder.id))
  }

  /** What traverseBookmarks(nodes, prefix) pushes, in order. */
  function DropdownEntries(nodes: seq<Node>, prefix: string): seq<FilterOption>
    decreases nodes, 0
  {
    if nodes == [] then []
    else DropdownFolder(nodes[0], prefix) + DropdownEntries(nodes[1..], prefix)
  }

  function DropdownFolder(node: Node, prefix: string): seq<FilterOption>
    decreases node, 1
  {
    if !node.Folder? then []
    else if IsListedFolder(node) then
      [DropdownOption(node, prefix)] + DropdownEntries(node.children, DisplayName(prefix, node.title))
    else DropdownEntries(node.children, prefix)
  }

  /** The fixed first option. */
  const AllBookmarks := FilterOption("All Bookmarks", Num(0), Undefined, Str("all-bookmarks"))

  /** The options list the folders `k` one for one: value the folder id, id `folder-<id>`. */
  ghost predicate Lists(r: seq<FilterOption>, k: seq<Node>) {
    |r| == |k| && forall i :: 0 <= i < |r| ==> r[i].value == Str(k[i].id) && r[i].id == Str("folder-" + k[i].id)
  }

  lemma ListsConcat(a: seq<FilterOption>, ka: seq<Node>, b: seq<FilterOption>, kb: seq<Node>)
    requires Lists(a, ka) && Lists(b, kb)
    ensures Lists(a + b, ka + kb)
  {
    forall i | 0 <= i < |a + b|
      ensures (a + b)[i].value == Str((ka + kb)[i].id) && (a + b)[i].id == Str("folder-" + (ka + kb)[i].id)
    {
      if i < |a| {
        assert (a + b)[i] == a[i] && (ka + kb)[i] == ka[i];
      } else {
        assert (a + b)[i] == b[i - |a|] && (ka + kb)[i] == kb[i - |a|];
      }
    }
  }

  /**
   * One option per listed folder (titled and not a system root), in
   * pre-order; its value is the folder id and its id `folder-<id>`.
   */
  lemma {:induction false} DropdownPerListedFolder(nodes: seq<Node>, prefix: string)
    ensures Lists(DropdownEntries(nodes, prefix), Keep(PreorderAll(nodes), IsListedFolder))
    decreases nodes, 0
  {
    if nodes != [] {
      DropdownFolderPerListedFolder(nodes[0], prefix);
      DropdownPerListedFolder(nodes[1..], prefix);
      KeepConcat(Preorder(nodes[0]), PreorderAll(nodes[1..]), IsListedFolder);
      ListsConcat(DropdownFolder(nodes[0], prefix), Keep(Preorder(nodes[0]), IsListedFolder),
        DropdownEntries(nodes[1..], prefix), Keep(PreorderAll(nodes[1..]), IsListedFolder));
    }
  }

  lemma {:induction false} DropdownFolderPerListedFolder(node: Node, prefix: string)
    ensures Lists(DropdownFolder(node, prefix), Keep(Preorder(node), IsListedFolder))
    decreases node, 1
  {
    assert [node][1..] == [];
    if node.Folder? {
      var sub := if IsListedFolder(node) then DisplayName(prefix, node.title) else prefix;
      DropdownPerListedFolder(node.children, sub);
      KeepConcat([node], PreorderAll(node.children), IsListedFolder);
      assert Preorder(node) == [node] + PreorderAll(node.children);
      var own := if IsListedFolder(node) then [DropdownOption(node, prefix)] else [];
      ListsConcat(own, Keep([node], IsListedFolder),
        DropdownEntries(node.children, sub), Keep(PreorderAll(node.children), IsListedFolder));
    } else {
      assert Preorder(node) == [node];
    }
  }

  /**
   * A system root or untitled folder is not listed but its sub-folders
   * are, with the prefix it was given; a listed folder is followed by its
   * sub-folders, each labelled below its own display name.
   */
  lemma {:induction false} DropdownLabels(nodes: seq<Node>, prefix: string)
    ensures forall o :: o in DropdownEntries(nodes, prefix) ==>
      (prefix == "" || IsPrefix(prefix + " - ", o.text))
    decreases nodes, 0
  {
    if nodes != [] {
      DropdownFolderLabels(nodes[0], prefix);
      DropdownLabels(nodes[1..], prefix);
    }
  }

  lemma {:induction false} DropdownFolderLabels(node: Node, prefix: string)
    ensures forall o :: o in DropdownFolder(node, prefix) ==>
      (prefix == "" || IsPrefix(prefix + " - ", o.text))
    ensures IsListedFolder(node) ==> DropdownFolder(node, prefix)[0].text == DisplayName(prefix, node.title)
    ensures forall o :: o in DropdownFolder(node, prefix) ==> IsPrefix(DisplayName(prefix, node.title), o.text) || !IsListedFolder(node)
    decreases node, 1
  {
    if node.Folder? {
      if IsListedFolder(node) {
        var d := DisplayName(prefix, node.title);
        DropdownLabels(node.children, d);
        forall o | o in DropdownFolder(node, prefix)
          ensures (prefix == "" || IsPrefix(prefix + " - ", o.text)) && IsPrefix(d, o.text)
        {
          if o == DropdownOption(node, prefix) {
            assert o.text == d;
            if prefix != "" {
              assert d == (prefix + " - ") + node.title;
              assert d[..|prefix + " - "|] == prefix + " - ";
            }
          } else {
            assert o in DropdownEntries(node.children, d);
            assert IsPrefix(d + " - ", o.text);
            assert (d + " - ")[..|d|] == d;
            PrefixTransitive(d, d + " - ", o.text);
            if prefix != "" {
              assert d == (prefix + " - ") + node.title;
              assert d[..|prefix + " - "|] == prefix + " - ";
              PrefixTransitive(prefix + " - ", d, o.text);
            }
          }
        }
      } else {
        DropdownLabels(node.children, prefix);
      }
    }
  }

  /** A top-level listed folder is labelled with its bare title. */
  lemma TopLevelLabel(node: Node, rest: seq<Node>)
    requires IsListedFolder(node)
    ensures var r := DropdownEntries([node] + rest, ""); |r| > 0 && r[0].text == node.title
  {
    assert ([node] + rest)[0] == node;
    assert ([node] + rest)[1..] == rest;
    DropdownFolderLabels(node, "");
  }

  /** `<select>` element whose options the drop-down rewrites. */
  class FilterSelect {
    var shown: seq<FilterOption>

    constructor()
      ensures shown == []
    {
      shown := [];
    }
  }

  /** The list traverseBookmarks pushes into. */
  class DropdownBuilder {
    var options: seq<FilterOption>

    constructor()
      ensures options == [AllBookmarks]
    {
      options := [AllBookmarks];
    }

    /** traverseBookmarks(nodes, prefix): the forEach over `nodes`, recursing into folders. */
    method Traverse(nodes: seq<Node>, prefix: string)
      modifies this
      ensures options == old(options) + DropdownEntries(nodes, prefix)
      decreases nodes, 0
    {
      var i := 0;
      while i < |nodes|
        invariant 0 <= i <= |nodes|
        invariant options == old(options) + DropdownEntries(nodes[..i], prefix)
      {
        var node := nodes[i];
        DropdownEntriesSnoc(nodes, prefix, i);
        if node.Folder? {
          if IsListedFolder(node) {
            var displayName := DisplayName(prefix, node.title);
            options := options + [DropdownOption(node, prefix)];
            TraverseFolder(node.children, displayName, node);
          } else {
            TraverseFolder(node.children, prefix, node);
          }
        }
        i := i + 1;
      }
      assert nodes[..|nodes|] == nodes;
    }

    /** The recursive call on a folder's children (`parent` only carries the termination measure). */
    method TraverseFolder(children: seq<Node>, prefix: string, ghost parent: Node)
      requires parent.Folder? && children == parent.children
      modifies this
      ensures options == old(options) + DropdownEntries(children, prefix)
      decreases parent, 2
    {
      Traverse(children, prefix);
    }
  }

  lemma {:induction false} DropdownEntriesSnoc(nodes: seq<Node>, prefix: string, i: nat)
    requires i < |nodes|
    ensures DropdownEntries(nodes[..i + 1], prefix) == DropdownEntries(nodes[..i], prefix) + DropdownFolder(nodes[i], prefix)
    decreases i
  {
    if i == 0 {
      assert nodes[..1][1..] == [];
    } else {
      assert nodes[..i + 1][1..] == nodes[1..][..i];
      assert nodes[..i][1..] == nodes[1..][..i - 1];
      DropdownEntriesSnoc(nodes[1..], prefix, i - 1);
    }
  }

  /**
   * populateFilterDropdown: without the select element, returns []; else
   * the "All Bookmarks" option followed by the traversal, shown in the
   * select in place of what it held.
   */
  method PopulateFilterDropdown(nodes: seq<Node>, select: FilterSelect?) returns (r: seq<FilterOption>)
    modifies select
    ensures select == null ==> r == []
    ensures select != null ==> r == [AllBookmarks] + DropdownEntries(nodes, "") && select.shown == r
  {
    if select == null {
      return [];
    }
    var builder := new DropdownBuilder();
    builder.Traverse(nodes, "");
    r := builder.options;
    select.shown := [];
    var i := 0;
    while i < |r|
      invariant 0 <= i <= |r|
      invariant select.shown == r[..i]
    {
      select.shown := select.shown + [r[i]];
      i := i + 1;
    }
    assert r[..|r|] == r;
  }

  // ------------------------------------------------------------ clear-filter button

  /** The clear-filter button and its `style.display`. */
  class ClearButton {
    var display: string

    constructor()
      ensures display == ""
    {
      display := "";
    }
  }

  /** updateClearFilterButton: shown (`inline-flex`) exactly while a folder filter is active. */
  method UpdateClearFilterButton(button: ClearButton?, filterId: JsVal)
    modifies button
    ensures button != null ==> (button.display == "inline-flex" <==> IsActiveFilter(filterId))
    ensures button != null ==> (button.display == "none" <==> !IsActiveFilter(filterId))
  {
    if button != null {
      if IsActiveFilter(filterId) {
        button.display := "inline-flex";
      } else {
        button.display := "none";
      }
    }
  }
}
