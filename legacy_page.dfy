/**
 * The older single-file page (bookmarks.js): how its filter option list
 * relates to the new page's, the section visibility rule of hideBookmarks
 * and the total shown above the folder view. Its containsSearchTerm, countItemsInFolder,
 * getDynamicTitle and getDynamicSectionTitle are the module versions
 * (BookmarkUtils, UiUtils) applied to this list.
 */
module LegacyPage {
  import opened Js
  import opened Model
  import opened BookmarkUtils
  import opened Filter
  import opened UiUtils
  import opened MainPage

  // ------------------------------------------------------------ filter options

  /** The page's list is the main page's list without its "Unknown Folder" entries. */
  lemma LegacyListIsMainWithoutUnknowns(nodes: seq<Node>)
    ensures [AllOption] + Keep(MainOptions([AllOption], nodes, 0, "")[1..], IsFolderOption)
      == [AllOption] + PopulateFilterOptions(nodes, 0, "")
  {
    FolderEntriesAsModule([AllOption], nodes, 0, "");
  }

  // ------------------------------------------------------------ hideBookmarks

  /** An element whose `style.display` hideBookmarks sets. */
  datatype Styled = Styled(id: string, display: string)

  /** FILTER_ID 0 or "all": everything is shown. */
  predicate ShowsEverything(id: JsVal) {
    id == Num(0) || id == Str("all")
  }

  /** The `-<id>-` marker an element id must contain. */
  function Marker(id: JsVal): string {
    "-" + ToString(id) + "-"
  }

  /** `selectedFolderIdValue && computeId(selectedFolderIdValue)`. */
  function SelectedPath(id: JsVal, options: seq<FilterOption>): JsVal {
    if Truthy(id) then ComputeId(id, options) else id
  }

  /** A `.sublist-container` stays visible if it carries the marker or is on the selected folder's path id. */
  predicate ContainerShown(id: JsVal, options: seq<FilterOption>, elementId: string) {
    ShowsEverything(id) || Contains(elementId, Marker(id)) || IncludesVal(SelectedPath(id, options), elementId)
  }

  /** A `.no-folder-list` or an `h2` stays visible only if it carries the marker. */
  predicate MarkedShown(id: JsVal, elementId: string) {
    ShowsEverything(id) || Contains(elementId, Marker(id))
  }

  /** The forEach over one node list: `on` where `shown`, "none" elsewhere. */
  method Style(a: array<Styled>, shown: string -> bool, on: string)
    modifies a
    ensures forall i :: 0 <= i < a.Length ==>
      a[i] == old(a[i]).(display := if shown(old(a[i]).id) then on else "none")
  {
    var i := 0;
    while i < a.Length
      invariant 0 <= i <= a.Length
      invariant forall j :: 0 <= j < i ==> a[j] == old(a[j]).(display := if shown(old(a[j]).id) then on else "none")
      invariant forall j :: i <= j < a.Length ==> a[j] == old(a[j])
    {
      a[i] := a[i].(display := if shown(a[i].id) then on else "none");
      i := i + 1;
    }
  }

  /**
   * hideBookmarks(id): containers and no-folder lists become "grid" and
   * titles "flex" where shown, everything else "none". `id` is FILTER_ID,
   * a number or a string (an undefined or null one would make
   * `selectedId.includes` throw).
   */
  method HideBookmarks(containers: array<Styled>, noFolders: array<Styled>, titles: array<Styled>,
                       id: JsVal, options: seq<FilterOption>)
    requires id.Num? || id.Str?
    requires containers != noFolders && containers != titles && noFolders != titles
    modifies containers, noFolders, titles
    ensures forall i :: 0 <= i < containers.Length ==> containers[i].id == old(containers[i].id)
    ensures forall i :: 0 <= i < containers.Length ==>
      containers[i].display == (if ContainerShown(id, options, containers[i].id) then "grid" else "none")
    ensures forall i :: 0 <= i < noFolders.Length ==> noFolders[i].id == old(noFolders[i].id)
    ensures forall i :: 0 <= i < noFolders.Length ==>
      noFolders[i].display == (if MarkedShown(id, noFolders[i].id) then "grid" else "none")
    ensures forall i :: 0 <= i < titles.Length ==> titles[i].id == old(titles[i].id)
    ensures forall i :: 0 <= i < titles.Length ==>
      titles[i].display == (if MarkedShown(id, titles[i].id) then "flex" else "none")
  {
    if id == Num(0) || id == Str("all") {
      Style(containers, _ => true, "grid");
      Style(noFolders, _ => true, "grid");
      Style(titles, _ => true, "flex");
      return;
    }
    var selectedId := SelectedPath(id, options);
    var marker := "-" + ToString(id) + "-";
    Style(containers, (cid: string) => Contains(cid, marker) || IncludesVal(selectedId, cid), "grid");
    Style(noFolders, (cid: string) => Contains(cid, marker), "grid");
    Style(titles, (cid: string) => Contains(cid, marker), "flex");
  }

  /**
   * Selecting a folder keeps the sections of that folder and of every
   * folder below it: their ids (the options' path ids) carry `-<id>-`.
   */
  lemma SelectedSubtreeShown(folder: Node, level: nat, path: string, options: seq<FilterOption>)
    requires folder.Folder?
    ensures forall o :: o in FolderOptions(folder, level, path) ==>
      o.id.Str? && MarkedShown(Str(folder.id), o.id.s) && ContainerShown(Str(folder.id), options, o.id.s)
  {
    OptionsInsideCarryAncestor(folder, level, path);
  }

  /**
   * Selecting a folder below a titled folder A keeps A's sublist container:
   * the selected folder's path id starts with A's.
   */
  lemma AncestorContainerShown(ancestor: Node, level: nat, path: string, options: seq<FilterOption>, selected: FilterOption)
    requires ancestor.Folder? && ancestor.title != ""
    requires selected in PopulateFilterOptions(ancestor.children, level + 1, path + "-" + ancestor.id)
    requires Truthy(selected.value) && ComputeId(selected.value, options) == selected.id
    ensures ContainerShown(selected.value, options, OptionFor(ancestor, level, path).id.s)
  {
    OptionsBelowExtendFolderId(ancestor, level, path);
    var a := OptionFor(ancestor, level, path).id.s;
    assert selected.id.s[0..|a|] == a;
    ContainsAt(selected.id.s, a, 0);
  }

  // ------------------------------------------------------------ folder-view total

  /** createFolderList returns a section: the folder has children and its section title is not null. */
  predicate SectionShown(node: Node, term: string, filterId: JsVal) {
    node.Folder? && |node.children| > 0 && GetDynamicSectionTitle(node, term, filterId).Some?
  }

  /** The sum of countItemsInFolder over the root's child folders that produce a section. */
  function FolderViewTotal(roots: seq<Node>, term: string, filterId: JsVal, options: seq<FilterOption>): nat {
    if roots == [] then 0
    else
      (if SectionShown(roots[0], term, filterId) then FolderItemCount(roots[0], term, filterId, options) else 0)
      + FolderViewTotal(roots[1..], term, filterId, options)
  }

  lemma {:induction false} FolderViewTotalSnoc(roots: seq<Node>, term: string, filterId: JsVal, options: seq<FilterOption>, i: nat)
    requires i < |roots|
    ensures FolderViewTotal(roots[..i + 1], term, filterId, options) == FolderViewTotal(roots[..i], term, filterId, options)
      + (if SectionShown(roots[i], term, filterId) then FolderItemCount(roots[i], term, filterId, options) else 0)
    decreases i
  {
    if i == 0 {
      assert roots[..1][1..] == [];
    } else {
      assert roots[..i + 1][1..] == roots[1..][..i];
      assert roots[..i][1..] == roots[1..][..i - 1];
      FolderViewTotalSnoc(roots[1..], term, filterId, options, i - 1);
    }
  }

  /** The `totalCount` accumulation of filterBookmarks' default branch. */
  method ComputeFolderViewTotal(roots: seq<Node>, term: string, filterId: JsVal, options: seq<FilterOption>)
    returns (totalCount: nat)
    ensures totalCount == FolderViewTotal(roots, term, filterId, options)
  {
    totalCount := 0;
    var i := 0;
    while i < |roots|
      invariant 0 <= i <= |roots|
      invariant totalCount == FolderViewTotal(roots[..i], term, filterId, options)
    {
      FolderViewTotalSnoc(roots, term, filterId, options, i);
      var child := roots[i];
      if child.Folder? {
        var section := if |child.children| > 0 then GetDynamicSectionTitle(child, term, filterId) else None;
        if section.Some? {
          var itemCount := FolderItemCount(child, term, filterId, options);
          totalCount := totalCount + itemCount;
        }
      }
      i := i + 1;
    }
    assert roots[..|roots|] == roots;
  }

  /** The total never exceeds the matching bookmarks under the root. */
  lemma {:induction false} FolderViewTotalBound(roots: seq<Node>, term: string, filterId: JsVal, options: seq<FilterOption>)
    ensures FolderViewTotal(roots, term, filterId, options) <= CountMatchingAll(roots, term)
  {
    if roots != [] {
      FilteredItemCountBound(roots[0], term, filterId, options);
      FolderViewTotalBound(roots[1..], term, filterId, options);
    }
  }

  /** Without a folder filter, and with only folders under the root, the total is every matching bookmark. */
  lemma {:induction false} FolderViewTotalUnfiltered(roots: seq<Node>, term: string, filterId: JsVal, options: seq<FilterOption>)
    requires !IsActiveFilter(filterId)
    requires forall n :: n in roots ==> n.Folder?
    ensures FolderViewTotal(roots, term, filterId, options) == CountMatchingAll(roots, term)
  {
    if roots != [] {
      var r := roots[0];
      assert r in roots;
      UnfilteredItemCount(r, term, filterId, options);
      if !SectionShown(r, term, filterId) && |r.children| == 0 {
        assert CountMatchingAll(r.children, term) == 0;
      }
      assert forall n :: n in roots[1..] ==> n in roots;
      FolderViewTotalUnfiltered(roots[1..], term, filterId, options);
    }
  }
}
