/**
 * The filter option list of the older single-file page (bookmarks.js): the
 * "All" entry, then the options of populateFilterOptions, pushed in place.
 */
module LegacyFilter {
  import opened Js
  import opened Model
  import opened Filter

  /** The options for the nodes from `i` on: those of node `i`, then those of the nodes after it. */
  lemma PopulateFrom(nodes: seq<Node>, i: nat, level: nat, path: string)
    requires i < |nodes|
    ensures PopulateFilterOptions(nodes[i..], level, path)
      == FolderOptions(nodes[i], level, path) + PopulateFilterOptions(nodes[i + 1..], level, path)
  {
    assert nodes[i..][1..] == nodes[i + 1..];
  }

  lemma TitledFolderOptions(node: Node, level: nat, path: string)
    requires node.Folder? && node.title != ""
    ensures FolderOptions(node, level, path) == [OptionFor(node, level, path)] + PopulateFilterOptions(node.children, level + 1, path + "-" + node.id)
  {
  }

  lemma UntitledFolderOptions(node: Node, level: nat, path: string)
    requires node.Folder? && node.title == ""
    ensures FolderOptions(node, level, path) == PopulateFilterOptions(node.children, level + 1, path + "-" + node.id)
  {
  }

  /** This page's `filterOptions`: the "All" entry, then what populateFilterOptions pushes. */
  class LegacyFilterList {
    var options: seq<FilterOption>

    constructor()
      ensures options == [AllOption]
    {
      options := [AllOption];
    }

    /** populateFilterOptions(nodes, level, path): the module's options, appended. */
    method Populate(nodes: seq<Node>, level: nat, path: string)
      modifies this
      ensures options == old(options) + PopulateFilterOptions(nodes, level, path)
      decreases nodes, 1
    {
      var i := 0;
      assert nodes[0..] == nodes;
      while i < |nodes|
        invariant 0 <= i <= |nodes|
        invariant old(options) + PopulateFilterOptions(nodes, level, path) == options + PopulateFilterOptions(nodes[i..], level, path)
      {
        ghost var before := options;
        PopulateFrom(nodes, i, level, path);
        PopulateNode(nodes[i], level, path);
        AppendAssoc(before, FolderOptions(nodes[i], level, path), PopulateFilterOptions(nodes[i + 1..], level, path));
        i := i + 1;
      }
      assert PopulateFilterOptions(nodes[i..], level, path) == [];
    }

    /** The forEach body for one node: a titled folder's option, then its sub-folders'. */
    method PopulateNode(node: Node, level: nat, path: string)
      modifies this
      ensures options == old(options) + FolderOptions(node, level, path)
      decreases node, 0
    {
      if node.Folder? {
        var sub := path + "-" + node.id;
        if node.title != "" {
          options := options + [OptionFor(node, level, path)];
          Populate(node.children, level + 1, sub);
          TitledFolderOptions(node, level, path);
          AppendAssoc(old(options), [OptionFor(node, level, path)], PopulateFilterOptions(node.children, level + 1, sub));
        } else {
          Populate(node.children, level + 1, sub);
          UntitledFolderOptions(node, level, path);
        }
      }
    }
  }
}
