/**
 * The data the bookmark manager works on: the browser's bookmark tree,
 * the `{bookmark, folder}` entries of the flat list, and the folder-filter
 * options offered in the filter drop-down.
 */
module Model {
  import opened Js

  /**
   * A bookmark-tree node. A node is a folder exactly when it has a
   * `children` array. An empty `url` or `parentId` stands for a missing
   * one, and `dateLastUsed == 0` for a bookmark never opened.
   */
  datatype Node =
    | Folder(id: string, title: string, children: seq<Node>)
    | Leaf(id: string, title: string, url: string, parentId: string,
           dateAdded: int, dateLastUsed: int)

  /** One element of the flat bookmark list: a bookmark and the title of its folder. */
  datatype Entry = Entry(bookmark: Node, folder: string)

  /**
   * One folder-filter option. `text` is the label shown, `value` what the drop-down reports, `id`
   * the path-encoded id (`-1-5-`) or another marker, `level` the depth
   * (absent from some variants, hence a JavaScript value).
   */
  datatype FilterOption = FilterOption(text: string, value: JsVal, level: JsVal, id: JsVal)

  /** The "All" entry both pages seed their filter option list with. */
  const AllOption := FilterOption("All", Str("all"), Num(0), Num(0))

  /** Every node of a tree, each before its descendants, children left to right. */
  function Preorder(node: Node): (r: seq<Node>)
    ensures |r| >= 1 && r[0] == node
    decreases node, 1
  {
    [node] + (if node.Folder? then PreorderAll(node.children) else [])
  }

  function PreorderAll(nodes: seq<Node>): seq<Node>
    decreases nodes, 0
  {
    if nodes == [] then [] else Preorder(nodes[0]) + PreorderAll(nodes[1..])
  }

  lemma {:induction false} PreorderAllConcat(a: seq<Node>, b: seq<Node>)
    ensures PreorderAll(a + b) == PreorderAll(a) + PreorderAll(b)
  {
    if a == [] {
      assert a + b == b;
    } else {
      assert (a + b)[0] == a[0];
      assert (a + b)[1..] == a[1..] + b;
      PreorderAllConcat(a[1..], b);
      calc {
        PreorderAll(a + b);
        Preorder(a[0]) + PreorderAll(a[1..] + b);
        Preorder(a[0]) + (PreorderAll(a[1..]) + PreorderAll(b));
        { AppendAssoc(Preorder(a[0]), PreorderAll(a[1..]), PreorderAll(b)); }
        (Preorder(a[0]) + PreorderAll(a[1..])) + PreorderAll(b);
      }
    }
  }

  /** How many elements of a list satisfy a property. */
  function CountWhere<T>(s: seq<T>, p: T -> bool): (r: nat)
    ensures r <= |s|
  {
    if s == [] then 0 else (if p(s[0]) then 1 else 0) + CountWhere(s[1..], p)
  }

  lemma {:induction false} CountWhereConcat<T>(a: seq<T>, b: seq<T>, p: T -> bool)
    ensures CountWhere(a + b, p) == CountWhere(a, p) + CountWhere(b, p)
  {
    if a == [] {
      assert a + b == b;
    } else {
      assert (a + b)[0] == a[0];
      assert (a + b)[1..] == a[1..] + b;
      CountWhereConcat(a[1..], b, p);
      assert CountWhere(a + b, p) == (if p(a[0]) then 1 else 0) + CountWhere(a[1..] + b, p);
    }
  }

  /** The elements of a list that satisfy a property, in order. */
  function Keep<T>(s: seq<T>, p: T -> bool): (r: seq<T>)
    ensures |r| == CountWhere(s, p)
    ensures forall x :: x in r ==> x in s && p(x)
  {
    if s == [] then [] else (if p(s[0]) then [s[0]] else []) + Keep(s[1..], p)
  }

  lemma {:induction false} KeepConcat<T>(a: seq<T>, b: seq<T>, p: T -> bool)
    ensures Keep(a + b, p) == Keep(a, p) + Keep(b, p)
  {
    if a == [] {
      assert a + b == b;
    } else {
      assert (a + b)[0] == a[0];
      assert (a + b)[1..] == a[1..] + b;
      KeepConcat(a[1..], b, p);
      calc {
        Keep(a + b, p);
        (if p(a[0]) then [a[0]] else []) + Keep(a[1..] + b, p);
        (if p(a[0]) then [a[0]] else []) + (Keep(a[1..], p) + Keep(b, p));
        { AppendAssoc(if p(a[0]) then [a[0]] else [], Keep(a[1..], p), Keep(b, p)); }
        ((if p(a[0]) then [a[0]] else []) + Keep(a[1..], p)) + Keep(b, p);
      }
    }
  }

  /** `sub` can be obtained from `s` by deleting elements (order preserved). */
  predicate IsSubsequence<T(==)>(sub: seq<T>, s: seq<T>)
    decreases |s|
  {
    if sub == [] then true
    else if s == [] then false
    else if sub[0] == s[0] then IsSubsequence(sub[1..], s[1..])
    else IsSubsequence(sub, s[1..])
  }
}
