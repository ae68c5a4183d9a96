/**
 * The concrete syntax tree the grammar engine hands over.  A node has a
 * kind, a byte range in the source text and ordered children; a child
 * may be named and may be attached to a field of its parent.  Only the
 * queries the parser uses are given: `named_child`, `named_children`,
 * `child_by_field_name` and `children_by_field_name`.
 */
module Cst {
  import opened Wrappers

  datatype Range = Range(start: nat, end: nat)

  /** A node's byte range never runs backwards. */
  type ByteRange = r: Range | r.start <= r.end witness Range(0, 0)

  datatype Child = Child(node: Node, isNamed: bool, field: Option<string>)

  datatype Node = Node(kind: string, range: ByteRange, children: seq<Child>)

  /** The named children among `cs`, in order. */
  function Named(cs: seq<Child>): (r: seq<Node>)
    ensures |r| <= |cs|
    ensures forall i :: 0 <= i < |r| ==> exists k :: 0 <= k < |cs| && cs[k].node == r[i]
  {
    if cs == [] then []
    else
      var rest := Named(cs[1..]);
      assert forall i :: 0 <= i < |rest| ==> exists k :: 0 <= k < |cs| && cs[k].node == rest[i] by {
        forall i | 0 <= i < |rest| ensures exists k :: 0 <= k < |cs| && cs[k].node == rest[i] {
          var k :| 0 <= k < |cs[1..]| && cs[1..][k].node == rest[i];
          assert cs[k + 1] == cs[1..][k];
        }
      }
      if cs[0].isNamed then [cs[0].node] + rest else rest
  }

  /** The children among `cs` attached to field `name`, in order. */
  function WithField(cs: seq<Child>, name: string): (r: seq<Node>)
    ensures |r| <= |cs|
    ensures forall i :: 0 <= i < |r| ==> exists k :: 0 <= k < |cs| && cs[k].node == r[i]
  {
    if cs == [] then []
    else
      var rest := WithField(cs[1..], name);
      assert forall i :: 0 <= i < |rest| ==> exists k :: 0 <= k < |cs| && cs[k].node == rest[i] by {
        forall i | 0 <= i < |rest| ensures exists k :: 0 <= k < |cs| && cs[k].node == rest[i] {
          var k :| 0 <= k < |cs[1..]| && cs[1..][k].node == rest[i];
          assert cs[k + 1] == cs[1..][k];
        }
      }
      if cs[0].field == Some(name) then [cs[0].node] + rest else rest
  }

  /** `named_children` */
  function NamedChildren(n: Node): (r: seq<Node>)
    ensures forall i :: 0 <= i < |r| ==> exists k :: 0 <= k < |n.children| && n.children[k].node == r[i]
  {
    Named(n.children)
  }

  /** `named_child(i)`: the i-th named child, if there is one. */
  function NamedChild(n: Node, i: nat): (r: Option<Node>)
    ensures r.Some? <==> i < |NamedChildren(n)|
    ensures r.Some? ==> r.value == NamedChildren(n)[i]
  {
    var cs := NamedChildren(n);
    if i < |cs| then Some(cs[i]) else None
  }

  /** `children_by_field_name` */
  function ChildrenByFieldName(n: Node, name: string): (r: seq<Node>)
    ensures forall i :: 0 <= i < |r| ==> exists k :: 0 <= k < |n.children| && n.children[k].node == r[i]
  {
    WithField(n.children, name)
  }

  /** `child_by_field_name`: the first child attached to the field, if any. */
  function ChildByFieldName(n: Node, name: string): (r: Option<Node>)
    ensures r.Some? <==> |ChildrenByFieldName(n, name)| > 0
    ensures r.Some? ==> r.value == ChildrenByFieldName(n, name)[0]
  {
    var cs := ChildrenByFieldName(n, name);
    if |cs| > 0 then Some(cs[0]) else None
  }
}
