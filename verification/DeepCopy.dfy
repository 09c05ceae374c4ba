/** Copying buckets of JSON-decoded values (filedb/evercache.go).

    The copy holds what the original holds and shares none of its maps and lists, however deep they
    lie. */
module DeepCopy {

  /** A decoded value: strings, numbers, booleans and nil never change; maps and lists are shared by
      reference. */
  datatype Value = Scalar(text: string) | Map(node: MapNode) | List(cells: ListNode)

  class MapNode {
    var fields: map<string, Value>
    constructor (fields: map<string, Value>)
      ensures this.fields == fields
    {
      this.fields := fields;
    }
  }

  class ListNode {
    var items: seq<Value>
    constructor (items: seq<Value>)
      ensures this.items == items
    {
      this.items := items;
    }
  }

  /** The tree a value stands for. */
  datatype Json = JScalar(text: string) | JMap(fields: map<string, Json>) | JList(items: seq<Json>)

  /** v stands for the tree j, and all its maps and lists are among the nodes. */
  ghost predicate Holds(v: Value, j: Json, nodes: set<object>)
    reads nodes
    decreases j
  {
    match j
    case JScalar(text) => v == Scalar(text)
    case JMap(fields) =>
      v.Map? && v.node in nodes && v.node.fields.Keys == fields.Keys
      && forall k :: k in fields ==> Holds(v.node.fields[k], fields[k], nodes)
    case JList(items) =>
      v.List? && v.cells in nodes && |v.cells.items| == |items|
      && forall i :: 0 <= i < |items| ==> Holds(v.cells.items[i], items[i], nodes)
  }

  lemma {:induction false} MoreNodes(v: Value, j: Json, nodes: set<object>, more: set<object>)
    requires Holds(v, j, nodes) && nodes <= more
    ensures Holds(v, j, more)
    decreases j
  {
    match j
    case JScalar(_) =>
    case JMap(fields) =>
      forall k | k in fields ensures Holds(v.node.fields[k], fields[k], more) {
        MoreNodes(v.node.fields[k], fields[k], nodes, more);
      }
    case JList(items) =>
      forall i | 0 <= i < |items| ensures Holds(v.cells.items[i], items[i], more) {
        MoreNodes(v.cells.items[i], items[i], nodes, more);
      }
  }

  /** One tree at most. */
  lemma {:induction false} OneTree(v: Value, a: Json, b: Json, nodes: set<object>)
    requires Holds(v, a, nodes) && Holds(v, b, nodes)
    ensures a == b
    decreases a
  {
    match a
    case JScalar(_) =>
    case JMap(fields) =>
      assert b.JMap?;
      forall k | k in fields ensures b.fields[k] == fields[k] {
        OneTree(v.node.fields[k], fields[k], b.fields[k], nodes);
      }
      assert fields == b.fields;
    case JList(items) =>
      assert b.JList?;
      forall i | 0 <= i < |items| ensures b.items[i] == items[i] {
        OneTree(v.cells.items[i], items[i], b.items[i], nodes);
      }
      assert items == b.items;
  }

  /** A copy: the same tree, in maps and lists of its own. */
  method CopyValue(v: Value, ghost j: Json, ghost nodes: set<object>) returns (r: Value, ghost made: set<object>)
    requires Holds(v, j, nodes)
    ensures Holds(r, j, made) && fresh(made)
    decreases j
  {
    match v
    case Scalar(_) =>
      r, made := v, {};
    case Map(node) =>
      var m := new MapNode(map[]);
      var copied;
      copied, made := CopyFields(node.fields, j, nodes);
      m.fields := copied;
      made := made + {m};
      r := Map(m);
      forall k | k in j.fields ensures Holds(copied[k], j.fields[k], made) {
        MoreNodes(copied[k], j.fields[k], made - {m}, made);
      }
    case List(cells) =>
      var l := new ListNode([]);
      var copied;
      copied, made := CopyItems(cells.items, j, nodes);
      l.items := copied;
      made := made + {l};
      r := List(l);
      forall i | 0 <= i < |j.items| ensures Holds(copied[i], j.items[i], made) {
        MoreNodes(copied[i], j.items[i], made - {l}, made);
      }
  }

  method CopyFields(fields: map<string, Value>, ghost j: Json, ghost nodes: set<object>)
    returns (copied: map<string, Value>, ghost made: set<object>)
    requires j.JMap? && fields.Keys == j.fields.Keys && forall k :: k in fields ==> Holds(fields[k], j.fields[k], nodes)
    ensures copied.Keys == fields.Keys && fresh(made) && forall k :: k in copied ==> Holds(copied[k], j.fields[k], made)
    decreases j, 0
  {
    copied, made := map[], {};
    var left := fields.Keys;
    while left != {}
      invariant left <= fields.Keys && copied.Keys == fields.Keys - left && fresh(made)
      invariant forall k :: k in copied ==> Holds(copied[k], j.fields[k], made)
      invariant forall k :: k in fields ==> Holds(fields[k], j.fields[k], nodes)
      decreases left
    {
      var k :| k in left;
      left := left - {k};
      ghost var before := made;
      var r, own := CopyValue(fields[k], j.fields[k], nodes);
      made := before + own;
      MoreNodes(r, j.fields[k], own, made);
      forall q | q in copied ensures Holds(copied[q], j.fields[q], made) {
        MoreNodes(copied[q], j.fields[q], before, made);
      }
      copied := copied[k := r];
    }
  }

  method CopyItems(items: seq<Value>, ghost j: Json, ghost nodes: set<object>)
    returns (copied: seq<Value>, ghost made: set<object>)
    requires j.JList? && |items| == |j.items| && forall i :: 0 <= i < |items| ==> Holds(items[i], j.items[i], nodes)
    ensures |copied| == |items| && fresh(made) && forall i :: 0 <= i < |copied| ==> Holds(copied[i], j.items[i], made)
    decreases j, 0
  {
    copied, made := [], {};
    for i := 0 to |items|
      invariant |copied| == i && fresh(made)
      invariant forall k :: 0 <= k < i ==> Holds(copied[k], j.items[k], made)
      invariant forall k :: 0 <= k < |items| ==> Holds(items[k], j.items[k], nodes)
    {
      ghost var before := made;
      var r, own := CopyValue(items[i], j.items[i], nodes);
      made := before + own;
      MoreNodes(r, j.items[i], own, made);
      forall q | 0 <= q < i ensures Holds(copied[q], j.items[q], made) {
        MoreNodes(copied[q], j.items[q], before, made);
      }
      copied := copied + [r];
    }
  }
}
