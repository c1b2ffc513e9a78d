/**
 The nested answer as the service builds it: one node object a record, each appended in
 place to its parent's list of children.
 */
module TreeNested {
  import opened Common
  import opened TreeGraph
  import opened TreeWalk
  import opened TreeOutline
  import opened TreeNesting

  class NestedNode {
    const record: Record
    var children: seq<NestedNode>

    constructor (record: Record)
      ensures this.record == record && children == []
    {
      this.record := record;
      children := [];
    }
  }

  /** The single root when there is one, otherwise a list of roots. */
  datatype NestedResult = Single(root: NestedNode) | Several(roots: seq<NestedNode>)

  /** The node at position i shows exactly the tree at position i. */
  ghost predicate Shows(nodes: set<NestedNode>, node: NestedNode, tree: Tree)
    reads nodes
    decreases tree
  {
    && node in nodes && node.record == tree.record && |node.children| == |tree.children|
    && forall j :: 0 <= j < |tree.children| ==> Shows(nodes, node.children[j], tree.children[j])
  }

  function Pick<T>(items: seq<T>, positions: seq<nat>): seq<T>
    requires forall j :: 0 <= j < |positions| ==> positions[j] < |items|
  {
    seq(|positions|, j requires 0 <= j < |positions| => items[positions[j]])
  }

  /** The node at position i holds its record and the nodes of its record's children. */
  ghost predicate LinkedAt(records: seq<Record>, nodes: seq<NestedNode>, i: nat)
    requires i < |nodes| == |records|
    reads nodes
  {
    nodes[i].record == records[i] && nodes[i].children == Pick(nodes, Kids(records, i))
  }

  ghost predicate Linked(records: seq<Record>, nodes: seq<NestedNode>)
    reads nodes
  {
    && |nodes| == |records|
    && (forall i, j :: 0 <= i < j < |nodes| ==> nodes[i] != nodes[j])
    && (forall i: nat :: i < |nodes| ==> LinkedAt(records, nodes, i))
  }

  ghost function NodeSet(nodes: seq<NestedNode>): set<NestedNode> {
    set n | n in nodes
  }

  lemma {:induction false} TreeChildren(records: seq<Record>, i: nat, m: nat, j: nat)
    requires i < |records| && j < m <= |Kids(records, i)|
    ensures TreesAt(records, i, m)[j] == TreeAt(records, Kids(records, i)[j])
  {
    if j == m - 1 {
    } else {
      TreeChildren(records, i, m - 1, j);
    }
  }

  lemma {:induction false} LinkedShowsTree(records: seq<Record>, nodes: seq<NestedNode>, i: nat)
    requires Linked(records, nodes) && i < |records|
    ensures Shows(NodeSet(nodes), nodes[i], TreeAt(records, i))
    decreases |records| - i
  {
    var kids, tree := Kids(records, i), TreeAt(records, i);
    assert LinkedAt(records, nodes, i);
    forall j | 0 <= j < |kids|
      ensures Shows(NodeSet(nodes), nodes[i].children[j], tree.children[j])
    {
      LinkedShowsTree(records, nodes, kids[j]);
      TreeChildren(records, i, |kids|, j);
    }
  }

  /** Appending a node to its parent's children is what the children positions say. */
  lemma PickStep(records: seq<Record>, record: Record, nodes: seq<NestedNode>, node: NestedNode, i: nat)
    requires |nodes| == |records| && i < |records|
    ensures Pick(nodes + [node], Kids(records + [record], i))
            == Pick(nodes, Kids(records, i)) + (if ParentOf(records + [record], |records|) == Some(i) then [node] else [])
  {
    KidsStep(records, record, i);
  }

  lemma OutlineAt(records: seq<Record>, n: nat)
    requires Outline(records) && n < |records|
    ensures records[..n + 1] == records[..n] + [records[n]] && Continues(records[..n], records[n])
    ensures n == 0 ==> records[n].parentId == None
    ensures n > 0 ==> var parent := ParentOf(records[..n] + [records[n]], n);
                      parent.Some? && parent.value < n && records[n].parentId == Some(records[parent.value].id)
  {
    assert ContinuesPrefix(records, n);
    assert (records[..n] + [records[n]])[..n] == records[..n];
  }

  /** The node of an appended record, not yet in any list of children. */
  ghost predicate Loose(record: Record, nodes: seq<NestedNode>, node: NestedNode)
    reads node
  {
    node !in nodes && node.record == record && node.children == []
  }

  method Attach(parentNode: NestedNode, node: NestedNode, ghost before: seq<Record>, ghost nodes: seq<NestedNode>)
    requires before != [] && Linked(before, nodes) && Continues(before, node.record) && Loose(node.record, nodes, node)
    requires ParentOf(before + [node.record], |before|).Some? && ParentOf(before + [node.record], |before|).value < |before|
    requires parentNode == nodes[ParentOf(before + [node.record], |before|).value]
    modifies parentNode`children
    ensures Linked(before + [node.record], nodes + [node])
  {
    ghost var parent := ParentOf(before + [node.record], |before|).value;
    parentNode.children := parentNode.children + [node];
    ghost var after, grown := nodes + [node], before + [node.record];
    forall i: nat | i < |after|
      ensures LinkedAt(grown, after, i)
    {
      if i == |nodes| {
        LastHasNoKids(grown);
      } else {
        PickStep(before, node.record, nodes, node, i);
        assert after[i] == nodes[i] && old(LinkedAt(before, nodes, i));
        assert i != parent ==> nodes[i] != parentNode;
      }
    }
  }

  lemma FirstIsLinked(node: NestedNode)
    requires Loose(node.record, [], node)
    ensures Linked([node.record], [node])
  {
    LastHasNoKids([node.record]);
  }

  /** The id table finds the node of every record so far. */
  ghost predicate Indexed(records: seq<Record>, nodes: seq<NestedNode>, byId: map<ObjectId, NestedNode>) {
    |nodes| <= |records| && forall i :: 0 <= i < |nodes| ==> records[i].id in byId && byId[records[i].id] == nodes[i]
  }

  lemma IndexGrows(records: seq<Record>, nodes: seq<NestedNode>, byId: map<ObjectId, NestedNode>, node: NestedNode)
    requires Indexed(records, nodes, byId) && DistinctRecordIds(records) && |nodes| < |records|
    ensures Indexed(records, nodes + [node], byId[records[|nodes|].id := node])
  {
  }

  /** Outside an outline the answer would depend on ids that repeat; a walk emits none. */
  method Nested(records: seq<Record>) returns (r: NestedResult, ghost nodes: seq<NestedNode>)
    requires Outline(records) && DistinctRecordIds(records)
    ensures Linked(records, nodes) && fresh(nodes)
    ensures records == [] ==> r == Several([])
    ensures records != [] ==> r.Single? && Shows(NodeSet(nodes), r.root, TreeAt(records, 0))
  {
    var byId: map<ObjectId, NestedNode> := map[];
    var roots: seq<NestedNode> := [];
    nodes := [];
    for n := 0 to |records|
      invariant |nodes| == n && fresh(nodes) && Linked(records[..n], nodes)
      invariant Indexed(records, nodes, byId)
      invariant roots == if n == 0 then [] else [nodes[0]]
    {
      ghost var before := records[..n];
      var record := records[n];
      OutlineAt(records, n);
      var node := new NestedNode(record);
      IndexGrows(records, nodes, byId, node);
      byId := byId[record.id := node];
      if record.parentId.Some? && record.parentId.value in byId {
        assert byId[record.parentId.value] == nodes[ParentOf(before + [record], n).value];
        Attach(byId[record.parentId.value], node, before, nodes);
      } else {
        assert n == 0;
        roots := roots + [node];
        FirstIsLinked(node);
        assert before + [record] == [record] && nodes + [node] == [node];
      }
      nodes := nodes + [node];
    }
    assert records[..|records|] == records;
    if |roots| == 1 {
      LinkedShowsTree(records, nodes, 0);
      r := Single(roots[0]);
    } else {
      r := Several(roots);
    }
  }
}
