/** What it means that a traversal reports no truncation: nothing reachable is missing. */
module TreeCompleteness {
  import opened Common
  import opened TreeGraph
  import opened TreeWalk
  import opened TreeReference
  import opened TreeBounds
  import opened TreeRefinement

  ghost predicate Listed(records: seq<Record>, o: Obj) {
    exists i :: 0 <= i < |records| && records[i].obj == o
  }

  predicate NoFailedLink(records: seq<Record>) {
    forall i :: 0 <= i < |records| ==> !records[i].firstChildFailed && !records[i].nextSiblingFailed
  }

  ghost predicate ChainListed(g: Graph, start: Option<Obj>, records: seq<Record>) {
    forall k: nat :: g.Sibling(start, k).Some? ==> Listed(records, g.Sibling(start, k).value)
  }

  /** Reasons only accumulate, and stopping leaves one. */
  lemma {:induction false} ReasonsGrow(g: Graph, limits: Limits, frame: Frame, acc: Acc)
    requires limits.maxNodes.Some? && !acc.stopped
    ensures var r := Traversed(g, limits, frame, acc);
            acc.reasons <= r.reasons && (r.stopped ==> r.reasons != [])
    decreases Budget(limits, acc), if frame.Open? then acc.seen - frame.childSeen else NO_IDENTITIES, if frame.Open? then 1 else 0
  {
    if frame.Pending? {
      if !NodeLimitReached(limits, |acc.records|) && g.identity(frame.obj) !in acc.seen {
        ReasonsGrow(g, limits, Opened(g, limits, frame), Emitted(g, limits, frame, acc));
      }
    } else if HasChildToVisit(g, limits, frame) {
      var visited := Traversed(g, limits, ChildFrame(g, frame), acc);
      ReasonsGrow(g, limits, ChildFrame(g, frame), acc);
      if !visited.stopped {
        ReasonsGrow(g, limits, NextChild(g, frame), visited);
      }
    }
  }

  lemma ListedStays(records: seq<Record>, more: seq<Record>, o: Obj)
    requires records <= more && Listed(records, o)
    ensures Listed(more, o)
  {
    var i :| 0 <= i < |records| && records[i].obj == o;
    assert more[i].obj == o;
  }

  lemma ChainStaysListed(g: Graph, start: Option<Obj>, records: seq<Record>, more: seq<Record>)
    requires records <= more && ChainListed(g, start, records)
    ensures ChainListed(g, start, more)
  {
    forall k: nat | g.Sibling(start, k).Some?
      ensures Listed(more, g.Sibling(start, k).value)
    {
      ListedStays(records, more, g.Sibling(start, k).value);
    }
  }

  lemma ChainFromNext(g: Graph, start: Obj, records: seq<Record>)
    requires Listed(records, start) && ChainListed(g, g.nextSibling(start), records)
    ensures ChainListed(g, Some(start), records)
  {
    forall k: nat | g.Sibling(Some(start), k).Some?
      ensures Listed(records, g.Sibling(Some(start), k).value)
    {
      if k > 0 {
        assert g.Sibling(Some(start), k) == g.Sibling(g.nextSibling(start), k - 1);
      }
    }
  }

  /** From position `from` on, every record's children are all listed. */
  ghost predicate ChildrenListed(g: Graph, records: seq<Record>, from: nat, upTo: nat)
    requires from <= upTo <= |records|
  {
    forall i :: from <= i < upTo ==> ChainListed(g, g.firstChild(records[i].obj), records)
  }

  lemma ChildrenStayListed(g: Graph, records: seq<Record>, more: seq<Record>, from: nat, upTo: nat)
    requires records <= more && from <= upTo <= |records| && ChildrenListed(g, records, from, upTo)
    ensures ChildrenListed(g, more, from, upTo)
  {
    forall i | from <= i < upTo
      ensures ChainListed(g, g.firstChild(more[i].obj), more)
    {
      ChainStaysListed(g, g.firstChild(records[i].obj), records, more);
    }
  }

  /** Nothing was cut and no link failed. */
  ghost predicate Clean(acc: Acc) {
    acc.reasons == [] && NoFailedLink(acc.records)
  }

  lemma {:induction false} CleanVisitListsSubtree(g: Graph, limits: Limits, node: Frame, acc: Acc)
    requires limits.maxNodes.Some? && node.Pending? && !acc.stopped
    requires Clean(Traversed(g, limits, node, acc))
    ensures var r := Traversed(g, limits, node, acc);
            && !r.stopped && !node.nextSiblingFailed
            && Listed(r.records, node.obj)
            && ChildrenListed(g, r.records, |acc.records|, |r.records|)
    decreases Budget(limits, acc), NO_IDENTITIES, 0
  {
    ReasonsGrow(g, limits, node, acc);
    var open, emitted := Opened(g, limits, node), Emitted(g, limits, node, acc);
    var r := Traversed(g, limits, node, acc);
    ReasonsGrow(g, limits, open, emitted);
    assert r.records[|acc.records|] == RecordOf(g, node);
    CleanChildrenAreListed(g, limits, open, emitted);
    assert open.child == g.firstChild(node.obj);
  }

  lemma {:induction false} CleanChildrenAreListed(g: Graph, limits: Limits, frame: Frame, acc: Acc)
    requires limits.maxNodes.Some? && frame.Open? && !acc.stopped
    requires Clean(Traversed(g, limits, frame, acc))
    ensures var r := Traversed(g, limits, frame, acc);
            && !r.stopped
            && ChainListed(g, frame.child, r.records)
            && ChildrenListed(g, r.records, |acc.records|, |r.records|)
    decreases Budget(limits, acc), acc.seen - frame.childSeen, 1
  {
    ReasonsGrow(g, limits, frame, acc);
    if frame.child.Some? {
      var node, next := ChildFrame(g, frame), NextChild(g, frame);
      var visited := Traversed(g, limits, node, acc);
      var r := Traversed(g, limits, frame, acc);
      assert HasChildToVisit(g, limits, frame);
      ReasonsGrow(g, limits, node, acc);
      assert r == if visited.stopped then visited else Traversed(g, limits, next, visited);
      if !visited.stopped {
        ReasonsGrow(g, limits, next, visited);
      }
      assert Clean(visited) by {
        assert visited.records <= r.records && visited.reasons <= r.reasons;
      }
      CleanVisitListsSubtree(g, limits, node, acc);
      CleanChildrenAreListed(g, limits, next, visited);
      ListedStays(visited.records, r.records, frame.child.value);
      ChainFromNext(g, frame.child.value, r.records);
      ChildrenStayListed(g, visited.records, r.records, |acc.records|, |visited.records|);
    }
  }

  lemma {:induction false} ReachableIsListed(g: Graph, root: Obj, records: seq<Record>, path: seq<nat>)
    requires Listed(records, root) && ChildrenListed(g, records, 0, |records|)
    requires g.ObjectAt(root, path).Some?
    ensures Listed(records, g.ObjectAt(root, path).value)
    decreases |path|
  {
    if path == [] {
    } else {
      var parent := g.ObjectAt(root, path[..|path| - 1]);
      ReachableIsListed(g, root, records, path[..|path| - 1]);
      var i :| 0 <= i < |records| && records[i].obj == parent.value;
      assert ChainListed(g, g.firstChild(records[i].obj), records);
    }
  }

  lemma TraversalIsSound(g: Graph, limits: Limits, root: Option<Obj>)
    requires limits.maxNodes.Some?
    ensures DistinctIdentities(g, Traversal(g, limits, root).records)
    ensures |Traversal(g, limits, root).records| <= limits.maxNodes.value
  {
    var k := WalkReachesTraversal(g, limits, root);
    StartIsSound(g, limits, root);
    RunKeepsSound(g, limits, Start(root), k);
  }

  /** Without a reason and without a failed link, every object that any chain of
      first-child and next-sibling links leads to is listed, exactly once. */
  lemma UntruncatedIsComplete(g: Graph, limits: Limits, root: Obj, path: seq<nat>)
    requires limits.maxNodes.Some? && Clean(Traversal(g, limits, Some(root)))
    requires g.ObjectAt(root, path).Some?
    ensures var records := Traversal(g, limits, Some(root)).records;
            exists i :: 0 <= i < |records| && records[i].obj == g.ObjectAt(root, path).value
                        && forall j :: 0 <= j < |records| && records[j].obj == records[i].obj ==> j == i
  {
    var node, empty := Pending(root, None, 0, 0, false), Acc({}, [], [], false);
    var records := Traversal(g, limits, Some(root)).records;
    CleanVisitListsSubtree(g, limits, node, empty);
    ReachableIsListed(g, root, records, path);
    TraversalIsSound(g, limits, Some(root));
    var i :| 0 <= i < |records| && records[i].obj == g.ObjectAt(root, path).value;
    assert forall j :: 0 <= j < |records| && records[j].obj == records[i].obj ==> j == i;
  }
}
