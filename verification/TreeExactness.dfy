/**
 What a truncation reason means on any graph: none is reported exactly when every object
 that the links give is listed and no two paths of links lead to the same identity.
 */
module TreeExactness {
  import opened Common
  import opened TreeGraph
  import opened TreeWalk
  import opened TreeReference
  import opened TreeCompleteness
  import opened TreePlacement

  ghost predicate Faultless(g: Graph) {
    forall o :: !g.firstChildFails(o) && !g.nextSiblingFails(o)
  }

  // ---------- paths ----------

  lemma {:induction false} EarlierSibling(g: Graph, start: Option<Obj>, i: nat, j: nat)
    requires g.Sibling(start, j).Some? && i <= j
    ensures g.Sibling(start, i).Some?
    decreases i
  {
    if i == 0 {
    } else {
      EarlierSibling(g, g.nextSibling(start.value), i - 1, j - 1);
    }
  }

  lemma {:induction false} PathGoesThrough(g: Graph, root: Obj, p: seq<nat>, n: nat)
    requires g.ObjectAt(root, p).Some? && n <= |p|
    ensures g.ObjectAt(root, p[..n]).Some?
    decreases |p|
  {
    if n == |p| {
      assert p[..n] == p;
    } else {
      var before := p[..|p| - 1];
      PathGoesThrough(g, root, before, n);
      assert before[..n] == p[..n];
    }
  }

  /** Beyond the last child there is nothing. */
  lemma NothingBeyond(g: Graph, root: Obj, path: seq<nat>, i: nat, p: seq<nat>)
    requires g.ObjectAt(root, path).Some? && g.ObjectAt(root, path + [i]).None?
    requires path <= p && |p| > |path| && p[|path|] >= i
    ensures g.ObjectAt(root, p).None?
  {
    if g.ObjectAt(root, p).Some? {
      var j := p[|path|];
      PathGoesThrough(g, root, p, |path| + 1);
      assert p[..|path| + 1] == path + [j];
      ChildAt(g, root, path, i);
      ChildAt(g, root, path, j);
      EarlierSibling(g, g.firstChild(g.ObjectAt(root, path).value), i, j);
    }
  }

  // ---------- a traversal without reasons sees every path's identity once ----------

  /** The frame's next child is the next child there is. */
  ghost predicate Awaits(g: Graph, root: Obj, frame: Frame, path: seq<nat>) {
    frame.Open? ==> g.ObjectAt(root, path + [frame.childIndex]) == frame.child
  }

  ghost predicate SeesAll(g: Graph, root: Obj, frame: Frame, path: seq<nat>, before: set<Identity>, after: set<Identity>) {
    forall p, x :: Remaining(frame, path, p) && Leads(g, root, p, x) ==> x !in before && x in after
  }

  ghost predicate OncePerPath(g: Graph, root: Obj, frame: Frame, path: seq<nat>) {
    forall p, q, x :: Remaining(frame, path, p) && Remaining(frame, path, q) && Leads(g, root, p, x) && Leads(g, root, q, x) ==> p == q
  }

  lemma {:induction false} CleanSeesOnce(g: Graph, limits: Limits, root: Obj, frame: Frame, path: seq<nat>, acc: Acc)
    requires limits.maxNodes.Some? && Faultless(g) && !acc.stopped && At(g, root, frame, path) && Awaits(g, root, frame, path)
    requires Traversed(g, limits, frame, acc).reasons == []
    ensures SeesAll(g, root, frame, path, acc.seen, Traversed(g, limits, frame, acc).seen)
    ensures OncePerPath(g, root, frame, path)
    decreases Budget(limits, acc), if frame.Open? then acc.seen - frame.childSeen else NO_IDENTITIES, if frame.Open? then 1 else 0
  {
    ReasonsGrow(g, limits, frame, acc);
    if frame.Pending? {
      var open, emitted := Opened(g, limits, frame), Emitted(g, limits, frame, acc);
      OpenedIsAt(g, limits, root, frame, path);
      ReasonsGrow(g, limits, open, emitted);
      ChildAt(g, root, path, 0);
      CleanSeesOnce(g, limits, root, open, path, emitted);
      NodeSeesOnce(g, limits, root, frame, path, acc.seen, Traversed(g, limits, frame, acc).seen);
    } else if frame.child.None? {
      NoChildSeesOnce(g, root, frame, path, acc.seen);
    } else {
      var node, next := ChildFrame(g, frame), NextChild(g, frame);
      var visited := Traversed(g, limits, node, acc);
      ChildFrameIsAt(g, limits, root, frame, path);
      NextAwaits(g, root, frame, path);
      ReasonsGrow(g, limits, node, acc);
      if !visited.stopped {
        ReasonsGrow(g, limits, next, visited);
      }
      CleanSeesOnce(g, limits, root, node, path + [frame.childIndex], acc);
      CleanSeesOnce(g, limits, root, next, path, visited);
      ChildrenSeeOnce(g, root, frame, path, acc.seen, visited.seen, Traversed(g, limits, frame, acc).seen);
    }
  }

  lemma NodeSeesOnce(g: Graph, limits: Limits, root: Obj, frame: Frame, path: seq<nat>, before: set<Identity>, after: set<Identity>)
    requires frame.Pending? && At(g, root, frame, path) && g.identity(frame.obj) !in before
    requires before + {g.identity(frame.obj)} <= after
    requires SeesAll(g, root, Opened(g, limits, frame), path, before + {g.identity(frame.obj)}, after)
    requires OncePerPath(g, root, Opened(g, limits, frame), path)
    ensures SeesAll(g, root, frame, path, before, after) && OncePerPath(g, root, frame, path)
  {
    var open := Opened(g, limits, frame);
    forall p | Remaining(frame, path, p)
      ensures p == path || Remaining(open, path, p)
    {
    }
  }

  lemma NoChildSeesOnce(g: Graph, root: Obj, frame: Frame, path: seq<nat>, seen: set<Identity>)
    requires frame.Open? && At(g, root, frame, path) && Awaits(g, root, frame, path) && frame.child.None?
    ensures SeesAll(g, root, frame, path, seen, seen) && OncePerPath(g, root, frame, path)
  {
    forall p, x | Remaining(frame, path, p)
      ensures !Leads(g, root, p, x)
    {
      NothingBeyond(g, root, path, frame.childIndex, p);
    }
  }

  lemma NextAwaits(g: Graph, root: Obj, frame: Frame, path: seq<nat>)
    requires Faultless(g) && frame.Open? && At(g, root, frame, path) && frame.child.Some?
    ensures Awaits(g, root, NextChild(g, frame), path)
  {
    ChildAt(g, root, path, frame.childIndex);
    ChildAt(g, root, path, frame.childIndex + 1);
    SiblingAfter(g, g.firstChild(frame.obj), frame.childIndex);
  }

  lemma ChildrenSeeOnce(g: Graph, root: Obj, frame: Frame, path: seq<nat>, before: set<Identity>, between: set<Identity>, after: set<Identity>)
    requires frame.Open? && frame.child.Some? && before <= between <= after
    requires var node, here := ChildFrame(g, frame), path + [frame.childIndex];
             SeesAll(g, root, node, here, before, between) && OncePerPath(g, root, node, here)
    requires SeesAll(g, root, NextChild(g, frame), path, between, after) && OncePerPath(g, root, NextChild(g, frame), path)
    ensures SeesAll(g, root, frame, path, before, after) && OncePerPath(g, root, frame, path)
  {
    var node, here, next := ChildFrame(g, frame), path + [frame.childIndex], NextChild(g, frame);
    forall p | Remaining(frame, path, p)
      ensures Remaining(node, here, p) || Remaining(next, path, p)
    {
      if p[|path|] == frame.childIndex {
        assert here <= p;
      }
    }
  }

  lemma FaultlessIsExact(g: Graph, limits: Limits, root: Obj)
    requires limits.maxNodes.Some? && Faultless(g)
    ensures var t := Traversal(g, limits, Some(root));
            t.reasons == [] <==> Unshared(g, root) && AllListed(g, root, t.records)
  {
    var t := Traversal(g, limits, Some(root));
    if t.reasons == [] {
      var node := Pending(root, None, 0, 0, false);
      CleanSeesOnce(g, limits, root, node, [], Acc({}, [], [], false));
      assert forall p: seq<nat> :: Remaining(node, [], p);
    }
    if Unshared(g, root) {
      TruncatedIffIncomplete(g, limits, root);
    }
  }

  // ---------- links that fail ----------

  /** The graph as the walk reads it: a link whose read fails is no link. */
  function AsRead(g: Graph): Graph {
    Graph(g.identity, o => if g.firstChildFails(o) then None else g.firstChild(o),
          o => if g.nextSiblingFails(o) then None else g.nextSibling(o), o => false, o => false, g.objectId)
  }

  ghost predicate SameFrame(a: Frame, b: Frame) {
    match a
    case Pending(obj, parentId, depth, index, _) =>
      b.Pending? && b == Pending(obj, parentId, depth, index, b.nextSiblingFailed)
    case Open(_, _, _, _, _, _) => b == a
  }

  predicate SameObjects(a: seq<Record>, b: seq<Record>) {
    |a| == |b| && forall i :: 0 <= i < |a| ==> a[i].obj == b[i].obj
  }

  ghost predicate SameAcc(a: Acc, b: Acc) {
    a.seen == b.seen && a.reasons == b.reasons && a.stopped == b.stopped && SameObjects(a.records, b.records)
  }

  /** Failing links change nothing but the flags in the records. */
  lemma {:induction false} ReadGraphIsEnough(g: Graph, limits: Limits, frame: Frame, frame': Frame, acc: Acc, acc': Acc)
    requires limits.maxNodes.Some? && !acc.stopped && SameFrame(frame, frame') && SameAcc(acc, acc')
    ensures SameAcc(Traversed(g, limits, frame, acc), Traversed(AsRead(g), limits, frame', acc'))
    decreases Budget(limits, acc), if frame.Open? then acc.seen - frame.childSeen else NO_IDENTITIES, if frame.Open? then 1 else 0
  {
    var r := AsRead(g);
    if frame.Pending? {
      if !NodeLimitReached(limits, |acc.records|) && g.identity(frame.obj) !in acc.seen {
        assert Opened(r, limits, frame') == Opened(g, limits, frame);
        ReadGraphIsEnough(g, limits, Opened(g, limits, frame), Opened(r, limits, frame'),
                          Emitted(g, limits, frame, acc), Emitted(r, limits, frame', acc'));
      }
    } else if HasChildToVisit(g, limits, frame) {
      var visited, visited' := Traversed(g, limits, ChildFrame(g, frame), acc), Traversed(r, limits, ChildFrame(r, frame), acc');
      ReadGraphIsEnough(g, limits, ChildFrame(g, frame), ChildFrame(r, frame), acc, acc');
      assert NextChild(r, frame) == NextChild(g, frame);
      if !visited.stopped {
        ReadGraphIsEnough(g, limits, NextChild(g, frame), NextChild(r, frame), visited, visited');
      }
    }
  }

  lemma SameObjectsListed(g: Graph, root: Obj, a: seq<Record>, b: seq<Record>)
    requires SameObjects(a, b)
    ensures AllListed(g, root, a) <==> AllListed(g, root, b)
  {
    forall o: Obj
      ensures Listed(a, o) <==> Listed(b, o)
    {
      if Listed(a, o) {
        var i :| 0 <= i < |a| && a[i].obj == o;
        assert b[i].obj == o;
      }
      if Listed(b, o) {
        var i :| 0 <= i < |b| && b[i].obj == o;
        assert a[i].obj == o;
      }
    }
  }

  /** On any graph: no reason is reported if and only if everything that the readable links
      lead to is listed and no two of their paths lead to the same identity. */
  lemma TruncationIsExact(g: Graph, limits: Limits, root: Obj)
    requires limits.maxNodes.Some?
    ensures var t := Traversal(g, limits, Some(root));
            t.reasons == [] <==> Unshared(AsRead(g), root) && AllListed(AsRead(g), root, t.records)
  {
    var node, empty := Pending(root, None, 0, 0, false), Acc({}, [], [], false);
    ReadGraphIsEnough(g, limits, node, node, empty, empty);
    FaultlessIsExact(AsRead(g), limits, root);
    SameObjectsListed(AsRead(g), root, Traversal(g, limits, Some(root)).records, Traversal(AsRead(g), limits, Some(root)).records);
  }

  /** When nothing is missing, a reason is still reported if and only if some identity is
      reached by two paths. */
  lemma OverreportedIffShared(g: Graph, limits: Limits, root: Obj)
    requires limits.maxNodes.Some? && AllListed(AsRead(g), root, Traversal(g, limits, Some(root)).records)
    ensures Traversal(g, limits, Some(root)).reasons != []
       <==> exists p, q, x :: p != q && Leads(AsRead(g), root, p, x) && Leads(AsRead(g), root, q, x)
  {
    TruncationIsExact(g, limits, root);
  }
}
