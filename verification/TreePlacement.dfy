/**
 Where the emitted records lie in the object graph, and the converse of completeness:
 on a graph without shared or cyclic objects and without failing links, a truncation
 reason is reported exactly when some reachable object is missing.
 */
module TreePlacement {
  import opened Common
  import opened TreeGraph
  import opened TreeWalk
  import opened TreeReference
  import opened TreeBounds
  import opened TreeRefinement
  import opened TreeCompleteness

  /** The position of a record: its depth, its index, and its parent's id all tell the truth,
      and so do its flags about the links that could not be read. */
  ghost predicate PlacedAt(g: Graph, root: Obj, record: Record, path: seq<nat>) {
    && g.ObjectAt(root, path) == Some(record.obj)
    && record.id == g.IdOf(record.obj)
    && record.depth == |path|
    && record.firstChildFailed == g.firstChildFails(record.obj)
    && record.nextSiblingFailed == (path != [] && g.nextSiblingFails(record.obj))
    && if path == [] then record.parentId.None? && record.index == 0
       else var parent := g.ObjectAt(root, path[..|path| - 1]);
            parent.Some? && record.parentId == Some(g.IdOf(parent.value)) && record.index == path[|path| - 1]
  }

  /** The depth limit bounds the length of a path, the child limit every position on it. */
  predicate Within(limits: Limits, path: seq<nat>) {
    && (limits.depth.Some? ==> |path| <= limits.depth.value)
    && (limits.maxChildren.Some? ==> forall i :: 0 <= i < |path| ==> path[i] < limits.maxChildren.value)
  }

  /** Some path within the limits that starts with `path` leads to the record's place. */
  ghost predicate PlacedBelow(g: Graph, limits: Limits, root: Obj, record: Record, path: seq<nat>) {
    exists p :: path <= p && Within(limits, p) && PlacedAt(g, root, record, p)
  }

  ghost predicate NodeAt(g: Graph, root: Obj, node: Frame, path: seq<nat>) {
    node.Pending? && PlacedAt(g, root, RecordOf(g, node), path)
  }

  /** An open frame for the object at `path`, whose next child is the one at position childIndex. */
  ghost predicate FrameAt(g: Graph, root: Obj, frame: Frame, path: seq<nat>) {
    && frame.Open? && g.ObjectAt(root, path) == Some(frame.obj)
    && frame.nodeId == g.IdOf(frame.obj) && frame.depth == |path|
    && (frame.child.Some? ==> g.ObjectAt(root, path + [frame.childIndex]) == frame.child)
  }

  lemma {:induction false} SiblingAfter(g: Graph, start: Option<Obj>, k: nat)
    requires g.Sibling(start, k).Some?
    ensures g.Sibling(start, k + 1) == g.nextSibling(g.Sibling(start, k).value)
    decreases k
  {
    if k > 0 {
      SiblingAfter(g, g.nextSibling(start.value), k - 1);
    } else {
      assert g.Sibling(start, 1) == g.Sibling(g.nextSibling(start.value), 0);
    }
  }

  lemma ChildAt(g: Graph, root: Obj, path: seq<nat>, k: nat)
    requires g.ObjectAt(root, path).Some?
    ensures g.ObjectAt(root, path + [k]) == g.Sibling(g.firstChild(g.ObjectAt(root, path).value), k)
  {
    assert (path + [k])[..|path + [k]| - 1] == path;
  }

  lemma OpenedIsAt(g: Graph, limits: Limits, root: Obj, node: Frame, path: seq<nat>)
    requires NodeAt(g, root, node, path)
    ensures FrameAt(g, root, Opened(g, limits, node), path)
  {
    ChildAt(g, root, path, 0);
  }

  lemma ChildFrameIsAt(g: Graph, limits: Limits, root: Obj, frame: Frame, path: seq<nat>)
    requires FrameAt(g, root, frame, path) && frame.child.Some?
    ensures NodeAt(g, root, ChildFrame(g, frame), path + [frame.childIndex])
    ensures FrameAt(g, root, NextChild(g, frame), path)
  {
    assert (path + [frame.childIndex])[..|path + [frame.childIndex]| - 1] == path;
    ChildAt(g, root, path, frame.childIndex);
    ChildAt(g, root, path, frame.childIndex + 1);
    SiblingAfter(g, g.firstChild(frame.obj), frame.childIndex);
  }

  /** The path of a frame, or of the parent whose child it awaits. */
  ghost predicate At(g: Graph, root: Obj, frame: Frame, path: seq<nat>) {
    if frame.Pending? then NodeAt(g, root, frame, path) else FrameAt(g, root, frame, path)
  }

  /** A frame with a path within the limits; an open one whose children the limits do not keep out. */
  predicate Inside(limits: Limits, frame: Frame, path: seq<nat>) {
    && Within(limits, path)
    && (frame.Open? ==>
          && (limits.depth.Some? ==> |path| < limits.depth.value)
          && (limits.maxChildren.Some? ==> frame.childIndex <= limits.maxChildren.value))
  }

  predicate AtDepthLimit(limits: Limits, path: seq<nat>) {
    limits.depth == Some(|path|)
  }

  lemma ChildIsInside(g: Graph, limits: Limits, frame: Frame, path: seq<nat>)
    requires Inside(limits, frame, path) && HasChildToVisit(g, limits, frame)
    ensures Inside(limits, ChildFrame(g, frame), path + [frame.childIndex]) && Inside(limits, NextChild(g, frame), path)
  {
  }

  lemma NothingBelowDepthLimit(g: Graph, limits: Limits, root: Obj, node: Frame, path: seq<nat>, acc: Acc)
    requires limits.maxNodes.Some? && node.Pending? && !acc.stopped && At(g, root, node, path) && AtDepthLimit(limits, path)
    requires !NodeLimitReached(limits, |acc.records|) && g.identity(node.obj) !in acc.seen
    ensures Traversed(g, limits, node, acc) == Emitted(g, limits, node, acc)
  {
    var open, emitted := Opened(g, limits, node), Emitted(g, limits, node, acc);
    assert open.child == None && Traversed(g, limits, open, emitted) == emitted;
    assert Traversed(g, limits, node, acc) == Traversed(g, limits, open, emitted);
  }

  ghost predicate AllPlaced(g: Graph, limits: Limits, root: Obj, records: seq<Record>, from: nat, path: seq<nat>) {
    forall i :: from <= i < |records| ==> PlacedBelow(g, limits, root, records[i], path)
  }

  lemma NodeIsPlaced(g: Graph, limits: Limits, root: Obj, node: Frame, path: seq<nat>, from: nat, records: seq<Record>)
    requires At(g, root, node, path) && node.Pending? && Inside(limits, node, path)
    requires from < |records| && records[from] == RecordOf(g, node) && AllPlaced(g, limits, root, records, from + 1, path)
    ensures AllPlaced(g, limits, root, records, from, path)
  {
    assert path <= path && Within(limits, path) && PlacedAt(g, root, records[from], path);
  }

  lemma ChildrenArePlaced(g: Graph, limits: Limits, root: Obj, path: seq<nat>, index: nat, from: nat, first: seq<Record>, records: seq<Record>)
    requires first <= records && AllPlaced(g, limits, root, first, from, path + [index])
    requires AllPlaced(g, limits, root, records, |first|, path)
    ensures AllPlaced(g, limits, root, records, from, path)
  {
    forall i | from <= i < |first|
      ensures PlacedBelow(g, limits, root, records[i], path)
    {
      assert PlacedBelow(g, limits, root, first[i], path + [index]);
      var p :| path + [index] <= p && Within(limits, p) && PlacedAt(g, root, first[i], p);
      assert path <= p;
    }
  }

  lemma {:induction false} RecordsArePlaced(g: Graph, limits: Limits, root: Obj, frame: Frame, path: seq<nat>, acc: Acc)
    requires limits.maxNodes.Some? && !acc.stopped && At(g, root, frame, path) && Inside(limits, frame, path)
    ensures AllPlaced(g, limits, root, Traversed(g, limits, frame, acc).records, |acc.records|, path)
    decreases Budget(limits, acc), if frame.Open? then acc.seen - frame.childSeen else NO_IDENTITIES, if frame.Open? then 1 else 0
  {
    var r := Traversed(g, limits, frame, acc);
    if frame.Pending? {
      if !NodeLimitReached(limits, |acc.records|) && g.identity(frame.obj) !in acc.seen {
        var open, emitted := Opened(g, limits, frame), Emitted(g, limits, frame, acc);
        if !AtDepthLimit(limits, path) {
          OpenedIsAt(g, limits, root, frame, path);
          RecordsArePlaced(g, limits, root, open, path, emitted);
          assert r == Traversed(g, limits, open, emitted);
        } else {
          NothingBelowDepthLimit(g, limits, root, frame, path, acc);
        }
        assert emitted.records <= r.records && emitted.records[|acc.records|] == RecordOf(g, frame);
        NodeIsPlaced(g, limits, root, frame, path, |acc.records|, r.records);
      }
    } else if HasChildToVisit(g, limits, frame) {
      ChildFrameIsAt(g, limits, root, frame, path);
      ChildIsInside(g, limits, frame, path);
      var visited := Traversed(g, limits, ChildFrame(g, frame), acc);
      RecordsArePlaced(g, limits, root, ChildFrame(g, frame), path + [frame.childIndex], acc);
      if !visited.stopped {
        RecordsArePlaced(g, limits, root, NextChild(g, frame), path, visited);
      }
      ChildrenArePlaced(g, limits, root, path, frame.childIndex, |acc.records|, visited.records, r.records);
    }
  }

  /** Every record of a traversal is the object at the path its depths and indexes spell out,
      and that path is within the limits. */
  lemma TraversalRecordsArePlaced(g: Graph, limits: Limits, root: Obj, i: nat)
    requires limits.maxNodes.Some? && i < |Traversal(g, limits, Some(root)).records|
    ensures PlacedBelow(g, limits, root, Traversal(g, limits, Some(root)).records[i], [])
  {
    var node, empty := Pending(root, None, 0, 0, false), Acc({}, [], [], false);
    assert Traversal(g, limits, Some(root)) == Traversed(g, limits, node, empty);
    RecordsArePlaced(g, limits, root, node, [], empty);
  }

  // ---------- the converse of completeness ----------

  ghost predicate Leads(g: Graph, root: Obj, path: seq<nat>, id: Identity) {
    g.ObjectAt(root, path).Some? && g.identity(g.ObjectAt(root, path).value) == id
  }

  /** No two paths lead to the same identity. */
  ghost predicate Unshared(g: Graph, root: Obj) {
    forall p, q, x :: Leads(g, root, p, x) && Leads(g, root, q, x) ==> p == q
  }

  /** The paths that the rest of a frame can visit: its node and everything below it, or
      the subtrees of the children from the current one on. */
  predicate Remaining(frame: Frame, path: seq<nat>, p: seq<nat>) {
    path <= p && (frame.Open? ==> |p| > |path| && p[|path|] >= frame.childIndex)
  }

  ghost predicate Untouched(g: Graph, root: Obj, frame: Frame, path: seq<nat>, seen: set<Identity>) {
    forall p, x :: Remaining(frame, path, p) && Leads(g, root, p, x) ==> x !in seen
  }

  ghost predicate SeenRemaining(g: Graph, root: Obj, frame: Frame, path: seq<nat>, before: set<Identity>, after: set<Identity>) {
    forall x :: x in after && x !in before ==> exists p :: Remaining(frame, path, p) && Leads(g, root, p, x)
  }

  lemma {:induction false} SeesOnlyRemaining(g: Graph, limits: Limits, root: Obj, frame: Frame, path: seq<nat>, acc: Acc)
    requires limits.maxNodes.Some? && !acc.stopped && At(g, root, frame, path)
    ensures SeenRemaining(g, root, frame, path, acc.seen, Traversed(g, limits, frame, acc).seen)
    decreases Budget(limits, acc), if frame.Open? then acc.seen - frame.childSeen else NO_IDENTITIES, if frame.Open? then 1 else 0
  {
    if frame.Pending? {
      if !NodeLimitReached(limits, |acc.records|) && g.identity(frame.obj) !in acc.seen {
        OpenedIsAt(g, limits, root, frame, path);
        var emitted := Emitted(g, limits, frame, acc);
        SeesOnlyRemaining(g, limits, root, Opened(g, limits, frame), path, emitted);
        forall x | x in Traversed(g, limits, frame, acc).seen && x !in acc.seen
          ensures exists p :: Remaining(frame, path, p) && Leads(g, root, p, x)
        {
          if x in emitted.seen {
            assert Remaining(frame, path, path) && Leads(g, root, path, x);
          } else {
            var p :| Remaining(Opened(g, limits, frame), path, p) && Leads(g, root, p, x);
            assert Remaining(frame, path, p);
          }
        }
      }
    } else if HasChildToVisit(g, limits, frame) {
      ChildFrameIsAt(g, limits, root, frame, path);
      var visited := Traversed(g, limits, ChildFrame(g, frame), acc);
      SeesOnlyRemaining(g, limits, root, ChildFrame(g, frame), path + [frame.childIndex], acc);
      if !visited.stopped {
        SeesOnlyRemaining(g, limits, root, NextChild(g, frame), path, visited);
      }
      forall x | x in Traversed(g, limits, frame, acc).seen && x !in acc.seen
        ensures exists p :: Remaining(frame, path, p) && Leads(g, root, p, x)
      {
        if x in visited.seen {
          var p :| Remaining(ChildFrame(g, frame), path + [frame.childIndex], p) && Leads(g, root, p, x);
          assert p[|path|] == (path + [frame.childIndex])[|path|];
          assert Remaining(frame, path, p);
        } else {
          var p :| Remaining(NextChild(g, frame), path, p) && Leads(g, root, p, x);
          assert Remaining(frame, path, p);
        }
      }
    }
  }

  /** The siblings already pushed are those at the smaller positions. */
  ghost predicate SiblingsSeen(g: Graph, root: Obj, frame: Frame, path: seq<nat>) {
    frame.Open? ==> forall x :: x in frame.childSeen ==> exists j: nat :: j < frame.childIndex && Leads(g, root, path + [j], x)
  }

  /** On an unshared graph a first reason leaves an object of the remaining part unseen. */
  lemma {:induction false} ReasonLeavesGap(g: Graph, limits: Limits, root: Obj, frame: Frame, path: seq<nat>, acc: Acc)
    returns (gap: seq<nat>)
    requires limits.maxNodes.Some? && !acc.stopped && At(g, root, frame, path) && Unshared(g, root)
    requires Untouched(g, root, frame, path, acc.seen) && SiblingsSeen(g, root, frame, path)
    requires acc.reasons == [] && Traversed(g, limits, frame, acc).reasons != []
    ensures Remaining(frame, path, gap) && g.ObjectAt(root, gap).Some?
    ensures g.identity(g.ObjectAt(root, gap).value) !in Traversed(g, limits, frame, acc).seen
    decreases Budget(limits, acc), if frame.Open? then acc.seen - frame.childSeen else NO_IDENTITIES, if frame.Open? then 3 else 1
  {
    if frame.Pending? {
      assert Remaining(frame, path, path) && Leads(g, root, path, g.identity(frame.obj));
      if NodeLimitReached(limits, |acc.records|) {
        gap := path;
      } else {
        gap := GapInsideNode(g, limits, root, frame, path, acc);
      }
    } else {
      var here := path + [frame.childIndex];
      assert Remaining(frame, path, here) && Leads(g, root, here, g.identity(frame.child.value));
      if ChildLimitReached(limits, frame.childIndex) {
        gap := here;
      } else {
        RepeatedSiblingIsShared(g, root, frame, path);
        gap := GapAmongChildren(g, limits, root, frame, path, acc);
      }
    }
  }

  lemma {:induction false} GapInsideNode(g: Graph, limits: Limits, root: Obj, frame: Frame, path: seq<nat>, acc: Acc)
    returns (gap: seq<nat>)
    requires limits.maxNodes.Some? && !acc.stopped && At(g, root, frame, path) && Unshared(g, root)
    requires frame.Pending? && !NodeLimitReached(limits, |acc.records|) && g.identity(frame.obj) !in acc.seen
    requires Untouched(g, root, frame, path, acc.seen)
    requires acc.reasons == [] && Traversed(g, limits, frame, acc).reasons != []
    ensures Remaining(frame, path, gap) && g.ObjectAt(root, gap).Some?
    ensures g.identity(g.ObjectAt(root, gap).value) !in Traversed(g, limits, frame, acc).seen
    decreases Budget(limits, acc), NO_IDENTITIES, 0
  {
    var open, emitted := Opened(g, limits, frame), Emitted(g, limits, frame, acc);
    OpenedIsAt(g, limits, root, frame, path);
    InsideIsUntouched(g, limits, root, frame, path, acc);
    if emitted.reasons != [] {
      ChildAt(g, root, path, 0);
      gap := path + [0];
      assert Remaining(open, path, gap) && Leads(g, root, gap, g.identity(g.ObjectAt(root, gap).value));
      assert Traversed(g, limits, open, emitted) == emitted;
    } else {
      gap := ReasonLeavesGap(g, limits, root, open, path, emitted);
    }
  }

  lemma InsideIsUntouched(g: Graph, limits: Limits, root: Obj, frame: Frame, path: seq<nat>, acc: Acc)
    requires frame.Pending? && At(g, root, frame, path) && Unshared(g, root) && Untouched(g, root, frame, path, acc.seen)
    ensures Untouched(g, root, Opened(g, limits, frame), path, Emitted(g, limits, frame, acc).seen)
  {
    var open, emitted := Opened(g, limits, frame), Emitted(g, limits, frame, acc);
    assert Leads(g, root, path, g.identity(frame.obj));
    forall p, x | Remaining(open, path, p) && Leads(g, root, p, x)
      ensures x !in emitted.seen
    {
      assert Remaining(frame, path, p);
    }
  }

  lemma RepeatedSiblingIsShared(g: Graph, root: Obj, frame: Frame, path: seq<nat>)
    requires At(g, root, frame, path) && frame.Open? && frame.child.Some?
    requires Unshared(g, root) && SiblingsSeen(g, root, frame, path)
    ensures g.identity(frame.child.value) !in frame.childSeen
  {
    var here := path + [frame.childIndex];
    if g.identity(frame.child.value) in frame.childSeen {
      var j: nat :| j < frame.childIndex && Leads(g, root, path + [j], g.identity(frame.child.value));
      assert (path + [j])[|path|] == j && here[|path|] == frame.childIndex;
      assert Leads(g, root, here, g.identity(frame.child.value));
    }
  }

  lemma {:induction false} GapAmongChildren(g: Graph, limits: Limits, root: Obj, frame: Frame, path: seq<nat>, acc: Acc)
    returns (gap: seq<nat>)
    requires limits.maxNodes.Some? && !acc.stopped && At(g, root, frame, path) && Unshared(g, root)
    requires HasChildToVisit(g, limits, frame)
    requires Untouched(g, root, frame, path, acc.seen) && SiblingsSeen(g, root, frame, path)
    requires acc.reasons == [] && Traversed(g, limits, frame, acc).reasons != []
    ensures Remaining(frame, path, gap) && g.ObjectAt(root, gap).Some?
    ensures g.identity(g.ObjectAt(root, gap).value) !in Traversed(g, limits, frame, acc).seen
    decreases Budget(limits, acc), acc.seen - frame.childSeen, 2
  {
    var here := path + [frame.childIndex];
    var node, next := ChildFrame(g, frame), NextChild(g, frame);
    var visited := Traversed(g, limits, node, acc);
    ChildFrameIsAt(g, limits, root, frame, path);
    ReasonsGrow(g, limits, node, acc);
    ChildIsUntouched(g, root, frame, path, acc.seen);
    if visited.reasons != [] {
      gap := ReasonLeavesGap(g, limits, root, node, here, acc);
      ChildPathIsRemaining(g, frame, path, gap);
      if !visited.stopped {
        SeesOnlyRemaining(g, limits, root, next, path, visited);
        GapStays(g, root, next, path, gap, visited.seen, Traversed(g, limits, next, visited).seen);
      }
    } else {
      SeesOnlyRemaining(g, limits, root, node, here, acc);
      RestIsUntouched(g, root, frame, path, acc.seen, visited.seen);
      SiblingsAdvance(g, root, frame, path);
      gap := ReasonLeavesGap(g, limits, root, next, path, visited);
      assert Remaining(frame, path, gap);
    }
  }

  lemma ChildPathIsRemaining(g: Graph, frame: Frame, path: seq<nat>, p: seq<nat>)
    requires frame.Open? && frame.child.Some? && Remaining(ChildFrame(g, frame), path + [frame.childIndex], p)
    ensures Remaining(frame, path, p) && p[|path|] == frame.childIndex
  {
    assert p[|path|] == (path + [frame.childIndex])[|path|];
  }

  lemma ChildIsUntouched(g: Graph, root: Obj, frame: Frame, path: seq<nat>, seen: set<Identity>)
    requires frame.Open? && frame.child.Some? && Untouched(g, root, frame, path, seen)
    ensures Untouched(g, root, ChildFrame(g, frame), path + [frame.childIndex], seen)
  {
    forall p, x | Remaining(ChildFrame(g, frame), path + [frame.childIndex], p) && Leads(g, root, p, x)
      ensures x !in seen
    {
      ChildPathIsRemaining(g, frame, path, p);
    }
  }

  lemma RestIsUntouched(g: Graph, root: Obj, frame: Frame, path: seq<nat>, before: set<Identity>, after: set<Identity>)
    requires frame.Open? && frame.child.Some? && Unshared(g, root) && Untouched(g, root, frame, path, before)
    requires SeenRemaining(g, root, ChildFrame(g, frame), path + [frame.childIndex], before, after)
    ensures Untouched(g, root, NextChild(g, frame), path, after)
  {
    forall p, x | Remaining(NextChild(g, frame), path, p) && Leads(g, root, p, x)
      ensures x !in after
    {
      assert Remaining(frame, path, p);
      forall q | Remaining(ChildFrame(g, frame), path + [frame.childIndex], q)
        ensures q != p
      {
        ChildPathIsRemaining(g, frame, path, q);
      }
    }
  }

  lemma SiblingsAdvance(g: Graph, root: Obj, frame: Frame, path: seq<nat>)
    requires At(g, root, frame, path) && frame.Open? && frame.child.Some? && SiblingsSeen(g, root, frame, path)
    ensures SiblingsSeen(g, root, NextChild(g, frame), path)
  {
    var next := NextChild(g, frame);
    forall x | x in next.childSeen
      ensures exists j: nat :: j < next.childIndex && Leads(g, root, path + [j], x)
    {
      if x == g.identity(frame.child.value) {
        assert Leads(g, root, path + [frame.childIndex], x);
      } else {
        var j: nat :| j < frame.childIndex && Leads(g, root, path + [j], x);
      }
    }
  }

  lemma GapStays(g: Graph, root: Obj, next: Frame, path: seq<nat>, gap: seq<nat>, before: set<Identity>, after: set<Identity>)
    requires Unshared(g, root) && SeenRemaining(g, root, next, path, before, after)
    requires g.ObjectAt(root, gap).Some? && !Remaining(next, path, gap)
    requires g.identity(g.ObjectAt(root, gap).value) !in before
    ensures g.identity(g.ObjectAt(root, gap).value) !in after
  {
    var x := g.identity(g.ObjectAt(root, gap).value);
    assert Leads(g, root, gap, x);
  }

  ghost predicate AllListed(g: Graph, root: Obj, records: seq<Record>) {
    forall path :: g.ObjectAt(root, path).Some? ==> Listed(records, g.ObjectAt(root, path).value)
  }

  /** On a graph whose links never fail and that shares no object, `truncated` says exactly
      whether something reachable is missing. */
  lemma TruncatedIffIncomplete(g: Graph, limits: Limits, root: Obj)
    requires limits.maxNodes.Some? && Unshared(g, root)
    requires forall o :: !g.firstChildFails(o) && !g.nextSiblingFails(o)
    ensures var t := Traversal(g, limits, Some(root));
            t.reasons == [] <==> AllListed(g, root, t.records)
  {
    var t := Traversal(g, limits, Some(root));
    var node, empty := Pending(root, None, 0, 0, false), Acc({}, [], [], false);
    if t.reasons == [] {
      forall i | 0 <= i < |t.records|
        ensures !t.records[i].firstChildFailed && !t.records[i].nextSiblingFailed
      {
        NoFlagWithoutFailure(g, limits, node, empty);
      }
      CleanVisitListsSubtree(g, limits, node, empty);
      forall path | g.ObjectAt(root, path).Some?
        ensures Listed(t.records, g.ObjectAt(root, path).value)
      {
        ReachableIsListed(g, root, t.records, path);
      }
    } else {
      var gap := ReasonLeavesGap(g, limits, root, node, [], empty);
      var k := WalkReachesTraversal(g, limits, Some(root));
      StartIsSound(g, limits, Some(root));
      RunKeepsSound(g, limits, Start(Some(root)), k);
      assert !Listed(t.records, g.ObjectAt(root, gap).value);
    }
  }

  lemma {:induction false} NoFlagWithoutFailure(g: Graph, limits: Limits, frame: Frame, acc: Acc)
    requires limits.maxNodes.Some? && !acc.stopped
    requires forall o :: !g.firstChildFails(o) && !g.nextSiblingFails(o)
    requires frame.Pending? ==> !frame.nextSiblingFailed
    requires NoFailedLink(acc.records)
    ensures NoFailedLink(Traversed(g, limits, frame, acc).records)
    decreases Budget(limits, acc), if frame.Open? then acc.seen - frame.childSeen else NO_IDENTITIES, if frame.Open? then 1 else 0
  {
    if frame.Pending? {
      if !NodeLimitReached(limits, |acc.records|) && g.identity(frame.obj) !in acc.seen {
        NoFlagWithoutFailure(g, limits, Opened(g, limits, frame), Emitted(g, limits, frame, acc));
      }
    } else if HasChildToVisit(g, limits, frame) {
      var visited := Traversed(g, limits, ChildFrame(g, frame), acc);
      NoFlagWithoutFailure(g, limits, ChildFrame(g, frame), acc);
      if !visited.stopped {
        NoFlagWithoutFailure(g, limits, NextChild(g, frame), visited);
      }
    }
  }

  // ---------- a reason can also be reported when nothing is missing ----------

  /** One object that is its own first child. */
  function SelfLoop(): Graph {
    Graph(o => o, o => Some(0), o => None, o => false, o => false, i => i)
  }

  lemma {:induction false} SelfLoopReachesItself(path: seq<nat>)
    ensures SelfLoop().ObjectAt(0, path).Some? ==> SelfLoop().ObjectAt(0, path) == Some(0)
  {
    if path == [] {
    } else {
      var k := path[|path| - 1];
      SelfLoopReachesItself(path[..|path| - 1]);
      if k > 0 {
        assert SelfLoop().Sibling(Some(0), k) == SelfLoop().Sibling(None, k - 1);
      }
    }
  }

  /** The node limit is tested before the cycle: with one node allowed, the pending
      revisit of the root is reported as a cut although nothing is missing. */
  lemma NodeLimitCanOverreport()
    ensures var t := Traversal(SelfLoop(), Limits(None, None, Some(1)), Some(0));
            t.reasons == [NodeLimit] && AllListed(SelfLoop(), 0, t.records)
  {
    var g, limits := SelfLoop(), Limits(None, None, Some(1));
    var node, empty := Pending(0, None, 0, 0, false), Acc({}, [], [], false);
    var t := Traversal(g, limits, Some(0));
    var emitted, open := Emitted(g, limits, node, empty), Opened(g, limits, node);
    assert t == Traversed(g, limits, open, emitted);
    assert Traversed(g, limits, ChildFrame(g, open), emitted) == emitted.(reasons := [NodeLimit], stopped := true);
    forall path | g.ObjectAt(0, path).Some?
      ensures Listed(t.records, g.ObjectAt(0, path).value)
    {
      SelfLoopReachesItself(path);
      assert t.records[0].obj == 0;
    }
  }
}
