/**
 What the limits of a request let through, told on paths of child positions: which objects
 are listed, and what each truncation reason says.
 */
module TreeLimits {
  import opened Common
  import opened TreeGraph
  import opened TreeWalk
  import opened TreeReference
  import opened TreeBounds
  import opened TreeRefinement
  import opened TreeCompleteness
  import opened TreePlacement
  import opened TreeExactness

  /** The object at `p` is the first that a limit keeps out of the children of its parent. */
  ghost predicate Cut(g: Graph, limits: Limits, root: Obj, reason: Reason, p: seq<nat>) {
    && p != [] && g.ObjectAt(root, p).Some?
    && var parent, position := p[..|p| - 1], p[|p| - 1];
       && Within(limits, parent)
       && match reason
          case DepthLimit => limits.depth == Some(|parent|) && position == 0
          case ChildLimit => limits.maxChildren == Some(position) && (limits.depth.Some? ==> |parent| < limits.depth.value)
          case _ => false
  }

  ghost predicate LeadsWithin(g: Graph, limits: Limits, root: Obj, p: seq<nat>, x: Identity) {
    Within(limits, p) && Leads(g, root, p, x)
  }

  /** No two paths within the limits lead to the same identity. */
  ghost predicate UnsharedWithin(g: Graph, limits: Limits, root: Obj) {
    forall p, q, x :: LeadsWithin(g, limits, root, p, x) && LeadsWithin(g, limits, root, q, x) ==> p == q
  }

  // ---------- where a frame of the traversal stands ----------

  ghost predicate FreshPlaces(g: Graph, limits: Limits, root: Obj, frame: Frame, path: seq<nat>, seen: set<Identity>) {
    forall p, x :: Remaining(frame, path, p) && LeadsWithin(g, limits, root, p, x) ==> x !in seen
  }

  ghost predicate Ready(g: Graph, limits: Limits, root: Obj, frame: Frame, path: seq<nat>, acc: Acc) {
    && limits.maxNodes.Some? && !acc.stopped
    && At(g, root, frame, path) && Awaits(g, root, frame, path) && Inside(limits, frame, path)
    && FreshPlaces(g, limits, root, frame, path, acc.seen) && SiblingsSeen(g, root, frame, path)
  }

  ghost predicate SeenPlaces(g: Graph, limits: Limits, root: Obj, frame: Frame, path: seq<nat>, before: set<Identity>, after: set<Identity>) {
    forall x :: x in after && x !in before ==> exists p :: Remaining(frame, path, p) && LeadsWithin(g, limits, root, p, x)
  }

  lemma OpenedSeesPlaces(g: Graph, limits: Limits, root: Obj, node: Frame, path: seq<nat>, before: set<Identity>, after: set<Identity>)
    requires node.Pending? && At(g, root, node, path) && Inside(limits, node, path)
    requires SeenPlaces(g, limits, root, Opened(g, limits, node), path, before + {g.identity(node.obj)}, after)
    ensures SeenPlaces(g, limits, root, node, path, before, after)
  {
    var open := Opened(g, limits, node);
    forall x | x in after && x !in before
      ensures exists p :: Remaining(node, path, p) && LeadsWithin(g, limits, root, p, x)
    {
      if x == g.identity(node.obj) {
        assert Remaining(node, path, path) && LeadsWithin(g, limits, root, path, x);
      } else {
        var p :| Remaining(open, path, p) && LeadsWithin(g, limits, root, p, x);
        assert Remaining(node, path, p);
      }
    }
  }

  lemma ChildrenSeePlaces(g: Graph, limits: Limits, root: Obj, frame: Frame, path: seq<nat>,
                          before: set<Identity>, between: set<Identity>, after: set<Identity>)
    requires frame.Open? && frame.child.Some?
    requires SeenPlaces(g, limits, root, ChildFrame(g, frame), path + [frame.childIndex], before, between)
    requires SeenPlaces(g, limits, root, NextChild(g, frame), path, between, after)
    ensures SeenPlaces(g, limits, root, frame, path, before, after)
  {
    var node, here, next := ChildFrame(g, frame), path + [frame.childIndex], NextChild(g, frame);
    forall x | x in after && x !in before
      ensures exists p :: Remaining(frame, path, p) && LeadsWithin(g, limits, root, p, x)
    {
      if x in between {
        var p :| Remaining(node, here, p) && LeadsWithin(g, limits, root, p, x);
        ChildPathIsRemaining(g, frame, path, p);
      } else {
        var p :| Remaining(next, path, p) && LeadsWithin(g, limits, root, p, x);
        assert Remaining(frame, path, p);
      }
    }
  }

  /** On any graph: what a traversal sees stands at places within the limits. */
  lemma {:induction false} SeesOnlyPlaces(g: Graph, limits: Limits, root: Obj, frame: Frame, path: seq<nat>, acc: Acc)
    requires limits.maxNodes.Some? && !acc.stopped && At(g, root, frame, path) && Inside(limits, frame, path)
    ensures SeenPlaces(g, limits, root, frame, path, acc.seen, Traversed(g, limits, frame, acc).seen)
    decreases Budget(limits, acc), if frame.Open? then acc.seen - frame.childSeen else NO_IDENTITIES, if frame.Open? then 1 else 0
  {
    var after := Traversed(g, limits, frame, acc).seen;
    if frame.Pending? {
      if !NodeLimitReached(limits, |acc.records|) && g.identity(frame.obj) !in acc.seen {
        var open, emitted := Opened(g, limits, frame), Emitted(g, limits, frame, acc);
        if !AtDepthLimit(limits, path) {
          OpenedIsAt(g, limits, root, frame, path);
          SeesOnlyPlaces(g, limits, root, open, path, emitted);
        } else {
          NothingBelowDepthLimit(g, limits, root, frame, path, acc);
        }
        OpenedSeesPlaces(g, limits, root, frame, path, acc.seen, after);
      }
    } else if HasChildToVisit(g, limits, frame) {
      var node, next := ChildFrame(g, frame), NextChild(g, frame);
      var visited := Traversed(g, limits, node, acc);
      ChildFrameIsAt(g, limits, root, frame, path);
      ChildIsInside(g, limits, frame, path);
      SeesOnlyPlaces(g, limits, root, node, path + [frame.childIndex], acc);
      if !visited.stopped {
        SeesOnlyPlaces(g, limits, root, next, path, visited);
      }
      ChildrenSeePlaces(g, limits, root, frame, path, acc.seen, visited.seen, after);
    }
  }

  // ---------- the parts of a traversal ----------

  lemma NodeIsNew(g: Graph, limits: Limits, root: Obj, node: Frame, path: seq<nat>, acc: Acc)
    requires node.Pending? && Ready(g, limits, root, node, path, acc)
    ensures g.identity(node.obj) !in acc.seen && LeadsWithin(g, limits, root, path, g.identity(node.obj))
  {
    assert Remaining(node, path, path) && LeadsWithin(g, limits, root, path, g.identity(node.obj));
  }

  lemma OpenedIsReady(g: Graph, limits: Limits, root: Obj, node: Frame, path: seq<nat>, acc: Acc)
    requires Faultless(g) && UnsharedWithin(g, limits, root)
    requires node.Pending? && Ready(g, limits, root, node, path, acc) && !AtDepthLimit(limits, path)
    ensures Ready(g, limits, root, Opened(g, limits, node), path, Emitted(g, limits, node, acc))
  {
    var open, emitted := Opened(g, limits, node), Emitted(g, limits, node, acc);
    OpenedIsAt(g, limits, root, node, path);
    ChildAt(g, root, path, 0);
    NodeIsNew(g, limits, root, node, path, acc);
    forall p, x | Remaining(open, path, p) && LeadsWithin(g, limits, root, p, x)
      ensures x !in emitted.seen
    {
      assert Remaining(node, path, p);
    }
  }

  lemma NoRepeatedSibling(g: Graph, limits: Limits, root: Obj, frame: Frame, path: seq<nat>, acc: Acc)
    requires UnsharedWithin(g, limits, root) && frame.Open? && Ready(g, limits, root, frame, path, acc)
    requires frame.child.Some? && !ChildLimitReached(limits, frame.childIndex)
    ensures HasChildToVisit(g, limits, frame)
  {
    var here, x := path + [frame.childIndex], g.identity(frame.child.value);
    if x in frame.childSeen {
      var j: nat :| j < frame.childIndex && Leads(g, root, path + [j], x);
      assert (path + [j])[|path|] == j && here[|path|] == frame.childIndex;
      assert LeadsWithin(g, limits, root, here, x) && LeadsWithin(g, limits, root, path + [j], x);
    }
  }

  lemma ChildIsReady(g: Graph, limits: Limits, root: Obj, frame: Frame, path: seq<nat>, acc: Acc)
    requires frame.Open? && Ready(g, limits, root, frame, path, acc) && HasChildToVisit(g, limits, frame)
    ensures Ready(g, limits, root, ChildFrame(g, frame), path + [frame.childIndex], acc)
  {
    ChildFrameIsAt(g, limits, root, frame, path);
    ChildIsInside(g, limits, frame, path);
    forall p, x | Remaining(ChildFrame(g, frame), path + [frame.childIndex], p) && LeadsWithin(g, limits, root, p, x)
      ensures x !in acc.seen
    {
      ChildPathIsRemaining(g, frame, path, p);
    }
  }

  lemma RestIsReady(g: Graph, limits: Limits, root: Obj, frame: Frame, path: seq<nat>, acc: Acc)
    requires Faultless(g) && UnsharedWithin(g, limits, root)
    requires frame.Open? && Ready(g, limits, root, frame, path, acc) && HasChildToVisit(g, limits, frame)
    requires !Traversed(g, limits, ChildFrame(g, frame), acc).stopped
    ensures Ready(g, limits, root, NextChild(g, frame), path, Traversed(g, limits, ChildFrame(g, frame), acc))
  {
    var node, here, next := ChildFrame(g, frame), path + [frame.childIndex], NextChild(g, frame);
    var visited := Traversed(g, limits, node, acc);
    ChildFrameIsAt(g, limits, root, frame, path);
    ChildIsInside(g, limits, frame, path);
    NextAwaits(g, root, frame, path);
    SiblingsAdvance(g, root, frame, path);
    SeesOnlyPlaces(g, limits, root, node, here, acc);
    RestIsFresh(g, limits, root, frame, path, acc.seen, visited.seen);
  }

  lemma RestIsFresh(g: Graph, limits: Limits, root: Obj, frame: Frame, path: seq<nat>, before: set<Identity>, after: set<Identity>)
    requires UnsharedWithin(g, limits, root) && frame.Open? && frame.child.Some?
    requires FreshPlaces(g, limits, root, frame, path, before)
    requires SeenPlaces(g, limits, root, ChildFrame(g, frame), path + [frame.childIndex], before, after)
    ensures FreshPlaces(g, limits, root, NextChild(g, frame), path, after)
  {
    var node, here, next := ChildFrame(g, frame), path + [frame.childIndex], NextChild(g, frame);
    forall p, x | Remaining(next, path, p) && LeadsWithin(g, limits, root, p, x)
      ensures x !in after
    {
      assert Remaining(frame, path, p);
      forall q | Remaining(node, here, q)
        ensures q != p
      {
        ChildPathIsRemaining(g, frame, path, q);
      }
    }
  }

  lemma SplitRemaining(g: Graph, frame: Frame, path: seq<nat>, p: seq<nat>)
    requires frame.Open? && frame.child.Some?
    ensures Remaining(frame, path, p)
       <==> Remaining(ChildFrame(g, frame), path + [frame.childIndex], p) || Remaining(NextChild(g, frame), path, p)
  {
    if Remaining(frame, path, p) && p[|path|] == frame.childIndex {
      assert path + [frame.childIndex] <= p;
    }
    if Remaining(ChildFrame(g, frame), path + [frame.childIndex], p) {
      ChildPathIsRemaining(g, frame, path, p);
    }
  }

  // ---------- everything within the limits is seen, unless the nodes run out ----------

  ghost predicate SomeMissed(g: Graph, limits: Limits, root: Obj, frame: Frame, path: seq<nat>, seen: set<Identity>) {
    exists p, x :: Remaining(frame, path, p) && LeadsWithin(g, limits, root, p, x) && x !in seen
  }

  ghost predicate Settled(g: Graph, limits: Limits, root: Obj, frame: Frame, path: seq<nat>, r: Acc) {
    r.stopped <==> SomeMissed(g, limits, root, frame, path, r.seen)
  }

  lemma {:induction false} PlacesAreSeen(g: Graph, limits: Limits, root: Obj, frame: Frame, path: seq<nat>, acc: Acc)
    requires Faultless(g) && UnsharedWithin(g, limits, root) && Ready(g, limits, root, frame, path, acc)
    ensures Settled(g, limits, root, frame, path, Traversed(g, limits, frame, acc))
    decreases Budget(limits, acc), if frame.Open? then acc.seen - frame.childSeen else NO_IDENTITIES, if frame.Open? then 3 else 1
  {
    if frame.Pending? {
      NodeIsNew(g, limits, root, frame, path, acc);
      if NodeLimitReached(limits, |acc.records|) {
        assert Remaining(frame, path, path);
      } else if AtDepthLimit(limits, path) {
        NothingBelowDepthLimit(g, limits, root, frame, path, acc);
        OnlyNodeWithin(g, limits, root, frame, path, Emitted(g, limits, frame, acc).seen);
      } else {
        PlacesInsideAreSeen(g, limits, root, frame, path, acc);
      }
    } else if frame.child.None? || ChildLimitReached(limits, frame.childIndex) {
      NoMoreWithin(g, limits, root, frame, path, acc);
    } else {
      NoRepeatedSibling(g, limits, root, frame, path, acc);
      PlacesOfChildrenAreSeen(g, limits, root, frame, path, acc);
    }
  }

  lemma {:induction false} PlacesInsideAreSeen(g: Graph, limits: Limits, root: Obj, frame: Frame, path: seq<nat>, acc: Acc)
    requires Faultless(g) && UnsharedWithin(g, limits, root) && Ready(g, limits, root, frame, path, acc)
    requires frame.Pending? && !NodeLimitReached(limits, |acc.records|) && g.identity(frame.obj) !in acc.seen && !AtDepthLimit(limits, path)
    ensures Settled(g, limits, root, frame, path, Traversed(g, limits, frame, acc))
    decreases Budget(limits, acc), NO_IDENTITIES, 0
  {
    OpenedIsReady(g, limits, root, frame, path, acc);
    PlacesAreSeen(g, limits, root, Opened(g, limits, frame), path, Emitted(g, limits, frame, acc));
    NodeIsSettled(g, limits, root, frame, path, Traversed(g, limits, frame, acc));
  }

  lemma {:induction false} PlacesOfChildrenAreSeen(g: Graph, limits: Limits, root: Obj, frame: Frame, path: seq<nat>, acc: Acc)
    requires Faultless(g) && UnsharedWithin(g, limits, root) && Ready(g, limits, root, frame, path, acc)
    requires HasChildToVisit(g, limits, frame)
    ensures Settled(g, limits, root, frame, path, Traversed(g, limits, frame, acc))
    decreases Budget(limits, acc), acc.seen - frame.childSeen, 2
  {
    var node, next := ChildFrame(g, frame), NextChild(g, frame);
    var visited := Traversed(g, limits, node, acc);
    ChildIsReady(g, limits, root, frame, path, acc);
    PlacesAreSeen(g, limits, root, node, path + [frame.childIndex], acc);
    if visited.stopped {
      MissedInChild(g, limits, root, frame, path, visited.seen);
    } else {
      RestIsReady(g, limits, root, frame, path, acc);
      PlacesAreSeen(g, limits, root, next, path, visited);
      ChildrenAreSettled(g, limits, root, frame, path, visited, Traversed(g, limits, frame, acc));
    }
  }

  lemma OnlyNodeWithin(g: Graph, limits: Limits, root: Obj, node: Frame, path: seq<nat>, seen: set<Identity>)
    requires node.Pending? && At(g, root, node, path) && AtDepthLimit(limits, path) && g.identity(node.obj) in seen
    ensures !SomeMissed(g, limits, root, node, path, seen)
  {
    forall p, x | Remaining(node, path, p) && LeadsWithin(g, limits, root, p, x)
      ensures x in seen
    {
      assert p == path;
    }
  }

  lemma NodeIsSettled(g: Graph, limits: Limits, root: Obj, node: Frame, path: seq<nat>, r: Acc)
    requires node.Pending? && At(g, root, node, path) && g.identity(node.obj) in r.seen
    requires Settled(g, limits, root, Opened(g, limits, node), path, r)
    ensures Settled(g, limits, root, node, path, r)
  {
    var open := Opened(g, limits, node);
    forall p
      ensures Remaining(open, path, p) ==> Remaining(node, path, p)
      ensures Remaining(node, path, p) ==> p == path || Remaining(open, path, p)
    {
    }
    if SomeMissed(g, limits, root, open, path, r.seen) {
      var p, x :| Remaining(open, path, p) && LeadsWithin(g, limits, root, p, x) && x !in r.seen;
      assert Remaining(node, path, p);
    }
  }

  lemma NoMoreWithin(g: Graph, limits: Limits, root: Obj, frame: Frame, path: seq<nat>, acc: Acc)
    requires frame.Open? && Ready(g, limits, root, frame, path, acc)
    requires frame.child.None? || ChildLimitReached(limits, frame.childIndex)
    ensures !SomeMissed(g, limits, root, frame, path, acc.seen)
  {
    forall p, x | Remaining(frame, path, p)
      ensures !LeadsWithin(g, limits, root, p, x)
    {
      if frame.child.None? {
        NothingBeyond(g, root, path, frame.childIndex, p);
      }
    }
  }

  lemma MissedInChild(g: Graph, limits: Limits, root: Obj, frame: Frame, path: seq<nat>, seen: set<Identity>)
    requires frame.Open? && frame.child.Some?
    requires SomeMissed(g, limits, root, ChildFrame(g, frame), path + [frame.childIndex], seen)
    ensures SomeMissed(g, limits, root, frame, path, seen)
  {
    var p, x :| Remaining(ChildFrame(g, frame), path + [frame.childIndex], p) && LeadsWithin(g, limits, root, p, x) && x !in seen;
    ChildPathIsRemaining(g, frame, path, p);
  }

  lemma ChildrenAreSettled(g: Graph, limits: Limits, root: Obj, frame: Frame, path: seq<nat>, visited: Acc, r: Acc)
    requires frame.Open? && frame.child.Some? && visited.seen <= r.seen && !visited.stopped
    requires Settled(g, limits, root, ChildFrame(g, frame), path + [frame.childIndex], visited)
    requires Settled(g, limits, root, NextChild(g, frame), path, r)
    ensures Settled(g, limits, root, frame, path, r)
  {
    if SomeMissed(g, limits, root, frame, path, r.seen) {
      var p, x :| Remaining(frame, path, p) && LeadsWithin(g, limits, root, p, x) && x !in r.seen;
      SplitRemaining(g, frame, path, p);
      assert x !in visited.seen;
    }
    if SomeMissed(g, limits, root, NextChild(g, frame), path, r.seen) {
      var p, x :| Remaining(NextChild(g, frame), path, p) && LeadsWithin(g, limits, root, p, x) && x !in r.seen;
      SplitRemaining(g, frame, path, p);
    }
  }

  // ---------- what the reasons say ----------

  ghost predicate SomeCut(g: Graph, limits: Limits, root: Obj, frame: Frame, path: seq<nat>, reason: Reason) {
    exists p :: Remaining(frame, path, p) && Cut(g, limits, root, reason, p)
  }

  ghost predicate Told(g: Graph, limits: Limits, root: Obj, frame: Frame, path: seq<nat>, reason: Reason, acc: Acc, r: Acc) {
    && (reason in r.reasons ==> reason in acc.reasons || SomeCut(g, limits, root, frame, path, reason))
    && (!r.stopped && (reason in acc.reasons || SomeCut(g, limits, root, frame, path, reason)) ==> reason in r.reasons)
  }

  lemma {:induction false} ReasonsAreCuts(g: Graph, limits: Limits, root: Obj, frame: Frame, path: seq<nat>, acc: Acc, reason: Reason)
    requires Faultless(g) && UnsharedWithin(g, limits, root) && Ready(g, limits, root, frame, path, acc) && reason != NodeLimit
    ensures Told(g, limits, root, frame, path, reason, acc, Traversed(g, limits, frame, acc))
    decreases Budget(limits, acc), if frame.Open? then acc.seen - frame.childSeen else NO_IDENTITIES, if frame.Open? then 3 else 1
  {
    if frame.Pending? {
      NodeIsNew(g, limits, root, frame, path, acc);
      if NodeLimitReached(limits, |acc.records|) {
        StoppedTellsNothing(g, limits, root, frame, path, reason, acc);
      } else if AtDepthLimit(limits, path) {
        NothingBelowDepthLimit(g, limits, root, frame, path, acc);
        DepthIsTold(g, limits, root, frame, path, acc, reason);
      } else {
        ReasonsInsideAreCuts(g, limits, root, frame, path, acc, reason);
      }
    } else if frame.child.None? || ChildLimitReached(limits, frame.childIndex) {
      EndIsTold(g, limits, root, frame, path, acc, reason);
    } else {
      NoRepeatedSibling(g, limits, root, frame, path, acc);
      ReasonsOfChildrenAreCuts(g, limits, root, frame, path, acc, reason);
    }
  }

  lemma {:induction false} ReasonsInsideAreCuts(g: Graph, limits: Limits, root: Obj, frame: Frame, path: seq<nat>, acc: Acc, reason: Reason)
    requires Faultless(g) && UnsharedWithin(g, limits, root) && Ready(g, limits, root, frame, path, acc) && reason != NodeLimit
    requires frame.Pending? && !NodeLimitReached(limits, |acc.records|) && g.identity(frame.obj) !in acc.seen && !AtDepthLimit(limits, path)
    ensures Told(g, limits, root, frame, path, reason, acc, Traversed(g, limits, frame, acc))
    decreases Budget(limits, acc), NO_IDENTITIES, 0
  {
    OpenedIsReady(g, limits, root, frame, path, acc);
    ReasonsAreCuts(g, limits, root, Opened(g, limits, frame), path, Emitted(g, limits, frame, acc), reason);
    NodeIsTold(g, limits, root, frame, path, reason, acc, Traversed(g, limits, frame, acc));
  }

  lemma {:induction false} ReasonsOfChildrenAreCuts(g: Graph, limits: Limits, root: Obj, frame: Frame, path: seq<nat>, acc: Acc, reason: Reason)
    requires Faultless(g) && UnsharedWithin(g, limits, root) && Ready(g, limits, root, frame, path, acc) && reason != NodeLimit
    requires HasChildToVisit(g, limits, frame)
    ensures Told(g, limits, root, frame, path, reason, acc, Traversed(g, limits, frame, acc))
    decreases Budget(limits, acc), acc.seen - frame.childSeen, 2
  {
    var node, next := ChildFrame(g, frame), NextChild(g, frame);
    var visited := Traversed(g, limits, node, acc);
    ChildIsReady(g, limits, root, frame, path, acc);
    ReasonsAreCuts(g, limits, root, node, path + [frame.childIndex], acc, reason);
    if visited.stopped {
      ChildIsTold(g, limits, root, frame, path, reason, acc, visited);
    } else {
      RestIsReady(g, limits, root, frame, path, acc);
      ReasonsAreCuts(g, limits, root, next, path, visited, reason);
      ChildrenAreTold(g, limits, root, frame, path, reason, acc, visited, Traversed(g, limits, frame, acc));
    }
  }

  lemma StoppedTellsNothing(g: Graph, limits: Limits, root: Obj, node: Frame, path: seq<nat>, reason: Reason, acc: Acc)
    requires limits.maxNodes.Some? && node.Pending? && !acc.stopped && NodeLimitReached(limits, |acc.records|) && reason != NodeLimit
    ensures Told(g, limits, root, node, path, reason, acc, Traversed(g, limits, node, acc))
  {
  }

  lemma NodeIsTold(g: Graph, limits: Limits, root: Obj, node: Frame, path: seq<nat>, reason: Reason, acc: Acc, r: Acc)
    requires node.Pending? && At(g, root, node, path) && Inside(limits, node, path) && !AtDepthLimit(limits, path)
    requires Told(g, limits, root, Opened(g, limits, node), path, reason, Emitted(g, limits, node, acc), r)
    ensures Told(g, limits, root, node, path, reason, acc, r)
  {
    SameCutsInside(g, limits, root, node, path, reason);
  }

  lemma EndIsTold(g: Graph, limits: Limits, root: Obj, frame: Frame, path: seq<nat>, acc: Acc, reason: Reason)
    requires frame.Open? && Ready(g, limits, root, frame, path, acc)
    requires frame.child.None? || ChildLimitReached(limits, frame.childIndex)
    ensures Told(g, limits, root, frame, path, reason, acc, Traversed(g, limits, frame, acc))
  {
    if frame.child.None? {
      NoCutWithoutChild(g, limits, root, frame, path, acc, reason);
    } else {
      OnlyChildCut(g, limits, root, frame, path, acc, reason);
    }
  }

  lemma ChildIsTold(g: Graph, limits: Limits, root: Obj, frame: Frame, path: seq<nat>, reason: Reason, acc: Acc, visited: Acc)
    requires frame.Open? && frame.child.Some? && visited.stopped
    requires Told(g, limits, root, ChildFrame(g, frame), path + [frame.childIndex], reason, acc, visited)
    ensures Told(g, limits, root, frame, path, reason, acc, visited)
  {
    CutsSplit(g, limits, root, frame, path, reason);
  }

  lemma ChildrenAreTold(g: Graph, limits: Limits, root: Obj, frame: Frame, path: seq<nat>, reason: Reason, acc: Acc, visited: Acc, r: Acc)
    requires frame.Open? && frame.child.Some? && !visited.stopped
    requires Told(g, limits, root, ChildFrame(g, frame), path + [frame.childIndex], reason, acc, visited)
    requires Told(g, limits, root, NextChild(g, frame), path, reason, visited, r)
    ensures Told(g, limits, root, frame, path, reason, acc, r)
  {
    CutsSplit(g, limits, root, frame, path, reason);
  }

  lemma CutIsBelow(g: Graph, limits: Limits, root: Obj, path: seq<nat>, reason: Reason, p: seq<nat>)
    requires Within(limits, path) && path <= p && Cut(g, limits, root, reason, p)
    ensures |p| > |path| && path <= p[..|p| - 1]
  {
    if |p| > |path| {
      assert path <= p[..|p| - 1];
    }
  }

  lemma DepthIsTold(g: Graph, limits: Limits, root: Obj, node: Frame, path: seq<nat>, acc: Acc, reason: Reason)
    requires Faultless(g) && node.Pending? && Ready(g, limits, root, node, path, acc) && AtDepthLimit(limits, path)
    ensures Told(g, limits, root, node, path, reason, acc, Emitted(g, limits, node, acc))
  {
    var first := path + [0];
    ChildAt(g, root, path, 0);
    assert first[..|first| - 1] == path;
    if g.firstChild(node.obj).Some? {
      assert Remaining(node, path, first) && Cut(g, limits, root, DepthLimit, first);
    }
    forall p | Remaining(node, path, p) && Cut(g, limits, root, reason, p)
      ensures p == first && reason == DepthLimit
    {
      CutIsBelow(g, limits, root, path, reason, p);
      assert p[..|p| - 1] == path;
      assert p == p[..|p| - 1] + [p[|p| - 1]];
    }
  }

  lemma SameCutsInside(g: Graph, limits: Limits, root: Obj, node: Frame, path: seq<nat>, reason: Reason)
    requires node.Pending? && Within(limits, path)
    ensures SomeCut(g, limits, root, node, path, reason) <==> SomeCut(g, limits, root, Opened(g, limits, node), path, reason)
  {
    var open := Opened(g, limits, node);
    forall p | Cut(g, limits, root, reason, p)
      ensures Remaining(node, path, p) <==> Remaining(open, path, p)
    {
      if path <= p {
        CutIsBelow(g, limits, root, path, reason, p);
      }
    }
  }

  lemma NoCutWithoutChild(g: Graph, limits: Limits, root: Obj, frame: Frame, path: seq<nat>, acc: Acc, reason: Reason)
    requires frame.Open? && Ready(g, limits, root, frame, path, acc) && frame.child.None?
    ensures !SomeCut(g, limits, root, frame, path, reason)
  {
    forall p | Remaining(frame, path, p)
      ensures !Cut(g, limits, root, reason, p)
    {
      NothingBeyond(g, root, path, frame.childIndex, p);
    }
  }

  lemma OnlyChildCut(g: Graph, limits: Limits, root: Obj, frame: Frame, path: seq<nat>, acc: Acc, reason: Reason)
    requires frame.Open? && Ready(g, limits, root, frame, path, acc)
    requires frame.child.Some? && ChildLimitReached(limits, frame.childIndex)
    ensures SomeCut(g, limits, root, frame, path, reason) <==> reason == ChildLimit
  {
    var here := path + [frame.childIndex];
    assert here[..|here| - 1] == path;
    assert Remaining(frame, path, here) && Cut(g, limits, root, ChildLimit, here);
    forall p | Remaining(frame, path, p) && Cut(g, limits, root, reason, p)
      ensures reason == ChildLimit
    {
      CutIsBelow(g, limits, root, path, reason, p);
      if |p| - 1 > |path| {
        assert p[..|p| - 1][|path|] == p[|path|];
      }
    }
  }

  lemma CutsSplit(g: Graph, limits: Limits, root: Obj, frame: Frame, path: seq<nat>, reason: Reason)
    requires frame.Open? && frame.child.Some?
    ensures SomeCut(g, limits, root, frame, path, reason)
       <==> || SomeCut(g, limits, root, ChildFrame(g, frame), path + [frame.childIndex], reason)
            || SomeCut(g, limits, root, NextChild(g, frame), path, reason)
  {
    forall p
      ensures Remaining(frame, path, p)
         <==> Remaining(ChildFrame(g, frame), path + [frame.childIndex], p) || Remaining(NextChild(g, frame), path, p)
    {
      SplitRemaining(g, frame, path, p);
    }
  }

  /** The node limit is the reason that stops a traversal, with as many records as it allows. */
  lemma {:induction false} StoppedAtNodeLimit(g: Graph, limits: Limits, frame: Frame, acc: Acc)
    requires limits.maxNodes.Some? && !acc.stopped
    ensures var r := Traversed(g, limits, frame, acc);
            && (NodeLimit in r.reasons <==> NodeLimit in acc.reasons || r.stopped)
            && (r.stopped ==> |r.records| >= limits.maxNodes.value)
    decreases Budget(limits, acc), if frame.Open? then acc.seen - frame.childSeen else NO_IDENTITIES, if frame.Open? then 1 else 0
  {
    if frame.Pending? {
      if !NodeLimitReached(limits, |acc.records|) && g.identity(frame.obj) !in acc.seen {
        StoppedAtNodeLimit(g, limits, Opened(g, limits, frame), Emitted(g, limits, frame, acc));
      }
    } else if HasChildToVisit(g, limits, frame) {
      var visited := Traversed(g, limits, ChildFrame(g, frame), acc);
      StoppedAtNodeLimit(g, limits, ChildFrame(g, frame), acc);
      if !visited.stopped {
        StoppedAtNodeLimit(g, limits, NextChild(g, frame), visited);
      }
    }
  }

  // ---------- whole traversals ----------

  lemma SeenIsRecorded(g: Graph, limits: Limits, root: Obj)
    requires limits.maxNodes.Some?
    ensures var t := Traversal(g, limits, Some(root)); t.seen == set r | r in t.records :: g.identity(r.obj)
  {
    var k := WalkReachesTraversal(g, limits, Some(root));
    StartIsSound(g, limits, Some(root));
    RunKeepsSound(g, limits, Start(Some(root)), k);
  }

  /** On any graph: what is listed stands at a place within the limits. */
  lemma ListedIsWithin(g: Graph, limits: Limits, root: Obj, i: nat) returns (p: seq<nat>)
    requires limits.maxNodes.Some? && i < |Traversal(g, limits, Some(root)).records|
    ensures Within(limits, p) && g.ObjectAt(root, p) == Some(Traversal(g, limits, Some(root)).records[i].obj)
  {
    var record := Traversal(g, limits, Some(root)).records[i];
    TraversalRecordsArePlaced(g, limits, root, i);
    p :| [] <= p && Within(limits, p) && PlacedAt(g, root, record, p);
  }

  lemma SeenIsListed(g: Graph, limits: Limits, root: Obj, p: seq<nat>)
    requires limits.maxNodes.Some? && UnsharedWithin(g, limits, root) && Within(limits, p) && g.ObjectAt(root, p).Some?
    ensures var t := Traversal(g, limits, Some(root));
            g.identity(g.ObjectAt(root, p).value) in t.seen <==> Listed(t.records, g.ObjectAt(root, p).value)
  {
    var t, x := Traversal(g, limits, Some(root)), g.identity(g.ObjectAt(root, p).value);
    SeenIsRecorded(g, limits, root);
    if x in t.seen {
      var i :| 0 <= i < |t.records| && g.identity(t.records[i].obj) == x;
      var q := ListedIsWithin(g, limits, root, i);
      assert LeadsWithin(g, limits, root, q, x) && LeadsWithin(g, limits, root, p, x);
    }
  }

  /** The object at some place within the limits is not listed. */
  ghost predicate SomeLeftOut(g: Graph, limits: Limits, root: Obj, records: seq<Record>) {
    exists p :: Within(limits, p) && g.ObjectAt(root, p).Some? && !Listed(records, g.ObjectAt(root, p).value)
  }

  ghost predicate CutSomewhere(g: Graph, limits: Limits, root: Obj, reason: Reason) {
    exists p :: Cut(g, limits, root, reason, p)
  }

  lemma StartIsReady(g: Graph, limits: Limits, root: Obj)
    requires limits.maxNodes.Some?
    ensures var node, empty := Pending(root, None, 0, 0, false), Acc({}, [], [], false);
            Ready(g, limits, root, node, [], empty) && Traversal(g, limits, Some(root)) == Traversed(g, limits, node, empty)
    ensures forall p: seq<nat> :: Remaining(Pending(root, None, 0, 0, false), [], p)
  {
  }

  lemma FaultlessNodes(g: Graph, limits: Limits, root: Obj)
    requires limits.maxNodes.Some? && Faultless(g) && UnsharedWithin(g, limits, root)
    ensures var t := Traversal(g, limits, Some(root));
            NodeLimit in t.reasons <==> SomeLeftOut(g, limits, root, t.records)
  {
    var node, empty := Pending(root, None, 0, 0, false), Acc({}, [], [], false);
    var t := Traversal(g, limits, Some(root));
    StartIsReady(g, limits, root);
    PlacesAreSeen(g, limits, root, node, [], empty);
    StoppedAtNodeLimit(g, limits, node, empty);
    if t.stopped {
      var p, x :| Remaining(node, [], p) && LeadsWithin(g, limits, root, p, x) && x !in t.seen;
      SeenIsListed(g, limits, root, p);
    }
    if SomeLeftOut(g, limits, root, t.records) {
      var p :| Within(limits, p) && g.ObjectAt(root, p).Some? && !Listed(t.records, g.ObjectAt(root, p).value);
      SeenIsListed(g, limits, root, p);
      assert Remaining(node, [], p) && LeadsWithin(g, limits, root, p, g.identity(g.ObjectAt(root, p).value));
    }
  }

  lemma FaultlessCuts(g: Graph, limits: Limits, root: Obj, reason: Reason)
    requires limits.maxNodes.Some? && Faultless(g) && UnsharedWithin(g, limits, root) && reason != NodeLimit
    ensures var t := Traversal(g, limits, Some(root));
            && (reason in t.reasons ==> CutSomewhere(g, limits, root, reason))
            && (NodeLimit !in t.reasons && CutSomewhere(g, limits, root, reason) ==> reason in t.reasons)
  {
    var node, empty := Pending(root, None, 0, 0, false), Acc({}, [], [], false);
    StartIsReady(g, limits, root);
    StoppedAtNodeLimit(g, limits, node, empty);
    ReasonsAreCuts(g, limits, root, node, [], empty, reason);
  }

  // ---------- any graph ----------

  lemma ReadTraversal(g: Graph, limits: Limits, root: Obj)
    requires limits.maxNodes.Some?
    ensures SameAcc(Traversal(g, limits, Some(root)), Traversal(AsRead(g), limits, Some(root)))
    ensures Faultless(AsRead(g))
  {
    var node, empty := Pending(root, None, 0, 0, false), Acc({}, [], [], false);
    ReadGraphIsEnough(g, limits, node, node, empty, empty);
  }

  lemma ListedAlike(a: seq<Record>, b: seq<Record>, o: Obj)
    requires SameObjects(a, b)
    ensures Listed(a, o) <==> Listed(b, o)
  {
    if Listed(a, o) {
      var i :| 0 <= i < |a| && a[i].obj == o;
      assert b[i].obj == o;
    }
    if Listed(b, o) {
      var i :| 0 <= i < |b| && b[i].obj == o;
      assert a[i].obj == o;
    }
  }

  /** Wherever objects are shared and links fail: what is listed stands within the limits. */
  lemma NothingBeyondLimits(g: Graph, limits: Limits, root: Obj, i: nat) returns (p: seq<nat>)
    requires limits.maxNodes.Some? && i < |Traversal(g, limits, Some(root)).records|
    ensures Within(limits, p) && AsRead(g).ObjectAt(root, p) == Some(Traversal(g, limits, Some(root)).records[i].obj)
  {
    ReadTraversal(g, limits, root);
    p := ListedIsWithin(AsRead(g), limits, root, i);
  }

  /** Where no two paths within the limits lead to one identity: the node limit is reported
      if and only if some object within the depth and child limits is not listed, and then
      as many objects are listed as it allows. */
  lemma NodeLimitIsExact(g: Graph, limits: Limits, root: Obj)
    requires limits.maxNodes.Some? && UnsharedWithin(AsRead(g), limits, root)
    ensures var t := Traversal(g, limits, Some(root));
            && (NodeLimit in t.reasons <==> SomeLeftOut(AsRead(g), limits, root, t.records))
            && (NodeLimit in t.reasons ==> |t.records| == limits.maxNodes.value)
  {
    var t, r := Traversal(g, limits, Some(root)), Traversal(AsRead(g), limits, Some(root));
    ReadTraversal(g, limits, root);
    FaultlessNodes(AsRead(g), limits, root);
    forall o: Obj
      ensures Listed(t.records, o) <==> Listed(r.records, o)
    {
      ListedAlike(t.records, r.records, o);
    }
    TraversalIsSound(g, limits, Some(root));
    StoppedAtNodeLimit(g, limits, Pending(root, None, 0, 0, false), Acc({}, [], [], false));
  }

  /** ... a cycle is not reported; the child limit is reported only if it keeps a child out,
      the depth limit only if it does, and both are when the nodes do not run out. */
  lemma ReasonsAreExact(g: Graph, limits: Limits, root: Obj)
    requires limits.maxNodes.Some? && UnsharedWithin(AsRead(g), limits, root)
    ensures var t := Traversal(g, limits, Some(root));
            && CycleDetected !in t.reasons
            && (forall reason | reason in {DepthLimit, ChildLimit} ::
                  && (reason in t.reasons ==> CutSomewhere(AsRead(g), limits, root, reason))
                  && (NodeLimit !in t.reasons && CutSomewhere(AsRead(g), limits, root, reason) ==> reason in t.reasons))
  {
    ReadTraversal(g, limits, root);
    FaultlessCuts(AsRead(g), limits, root, CycleDetected);
    FaultlessCuts(AsRead(g), limits, root, DepthLimit);
    FaultlessCuts(AsRead(g), limits, root, ChildLimit);
  }

  /** ... and unless the nodes run out an object is listed if and only if its path is within
      the limits. */
  lemma ListedIffWithin(g: Graph, limits: Limits, root: Obj, p: seq<nat>)
    requires limits.maxNodes.Some? && Unshared(AsRead(g), root) && AsRead(g).ObjectAt(root, p).Some?
    requires NodeLimit !in Traversal(g, limits, Some(root)).reasons
    ensures Listed(Traversal(g, limits, Some(root)).records, AsRead(g).ObjectAt(root, p).value) <==> Within(limits, p)
  {
    var t, o := Traversal(g, limits, Some(root)), AsRead(g).ObjectAt(root, p).value;
    NodeLimitIsExact(g, limits, root);
    if Listed(t.records, o) {
      var i :| 0 <= i < |t.records| && t.records[i].obj == o;
      var q := NothingBeyondLimits(g, limits, root, i);
      assert Leads(AsRead(g), root, p, g.identity(o)) && Leads(AsRead(g), root, q, g.identity(o));
    }
  }
}
