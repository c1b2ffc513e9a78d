/**
 What every step of a walk keeps, and how many steps a walk can take: the arithmetic
 bound holds on any graph, also one that produces new identities forever.
 */
module TreeBounds {
  import opened Common
  import opened TreeGraph
  import opened TreeWalk

  /** The identity of a child that has been pushed but not yet entered. */
  function Awaited(g: Graph, stack: seq<Frame>): set<Identity> {
    if stack != [] && stack[|stack| - 1].Pending? then {g.identity(stack[|stack| - 1].obj)} else {}
  }

  ghost predicate FrameSound(g: Graph, limits: Limits, frame: Frame, known: set<Identity>) {
    frame.Open? ==>
      && frame.childIndex == |frame.childSeen|
      && frame.childSeen <= known
      && (limits.maxChildren.Some? ==> frame.childIndex <= limits.maxChildren.value)
      && (DepthLimitReached(limits, frame.depth) ==> frame.child.None?)
  }

  ghost predicate StackSound(g: Graph, limits: Limits, stack: seq<Frame>, seen: set<Identity>) {
    && (forall i :: 0 <= i < |stack| ==> stack[i].depth == i)
    && (forall i :: 0 <= i < |stack| - 1 ==> stack[i].Open? && FrameSound(g, limits, stack[i], seen + Awaited(g, stack)))
    && (stack != [] ==> FrameSound(g, limits, stack[|stack| - 1], seen))
    && (limits.depth.Some? ==> |stack| <= limits.depth.value + 1)
  }

  ghost predicate DistinctIdentities(g: Graph, records: seq<Record>) {
    forall i, j :: 0 <= i < j < |records| ==> g.identity(records[i].obj) != g.identity(records[j].obj)
  }

  /** The seen identities are exactly those of the emitted records, each emitted once. */
  ghost predicate RecordsSound(g: Graph, limits: Limits, records: seq<Record>, seen: set<Identity>) {
    && DistinctIdentities(g, records)
    && seen == (set r | r in records :: g.identity(r.obj))
    && |seen| == |records|
    && (limits.maxNodes.Some? ==> |records| <= limits.maxNodes.value)
  }

  ghost predicate ReasonsSound(reasons: seq<Reason>) {
    forall i, j :: 0 <= i < j < |reasons| ==> reasons[i] != reasons[j]
  }

  ghost predicate Sound(g: Graph, limits: Limits, p: Progress) {
    && StackSound(g, limits, p.walk.stack, p.walk.seen)
    && RecordsSound(g, limits, p.out, p.walk.seen)
    && ReasonsSound(p.walk.reasons)
    && p.walk.nodeCount == |p.out|
    && (p.walk.done ==> p.walk.stack == [])
  }

  lemma StartIsSound(g: Graph, limits: Limits, root: Option<Obj>)
    ensures Sound(g, limits, Start(root))
  {
  }

  lemma PopKeepsStack(g: Graph, limits: Limits, stack: seq<Frame>, seen: set<Identity>)
    requires StackSound(g, limits, stack, seen) && stack != [] && Awaited(g, stack) <= seen
    ensures StackSound(g, limits, stack[..|stack| - 1], seen)
  {
    assert seen + Awaited(g, stack) == seen;
  }

  lemma OpenKeepsStack(g: Graph, limits: Limits, stack: seq<Frame>, seen: set<Identity>)
    requires StackSound(g, limits, stack, seen) && stack != [] && stack[|stack| - 1].Pending?
    ensures var frame := stack[|stack| - 1];
            StackSound(g, limits, stack[..|stack| - 1] + [Opened(g, limits, frame)], seen + {g.identity(frame.obj)})
  {
    var frame := stack[|stack| - 1];
    var after := stack[..|stack| - 1] + [Opened(g, limits, frame)];
    var known := seen + {g.identity(frame.obj)};
    assert known == seen + Awaited(g, stack) == known + Awaited(g, after);
    assert forall i :: 0 <= i < |stack| - 1 ==> after[i] == stack[i];
  }

  lemma AdvanceKeepsFrame(g: Graph, limits: Limits, frame: Frame, seen: set<Identity>)
    requires FrameSound(g, limits, frame, seen) && HasChildToVisit(g, limits, frame)
    ensures FrameSound(g, limits, NextChild(g, frame), seen + Awaited(g, [ChildFrame(g, frame)]))
    ensures limits.depth.Some? ==> frame.depth < limits.depth.value
  {
    assert |NextChild(g, frame).childSeen| == |frame.childSeen| + 1;
  }

  /** An open stack after the child of its top frame has been pushed. */
  function Pushed(g: Graph, stack: seq<Frame>): seq<Frame>
    requires stack != [] && stack[|stack| - 1].Open? && stack[|stack| - 1].child.Some?
  {
    var frame := stack[|stack| - 1];
    stack[..|stack| - 1] + [NextChild(g, frame)] + [ChildFrame(g, frame)]
  }

  lemma PushKeepsFrameBelow(g: Graph, limits: Limits, stack: seq<Frame>, seen: set<Identity>, i: nat)
    requires StackSound(g, limits, stack, seen) && i < |stack| - 1 && HasChildToVisit(g, limits, stack[|stack| - 1])
    ensures var pushed := Pushed(g, stack);
            pushed[i] == stack[i] && pushed[i].depth == i && pushed[i].Open?
            && FrameSound(g, limits, pushed[i], seen + Awaited(g, pushed))
  {
    assert seen + Awaited(g, stack) == seen;
    assert FrameSound(g, limits, stack[i], seen);
  }

  lemma PushKeepsTop(g: Graph, limits: Limits, stack: seq<Frame>, seen: set<Identity>)
    requires StackSound(g, limits, stack, seen) && stack != [] && HasChildToVisit(g, limits, stack[|stack| - 1])
    ensures var pushed, top := Pushed(g, stack), |stack| - 1;
            && pushed[top].depth == top && pushed[top].Open?
            && FrameSound(g, limits, pushed[top], seen + Awaited(g, pushed))
            && pushed[top + 1] == ChildFrame(g, stack[top]) && pushed[top + 1].depth == top + 1
            && (limits.depth.Some? ==> |pushed| <= limits.depth.value + 1)
  {
    var pushed, top := Pushed(g, stack), |stack| - 1;
    AdvanceKeepsFrame(g, limits, stack[top], seen);
    assert pushed[top] == NextChild(g, stack[top]) && pushed[top + 1] == ChildFrame(g, stack[top]);
    assert Awaited(g, pushed) == Awaited(g, [ChildFrame(g, stack[top])]);
  }

  lemma PushKeepsStack(g: Graph, limits: Limits, stack: seq<Frame>, seen: set<Identity>)
    requires StackSound(g, limits, stack, seen) && stack != []
    requires HasChildToVisit(g, limits, stack[|stack| - 1])
    ensures StackSound(g, limits, Pushed(g, stack), seen)
  {
    var pushed := Pushed(g, stack);
    PushKeepsTop(g, limits, stack, seen);
    forall i | 0 <= i < |pushed| - 1
      ensures pushed[i].depth == i && pushed[i].Open? && FrameSound(g, limits, pushed[i], seen + Awaited(g, pushed))
    {
      if i < |stack| - 1 {
        PushKeepsFrameBelow(g, limits, stack, seen, i);
      }
    }
  }

  lemma EmitKeepsRecords(g: Graph, limits: Limits, records: seq<Record>, seen: set<Identity>, record: Record)
    requires RecordsSound(g, limits, records, seen) && !NodeLimitReached(limits, |records|)
    requires g.identity(record.obj) !in seen
    ensures RecordsSound(g, limits, records + [record], seen + {g.identity(record.obj)})
  {
    var grown := records + [record];
    assert forall r :: r in grown <==> r in records || r == record;
    forall i, j | 0 <= i < j < |grown|
      ensures g.identity(grown[i].obj) != g.identity(grown[j].obj)
    {
      assert grown[i] in records;
    }
  }

  lemma StepPendingKeepsSound(g: Graph, limits: Limits, p: Progress)
    requires Sound(g, limits, p) && p.walk.stack != [] && p.walk.stack[|p.walk.stack| - 1].Pending?
    ensures Sound(g, limits, StepPending(g, limits, p))
  {
    var stack, q := p.walk.stack, StepPending(g, limits, p);
    var frame := stack[|stack| - 1];
    if NodeLimitReached(limits, p.walk.nodeCount) {
      assert q.out == p.out && q.walk.stack == [] && q.walk.seen == p.walk.seen;
    } else if g.identity(frame.obj) in p.walk.seen {
      assert q.out == p.out && q.walk.stack == stack[..|stack| - 1] && q.walk.seen == p.walk.seen;
      PopKeepsStack(g, limits, stack, p.walk.seen);
    } else {
      OpenKeepsStack(g, limits, stack, p.walk.seen);
      EmitKeepsRecords(g, limits, p.out, p.walk.seen, RecordOf(g, frame));
    }
  }

  lemma StepOpenKeepsSound(g: Graph, limits: Limits, p: Progress)
    requires Sound(g, limits, p) && p.walk.stack != [] && p.walk.stack[|p.walk.stack| - 1].Open?
    ensures Sound(g, limits, StepOpen(g, limits, p))
  {
    if HasChildToVisit(g, limits, p.walk.stack[|p.walk.stack| - 1]) {
      PushKeepsStack(g, limits, p.walk.stack, p.walk.seen);
    } else {
      PopKeepsStack(g, limits, p.walk.stack, p.walk.seen);
    }
  }

  lemma StepKeepsSound(g: Graph, limits: Limits, p: Progress)
    requires Sound(g, limits, p) && !p.walk.done
    ensures Sound(g, limits, Step(g, limits, p))
  {
    if p.walk.stack != [] && p.walk.stack[|p.walk.stack| - 1].Pending? {
      StepPendingKeepsSound(g, limits, p);
    } else if p.walk.stack != [] {
      StepOpenKeepsSound(g, limits, p);
    }
  }

  lemma RunKeepsSound(g: Graph, limits: Limits, p: Progress, k: nat)
    requires Sound(g, limits, p)
    ensures Sound(g, limits, Run(g, limits, p, k))
  {
    forall q | Sound(g, limits, q) && !q.walk.done
      ensures Sound(g, limits, Step(g, limits, q))
    {
      StepKeepsSound(g, limits, q);
    }
    RunKeeps(g, limits, p, k, q => Sound(g, limits, q));
  }

  // ---------- the step bound ----------

  /** No parent can push more children than this, whatever the graph: a repeated sibling
      ends the parent, and a new one uses up the node budget. */
  function Width(limits: Limits): nat
    requires limits.maxNodes.Some?
  {
    var byNodes := limits.maxNodes.value + 1;
    if limits.maxChildren.Some? && limits.maxChildren.value < byNodes then limits.maxChildren.value else byNodes
  }

  function FrameWork(limits: Limits, frame: Frame): int
    requires limits.maxNodes.Some?
  {
    if frame.Pending? then 1 else 2 * (Width(limits) - frame.childIndex) + 1
  }

  function StackWork(limits: Limits, stack: seq<Frame>): int
    requires limits.maxNodes.Some?
  {
    if stack == [] then 0 else StackWork(limits, stack[..|stack| - 1]) + FrameWork(limits, stack[|stack| - 1])
  }

  /** The most steps n more records can cost. */
  function RecordWork(limits: Limits, n: nat): nat
    requires limits.maxNodes.Some?
  {
    if n == 0 then 0 else RecordWork(limits, n - 1) + 2 * Width(limits) + 1
  }

  lemma {:induction false} RecordWorkIsProduct(limits: Limits, n: nat)
    requires limits.maxNodes.Some?
    ensures RecordWork(limits, n) == n * (2 * Width(limits) + 1)
  {
    if n == 0 {
    } else {
      RecordWorkIsProduct(limits, n - 1);
      assert n * (2 * Width(limits) + 1) == (n - 1) * (2 * Width(limits) + 1) + (2 * Width(limits) + 1);
    }
  }

  function Work(limits: Limits, p: Progress): int
    requires limits.maxNodes.Some? && |p.out| <= limits.maxNodes.value
  {
    if p.walk.done then 0
    else RecordWork(limits, limits.maxNodes.value - |p.out|) + StackWork(limits, p.walk.stack) + 1
  }

  lemma {:induction false} StackWorkIsPositive(limits: Limits, stack: seq<Frame>)
    requires limits.maxNodes.Some?
    requires forall i :: 0 <= i < |stack| && stack[i].Open? ==> stack[i].childIndex <= Width(limits)
    ensures StackWork(limits, stack) >= |stack|
  {
    if stack == [] {
    } else {
      StackWorkIsPositive(limits, stack[..|stack| - 1]);
    }
  }

  /** What the step bound needs: no open frame has pushed more children than the width. */
  ghost predicate WithinWidth(limits: Limits, p: Progress)
    requires limits.maxNodes.Some?
  {
    && |p.out| <= limits.maxNodes.value
    && p.walk.nodeCount == |p.out|
    && (forall i :: 0 <= i < |p.walk.stack| && p.walk.stack[i].Open? ==> p.walk.stack[i].childIndex <= Width(limits))
    && (p.walk.stack != [] && p.walk.stack[|p.walk.stack| - 1].Open?
        ==> p.walk.stack[|p.walk.stack| - 1].childIndex <= limits.maxNodes.value)
  }

  lemma SoundIsWithinWidth(g: Graph, limits: Limits, p: Progress)
    requires Sound(g, limits, p) && limits.maxNodes.Some?
    ensures WithinWidth(limits, p)
  {
    var stack := p.walk.stack;
    forall i | 0 <= i < |stack| && stack[i].Open?
      ensures stack[i].childIndex <= Width(limits)
      ensures i == |stack| - 1 ==> stack[i].childIndex <= limits.maxNodes.value
    {
      if i == |stack| - 1 {
        SubsetSize(stack[i].childSeen, p.walk.seen);
      } else {
        SubsetSize(stack[i].childSeen, p.walk.seen + Awaited(g, stack));
        assert |p.walk.seen + Awaited(g, stack)| <= |p.walk.seen| + 1;
      }
    }
  }

  lemma StackWorkOf(limits: Limits, rest: seq<Frame>, frame: Frame)
    requires limits.maxNodes.Some?
    ensures StackWork(limits, rest + [frame]) == StackWork(limits, rest) + FrameWork(limits, frame)
  {
    assert (rest + [frame])[..|rest + [frame]| - 1] == rest;
  }

  /** Every step uses up some of the remaining work. */
  lemma StepUsesWork(g: Graph, limits: Limits, p: Progress)
    requires limits.maxNodes.Some? && WithinWidth(limits, p) && !p.walk.done
    ensures |Step(g, limits, p).out| <= limits.maxNodes.value
    ensures 0 < Work(limits, p) && Work(limits, Step(g, limits, p)) < Work(limits, p)
  {
    var stack := p.walk.stack;
    StackWorkIsPositive(limits, stack);
    if stack != [] {
      if stack[|stack| - 1].Pending? {
        PendingUsesWork(g, limits, p);
      } else {
        OpenUsesWork(g, limits, p);
      }
    }
  }

  lemma PendingUsesWork(g: Graph, limits: Limits, p: Progress)
    requires limits.maxNodes.Some? && WithinWidth(limits, p) && !p.walk.done
    requires p.walk.stack != [] && p.walk.stack[|p.walk.stack| - 1].Pending?
    ensures |StepPending(g, limits, p).out| <= limits.maxNodes.value
    ensures Work(limits, StepPending(g, limits, p)) < Work(limits, p)
  {
    var stack := p.walk.stack;
    var rest, frame := stack[..|stack| - 1], stack[|stack| - 1];
    StackWorkIsPositive(limits, stack);
    StackWorkOf(limits, rest, Opened(g, limits, frame));
  }

  lemma OpenUsesWork(g: Graph, limits: Limits, p: Progress)
    requires limits.maxNodes.Some? && WithinWidth(limits, p) && !p.walk.done
    requires p.walk.stack != [] && p.walk.stack[|p.walk.stack| - 1].Open?
    ensures Work(limits, StepOpen(g, limits, p)) < Work(limits, p)
  {
    var stack := p.walk.stack;
    var rest, frame := stack[..|stack| - 1], stack[|stack| - 1];
    if HasChildToVisit(g, limits, frame) {
      StackWorkOf(limits, rest, NextChild(g, frame));
      StackWorkOf(limits, rest + [NextChild(g, frame)], ChildFrame(g, frame));
    }
  }

  /** The walk is sound and has at most k steps of work left. */
  ghost predicate LeftToDo(g: Graph, limits: Limits, p: Progress, k: nat)
    requires limits.maxNodes.Some?
  {
    Sound(g, limits, p) && Work(limits, p) <= k
  }

  lemma StepLeavesLess(g: Graph, limits: Limits, p: Progress, k: nat)
    requires limits.maxNodes.Some? && LeftToDo(g, limits, p, k) && !p.walk.done
    ensures k > 0 && LeftToDo(g, limits, Step(g, limits, p), k - 1)
  {
    SoundIsWithinWidth(g, limits, p);
    StepUsesWork(g, limits, p);
    StepKeepsSound(g, limits, p);
  }

  lemma {:induction false} RunFinishesWithin(g: Graph, limits: Limits, p: Progress, k: nat)
    requires limits.maxNodes.Some? && LeftToDo(g, limits, p, k)
    ensures Run(g, limits, p, k).walk.done
    decreases k
  {
    if p.walk.done {
    } else {
      StepLeavesLess(g, limits, p, k);
      ReachesInOne(g, limits, p);
      RunFinishesWithin(g, limits, Step(g, limits, p), k - 1);
      RunCompose(g, limits, p, 1, k - 1);
    }
  }

  /** With a node cap N every walk is done within N * (2 * Width + 1) + 2 steps, where the
      width is the child cap or, without one, N + 1. */
  lemma WalkFinishesWithin(g: Graph, limits: Limits, root: Option<Obj>, k: nat)
    requires limits.maxNodes.Some?
    requires k >= limits.maxNodes.value * (2 * Width(limits) + 1) + 2
    ensures Run(g, limits, Start(root), k).walk.done
  {
    StartIsSound(g, limits, root);
    RecordWorkIsProduct(limits, limits.maxNodes.value);
    var p := Start(root);
    if root.Some? {
      assert p.walk.stack[..0] == [];
      assert StackWork(limits, p.walk.stack) == 1;
    }
    RunFinishesWithin(g, limits, p, k);
  }

  /** The frontier of a depth-limited walk: one frame a level, never below the limit. */
  lemma FrontierIsOneFramePerLevel(g: Graph, limits: Limits, root: Option<Obj>, k: nat)
    ensures var stack := Run(g, limits, Start(root), k).walk.stack;
            && (forall i :: 0 <= i < |stack| ==> stack[i].depth == i)
            && (limits.depth.Some? ==> |stack| <= limits.depth.value + 1)
  {
    StartIsSound(g, limits, root);
    RunKeepsSound(g, limits, Start(root), k);
  }
}
