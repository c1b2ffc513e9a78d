/**
 The walker as a machine: an explicit stack of frames, one `Step` at a time.
 `Progress` adds the records emitted so far, so that a whole run is one value.
 */
module TreeWalk {
  import opened Common
  import opened TreeGraph

  datatype Frame =
    | Pending(obj: Obj, parentId: Option<ObjectId>, depth: nat, index: nat, nextSiblingFailed: bool)
    | Open(obj: Obj, nodeId: ObjectId, depth: nat, child: Option<Obj>, childIndex: nat, childSeen: set<Identity>)

  datatype Walk = Walk(stack: seq<Frame>, seen: set<Identity>, nodeCount: nat, reasons: seq<Reason>, done: bool)

  datatype Progress = Progress(walk: Walk, out: seq<Record>)

  function Start(root: Option<Obj>): Progress {
    Progress(
      Walk(if root.Some? then [Pending(root.value, None, 0, 0, false)] else [], {}, 0, [], root.None?),
      [])
  }

  predicate NodeLimitReached(limits: Limits, nodeCount: nat) {
    limits.maxNodes.Some? && limits.maxNodes.value <= nodeCount
  }

  predicate DepthLimitReached(limits: Limits, depth: nat) {
    limits.depth.Some? && limits.depth.value <= depth
  }

  predicate ChildLimitReached(limits: Limits, childIndex: nat) {
    limits.maxChildren.Some? && limits.maxChildren.value <= childIndex
  }

  /** The first child a frame is opened with. */
  function OpeningChild(g: Graph, limits: Limits, obj: Obj, depth: nat): Option<Obj> {
    if DepthLimitReached(limits, depth) then None else g.ReadFirstChild(obj)
  }

  function OpeningReasons(g: Graph, limits: Limits, obj: Obj, depth: nat, reasons: seq<Reason>): seq<Reason> {
    if DepthLimitReached(limits, depth) && g.ReadFirstChild(obj).Some? then AddReason(reasons, DepthLimit) else reasons
  }

  function RecordOf(g: Graph, frame: Frame): Record
    requires frame.Pending?
  {
    Record(frame.obj, g.IdOf(frame.obj), frame.parentId, frame.depth, frame.index,
           g.firstChildFails(frame.obj), frame.nextSiblingFailed)
  }

  function Opened(g: Graph, limits: Limits, frame: Frame): Frame
    requires frame.Pending?
  {
    Open(frame.obj, g.IdOf(frame.obj), frame.depth, OpeningChild(g, limits, frame.obj, frame.depth), 0, {})
  }

  /** The frame pushed for the current child of an open frame. */
  function ChildFrame(g: Graph, frame: Frame): Frame
    requires frame.Open? && frame.child.Some?
  {
    Pending(frame.child.value, Some(frame.nodeId), frame.depth + 1, frame.childIndex, g.nextSiblingFails(frame.child.value))
  }

  /** An open frame after its current child has been pushed. */
  function NextChild(g: Graph, frame: Frame): Frame
    requires frame.Open? && frame.child.Some?
  {
    frame.(child := g.ReadNextSibling(frame.child.value),
           childIndex := frame.childIndex + 1,
           childSeen := frame.childSeen + {g.identity(frame.child.value)})
  }

  /** The frame's current child is neither over the child limit nor a repeated sibling. */
  predicate HasChildToVisit(g: Graph, limits: Limits, frame: Frame) {
    && frame.Open? && frame.child.Some?
    && !ChildLimitReached(limits, frame.childIndex)
    && g.identity(frame.child.value) !in frame.childSeen
  }

  function StepPending(g: Graph, limits: Limits, p: Progress): Progress
    requires p.walk.stack != [] && p.walk.stack[|p.walk.stack| - 1].Pending?
  {
    var walk := p.walk;
    var rest := walk.stack[..|walk.stack| - 1];
    var frame := walk.stack[|walk.stack| - 1];
    if NodeLimitReached(limits, walk.nodeCount) then
      p.(walk := walk.(stack := [], reasons := AddReason(walk.reasons, NodeLimit), done := true))
    else if g.identity(frame.obj) in walk.seen then
      p.(walk := walk.(stack := rest, reasons := AddReason(walk.reasons, CycleDetected)))
    else
      Progress(
        Walk(rest + [Opened(g, limits, frame)],
             walk.seen + {g.identity(frame.obj)},
             walk.nodeCount + 1,
             OpeningReasons(g, limits, frame.obj, frame.depth, walk.reasons),
             walk.done),
        p.out + [RecordOf(g, frame)])
  }

  function StepOpen(g: Graph, limits: Limits, p: Progress): Progress
    requires p.walk.stack != [] && p.walk.stack[|p.walk.stack| - 1].Open?
  {
    var walk := p.walk;
    var rest := walk.stack[..|walk.stack| - 1];
    var frame := walk.stack[|walk.stack| - 1];
    if frame.child.None? then
      p.(walk := walk.(stack := rest))
    else if ChildLimitReached(limits, frame.childIndex) then
      p.(walk := walk.(stack := rest, reasons := AddReason(walk.reasons, ChildLimit)))
    else if g.identity(frame.child.value) in frame.childSeen then
      p.(walk := walk.(stack := rest, reasons := AddReason(walk.reasons, CycleDetected)))
    else
      p.(walk := walk.(stack := rest + [NextChild(g, frame)] + [ChildFrame(g, frame)]))
  }

  function Step(g: Graph, limits: Limits, p: Progress): Progress {
    if p.walk.stack == [] then p.(walk := p.walk.(done := true))
    else if p.walk.stack[|p.walk.stack| - 1].Pending? then StepPending(g, limits, p)
    else StepOpen(g, limits, p)
  }

  /** At most k steps; a walk that is done stays as it is. */
  function Run(g: Graph, limits: Limits, p: Progress, k: nat): Progress
    decreases k
  {
    if k == 0 || p.walk.done then p else Run(g, limits, Step(g, limits, p), k - 1)
  }

  lemma {:induction false} RunCompose(g: Graph, limits: Limits, p: Progress, j: nat, k: nat)
    ensures Run(g, limits, Run(g, limits, p, j), k) == Run(g, limits, p, j + k)
    decreases j
  {
    if j == 0 {
    } else if !p.walk.done {
      RunCompose(g, limits, Step(g, limits, p), j - 1, k);
    } else {
      assert Run(g, limits, p, k) == p;
    }
  }

  /** The walk gets from p to q in k steps. */
  predicate Reaches(g: Graph, limits: Limits, p: Progress, k: nat, q: Progress) {
    Run(g, limits, p, k) == q
  }

  lemma ReachesThrough(g: Graph, limits: Limits, p: Progress, j: nat, q: Progress, k: nat, r: Progress)
    requires Reaches(g, limits, p, j, q) && Reaches(g, limits, q, k, r)
    ensures Reaches(g, limits, p, j + k, r)
  {
    RunCompose(g, limits, p, j, k);
  }

  lemma ReachesInOne(g: Graph, limits: Limits, p: Progress)
    requires !p.walk.done
    ensures Reaches(g, limits, p, 1, Step(g, limits, p))
  {
    assert Run(g, limits, p, 1) == Run(g, limits, Step(g, limits, p), 0);
  }

  /** What every step keeps, every run keeps. */
  lemma {:induction false} RunKeeps(g: Graph, limits: Limits, p: Progress, k: nat, kept: Progress -> bool)
    requires kept(p)
    requires forall q :: kept(q) && !q.walk.done ==> kept(Step(g, limits, q))
    ensures kept(Run(g, limits, p, k))
    decreases k
  {
    if k == 0 || p.walk.done {
    } else {
      RunKeeps(g, limits, Step(g, limits, p), k - 1, kept);
    }
  }

  /** Emitted records are never taken back. */
  lemma {:induction false} RunExtends(g: Graph, limits: Limits, p: Progress, k: nat)
    ensures p.out <= Run(g, limits, p, k).out
    decreases k
  {
    if k == 0 || p.walk.done {
    } else {
      RunExtends(g, limits, Step(g, limits, p), k - 1);
    }
  }

  /** Two stopping points of the same walk that are both done are the same. */
  lemma DoneIsFinal(g: Graph, limits: Limits, p: Progress, j: nat, k: nat)
    requires Run(g, limits, p, j).walk.done && j <= k
    ensures Run(g, limits, p, k) == Run(g, limits, p, j)
  {
    RunCompose(g, limits, p, j, k - j);
  }

  /** What a walk has emitted when it is cut is the beginning of what it would have emitted. */
  lemma CutIsPrefix(g: Graph, limits: Limits, p: Progress, k: nat, j: nat)
    requires Run(g, limits, p, j).walk.done
    ensures Run(g, limits, p, k).out <= Run(g, limits, p, j).out
  {
    DoneIsFinal(g, limits, p, j, j + k);
    RunCompose(g, limits, p, k, j);
    RunExtends(g, limits, Run(g, limits, p, k), j);
  }
}
