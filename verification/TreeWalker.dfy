/**
 The walker as the object the service uses, and the two synchronous drivers that cut its
 walk into batches. The clock is any function from the number of readings taken so far to
 a time in seconds, so a batch can be cut after any step.
 */
module TreeWalker {
  import opened Common
  import opened TreeGraph
  import opened TreeWalk
  import opened TreeReference
  import opened TreeBounds
  import opened TreeRefinement
  import opened TreeCompleteness
  import opened TreePlacement

  type Clock = nat -> real

  ghost predicate Nondecreasing(clock: Clock) {
    forall i, j :: 0 <= i <= j ==> clock(i) <= clock(j)
  }

  // ---------- a batch ends, also without a node cap ----------

  function StackIdle(stack: seq<Frame>, seen: set<Identity>): nat {
    if stack == [] then 0
    else StackIdle(stack[..|stack| - 1], seen)
         + (if stack[|stack| - 1].Pending? then 1 else 2 * |seen - stack[|stack| - 1].childSeen| + 1)
  }

  /** How long the walk can go on before it emits a record or is done. */
  function IdleWork(g: Graph, walk: Walk): nat {
    if walk.stack != [] && walk.stack[|walk.stack| - 1].Pending? && g.identity(walk.stack[|walk.stack| - 1].obj) !in walk.seen then 0
    else StackIdle(walk.stack, walk.seen) + 1
  }

  lemma StackIdleOf(rest: seq<Frame>, frame: Frame, seen: set<Identity>)
    ensures StackIdle(rest + [frame], seen)
            == StackIdle(rest, seen) + (if frame.Pending? then 1 else 2 * |seen - frame.childSeen| + 1)
  {
    assert (rest + [frame])[..|rest + [frame]| - 1] == rest;
  }

  lemma PushUsesIdleWork(g: Graph, limits: Limits, rest: seq<Frame>, frame: Frame, seen: set<Identity>)
    requires HasChildToVisit(g, limits, frame) && g.identity(frame.child.value) in seen
    ensures StackIdle(rest + [NextChild(g, frame)] + [ChildFrame(g, frame)], seen) < StackIdle(rest + [frame], seen)
  {
    var next := NextChild(g, frame);
    StackIdleOf(rest, frame, seen);
    StackIdleOf(rest, next, seen);
    StackIdleOf(rest + [next], ChildFrame(g, frame), seen);
    FewerUnseen(seen, frame.childSeen, g.identity(frame.child.value));
  }

  lemma FewerUnseen(seen: set<Identity>, pushed: set<Identity>, id: Identity)
    requires id in seen && id !in pushed
    ensures |seen - (pushed + {id})| < |seen - pushed|
  {
    assert seen - pushed == (seen - (pushed + {id})) + {id};
  }

  lemma SilentStepUsesIdleWork(g: Graph, limits: Limits, p: Progress)
    requires !p.walk.done && !Step(g, limits, p).walk.done && Step(g, limits, p).out == p.out
    ensures IdleWork(g, Step(g, limits, p).walk) < IdleWork(g, p.walk)
  {
    var stack, seen := p.walk.stack, p.walk.seen;
    var rest, frame := stack[..|stack| - 1], stack[|stack| - 1];
    assert rest + [frame] == stack;
    if HasChildToVisit(g, limits, frame) {
      if g.identity(frame.child.value) in seen {
        PushUsesIdleWork(g, limits, rest, frame, seen);
      }
    } else {
      StackIdleOf(rest, frame, seen);
    }
  }

  lemma StepFollowsRun(g: Graph, limits: Limits, p: Progress, k: nat, q: Progress)
    requires q == Run(g, limits, p, k) && !q.walk.done
    ensures Step(g, limits, q) == Run(g, limits, p, k + 1)
  {
    ReachesInOne(g, limits, q);
    RunCompose(g, limits, p, k, 1);
  }

  /** Every record counts, and no more than the cap. */
  predicate Counted(limits: Limits, p: Progress) {
    p.walk.nodeCount == |p.out| && (limits.maxNodes.Some? ==> |p.out| <= limits.maxNodes.value)
  }

  lemma StepOfCourse(g: Graph, limits: Limits, origin: Progress, k: nat, p: Progress, q: Progress)
    requires p == Run(g, limits, origin, k) && !p.walk.done && q == Step(g, limits, p)
    ensures q == Run(g, limits, origin, k + 1)
    ensures Counted(limits, p) ==> Counted(limits, q)
    ensures q.out == p.out && !q.walk.done ==> IdleWork(g, q.walk) < IdleWork(g, p.walk)
  {
    StepFollowsRun(g, limits, origin, k, p);
    if q.out == p.out && !q.walk.done {
      SilentStepUsesIdleWork(g, limits, p);
    }
  }

  class TreeWalker {
    const g: Graph
    const limits: Limits
    const clock: Clock
    var stack: seq<Frame>
    var seen: set<Identity>
    var nodeCount: nat
    var reasons: seq<Reason>
    var done: bool
    // the number of clock readings taken
    var ticks: nat
    // the walk this is: where it began, the steps taken, every record returned
    ghost const root: Option<Obj>
    ghost const origin: Progress
    ghost var steps: nat
    ghost var emitted: seq<Record>

    ghost function State(): Progress
      reads this
    {
      Progress(Walk(stack, seen, nodeCount, reasons, done), emitted)
    }

    /** The walker is where its walk is after `steps` steps. */
    ghost predicate OnCourse()
      reads this
    {
      State() == Run(g, limits, origin, steps) && Counted(limits, State())
    }

    constructor (g: Graph, limits: Limits, clock: Clock, root: Option<Obj>, ticks: nat)
      ensures this.g == g && this.limits == limits && this.clock == clock && this.ticks == ticks
      ensures this.root == root && origin == Start(root) && OnCourse() && emitted == [] && done == root.None? && steps == 0
    {
      this.g, this.limits, this.clock, this.ticks := g, limits, clock, ticks;
      this.root, origin, steps := root, Start(root), 0;
      stack := if root.Some? then [Pending(root.value, None, 0, 0, false)] else [];
      seen, nodeCount, reasons, done := {}, 0, [], root.None?;
      emitted := [];
    }

    method Now() returns (now: real)
      modifies `ticks
      ensures now == clock(old(ticks)) && ticks == old(ticks) + 1
    {
      now := clock(ticks);
      ticks := ticks + 1;
    }

    method Reason(reason: Reason)
      modifies `reasons
      ensures reasons == AddReason(old(reasons), reason)
    {
      if reason !in reasons {
        reasons := reasons + [reason];
      }
    }

    method Step() returns (record: Option<Record>)
      modifies `stack, `seen, `nodeCount, `reasons, `done, `emitted
      ensures State() == TreeWalk.Step(g, limits, old(State()))
      ensures emitted == old(emitted) + if record.Some? then [record.value] else []
    {
      record := None;
      if stack == [] {
        done := true;
        return;
      }
      var rest, frame := stack[..|stack| - 1], stack[|stack| - 1];
      if frame.Pending? {
        if limits.maxNodes.Some? && nodeCount >= limits.maxNodes.value {
          Reason(NodeLimit);
          stack, done := [], true;
          return;
        }
        var identity := g.identity(frame.obj);
        if identity in seen {
          Reason(CycleDetected);
          stack := rest;
          return;
        }
        seen := seen + {identity};
        var nodeId := g.objectId(identity);
        var firstChildFailed := g.firstChildFails(frame.obj);
        var firstChild := if firstChildFailed then None else g.firstChild(frame.obj);
        if limits.depth.Some? && frame.depth >= limits.depth.value {
          if firstChild.Some? {
            Reason(DepthLimit);
          }
          firstChild := None;
        }
        stack := rest + [Open(frame.obj, nodeId, frame.depth, firstChild, 0, {})];
        record := Some(Record(frame.obj, nodeId, frame.parentId, frame.depth, frame.index, firstChildFailed, frame.nextSiblingFailed));
        nodeCount := nodeCount + 1;
        emitted := emitted + [record.value];
        return;
      }
      if frame.child.None? {
        stack := rest;
        return;
      }
      if limits.maxChildren.Some? && frame.childIndex >= limits.maxChildren.value {
        Reason(ChildLimit);
        stack := rest;
        return;
      }
      var child := frame.child.value;
      var childIdentity := g.identity(child);
      if childIdentity in frame.childSeen {
        Reason(CycleDetected);
        stack := rest;
        return;
      }
      var nextFailed := g.nextSiblingFails(child);
      var next := if nextFailed then None else g.nextSibling(child);
      var advanced := frame.(child := next, childIndex := frame.childIndex + 1, childSeen := frame.childSeen + {childIdentity});
      stack := rest + [advanced] + [Pending(child, Some(frame.nodeId), frame.depth + 1, frame.childIndex, nextFailed)];
    }

    method StepOnCourse() returns (record: Option<Record>, ghost idle: nat)
      requires OnCourse() && !done
      modifies `stack, `seen, `nodeCount, `reasons, `done, `emitted, `steps
      ensures OnCourse() && steps == old(steps) + 1
      ensures emitted == old(emitted) + if record.Some? then [record.value] else []
      ensures idle == IdleWork(g, State().walk)
      ensures record.None? && !done ==> idle < old(IdleWork(g, State().walk))
    {
      ghost var before := State();
      record := Step();
      StepOfCourse(g, limits, origin, steps, before, State());
      steps := steps + 1;
      idle := IdleWork(g, State().walk);
    }

    /** At most `maxRecords` records, fewer when the walk is done or the budget is used up. */
    method NextBatch(maxRecords: int, budgetMs: int) returns (records: seq<Record>)
      requires OnCourse()
      modifies this
      ensures OnCourse() && steps >= old(steps)
      ensures emitted == old(emitted) + records
      ensures |records| <= if maxRecords > 0 then maxRecords else 0
      ensures ticks > old(ticks)
      ensures !done && |records| < maxRecords
              ==> clock(ticks - 1) >= clock(old(ticks)) + (if budgetMs < 1 then 1 else budgetMs) as real / 1000.0
    {
      var start := Now();
      var deadline := start + (if budgetMs < 1 then 1 else budgetMs) as real / 1000.0;
      records := [];
      ghost var idle := IdleWork(g, State().walk);
      while !done && |records| < maxRecords
        invariant OnCourse() && steps >= old(steps)
        invariant emitted == old(emitted) + records
        invariant |records| <= if maxRecords > 0 then maxRecords else 0
        invariant ticks > old(ticks) && idle == IdleWork(g, State().walk)
        decreases if done then 0 else 1, maxRecords - |records|, idle
      {
        var now := Now();
        if now >= deadline {
          break;
        }
        var record;
        record, idle := StepOnCourse();
        if record.Some? {
          records := records + [record.value];
        }
      }
    }

    method Abort(reason: Reason)
      modifies `stack, `reasons, `done
      ensures reasons == AddReason(old(reasons), reason) && stack == [] && done
    {
      Reason(reason);
      stack, done := [], true;
    }
  }

  // ---------- the drivers ----------

  datatype TreeResult = TreeResult(records: seq<Record>, reasons: seq<Reason>)

  /** What a synchronous answer promises about the object graph, however its walk was cut. */
  ghost predicate Faithful(g: Graph, limits: Limits, root: Option<Obj>, r: TreeResult)
    requires limits.maxNodes.Some?
  {
    var t := Traversal(g, limits, root);
    && r.records <= t.records
    && |r.records| <= limits.maxNodes.value
    && (r == TreeResult(t.records, t.reasons) || TimeLimit in r.reasons || SizeLimit in r.reasons)
    && (r.reasons == [] && NoFailedLink(r.records) && root.Some? ==> AllListed(g, root.value, r.records))
    && DistinctIdentities(g, r.records)
  }

  lemma WholeWalkIsFaithful(g: Graph, limits: Limits, root: Option<Obj>, k: nat, r: TreeResult)
    requires limits.maxNodes.Some?
    requires var p := Run(g, limits, Start(root), k); p.walk.done && r == TreeResult(p.out, p.walk.reasons)
    ensures Faithful(g, limits, root, r)
  {
    WalkerRefinesRecursion(g, limits, root, k);
    TraversalIsSound(g, limits, root);
    if r.reasons == [] && NoFailedLink(r.records) && root.Some? {
      forall path | g.ObjectAt(root.value, path).Some?
        ensures Listed(r.records, g.ObjectAt(root.value, path).value)
      {
        UntruncatedIsComplete(g, limits, root.value, path);
      }
    }
  }

  lemma CutWalkIsFaithful(g: Graph, limits: Limits, root: Option<Obj>, k: nat, r: TreeResult)
    requires limits.maxNodes.Some? && r.records <= Run(g, limits, Start(root), k).out
    requires TimeLimit in r.reasons || SizeLimit in r.reasons
    ensures Faithful(g, limits, root, r)
  {
    CutWalkIsPrefix(g, limits, root, k);
    TraversalIsSound(g, limits, root);
  }

  predicate NoDriverLimit(reasons: seq<Reason>) {
    TimeLimit !in reasons && SizeLimit !in reasons
  }

  lemma StepSetsNoDriverLimit(g: Graph, limits: Limits, p: Progress)
    requires NoDriverLimit(p.walk.reasons)
    ensures NoDriverLimit(Step(g, limits, p).walk.reasons)
  {
  }

  lemma {:induction false} RunSetsNoDriverLimit(g: Graph, limits: Limits, p: Progress, k: nat)
    requires NoDriverLimit(p.walk.reasons)
    ensures NoDriverLimit(Run(g, limits, p, k).walk.reasons)
    decreases k
  {
    if k == 0 || p.walk.done {
    } else {
      StepSetsNoDriverLimit(g, limits, p);
      RunSetsNoDriverLimit(g, limits, Step(g, limits, p), k - 1);
    }
  }

  /** A walk by itself reports neither limit of its drivers. */
  lemma WalkSetsNoDriverLimit(g: Graph, limits: Limits, root: Option<Obj>, k: nat)
    ensures NoDriverLimit(Run(g, limits, Start(root), k).walk.reasons)
  {
    RunSetsNoDriverLimit(g, limits, Start(root), k);
  }

  /** Some reading of the clock left less than a millisecond before the deadline. */
  ghost predicate OutOfTime(clock: Clock, timeoutMs: nat) {
    exists i: nat :: clock(i) > clock(0) + timeoutMs as real / 1000.0 - 0.001
  }

  lemma ReasonIsThere(reasons: seq<Reason>, reason: Reason)
    ensures reason in AddReason(reasons, reason)
  {
  }

  /** Whole milliseconds left before the deadline. */
  function RemainingMs(deadline: real, now: real): int {
    (if deadline - now < 0.0 then 0.0 else (deadline - now) * 1000.0).Floor
  }

  /** A batch that the clock cut short leaves less time before the deadline. */
  lemma ClockCutsTime(deadline: real, before: real, after: real, budgetMs: int)
    requires 1 <= budgetMs <= RemainingMs(deadline, before)
    requires after >= before + budgetMs as real / 1000.0
    ensures RemainingMs(deadline, after) <= RemainingMs(deadline, before) - budgetMs
  {
  }

  lemma LaterLeavesLess(deadline: real, before: real, after: real)
    requires before <= after
    ensures 0 <= RemainingMs(deadline, after) <= RemainingMs(deadline, before)
  {
  }

  /** One batch; a batch without records uses up some of the time before the deadline. */
  method TimedBatch(walker: TreeWalker, ghost deadline: real, ghost remainingMs: int, maxRecords: int, budgetMs: int)
    returns (batch: seq<Record>)
    requires walker.OnCourse() && walker.limits.maxNodes.Some? && Nondecreasing(walker.clock) && walker.ticks > 0
    requires remainingMs == RemainingMs(deadline, walker.clock(walker.ticks - 1)) && 1 <= budgetMs <= remainingMs && maxRecords >= 1
    modifies walker
    ensures walker.OnCourse() && walker.emitted == old(walker.emitted) + batch && walker.ticks > old(walker.ticks)
    ensures |walker.emitted| <= walker.limits.maxNodes.value
    ensures batch == [] && !walker.done ==> RemainingMs(deadline, walker.clock(walker.ticks - 1)) < remainingMs
  {
    ghost var ticks := walker.ticks;
    batch := walker.NextBatch(maxRecords, budgetMs);
    if batch == [] && !walker.done {
      assert walker.clock(ticks - 1) <= walker.clock(ticks);
      ClockCutsTime(deadline, walker.clock(ticks - 1), walker.clock(walker.ticks - 1), budgetMs);
    }
  }

  /** Reads the clock. */
  method TimeToGo(walker: TreeWalker, deadline: real) returns (remainingMs: int)
    requires walker.OnCourse() && Nondecreasing(walker.clock) && walker.ticks > 0
    modifies walker`ticks
    ensures walker.OnCourse() && walker.ticks == old(walker.ticks) + 1
    ensures remainingMs == RemainingMs(deadline, walker.clock(walker.ticks - 1)) <= RemainingMs(deadline, walker.clock(old(walker.ticks) - 1))
  {
    var now := walker.Now();
    LaterLeavesLess(deadline, walker.clock(walker.ticks - 2), now);
    return RemainingMs(deadline, now);
  }

  method IsOver(walker: TreeWalker, deadline: real) returns (over: bool)
    requires walker.OnCourse() && Nondecreasing(walker.clock) && walker.ticks > 0
    modifies walker`ticks
    ensures walker.OnCourse() && walker.ticks == old(walker.ticks) + 1
    ensures RemainingMs(deadline, walker.clock(walker.ticks - 1)) <= RemainingMs(deadline, walker.clock(old(walker.ticks) - 1))
    ensures over <==> walker.clock(walker.ticks - 1) >= deadline
    ensures over ==> RemainingMs(deadline, walker.clock(walker.ticks - 1)) <= 0
  {
    var now := walker.Now();
    LaterLeavesLess(deadline, walker.clock(walker.ticks - 2), now);
    return now >= deadline;
  }

  method CollectTree(g: Graph, limits: Limits, timeoutMs: nat, clock: Clock, root: Option<Obj>) returns (r: TreeResult)
    requires limits.maxNodes.Some? && Nondecreasing(clock)
    ensures Faithful(g, limits, root, r)
    ensures SizeLimit !in r.reasons && (TimeLimit in r.reasons ==> OutOfTime(clock, timeoutMs))
  {
    var started := clock(0);
    var walker := new TreeWalker(g, limits, clock, root, 1);
    var deadline := started + timeoutMs as real / 1000.0;
    var records: seq<Record> := [];
    while !walker.done
      invariant walker.OnCourse() && records == walker.emitted && walker.ticks > 0
      decreases limits.maxNodes.value - |records|, if walker.done then 0 else 1, RemainingMs(deadline, clock(walker.ticks - 1))
    {
      var remainingMs := TimeToGo(walker, deadline);
      if remainingMs <= 0 {
        r := CutShort(walker, records, TimeLimit);
        return;
      }
      var remainingNodes := limits.maxNodes.value - |records|;
      var batch := TimedBatch(walker, deadline, remainingMs, if remainingNodes < 1 then 1 else remainingNodes, remainingMs);
      records := records + batch;
      if batch == [] && !walker.done {
        var over := IsOver(walker, deadline);
        if over {
          r := CutShort(walker, records, TimeLimit);
          return;
        }
      }
    }
    r := TreeResult(records, walker.reasons);
    WholeWalkIsFaithful(g, limits, root, walker.steps, r);
    WalkSetsNoDriverLimit(g, limits, root, walker.steps);
  }

  /** Ends a walk before it is done: the records so far, with the reason. */
  method CutShort(walker: TreeWalker, records: seq<Record>, reason: Reason) returns (r: TreeResult)
    requires walker.OnCourse() && walker.origin == Start(walker.root) && walker.limits.maxNodes.Some? && records <= walker.emitted
    requires reason == TimeLimit || reason == SizeLimit
    modifies walker
    ensures Faithful(walker.g, walker.limits, walker.root, r)
    ensures r.records == records && reason in r.reasons
    ensures TimeLimit in r.reasons ==> reason == TimeLimit
    ensures SizeLimit in r.reasons ==> reason == SizeLimit
  {
    ghost var reasons := walker.reasons;
    WalkSetsNoDriverLimit(walker.g, walker.limits, walker.root, walker.steps);
    walker.Abort(reason);
    ReasonIsThere(reasons, reason);
    r := TreeResult(records, walker.reasons);
    CutWalkIsFaithful(walker.g, walker.limits, walker.root, walker.steps, r);
  }

  // ---------- the sliced driver of the service ----------

  const SYNC_BATCH_NODES := 25
  const SYNC_BATCH_BUDGET_MS := 20
  const SYNC_MAX_RESULT_BYTES := 2 * 1024 * 1024

  /** The encoded size of a record list. */
  function TotalSize(size: Record -> nat, records: seq<Record>): nat {
    if records == [] then 0 else TotalSize(size, records[..|records| - 1]) + size(records[|records| - 1])
  }

  lemma TotalSizeStep(size: Record -> nat, records: seq<Record>, record: Record)
    ensures TotalSize(size, records + [record]) == TotalSize(size, records) + size(record)
  {
    assert (records + [record])[..|records + [record]| - 1] == records;
  }

  datatype CallFailure = CallFailure(call: nat)

  function Least(a: int, b: int): int {
    if a < b then a else b
  }

  /** Appends the records of a batch up to the first that would exceed the size limit. */
  method AddWhileSmall(size: Record -> nat, records: seq<Record>, resultBytes: nat, batch: seq<Record>)
    returns (kept: seq<Record>, keptBytes: nat, full: bool)
    requires resultBytes == TotalSize(size, records) <= SYNC_MAX_RESULT_BYTES
    ensures records <= kept <= records + batch
    ensures keptBytes == TotalSize(size, kept) <= SYNC_MAX_RESULT_BYTES
    ensures full <==> kept != records + batch
    ensures full ==> keptBytes + size((records + batch)[|kept|]) > SYNC_MAX_RESULT_BYTES
  {
    kept, keptBytes, full := records, resultBytes, false;
    for i := 0 to |batch|
      invariant kept == records + batch[..i]
      invariant keptBytes == TotalSize(size, kept) <= SYNC_MAX_RESULT_BYTES
      invariant !full
    {
      var recordBytes := size(batch[i]);
      if keptBytes + recordBytes > SYNC_MAX_RESULT_BYTES {
        full := true;
        return;
      }
      TotalSizeStep(size, kept, batch[i]);
      kept := kept + [batch[i]];
      keptBytes := keptBytes + recordBytes;
    }
  }

  /** The next record of the traversal would exceed the size limit. */
  ghost predicate NextTooLarge(g: Graph, limits: Limits, size: Record -> nat, root: Option<Obj>, records: seq<Record>)
    requires limits.maxNodes.Some?
  {
    var whole := Traversal(g, limits, root).records;
    |records| < |whole| && TotalSize(size, records) + size(whole[|records|]) > SYNC_MAX_RESULT_BYTES
  }

  /** Walks in main-thread slices. The i-th call to the main thread fails when `!answers(i)`:
      a timeout, a full queue, or a security check inside the slice. */
  method TreeSliced(g: Graph, limits: Limits, timeoutMs: nat, clock: Clock, size: Record -> nat, answers: nat -> bool, root: Option<Obj>)
    returns (r: Result<TreeResult, CallFailure>)
    requires limits.maxNodes.Some? && Nondecreasing(clock)
    ensures r.Err? ==> !answers(r.error.call)
    ensures r.Ok? ==> Faithful(g, limits, root, r.value) && TotalSize(size, r.value.records) <= SYNC_MAX_RESULT_BYTES
    ensures r.Ok? && TimeLimit in r.value.reasons ==> OutOfTime(clock, timeoutMs)
    ensures r.Ok? && SizeLimit in r.value.reasons ==> NextTooLarge(g, limits, size, root, r.value.records)
  {
    var started := clock(0);
    var deadline := started + timeoutMs as real / 1000.0;
    if !answers(0) {
      return Err(CallFailure(0));
    }
    var walker := new TreeWalker(g, limits, clock, root, 1);
    var calls := 1;
    var records: seq<Record> := [];
    var resultBytes := 0;
    while !walker.done
      invariant walker.OnCourse() && records == walker.emitted && walker.ticks > 0
      invariant resultBytes == TotalSize(size, records) <= SYNC_MAX_RESULT_BYTES
      decreases limits.maxNodes.value - |records|, if walker.done then 0 else 1, RemainingMs(deadline, clock(walker.ticks - 1))
    {
      var remainingMs := TimeToGo(walker, deadline);
      if remainingMs <= 0 {
        var limited := CutShort(walker, records, TimeLimit);
        return Ok(limited);
      }
      if !answers(calls) {
        return Err(CallFailure(calls));
      }
      calls := calls + 1;
      var remainingNodes := limits.maxNodes.value - walker.nodeCount;
      var batch := TimedBatch(walker, deadline, remainingMs, Least(SYNC_BATCH_NODES, if remainingNodes < 1 then 1 else remainingNodes),
                              Least(SYNC_BATCH_BUDGET_MS, remainingMs));
      var full;
      records, resultBytes, full := AddWhileSmall(size, records, resultBytes, batch);
      if full {
        CutWalkIsPrefix(g, limits, root, walker.steps);
        var limited := CutShort(walker, records, SizeLimit);
        return Ok(limited);
      }
    }
    var whole := TreeResult(records, walker.reasons);
    WholeWalkIsFaithful(g, limits, root, walker.steps, whole);
    WalkSetsNoDriverLimit(g, limits, root, walker.steps);
    return Ok(whole);
  }
}
