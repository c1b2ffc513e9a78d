/**
 The worker of an export from its start to its end, with nobody else at work: the third
 driver of the tree walker. It performs a run of the worker's steps in the manager's machine.
 */
module ExportWorker {
  import opened Common
  import opened TreeGraph
  import opened TreeWalk
  import opened TreeReference
  import opened TreeRefinement
  import TreeWalker
  import opened Exports
  import opened ExportInvariant
  import opened ExportObject

  // ---------- runs of one worker ----------

  predicate WorkerPossible(m: Manager, job: Job, retained: nat, ws: seq<WorkerEvent>)
    decreases |ws|
  {
    ws == [] || (WorkerCan(job.worker, m.sweep.Idle?, ws[0]) && WorkerPossible(m, WorkerStep(m, job, retained, ws[0]), retained, ws[1..]))
  }

  function WorkerRun(m: Manager, job: Job, retained: nat, ws: seq<WorkerEvent>): Job
    requires WorkerPossible(m, job, retained, ws)
    decreases |ws|
  {
    if ws == [] then job else WorkerRun(m, WorkerStep(m, job, retained, ws[0]), retained, ws[1..])
  }

  /** These steps lead from the one job to the other. */
  ghost predicate Led(m: Manager, start: Job, retained: nat, ws: seq<WorkerEvent>, job: Job) {
    WorkerPossible(m, start, retained, ws) && WorkerRun(m, start, retained, ws) == job
  }

  lemma {:induction false} OneMore(m: Manager, start: Job, retained: nat, ws: seq<WorkerEvent>, w: WorkerEvent)
    requires WorkerPossible(m, start, retained, ws) && WorkerCan(WorkerRun(m, start, retained, ws).worker, m.sweep.Idle?, w)
    ensures WorkerPossible(m, start, retained, ws + [w])
    ensures WorkerRun(m, start, retained, ws + [w]) == WorkerStep(m, WorkerRun(m, start, retained, ws), retained, w)
    decreases |ws|
  {
    if ws == [] {
      assert [w][1..] == [];
    } else {
      assert (ws + [w])[1..] == ws[1..] + [w];
      OneMore(m, WorkerStep(m, start, retained, ws[0]), retained, ws[1..], w);
    }
  }

  lemma OnlyMeasureUsesRetained(m: Manager, job: Job, a: nat, b: nat, w: WorkerEvent)
    requires WorkerCan(job.worker, m.sweep.Idle?, w) && !w.SizeRetained?
    ensures WorkerStep(m, job, a, w) == WorkerStep(m, job, b, w)
  {
  }

  lemma LedOn(m: Manager, start: Job, retained: nat, ws: seq<WorkerEvent>, job: Job, w: WorkerEvent, next: Job)
    requires Led(m, start, retained, ws, job) && WorkerCan(job.worker, m.sweep.Idle?, w)
    requires next == WorkerStep(m, job, if w.SizeRetained? then retained else 0, w)
    ensures Led(m, start, retained, ws + [w], next)
  {
    if !w.SizeRetained? {
      OnlyMeasureUsesRetained(m, job, 0, retained, w);
    }
    OneMore(m, start, retained, ws, w);
  }

  /** Writing a batch is a series of steps, one for each record and one for the end. */
  lemma {:induction false} WritingIsLed(m: Manager, start: Job, retained: nat, ws: seq<WorkerEvent>, job: Job)
    returns (longer: seq<WorkerEvent>)
    requires Led(m, start, retained, ws, job) && job.worker.Writing? && job.part.Some?
    ensures Led(m, start, retained, longer, WriteAll(m.lineOf, job))
    decreases |job.worker.batch|
  {
    var next := WriteNext(m.lineOf, job);
    LedOn(m, start, retained, ws, job, Write, next);
    if next.worker.Writing? {
      longer := WritingIsLed(m, start, retained, ws + [Write], next);
    } else {
      longer := ws + [Write];
    }
  }

  // ---------- the worker and its walker ----------

  /** The job's record of its walk is the walker's. */
  ghost predicate Tied(job: ExportJob, walker: TreeWalker.TreeWalker)
    reads job, walker
  {
    && walker.OnCourse() && walker.limits == EffectiveOptions(job.options)
    && job.progress == walker.State() && job.steps == walker.steps && job.root == walker.root
  }

  /** How many fiftieths of a second are left before the deadline, counting a begun one. */
  function TimeLeft(deadline: real, now: real): nat {
    if now >= deadline then 0 else ((deadline - now) * 50.0).Floor + 1
  }

  lemma LaterIsLess(deadline: real, before: real, after: real)
    requires before <= after
    ensures TimeLeft(deadline, after) <= TimeLeft(deadline, before)
  {
  }

  lemma BatchUsesTime(deadline: real, before: real, after: real)
    requires before < deadline && after >= before + 20 as real / 1000.0
    ensures TimeLeft(deadline, after) < TimeLeft(deadline, before)
  {
  }

  lemma TakenIsBatch(graph: Graph, job: Job, next: Job, start: Progress, steps: nat, records: seq<Record>)
    requires job.progress == TreeWalk.Run(graph, EffectiveOptions(job.options), start, job.steps)
    requires next.progress == TreeWalk.Run(graph, EffectiveOptions(job.options), start, job.steps + steps)
    requires next.progress.out == job.progress.out + records
    requires next == job.(progress := next.progress, steps := job.steps + steps, secured := false,
                          worker := if records == [] && !next.progress.walk.done then Looping else Writing(records))
    ensures next == NextBatch(graph, job, steps)
  {
    RunCompose(graph, EffectiveOptions(job.options), start, job.steps, steps);
    assert Since(next.progress.out, |job.progress.out|) == records;
  }

  method Hold(job: ExportJob, records: seq<Record>, done: bool, ghost progress: Progress, ghost steps: nat)
    modifies job`progress, job`steps, job`secured, job`worker
    ensures job.Contents() == old(job.Contents()).(progress := progress, steps := steps, secured := false,
                                                   worker := if records == [] && !done then Looping else Writing(records))
  {
    job.progress, job.steps, job.secured := progress, steps, false;
    job.worker := if records == [] && !done then Looping else Writing(records);
  }

  /** One batch, taken on the main thread. */
  method TakeBatch(job: ExportJob, walker: TreeWalker.TreeWalker) returns (records: seq<Record>, ghost steps: nat)
    requires Tied(job, walker) && job.worker == Batching && walker.ticks > 0 && TreeWalker.Nondecreasing(walker.clock)
    modifies job`progress, job`steps, job`secured, job`worker, walker
    ensures Tied(job, walker) && walker.ticks > old(walker.ticks)
    ensures job.Contents() == NextBatch(walker.g, old(job.Contents()), steps)
    ensures walker.emitted == old(walker.emitted) + records
    ensures job.worker == if records == [] && !walker.done then Looping else Writing(records)
    ensures records == [] && !walker.done ==> walker.clock(walker.ticks - 1) >= walker.clock(old(walker.ticks) - 1) + 20 as real / 1000.0
  {
    ghost var before := job.Contents();
    records := walker.NextBatch(25, 20);
    steps := walker.steps - old(walker.steps);
    Hold(job, records, walker.done, walker.State(), walker.steps);
    TakenIsBatch(walker.g, before, job.Contents(), walker.origin, steps, records);
    assert walker.clock(old(walker.ticks) - 1) <= walker.clock(old(walker.ticks));
  }

  /** Where the worker is after an exception, a cancellation or another, or after none. */
  function Stopped(raised: Option<bool>): Worker {
    if raised.Some? then Failing(raised.value) else Cleaning
  }

  /** From the start of the thread to the first look at the walk. */
  method Prepare(job: ExportJob, ghost m: Manager, now: Time, root: Option<Obj>, allowed: bool, opens: bool, retained: nat)
    returns (goOn: bool, raised: Option<bool>, ghost ws: seq<WorkerEvent>)
    requires job.worker == Starting && m.sweep.Idle? && !m.restricted
    modifies job
    ensures Led(m, old(job.Contents()), retained, ws, job.Contents())
    ensures goOn ==> job.worker == Looping && job.part.Some? && job.root == root && job.progress == Start(root) && job.steps == 0
    ensures !goOn ==> job.worker == Stopped(raised)
  {
    ghost var start := job.Contents();
    ws, raised := [], None;
    ghost var at := job.Contents();
    goOn := job.Begin(now, m);
    LedOn(m, start, retained, ws, at, WorkerEvent.Begin(now), job.Contents());
    ws := ws + [WorkerEvent.Begin(now)];
    if !goOn {
      return;
    }
    raised := Some(false);
    at := job.Contents();
    goOn := job.Prepare(root, allowed, m);
    LedOn(m, start, retained, ws, at, WorkerEvent.Prepare(root, allowed), job.Contents());
    ws := ws + [WorkerEvent.Prepare(root, allowed)];
    if !goOn {
      return;
    }
    at := job.Contents();
    goOn := job.OpenPart(opens, m);
    LedOn(m, start, retained, ws, at, WorkerEvent.OpenPart(opens), job.Contents());
    ws := ws + [WorkerEvent.OpenPart(opens)];
    if !goOn {
      return;
    }
    at := job.Contents();
    job.Measure(retained, m);
    LedOn(m, start, retained, ws, at, SizeRetained, job.Contents());
    ws := ws + [SizeRetained];
    raised := None;
  }

  /** A job and a walker that work on the same walk of the machine's graph. */
  ghost predicate Ready(job: ExportJob, walker: TreeWalker.TreeWalker, m: Manager, lineOf: Record -> Bytes)
    reads job, walker
  {
    && Tied(job, walker) && job.part.Some? && walker.g == m.graph && lineOf == m.lineOf
    && m.sweep.Idle? && !m.restricted && walker.ticks > 0 && TreeWalker.Nondecreasing(walker.clock)
  }

  method WriteTaken(job: ExportJob, batch: seq<Record>, reasons: seq<Reason>, ghost m: Manager, lineOf: Record -> Bytes,
                    ghost start: Job, ghost retained: nat, ghost soFar: seq<WorkerEvent>)
    returns (written: bool, ghost ws: seq<WorkerEvent>)
    requires job.worker == Writing(batch) && job.part.Some? && reasons == job.progress.walk.reasons && lineOf == m.lineOf
    requires Led(m, start, retained, soFar, job.Contents())
    modifies job`part, job`byteCount, job`nodeCount, job`worker, job`truncationReasons
    ensures Led(m, start, retained, ws, job.Contents())
    ensures job.worker == if written then Looping else Failing(false)
    ensures written ==> job.part.Some?
  {
    ws := WritingIsLed(m, start, retained, soFar, job.Contents());
    written := job.WriteBatch(lineOf, batch, reasons);
  }

  /** One batch is taken and written. */
  method WriteOneBatch(job: ExportJob, walker: TreeWalker.TreeWalker, ghost m: Manager, lineOf: Record -> Bytes,
                       ghost start: Job, ghost retained: nat, ghost soFar: seq<WorkerEvent>)
    returns (batch: seq<Record>, written: bool, ghost ws: seq<WorkerEvent>)
    requires Ready(job, walker, m, lineOf) && job.worker == Batching
    requires Led(m, start, retained, soFar, job.Contents())
    modifies job`progress, job`steps, job`secured, job`part, job`byteCount, job`nodeCount, job`worker, job`truncationReasons, walker
    ensures Led(m, start, retained, ws, job.Contents()) && Tied(job, walker)
    ensures job.worker == if written then Looping else Failing(false)
    ensures written ==> job.part.Some?
    ensures walker.ticks > old(walker.ticks) && walker.emitted == old(walker.emitted) + batch
    ensures batch == [] && !walker.done ==> walker.clock(walker.ticks - 1) >= walker.clock(old(walker.ticks) - 1) + 20 as real / 1000.0
  {
    ghost var at, steps := job.Contents(), 0;
    written := true;
    batch, steps := TakeBatch(job, walker);
    LedOn(m, start, retained, soFar, at, WorkerEvent.Batch(steps, true), job.Contents());
    ws := soFar + [WorkerEvent.Batch(steps, true)];
    if batch != [] || walker.done {
      written, ws := WriteTaken(job, batch, walker.reasons, m, lineOf, start, retained, ws);
    }
  }

  /** Once around the loop; `answers` is false when the call to the main thread fails. */
  method Round(job: ExportJob, walker: TreeWalker.TreeWalker, ghost m: Manager, lineOf: Record -> Bytes, answers: bool,
               ghost start: Job, ghost retained: nat, ghost soFar: seq<WorkerEvent>)
    returns (more: bool, raised: Option<bool>, ghost ws: seq<WorkerEvent>)
    requires Ready(job, walker, m, lineOf) && job.worker == Looping
    requires Led(m, start, retained, soFar, job.Contents())
    modifies job`progress, job`steps, job`secured, job`part, job`byteCount, job`nodeCount, job`worker, job`truncationReasons, walker
    ensures Led(m, start, retained, ws, job.Contents()) && Tied(job, walker) && walker.ticks > old(walker.ticks)
    ensures more ==> job.worker == Looping && job.part.Some?
    ensures !more ==> job.worker == if raised.None? then Checking else Stopped(raised)
    ensures more ==> old(walker.emitted) <= walker.emitted && !old(walker.done)
    ensures more && walker.emitted == old(walker.emitted) && !walker.done ==>
              var deadline := job.startedAt + EXPORT_MAX_DURATION_SECONDS;
              TimeLeft(deadline, walker.clock(walker.ticks - 1)) < TimeLeft(deadline, walker.clock(old(walker.ticks) - 1))
  {
    ghost var ticks := walker.ticks;
    var goOn;
    goOn, ws := LookAtLoop(job, walker, m, start, retained, soFar);
    if !goOn {
      return false, Some(job.cancelEvent), ws;
    }
    if walker.done {
      return false, None, ws;
    }
    if !answers {
      ghost var at := job.Contents();
      job.Refuse(false);
      LedOn(m, start, retained, ws, at, Break, job.Contents());
      return false, Some(false), ws + [Break];
    }
    var batch;
    batch, more, ws := WriteOneBatch(job, walker, m, lineOf, start, retained, ws);
    raised := Some(false);
    RoundUsesTime(job.startedAt + EXPORT_MAX_DURATION_SECONDS, walker.clock, ticks, walker.ticks - 1, batch == [] && !walker.done);
  }

  /** The head of the loop. */
  method LookAtLoop(job: ExportJob, walker: TreeWalker.TreeWalker, ghost m: Manager,
                    ghost start: Job, ghost retained: nat, ghost soFar: seq<WorkerEvent>)
    returns (goOn: bool, ghost ws: seq<WorkerEvent>)
    requires Tied(job, walker) && job.worker == Looping
    requires Led(m, start, retained, soFar, job.Contents())
    modifies job`worker, walker`ticks
    ensures Led(m, start, retained, ws, job.Contents()) && Tied(job, walker) && walker.ticks == old(walker.ticks) + 1
    ensures job.worker == if !goOn then Failing(job.cancelEvent) else if walker.done then Checking else Batching
    ensures goOn && !walker.done ==> walker.clock(old(walker.ticks)) < job.startedAt + EXPORT_MAX_DURATION_SECONDS
  {
    ghost var at := job.Contents();
    var now := walker.Now();
    goOn := job.CheckLoop(now, walker.done, m);
    LedOn(m, start, retained, soFar, at, Loop(now), job.Contents());
    ws := soFar + [Loop(now)];
  }

  lemma RoundUsesTime(deadline: real, clock: TreeWalker.Clock, ticks: nat, later: nat, idle: bool)
    requires TreeWalker.Nondecreasing(clock) && ticks > 0 && later >= ticks
    requires clock(ticks) < deadline && (idle ==> clock(later) >= clock(ticks) + 20 as real / 1000.0)
    ensures idle ==> TimeLeft(deadline, clock(later)) < TimeLeft(deadline, clock(ticks - 1))
  {
    LaterIsLess(deadline, clock(ticks - 1), clock(ticks));
    if idle {
      BatchUsesTime(deadline, clock(ticks), clock(later));
    }
  }

  /** The loop over the batches; the i-th call to the main thread fails when `!answers(i)`. */
  method WriteWalk(job: ExportJob, walker: TreeWalker.TreeWalker, ghost m: Manager, lineOf: Record -> Bytes, answers: nat -> bool,
                   ghost start: Job, ghost retained: nat, ghost soFar: seq<WorkerEvent>)
    returns (raised: Option<bool>, ghost ws: seq<WorkerEvent>)
    requires Ready(job, walker, m, lineOf) && job.worker == Looping
    requires Led(m, start, retained, soFar, job.Contents())
    modifies job, walker
    ensures Led(m, start, retained, ws, job.Contents()) && Tied(job, walker) && walker.ticks > 0
    ensures job.worker == if raised.None? then Checking else Stopped(raised)
  {
    ws := soFar;
    var calls := 1;
    var more := true;
    raised := None;
    while more
      invariant Tied(job, walker) && walker.ticks > 0 && job.startedAt == old(job.startedAt)
      invariant Led(m, start, retained, ws, job.Contents())
      invariant more ==> job.worker == Looping && job.part.Some?
      invariant !more ==> job.worker == if raised.None? then Checking else Stopped(raised)
      decreases more, walker.limits.maxNodes.value - |walker.emitted|, if walker.done then 0 else 1,
                TimeLeft(job.startedAt + EXPORT_MAX_DURATION_SECONDS, walker.clock(walker.ticks - 1))
    {
      more, raised, ws := Round(job, walker, m, lineOf, answers(calls), start, retained, ws);
        calls := calls + 1;
    }
  }

  /** After the last batch: the barrier on the main thread, and publication. */
  method Finish(job: ExportJob, ghost m: Manager, now: Time, allowed: bool, renamed: bool, reasons: seq<Reason>,
                ghost start: Job, ghost retained: nat, ghost soFar: seq<WorkerEvent>)
    returns (raised: Option<bool>, ghost ws: seq<WorkerEvent>)
    requires job.worker == Checking && reasons == job.progress.walk.reasons && m.sweep.Idle? && !m.restricted
    requires Led(m, start, retained, soFar, job.Contents())
    modifies job
    ensures Led(m, start, retained, ws, job.Contents()) && job.worker == Stopped(raised)
  {
    ghost var at := job.Contents();
    var goOn := job.FinalCheck(allowed, m);
    LedOn(m, start, retained, soFar, at, WorkerEvent.FinalCheck(allowed), job.Contents());
    ws := soFar + [WorkerEvent.FinalCheck(allowed)];
    raised := Some(false);
    if goOn {
      at := job.Contents();
      var published := job.Publish(now, renamed, reasons);
      raised := if published then None else Some(job.cancelEvent);
      LedOn(m, start, retained, ws, at, WorkerEvent.Publish(now, renamed), job.Contents());
      ws := ws + [WorkerEvent.Publish(now, renamed)];
    }
  }

  /** The whole thread of a job. */
  method RunWorker(job: ExportJob, ghost m: Manager, graph: Graph, lineOf: Record -> Bytes, clock: TreeWalker.Clock, root: Option<Obj>,
                   retained: nat, answers: nat -> bool, cleared: bool, opens: bool, renamed: bool, partGoes: bool, dataGoes: bool)
    returns (ghost ws: seq<WorkerEvent>)
    requires m.sweep.Idle? && !m.restricted && m.graph == graph && m.lineOf == lineOf
    requires TreeWalker.Nondecreasing(clock) && retained <= EXPORT_MAX_TOTAL_BYTES
    requires job.worker == Starting && JobFits(m, job.Contents()) && WalkFits(m, job.Contents())
    modifies job
    ensures Led(m, old(job.Contents()), retained, ws, job.Contents()) && job.worker == Ended
    ensures Delivered(m, job.Contents())
  {
    ghost var start := job.Contents();
    var goOn, raised;
    goOn, raised, ws := Prepare(job, m, clock(0), root, answers(0), opens, retained);
    if goOn {
      var walker := new TreeWalker.TreeWalker(graph, EffectiveOptions(job.options), clock, root, 1);
      raised, ws := WriteWalk(job, walker, m, lineOf, answers, start, retained, ws);
      if raised.None? {
        var now := walker.Now();
        raised, ws := Finish(job, m, now, cleared, renamed, walker.reasons, start, retained, ws);
      }
    }
    ws := End(job, raised, m, partGoes, dataGoes, start, retained, ws);
    EndedWorkerLeaves(m, start, retained, ws);
  }

  /** The exception handlers and the final clause. */
  method End(job: ExportJob, raised: Option<bool>, ghost m: Manager, partGoes: bool, dataGoes: bool, ghost start: Job, ghost retained: nat, ghost soFar: seq<WorkerEvent>)
    returns (ghost ws: seq<WorkerEvent>)
    requires job.worker == Stopped(raised)
    requires Led(m, start, retained, soFar, job.Contents())
    modifies job
    ensures Led(m, start, retained, ws, job.Contents()) && job.worker == Ended
  {
    ws := soFar;
    ghost var at := job.Contents();
    if raised.Some? {
      job.Settle(raised.value, m);
      LedOn(m, start, retained, ws, at, WorkerEvent.Settle, job.Contents());
      ws := ws + [WorkerEvent.Settle];
    }
    at := job.Contents();
    job.CleanUp(partGoes, dataGoes, m);
    LedOn(m, start, retained, ws, at, WorkerEvent.CleanUp(partGoes, dataGoes), job.Contents());
    ws := ws + [WorkerEvent.CleanUp(partGoes, dataGoes)];
  }

  // ---------- what such a run leaves ----------

  lemma {:induction false} WorkerRunKeeps(m: Manager, job: Job, retained: nat, ws: seq<WorkerEvent>)
    requires JobFits(m, job) && WalkFits(m, job) && retained <= EXPORT_MAX_TOTAL_BYTES && WorkerPossible(m, job, retained, ws)
    ensures JobFits(m, WorkerRun(m, job, retained, ws)) && WalkFits(m, WorkerRun(m, job, retained, ws))
    decreases |ws|
  {
    if ws == [] {
    } else {
      WorkerKeepsJob(m, job, retained, ws[0]);
      WorkerKeepsWalk(m, job, retained, ws[0]);
      WorkerRunKeeps(m, WorkerStep(m, job, retained, ws[0]), retained, ws[1..]);
    }
  }

  /** The file of a completed job is that of the whole traversal, and its partial file is gone. */
  predicate Delivered(m: Manager, job: Job) {
    if job.status == Completed then
      job.part.None? && job.data == Some(FileOf(m.lineOf, Traversal(m.graph, EffectiveOptions(job.options), job.root).records))
    else job.status != Queued && job.status != Running
  }

  /** A worker that runs to its end leaves its job completed with the whole traversal in its
      file, or canceled or failed. */
  lemma EndedWorkerLeaves(m: Manager, start: Job, retained: nat, ws: seq<WorkerEvent>)
    requires JobFits(m, start) && WalkFits(m, start) && retained <= EXPORT_MAX_TOTAL_BYTES && WorkerPossible(m, start, retained, ws)
    requires WorkerRun(m, start, retained, ws).worker == Ended
    ensures Delivered(m, WorkerRun(m, start, retained, ws))
  {
    WorkerRunKeeps(m, start, retained, ws);
    var job := WorkerRun(m, start, retained, ws);
    if job.status == Completed {
      WalkerRefinesRecursion(m.graph, EffectiveOptions(job.options), job.root, job.steps);
    }
  }

  /** A job as it is created, or canceled before its worker has begun. */
  lemma NewJobFits(m: Manager, options: Limits, created: Time, cancel: bool)
    ensures var job := NewJob(options, created).(cancel := cancel); JobFits(m, job) && WalkFits(m, job)
  {
  }
}
