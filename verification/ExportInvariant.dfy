/** What every step of the export manager keeps. */
module ExportInvariant {
  import opened Common
  import opened TreeGraph
  import opened TreeWalk
  import opened Exports

  // ---------- one job ----------

  /** The partial file holds the lines of the first `done` records, and the counters say so. */
  predicate PartFits(m: Manager, job: Job, done: nat) {
    && done <= |job.progress.out| && job.nodes == done
    && job.part == Some(FileOf(m.lineOf, job.progress.out[..done]))
    && job.bytes == |job.part.value| <= EXPORT_MAX_BYTES
    && job.retainedAtStart + job.bytes <= EXPORT_MAX_TOTAL_BYTES
  }

  /** The batch is the end of the records. */
  predicate Trails(batch: seq<Record>, records: seq<Record>) {
    |batch| <= |records| && forall i :: 0 <= i < |batch| ==> batch[i] == records[|records| - |batch| + i]
  }

  predicate NothingWritten(job: Job) {
    job.data.None? && job.bytes == 0 && job.nodes == 0 && job.progress.out == []
  }

  predicate PlaceFits(m: Manager, job: Job) {
    match job.worker
    case Starting => job.status == Queued && NothingWritten(job) && job.part.None?
    case Preparing => job.status == Running && NothingWritten(job) && job.part.None?
    case Opening => job.status == Running && NothingWritten(job) && job.part.None?
    case Sizing => job.status == Running && NothingWritten(job) && job.part == Some([])
    case Looping => job.status == Running && job.data.None? && PartFits(m, job, |job.progress.out|)
    case Batching => job.status == Running && job.data.None? && PartFits(m, job, |job.progress.out|)
    case Writing(batch) =>
      && job.status == Running && job.data.None?
      && Trails(batch, job.progress.out)
      && PartFits(m, job, |job.progress.out| - |batch|)
    case Checking =>
      job.status == Running && job.data.None? && PartFits(m, job, |job.progress.out|) && job.progress.walk.done
    case Publishing =>
      && job.status == Running && job.data.None? && PartFits(m, job, |job.progress.out|) && job.progress.walk.done
      && job.secured
    case Failing(_) => job.status == Running && job.data.None?
    case Cleaning => !Active(job)
    case Ended => !Active(job)
  }

  /** A completed job holds exactly its finished walk, and was cleared after its last batch. */
  predicate ResultFits(m: Manager, job: Job) {
    job.status == Completed ==>
      && !job.cancel && job.secured && job.progress.walk.done
      && job.part.None? && job.data == Some(FileOf(m.lineOf, job.progress.out))
      && job.bytes == |job.data.value| <= EXPORT_MAX_BYTES && job.nodes == |job.progress.out|
      && job.reasons == job.progress.walk.reasons
  }

  predicate Settled(job: Job) {
    !Active(job) && job.status != Completed
  }

  predicate ListingFits(job: Job) {
    !job.listed ==> Settled(job) && NoFiles(job)
  }

  predicate SecuredFits(job: Job) {
    job.secured ==> job.worker.Publishing? || job.worker.Failing? || job.worker.Cleaning? || job.worker.Ended?
  }

  predicate JobFits(m: Manager, job: Job) {
    SecuredFits(job) && PlaceFits(m, job) && ResultFits(m, job) && ListingFits(job)
  }

  lemma FileGrows(lineOf: Record -> Bytes, records: seq<Record>, n: nat)
    requires n < |records|
    ensures FileOf(lineOf, records[..n + 1]) == FileOf(lineOf, records[..n]) + lineOf(records[n])
  {
    assert records[..n + 1][..n] == records[..n];
  }

  lemma WriteKeepsJob(m: Manager, job: Job)
    requires JobFits(m, job) && job.worker.Writing?
    ensures job.part.Some? && JobFits(m, WriteNext(m.lineOf, job))
  {
    var batch, out := job.worker.batch, job.progress.out;
    var n := |out| - |batch|;
    if batch == [] {
      assert out[..n] == out;
    } else {
      assert batch[0] == out[n] && Trails(batch[1..], out);
      FileGrows(m.lineOf, out, n);
    }
  }

  lemma BatchKeepsPart(m: Manager, job: Job, steps: nat)
    requires PartFits(m, job, |job.progress.out|)
    ensures var next := NextBatch(m.graph, job, steps);
            && job.progress.out <= next.progress.out
            && PartFits(m, next, |job.progress.out|)
  {
    var next := NextBatch(m.graph, job, steps);
    RunExtends(m.graph, EffectiveOptions(job.options), job.progress, steps);
    var n := |job.progress.out|;
    assert next.progress.out[..n] == job.progress.out == job.progress.out[..n];
  }

  lemma BatchKeepsJob(m: Manager, job: Job, steps: nat)
    requires JobFits(m, job) && job.worker.Batching?
    ensures JobFits(m, NextBatch(m.graph, job, steps))
  {
    BatchKeepsPart(m, job, steps);
    BatchLeadsOn(m, job, NextBatch(m.graph, job, steps));
  }

  lemma BatchLeadsOn(m: Manager, job: Job, next: Job)
    requires JobFits(m, job) && job.worker.Batching? && job.progress.out <= next.progress.out
    requires var records := Since(next.progress.out, |job.progress.out|);
             && (next.worker == Writing(records) || (records == [] && next.worker.Looping?))
             && next == job.(progress := next.progress, steps := next.steps, secured := false, worker := next.worker)
    requires PartFits(m, next, |job.progress.out|)
    ensures JobFits(m, next)
  {
  }

  lemma PublishKeepsJob(m: Manager, job: Job, now: Time, renamed: bool)
    requires JobFits(m, job) && job.worker.Publishing?
    ensures JobFits(m, PublishFile(job, now, renamed))
  {
    assert job.progress.out[..|job.progress.out|] == job.progress.out;
  }

  predicate BeforeLoop(w: WorkerEvent) {
    w.Begin? || w.Prepare? || w.OpenPart? || w.SizeRetained?
  }

  lemma EarlyWorkerKeepsJob(m: Manager, job: Job, retained: nat, w: WorkerEvent)
    requires JobFits(m, job) && WorkerCan(job.worker, m.sweep.Idle?, w) && retained <= EXPORT_MAX_TOTAL_BYTES
    requires BeforeLoop(w)
    ensures JobFits(m, WorkerStep(m, job, retained, w))
  {
  }

  lemma FailingKeepsJob(m: Manager, job: Job, canceled: bool)
    requires JobFits(m, job) && job.status == Running && job.data.None?
    ensures JobFits(m, job.(worker := Failing(canceled)))
  {
  }

  lemma LateWorkerKeepsJob(m: Manager, job: Job, retained: nat, w: WorkerEvent)
    requires JobFits(m, job) && WorkerCan(job.worker, m.sweep.Idle?, w)
    requires w.Loop? || w.FinalCheck? || w.Break? || w.Settle? || w.CleanUp?
    ensures JobFits(m, WorkerStep(m, job, retained, w))
  {
    if !w.Settle? && !w.CleanUp? {
      FailingKeepsJob(m, job, true);
      FailingKeepsJob(m, job, false);
    }
  }

  lemma WorkerKeepsJob(m: Manager, job: Job, retained: nat, w: WorkerEvent)
    requires JobFits(m, job) && WorkerCan(job.worker, m.sweep.Idle?, w) && retained <= EXPORT_MAX_TOTAL_BYTES
    ensures JobFits(m, WorkerStep(m, job, retained, w))
  {
    if BeforeLoop(w) {
      EarlyWorkerKeepsJob(m, job, retained, w);
    } else if w.Batch? {
      BatchKeepsJob(m, job, w.steps);
      FailingKeepsJob(m, job, false);
    } else if w.Write? {
      WriteKeepsJob(m, job);
    } else if w.Publish? {
      PublishKeepsJob(m, job, w.now, w.renamed);
    } else {
      LateWorkerKeepsJob(m, job, retained, w);
    }
  }

  // ---------- totals ----------

  lemma {:induction false} TotalUpdate(jobs: seq<Job>, id: JobId, job: Job, weight: Job -> nat)
    requires id < |jobs|
    ensures Total(jobs[id := job], weight) + weight(jobs[id]) == Total(jobs, weight) + weight(job)
  {
    var last := |jobs| - 1;
    if id == last {
      assert jobs[id := job][..last] == jobs[..last];
    } else {
      assert jobs[id := job][..last] == jobs[..last][id := job];
      TotalUpdate(jobs[..last], id, job, weight);
    }
  }

  lemma TotalAppend(jobs: seq<Job>, job: Job, weight: Job -> nat)
    ensures Total(jobs + [job], weight) == Total(jobs, weight) + weight(job)
  {
    assert (jobs + [job])[..|jobs|] == jobs;
  }

  lemma {:induction false} TotalCounts(jobs: seq<Job>, a: JobId, weight: Job -> nat)
    requires a < |jobs|
    ensures weight(jobs[a]) <= Total(jobs, weight)
  {
    if a == |jobs| - 1 {
    } else {
      TotalCounts(jobs[..|jobs| - 1], a, weight);
    }
  }

  lemma {:induction false} TotalCountsTwo(jobs: seq<Job>, a: JobId, b: JobId, weight: Job -> nat)
    requires a < b < |jobs|
    ensures weight(jobs[a]) + weight(jobs[b]) <= Total(jobs, weight)
  {
    if b < |jobs| - 1 {
      TotalCountsTwo(jobs[..|jobs| - 1], a, b, weight);
    } else {
      TotalCounts(jobs[..b], a, weight);
    }
  }

  // ---------- the whole manager ----------

  /** The quotas, and that the one worker that writes still has the room it measured. */
  predicate QuotasHold(jobs: seq<Job>) {
    && ActiveJobs(jobs) <= EXPORT_MAX_CONCURRENT
    && CompletedJobs(jobs) + ActiveJobs(jobs) <= EXPORT_MAX_RETAINED_JOBS
    && CompletedBytes(jobs) <= EXPORT_MAX_TOTAL_BYTES
  }

  predicate Measured(job: Job) {
    job.worker.Looping? || job.worker.Batching? || job.worker.Writing? || job.worker.Checking? || job.worker.Publishing?
  }

  predicate RoomFits(jobs: seq<Job>, job: Job) {
    Measured(job) ==> CompletedBytes(jobs) <= job.retainedAtStart
  }

  /** Nothing this job holds can be downloaded, now or later, while the session is restricted. */
  predicate Harmless(job: Job) {
    || job.cancel
    || (job.status != Completed
        && (job.worker.Starting? || job.worker.Preparing? || job.worker.Failing? || job.worker.Cleaning? || job.worker.Ended?))
  }

  predicate MustBeHarmless(m: Manager, id: JobId) {
    m.restricted && (m.sweep.Idle? || (m.sweep.Sweeping? && id !in m.sweep.left))
  }

  predicate CleanerFits(jobs: seq<Job>, cleaner: Cleaner) {
    match cleaner
    case Deleting(id) => id < |jobs| && Settled(jobs[id])
    case Popping(id) => id < |jobs| && Settled(jobs[id]) && NoFiles(jobs[id])
    case Through => true
  }

  ghost predicate SweepFits(m: Manager) {
    && (m.sweep.Sweeping? ==> forall id :: id in m.sweep.left ==> id < |m.jobs|)
    && (!m.sweep.Idle? ==> m.restricted)
  }

  predicate SlotFits(m: Manager, id: JobId)
    requires id < |m.jobs|
  {
    JobFits(m, m.jobs[id]) && RoomFits(m.jobs, m.jobs[id]) && (MustBeHarmless(m, id) ==> Harmless(m.jobs[id]))
  }

  ghost predicate Invariant(m: Manager) {
    && QuotasHold(m.jobs)
    && SweepFits(m)
    && (forall id :: 0 <= id < |m.jobs| ==> SlotFits(m, id))
    && (forall c :: c in m.cleaners ==> CleanerFits(m.jobs, m.cleaners[c]))
  }

  lemma InitialInvariant(graph: Graph, lineOf: Record -> Bytes, restricted: bool)
    ensures Invariant(Initial(graph, lineOf, restricted))
  {
  }

  /** How one party's step on one job may change it. */
  predicate Progresses(job: Job, next: Job) {
    && (Settled(job) ==> Settled(next) && (NoFiles(job) ==> NoFiles(next)))
    && (job.cancel ==> next.cancel)
    && ActiveWeight(next) <= ActiveWeight(job)
    && CompletedWeight(next) + ActiveWeight(next) <= CompletedWeight(job) + ActiveWeight(job)
    && (BytesWeight(next) <= BytesWeight(job) || (job.worker.Publishing? && BytesWeight(next) == job.bytes))
    && (Measured(next) ==> (Measured(job) && next.retainedAtStart == job.retainedAtStart) || job.worker.Sizing?)
  }

  lemma PublishProgresses(m: Manager, job: Job, now: Time, renamed: bool)
    requires JobFits(m, job) && job.worker.Publishing?
    ensures Progresses(job, PublishFile(job, now, renamed))
  {
  }

  predicate InLoop(w: WorkerEvent) {
    w.Loop? || w.Batch? || w.Write? || w.FinalCheck? || w.Break?
  }

  lemma EarlyProgresses(m: Manager, job: Job, retained: nat, w: WorkerEvent)
    requires JobFits(m, job) && WorkerCan(job.worker, m.sweep.Idle?, w) && BeforeLoop(w)
    ensures var next := WorkerStep(m, job, retained, w);
            && Progresses(job, next)
            && (Measured(next) ==> next.retainedAtStart == retained)
  {
  }

  lemma LoopKeepsStatus(m: Manager, job: Job, retained: nat, w: WorkerEvent)
    requires JobFits(m, job) && WorkerCan(job.worker, m.sweep.Idle?, w) && InLoop(w)
    ensures var next := WorkerStep(m, job, retained, w);
            && next.status == job.status == Running && next.listed == job.listed && next.cancel == job.cancel
            && next.retainedAtStart == job.retainedAtStart && (Measured(next) ==> Measured(job)) && !job.worker.Sizing?
  {
  }

  lemma EndProgresses(m: Manager, job: Job, retained: nat, w: WorkerEvent)
    requires JobFits(m, job) && WorkerCan(job.worker, m.sweep.Idle?, w) && (w.Settle? || w.CleanUp?)
    ensures Progresses(job, WorkerStep(m, job, retained, w))
  {
  }

  lemma WorkerProgresses(m: Manager, job: Job, retained: nat, w: WorkerEvent)
    requires JobFits(m, job) && WorkerCan(job.worker, m.sweep.Idle?, w)
    ensures var next := WorkerStep(m, job, retained, w);
            && Progresses(job, next)
            && (Measured(next) && job.worker.Sizing? ==> next.retainedAtStart == retained)
  {
    if BeforeLoop(w) {
      EarlyProgresses(m, job, retained, w);
    } else if InLoop(w) {
      LoopKeepsStatus(m, job, retained, w);
    } else if w.Publish? {
      PublishProgresses(m, job, w.now, w.renamed);
    } else {
      EndProgresses(m, job, retained, w);
    }
  }

  lemma WorkerStaysHarmless(m: Manager, job: Job, retained: nat, w: WorkerEvent)
    requires JobFits(m, job) && WorkerCan(job.worker, m.sweep.Idle?, w) && m.restricted && Harmless(job)
    ensures Harmless(WorkerStep(m, job, retained, w))
  {
  }

  /** How a step leaves the job it changes. */
  predicate ChangesWell(m: Manager, job: Job, next: Job) {
    && JobFits(m, next) && Progresses(job, next)
    && (m.restricted && Harmless(job) ==> Harmless(next))
    && (job.worker.Sizing? && Measured(next) ==> next.retainedAtStart == CompletedBytes(m.jobs))
  }

  lemma FlagKeepsJob(m: Manager, job: Job)
    requires JobFits(m, job) && job.status != Completed
    ensures ChangesWell(m, job, job.(cancel := true)) && Harmless(job.(cancel := true))
  {
  }

  lemma RevocationKeepsJob(m: Manager, job: Job, next: Job)
    requires JobFits(m, job) && job.status == Completed && next.status in {Canceled, Expired}
    requires next.part == job.part && next.data in {job.data, None}
    requires next == job.(cancel := true, status := next.status, expiresAt := next.expiresAt, data := next.data)
    ensures ChangesWell(m, job, next) && Harmless(next)
  {
    assert job.worker.Cleaning? || job.worker.Ended?;
  }

  /** `cancel`, `cancel_sensitive` and the expiry mark. */
  lemma RevokingKeepsJob(m: Manager, job: Job, now: Time, partGoes: bool, dataGoes: bool)
    requires JobFits(m, job)
    ensures ChangesWell(m, job, CancelJob(job, partGoes, dataGoes))
    ensures ChangesWell(m, job, CancelSensitive(job, now)) && Harmless(CancelSensitive(job, now))
    ensures ChangesWell(m, job, MarkExpired(job))
  {
    if job.status == Completed {
      assert job.part.None?;
      RevocationKeepsJob(m, job, CancelJob(job, partGoes, dataGoes));
      RevocationKeepsJob(m, job, CancelSensitive(job, now));
      RevocationKeepsJob(m, job, MarkExpired(job));
    } else {
      FlagKeepsJob(m, job);
    }
  }

  lemma CleaningKeepsJob(m: Manager, job: Job, partGoes: bool, dataGoes: bool)
    requires JobFits(m, job) && Settled(job)
    ensures ChangesWell(m, job, DeleteFiles(job, partGoes, dataGoes))
    ensures NoFiles(job) ==> ChangesWell(m, job, job.(listed := false))
  {
  }

  lemma ChangeKeepsJob(m: Manager, e: Event)
    requires Invariant(m) && Enabled(m, e) && Changed(m, e).Some?
    ensures Changed(m, e).value < |m.jobs|
    ensures ChangesWell(m, m.jobs[Changed(m, e).value], NewValue(m, e))
    ensures e.SweepCancels? ==> Harmless(NewValue(m, e))
  {
    var id := Changed(m, e).value;
    assert (e.Delete? || e.Pop?) ==> CleanerFits(m.jobs, m.cleaners[e.cleaner]);
    assert SlotFits(m, id);
    var job := m.jobs[id];
    match e {
      case Work(_, w) =>
        WorkerKeepsJob(m, job, CompletedBytes(m.jobs), w);
        WorkerProgresses(m, job, CompletedBytes(m.jobs), w);
        if m.restricted && Harmless(job) {
          WorkerStaysHarmless(m, job, CompletedBytes(m.jobs), w);
        }
      case Cancel(_, partGoes, dataGoes) => RevokingKeepsJob(m, job, 0.0, partGoes, dataGoes);
      case SweepCancels(_, now) => RevokingKeepsJob(m, job, now, true, true);
      case Expire(_, _, _) => RevokingKeepsJob(m, job, 0.0, true, true);
      case Delete(_, partGoes, dataGoes) => CleaningKeepsJob(m, job, partGoes, dataGoes);
      case Pop(_) => CleaningKeepsJob(m, job, true, true);
    }
  }

  lemma ChangeKeepsQuotas(m: Manager, id: JobId, next: Job)
    requires id < |m.jobs| && QuotasHold(m.jobs) && SlotFits(m, id) && Progresses(m.jobs[id], next)
    ensures var jobs := m.jobs[id := next];
            && QuotasHold(jobs)
            && (CompletedBytes(jobs) <= CompletedBytes(m.jobs)
                || (m.jobs[id].worker.Publishing? && CompletedBytes(jobs) <= EXPORT_MAX_TOTAL_BYTES && BytesWeight(next) > 0))
  {
    TotalUpdate(m.jobs, id, next, ActiveWeight);
    TotalUpdate(m.jobs, id, next, CompletedWeight);
    TotalUpdate(m.jobs, id, next, BytesWeight);
  }

  lemma ChangeKeepsRoom(m: Manager, id: JobId, next: Job, j: JobId)
    requires id < |m.jobs| && QuotasHold(m.jobs) && SlotFits(m, id) && Progresses(m.jobs[id], next) && JobFits(m, next)
    requires m.jobs[id].worker.Sizing? && Measured(next) ==> next.retainedAtStart == CompletedBytes(m.jobs)
    requires j < |m.jobs| && SlotFits(m, j)
    ensures RoomFits(m.jobs[id := next], m.jobs[id := next][j])
  {
    ChangeKeepsQuotas(m, id, next);
    if j < id {
      TotalCountsTwo(m.jobs, j, id, ActiveWeight);
    } else if id < j {
      TotalCountsTwo(m.jobs, id, j, ActiveWeight);
    }
  }

  /** What a step that changes job `id` to `next` does to the manager. */
  ghost predicate Changes(m: Manager, q: Manager, id: JobId, next: Job) {
    && id < |m.jobs| && q.jobs == m.jobs[id := next]
    && q.graph == m.graph && q.lineOf == m.lineOf && q.restricted == m.restricted
    && (q.sweep == m.sweep
        || (m.sweep.Sweeping? && q.sweep == Sweeping(m.sweep.left - {id}) && Harmless(next)))
  }

  lemma ChangeKeepsSlot(m: Manager, q: Manager, id: JobId, next: Job, j: JobId)
    requires Changes(m, q, id, next) && j < |m.jobs| && SlotFits(m, id) && SlotFits(m, j)
    requires JobFits(m, next) && (m.restricted && Harmless(m.jobs[id]) ==> Harmless(next))
    requires RoomFits(q.jobs, q.jobs[j])
    ensures SlotFits(q, j)
  {
    assert JobFits(q, q.jobs[j]) by {
      assert JobFits(m, q.jobs[j]);
    }
  }

  lemma ChangeKeepsCleaner(m: Manager, e: Event, c: CleanerId)
    requires Enabled(m, e) && Changed(m, e).Some? && Changed(m, e).value < |m.jobs|
    requires Progresses(m.jobs[Changed(m, e).value], NewValue(m, e))
    requires c in m.cleaners ==> CleanerFits(m.jobs, m.cleaners[c])
    requires c in Exports.Step(m, e).cleaners
    ensures CleanerFits(Exports.Step(m, e).jobs, Exports.Step(m, e).cleaners[c])
  {
  }

  lemma ChangeKeepsInvariant(m: Manager, e: Event)
    requires Invariant(m) && Enabled(m, e) && Changed(m, e).Some?
    ensures Invariant(Exports.Step(m, e))
  {
    ChangeKeepsJob(m, e);
    var q, id, next := Exports.Step(m, e), Changed(m, e).value, NewValue(m, e);
    assert Changes(m, q, id, next);
    ChangeKeepsQuotas(m, id, next);
    forall j | 0 <= j < |q.jobs|
      ensures SlotFits(q, j)
    {
      ChangeKeepsRoom(m, id, next, j);
      ChangeKeepsSlot(m, q, id, next, j);
    }
    forall c | c in q.cleaners
      ensures CleanerFits(q.jobs, q.cleaners[c])
    {
      ChangeKeepsCleaner(m, e, c);
    }
  }

  lemma NewJobFits(m: Manager, options: Limits, now: Time)
    ensures JobFits(m, NewJob(options, now)) && Harmless(NewJob(options, now)) && !Measured(NewJob(options, now))
  {
  }

  lemma CreateKeepsQuotas(jobs: seq<Job>, job: Job)
    requires QuotasHold(jobs) && CreateRefusal(jobs).None? && job.status == Queued
    ensures QuotasHold(jobs + [job]) && CompletedBytes(jobs + [job]) == CompletedBytes(jobs)
  {
    TotalAppend(jobs, job, ActiveWeight);
    TotalAppend(jobs, job, CompletedWeight);
    TotalAppend(jobs, job, BytesWeight);
  }

  /** A job that a step leaves alone. */
  lemma OtherSlotKept(m: Manager, q: Manager, j: JobId)
    requires j < |m.jobs| && j < |q.jobs| && q.jobs[j] == m.jobs[j] && SlotFits(m, j)
    requires q.graph == m.graph && q.lineOf == m.lineOf && CompletedBytes(q.jobs) <= CompletedBytes(m.jobs)
    requires MustBeHarmless(q, j) ==> MustBeHarmless(m, j) || Harmless(m.jobs[j])
    ensures SlotFits(q, j)
  {
    assert JobFits(q, q.jobs[j]) by {
      assert JobFits(m, m.jobs[j]);
    }
  }

  lemma CreateKeepsInvariant(m: Manager, e: Event)
    requires Invariant(m) && Enabled(m, e) && e.Create?
    ensures Invariant(Exports.Step(m, e))
  {
    var q, job := Exports.Step(m, e), NewJob(e.options, e.now);
    CreateKeepsQuotas(m.jobs, job);
    NewJobFits(q, e.options, e.now);
    forall j | 0 <= j < |q.jobs|
      ensures SlotFits(q, j)
    {
      if j < |m.jobs| {
        OtherSlotKept(m, q, j);
      }
    }
    forall c | c in q.cleaners
      ensures CleanerFits(q.jobs, q.cleaners[c])
    {
      assert CleanerFits(m.jobs, m.cleaners[c]);
    }
  }

  lemma SettledIsHarmless(m: Manager, job: Job)
    requires JobFits(m, job) && Settled(job)
    ensures Harmless(job)
  {
  }

  lemma PhaseKeepsInvariant(m: Manager, e: Event)
    requires Invariant(m) && Enabled(m, e) && (e.Restrict? || e.ListJobs? || e.SweepEnds? || e.Unrestrict?)
    ensures Invariant(Exports.Step(m, e))
  {
    var q := Exports.Step(m, e);
    forall j | 0 <= j < |q.jobs|
      ensures SlotFits(q, j)
    {
      assert SlotFits(m, j);
      if !m.jobs[j].listed {
        SettledIsHarmless(m, m.jobs[j]);
      }
      OtherSlotKept(m, q, j);
    }
  }

  /** Every step of every party keeps the invariant. */
  lemma StepKeepsInvariant(m: Manager, e: Event)
    requires Invariant(m) && Enabled(m, e)
    ensures Invariant(Exports.Step(m, e))
  {
    if e.Create? {
      CreateKeepsInvariant(m, e);
    } else if Changed(m, e).Some? {
      ChangeKeepsInvariant(m, e);
    } else {
      PhaseKeepsInvariant(m, e);
    }
  }

  lemma {:induction false} RunKeepsInvariant(m: Manager, events: seq<Event>)
    requires Invariant(m) && Possible(m, events)
    ensures Invariant(Exports.Run(m, events))
    decreases |events|
  {
    if events == [] {
    } else {
      StepKeepsInvariant(m, events[0]);
      RunKeepsInvariant(Exports.Step(m, events[0]), events[1..]);
    }
  }

  // ---------- which walk a job is ----------

  /** The job's walk is where the bounded walk of its root is after `steps` steps. */
  predicate WalkFits(m: Manager, job: Job) {
    WalkFrom(m, Start(job.root), job)
  }

  predicate WalkFrom(m: Manager, start: Progress, job: Job) {
    job.progress == TreeWalk.Run(m.graph, EffectiveOptions(job.options), start, job.steps)
  }

  lemma BatchKeepsWalk(m: Manager, start: Progress, job: Job, steps: nat)
    requires WalkFrom(m, start, job)
    ensures WalkFrom(m, start, NextBatch(m.graph, job, steps))
  {
    RunCompose(m.graph, EffectiveOptions(job.options), start, job.steps, steps);
  }

  lemma SameWalkFits(m: Manager, start: Progress, a: Job, b: Job)
    requires WalkFrom(m, start, a)
    requires b.options == a.options && b.steps == a.steps && b.progress == a.progress
    ensures WalkFrom(m, start, b)
  {
  }

  lemma WorkerKeepsWalkFields(m: Manager, a: Job, retained: nat, w: WorkerEvent)
    requires WorkerCan(a.worker, m.sweep.Idle?, w) && !w.Prepare? && !w.Batch?
    ensures var b := WorkerStep(m, a, retained, w);
            b.options == a.options && b.root == a.root && b.steps == a.steps && b.progress == a.progress
  {
  }

  /** The other parties leave the walk alone. */
  lemma ChangeKeepsWalkFields(m: Manager, e: Event)
    requires Enabled(m, e) && Changed(m, e).Some? && !e.Work?
    ensures var a, b := m.jobs[Changed(m, e).value], NewValue(m, e);
            b.options == a.options && b.root == a.root && b.steps == a.steps && b.progress == a.progress
  {
  }

  lemma WorkerKeepsWalk(m: Manager, job: Job, retained: nat, w: WorkerEvent)
    requires WorkerCan(job.worker, m.sweep.Idle?, w) && WalkFits(m, job)
    ensures WalkFits(m, WorkerStep(m, job, retained, w))
  {
    if w.Batch? {
      BatchKeepsWalk(m, Start(job.root), job, w.steps);
    } else if !w.Prepare? {
      WorkerKeepsWalkFields(m, job, retained, w);
      SameWalkFits(m, Start(job.root), job, WorkerStep(m, job, retained, w));
    }
  }

  lemma ChangeKeepsWalk(m: Manager, e: Event)
    requires Enabled(m, e) && Changed(m, e).Some? && WalkFits(m, m.jobs[Changed(m, e).value])
    ensures WalkFits(m, NewValue(m, e))
  {
    var job := m.jobs[Changed(m, e).value];
    if e.Work? {
      WorkerKeepsWalk(m, job, CompletedBytes(m.jobs), e.w);
    } else {
      ChangeKeepsWalkFields(m, e);
      SameWalkFits(m, Start(job.root), job, NewValue(m, e));
    }
  }

  ghost predicate WalksFit(m: Manager) {
    forall id :: 0 <= id < |m.jobs| ==> WalkFits(m, m.jobs[id])
  }

  lemma StepKeepsWalks(m: Manager, e: Event)
    requires WalksFit(m) && Enabled(m, e)
    ensures WalksFit(Exports.Step(m, e))
  {
    var q := Exports.Step(m, e);
    if Changed(m, e).Some? {
      ChangeKeepsWalk(m, e);
    }
    forall id | 0 <= id < |q.jobs|
      ensures WalkFits(q, q.jobs[id])
    {
      assert WalkFits(m, q.jobs[id]);
    }
  }

  lemma {:induction false} RunKeepsWalks(m: Manager, events: seq<Event>)
    requires WalksFit(m) && Possible(m, events)
    ensures WalksFit(Exports.Run(m, events))
    decreases |events|
  {
    if events == [] {
    } else {
      StepKeepsWalks(m, events[0]);
      RunKeepsWalks(Exports.Step(m, events[0]), events[1..]);
    }
  }
}
