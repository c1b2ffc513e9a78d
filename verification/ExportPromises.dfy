/** What an export's owner can count on: when a new one is admitted, when it completes, and
    how long its file can be fetched. */
module ExportPromises {
  import opened Common
  import opened TreeGraph
  import opened TreeWalk
  import opened TreeReference
  import opened TreeRefinement
  import opened Exports
  import opened ExportInvariant
  import opened ExportRuns
  import ExportObject
  import ExportWorker

  // ---------- when a new export is refused ----------

  function Those(jobs: seq<Job>, wanted: Job -> bool): set<JobId> {
    set id: JobId | id < |jobs| && wanted(jobs[id])
  }

  /** The jobs in the table whose worker may still be at work. */
  function Unfinished(jobs: seq<Job>): set<JobId> {
    Those(jobs, (job: Job) => job.listed && (job.status == Queued || job.status == Running))
  }

  /** The jobs in the table whose file can still be fetched. */
  function Retained(jobs: seq<Job>): set<JobId> {
    Those(jobs, (job: Job) => job.listed && job.status == Completed)
  }

  /** The files of those, one after the other. */
  function RetainedFiles(jobs: seq<Job>): Bytes {
    if jobs == [] then []
    else
      var job := jobs[|jobs| - 1];
      RetainedFiles(jobs[..|jobs| - 1]) + if job.listed && job.status == Completed && job.data.Some? then job.data.value else []
  }

  lemma LastOfThose(jobs: seq<Job>, n: nat, wanted: Job -> bool)
    requires |jobs| == n + 1
    ensures Those(jobs, wanted) == Those(jobs[..n], wanted) + (if wanted(jobs[n]) then {n} else {})
    ensures n !in Those(jobs[..n], wanted)
  {
    assert forall id: JobId :: id < n ==> jobs[..n][id] == jobs[id];
  }

  lemma {:induction false} TotalIsSize(jobs: seq<Job>, weight: Job -> nat, wanted: Job -> bool)
    requires forall job :: weight(job) == if wanted(job) then 1 else 0
    ensures Total(jobs, weight) == |Those(jobs, wanted)|
    decreases |jobs|
  {
    if jobs == [] {
    } else {
      TotalIsSize(jobs[..|jobs| - 1], weight, wanted);
      LastOfThose(jobs, |jobs| - 1, wanted);
    }
  }

  lemma CountsAreSizes(jobs: seq<Job>)
    ensures ActiveJobs(jobs) == |Unfinished(jobs)| && CompletedJobs(jobs) == |Retained(jobs)|
  {
    TotalIsSize(jobs, ActiveWeight, (job: Job) => job.listed && (job.status == Queued || job.status == Running));
    TotalIsSize(jobs, CompletedWeight, (job: Job) => job.listed && job.status == Completed);
  }

  lemma {:induction false} BytesAreTheFiles(jobs: seq<Job>)
    requires forall id :: 0 <= id < |jobs| && jobs[id].status == Completed ==>
               jobs[id].data.Some? && jobs[id].bytes == |jobs[id].data.value|
    ensures CompletedBytes(jobs) == |RetainedFiles(jobs)|
    decreases |jobs|
  {
    if jobs == [] {
    } else {
      BytesAreTheFiles(jobs[..|jobs| - 1]);
    }
  }

  /** In every reachable state: a new export is refused because one is running if and only if
      one is; else because of the retained ones if and only if there are 8 of them; else for
      storage if and only if their files have 200 MiB; and otherwise it is admitted. */
  lemma RefusalIsExact(m: Manager)
    requires Reachable(m)
    ensures CreateRefusal(m.jobs)
         == if exists id :: id in Unfinished(m.jobs) then Some(AlreadyRunning)
            else if |Retained(m.jobs)| >= 8 then Some(TooManyRetained)
            else if |RetainedFiles(m.jobs)| >= 200 * 1024 * 1024 then Some(StorageFull)
            else None
    ensures forall id :: id in Unfinished(m.jobs) <==>
              0 <= id < |m.jobs| && m.jobs[id].listed && (m.jobs[id].status == Queued || m.jobs[id].status == Running)
    ensures forall id :: id in Retained(m.jobs) <==> 0 <= id < |m.jobs| && m.jobs[id].listed && m.jobs[id].status == Completed
  {
    CountsAreSizes(m.jobs);
    QuotasAlwaysHold(m);
    BytesAreTheFiles(m.jobs);
    if id :| id in Unfinished(m.jobs) {
      assert Unfinished(m.jobs) != {};
    } else {
      assert Unfinished(m.jobs) == {};
    }
  }

  // ---------- when an export completes ----------

  /** The file of the root's whole bounded traversal is within both quotas. */
  predicate FileFits(m: Manager, options: Limits, root: Option<Obj>, retained: nat) {
    var size := |FileOf(m.lineOf, Traversal(m.graph, EffectiveOptions(options), root).records)|;
    size <= 100 * 1024 * 1024 && retained + size <= 200 * 1024 * 1024
  }

  /** The step is one that nothing outside stands in the way of, less than 300 seconds after the
      worker's first. */
  predicate GoesWell(m: Manager, job: Job, retained: nat, started: Time, w: WorkerEvent) {
    match w
    case Begin(now) => now == started
    case Prepare(root, allowed) => allowed && FileFits(m, job.options, root, retained)
    case OpenPart(opens) => opens
    case Loop(now) => now - started < 300.0
    case Batch(_, allowed) => allowed
    case FinalCheck(allowed) => allowed
    case Publish(_, renamed) => renamed
    case Break => false
    case _ => true
  }

  predicate AllGoesWell(m: Manager, job: Job, retained: nat, started: Time, ws: seq<WorkerEvent>)
    requires ExportWorker.WorkerPossible(m, job, retained, ws)
    decreases |ws|
  {
    ws == [] || (GoesWell(m, job, retained, started, ws[0]) && AllGoesWell(m, WorkerStep(m, job, retained, ws[0]), retained, started, ws[1..]))
  }

  predicate HasRoot(worker: Worker) {
    !worker.Starting? && !worker.Preparing?
  }

  predicate OnTrack(m: Manager, job: Job, retained: nat, started: Time) {
    JobFits(m, job) && WalkFits(m, job) && Unhindered(m, job, retained, started)
  }

  predicate Unhindered(m: Manager, job: Job, retained: nat, started: Time) {
    && !job.cancel && !job.worker.Failing?
    && (!job.worker.Starting? ==> job.startedAt == started)
    && (HasRoot(job.worker) ==> FileFits(m, job.options, job.root, retained))
    && (job.worker.Writing? ==> job.retainedAtStart == retained)
    && (job.worker.Looping? || job.worker.Batching? ==> job.retainedAtStart == retained)
    && (job.worker.Cleaning? || job.worker.Ended? ==> job.status == Completed)
  }

  lemma {:induction false} FilesGrow(lineOf: Record -> Bytes, records: seq<Record>, n: nat)
    requires n <= |records|
    ensures |FileOf(lineOf, records[..n])| <= |FileOf(lineOf, records)|
    decreases |records|
  {
    if n == |records| {
      assert records[..n] == records;
    } else {
      var before := records[..|records| - 1];
      FilesGrow(lineOf, before, n);
      assert before[..n] == records[..n];
    }
  }

  lemma WalkedFileFits(m: Manager, job: Job, retained: nat, n: nat)
    requires WalkFits(m, job) && FileFits(m, job.options, job.root, retained) && n <= |job.progress.out|
    ensures var size := |FileOf(m.lineOf, job.progress.out[..n])|;
            size <= EXPORT_MAX_BYTES && retained + size <= EXPORT_MAX_TOTAL_BYTES
  {
    var whole := Traversal(m.graph, EffectiveOptions(job.options), job.root).records;
    CutWalkIsPrefix(m.graph, EffectiveOptions(job.options), job.root, job.steps);
    assert job.progress.out[..n] == whole[..n];
    FilesGrow(m.lineOf, whole, n);
  }

  lemma RecordIsWritten(m: Manager, job: Job, retained: nat, started: Time)
    requires OnTrack(m, job, retained, started) && job.worker.Writing?
    ensures !WorkerStep(m, job, retained, Write).worker.Failing?
  {
    var batch, out := job.worker.batch, job.progress.out;
    var done := |out| - |batch|;
    if batch != [] {
      assert batch[0] == out[done];
      FileGrows(m.lineOf, out, done);
      WalkedFileFits(m, job, retained, done + 1);
    }
  }

  lemma StepIsUnhindered(m: Manager, job: Job, retained: nat, started: Time, w: WorkerEvent)
    requires Unhindered(m, job, retained, started) && !m.restricted && (job.worker.Opening? ==> job.part.None?)
    requires WorkerCan(job.worker, m.sweep.Idle?, w) && GoesWell(m, job, retained, started, w) && !w.Write?
    ensures Unhindered(m, WorkerStep(m, job, retained, w), retained, started)
  {
  }

  lemma WriteIsUnhindered(m: Manager, job: Job, retained: nat, started: Time)
    requires OnTrack(m, job, retained, started) && job.worker.Writing?
    ensures Unhindered(m, WorkerStep(m, job, retained, Write), retained, started)
  {
    RecordIsWritten(m, job, retained, started);
  }

  lemma StepStaysOnTrack(m: Manager, job: Job, retained: nat, started: Time, w: WorkerEvent)
    requires OnTrack(m, job, retained, started) && retained <= EXPORT_MAX_TOTAL_BYTES && !m.restricted
    requires WorkerCan(job.worker, m.sweep.Idle?, w) && GoesWell(m, job, retained, started, w)
    ensures OnTrack(m, WorkerStep(m, job, retained, w), retained, started)
  {
    WorkerKeepsJob(m, job, retained, w);
    WorkerKeepsWalk(m, job, retained, w);
    if w.Write? {
      WriteIsUnhindered(m, job, retained, started);
    } else {
      StepIsUnhindered(m, job, retained, started, w);
    }
  }

  lemma {:induction false} RunStaysOnTrack(m: Manager, job: Job, retained: nat, started: Time, ws: seq<WorkerEvent>)
    requires OnTrack(m, job, retained, started) && retained <= EXPORT_MAX_TOTAL_BYTES && !m.restricted
    requires ExportWorker.WorkerPossible(m, job, retained, ws) && AllGoesWell(m, job, retained, started, ws)
    ensures OnTrack(m, ExportWorker.WorkerRun(m, job, retained, ws), retained, started)
    decreases |ws|
  {
    if ws == [] {
    } else {
      StepStaysOnTrack(m, job, retained, started, ws[0]);
      RunStaysOnTrack(m, WorkerStep(m, job, retained, ws[0]), retained, started, ws[1..]);
    }
  }

  /** An undisturbed worker in a free session whose calls are answered and allowed, whose file
      opens, is renamed and fits the quotas, and which looks at the clock in time, completes. */
  lemma UnhinderedExportCompletes(m: Manager, options: Limits, created: Time, retained: nat, started: Time, ws: seq<WorkerEvent>)
    requires retained <= EXPORT_MAX_TOTAL_BYTES && !m.restricted
    requires ExportWorker.WorkerPossible(m, NewJob(options, created), retained, ws)
    requires AllGoesWell(m, NewJob(options, created), retained, started, ws)
    requires ExportWorker.WorkerRun(m, NewJob(options, created), retained, ws).worker == Ended
    ensures ExportWorker.WorkerRun(m, NewJob(options, created), retained, ws).status == Completed
  {
    ExportWorker.NewJobFits(m, options, created, false);
    RunStaysOnTrack(m, NewJob(options, created), retained, started, ws);
  }

  /** Somewhere the worker looks at the clock 300 seconds or more after its first step, with its
      walk not yet done. */
  predicate LooksLate(m: Manager, job: Job, retained: nat, started: Time, ws: seq<WorkerEvent>)
    requires ExportWorker.WorkerPossible(m, job, retained, ws)
    decreases |ws|
  {
    ws != [] &&
    ((ws[0].Loop? && !job.progress.walk.done && ws[0].now - started >= 300.0)
     || LooksLate(m, WorkerStep(m, job, retained, ws[0]), retained, started, ws[1..]))
  }

  predicate Lost(job: Job) {
    job.status != Completed && (job.worker.Failing? || job.worker.Cleaning? || job.worker.Ended?)
  }

  lemma {:induction false} LostStaysLost(m: Manager, job: Job, retained: nat, ws: seq<WorkerEvent>)
    requires Lost(job) && ExportWorker.WorkerPossible(m, job, retained, ws)
    ensures Lost(ExportWorker.WorkerRun(m, job, retained, ws))
    decreases |ws|
  {
    if ws == [] {
    } else {
      LostStaysLost(m, WorkerStep(m, job, retained, ws[0]), retained, ws[1..]);
    }
  }

  predicate BeganAt(job: Job, started: Time, ws: seq<WorkerEvent>) {
    if job.worker.Starting? then ws != [] && ws[0] == Begin(started) else job.startedAt == started || Lost(job)
  }

  lemma StartStays(m: Manager, job: Job, retained: nat, w: WorkerEvent)
    requires WorkerCan(job.worker, m.sweep.Idle?, w) && !w.Begin?
    ensures WorkerStep(m, job, retained, w).startedAt == job.startedAt
    ensures !WorkerStep(m, job, retained, w).worker.Starting?
  {
  }

  lemma StepBegan(m: Manager, job: Job, retained: nat, started: Time, ws: seq<WorkerEvent>)
    requires ws != [] && BeganAt(job, started, ws) && JobFits(m, job) && WorkerCan(job.worker, m.sweep.Idle?, ws[0]) && !Lost(job)
    ensures BeganAt(WorkerStep(m, job, retained, ws[0]), started, ws[1..])
  {
    if !ws[0].Begin? {
      StartStays(m, job, retained, ws[0]);
    }
  }

  lemma LateLookLoses(m: Manager, job: Job, retained: nat, w: WorkerEvent)
    requires JobFits(m, job) && WorkerCan(job.worker, m.sweep.Idle?, w)
    requires w.Loop? && !job.progress.walk.done && w.now - job.startedAt >= 300.0
    ensures Lost(WorkerStep(m, job, retained, w))
  {
  }

  /** ... and one that looks at the clock too late, before its walk is done, never does. */
  lemma {:induction false} LateExportFails(m: Manager, job: Job, retained: nat, started: Time, ws: seq<WorkerEvent>)
    requires JobFits(m, job) && retained <= EXPORT_MAX_TOTAL_BYTES && BeganAt(job, started, ws)
    requires ExportWorker.WorkerPossible(m, job, retained, ws) && LooksLate(m, job, retained, started, ws)
    ensures ExportWorker.WorkerRun(m, job, retained, ws).status != Completed
    decreases |ws|
  {
    var next := WorkerStep(m, job, retained, ws[0]);
    if Lost(job) {
      LostStaysLost(m, job, retained, ws);
    } else {
      WorkerKeepsJob(m, job, retained, ws[0]);
      StepBegan(m, job, retained, started, ws);
      if LooksLate(m, next, retained, started, ws[1..]) {
        LateExportFails(m, next, retained, started, ws[1..]);
      } else {
        LateLookLoses(m, job, retained, ws[0]);
        LostStaysLost(m, next, retained, ws[1..]);
      }
    }
  }

  // ---------- files of jobs that do not complete ----------

  /** What the worker's last step and a cancel leave on disk, if the deletions are granted. */
  lemma UnpublishedLeavesNothing(m: Manager, job: Job, retained: nat)
    requires JobFits(m, job) && job.worker.Cleaning?
    ensures var q := WorkerStep(m, job, retained, CleanUp(true, true)); q.status == Completed || NoFiles(q)
    ensures job.status == Completed ==> NoFiles(CancelJob(job, true, true))
  {
  }

  predicate CancelTold(job: Job) {
    (job.status == Canceled ==> job.cancel) && (job.worker == Failing(true) ==> job.cancel)
  }

  lemma WorkerTellsCancel(m: Manager, job: Job, retained: nat, w: WorkerEvent)
    requires WorkerCan(job.worker, m.sweep.Idle?, w) && CancelTold(job)
    ensures CancelTold(WorkerStep(m, job, retained, w))
  {
  }

  lemma ChangeTellsCancel(m: Manager, e: Event)
    requires Enabled(m, e) && Changed(m, e).Some? && Changed(m, e).value < |m.jobs| && CancelTold(m.jobs[Changed(m, e).value])
    ensures CancelTold(NewValue(m, e))
  {
    if e.Work? {
      WorkerTellsCancel(m, m.jobs[e.id], CompletedBytes(m.jobs), e.w);
    }
  }

  lemma StepTellsCancel(m: Manager, e: Event, id: JobId)
    requires Enabled(m, e) && (id < |m.jobs| ==> CancelTold(m.jobs[id])) && id < |Exports.Step(m, e).jobs|
    ensures CancelTold(Exports.Step(m, e).jobs[id])
  {
    if Changed(m, e) == Some(id) {
      ChangeTellsCancel(m, e);
    }
  }

  lemma {:induction false} RunTellsCancel(m: Manager, events: seq<Event>, id: JobId)
    requires Possible(m, events) && (id < |m.jobs| ==> CancelTold(m.jobs[id])) && id < |Exports.Run(m, events).jobs|
    ensures CancelTold(Exports.Run(m, events).jobs[id])
    decreases |events|
  {
    if events == [] {
    } else {
      if id < |Exports.Step(m, events[0]).jobs| {
        StepTellsCancel(m, events[0], id);
      }
      RunTellsCancel(Exports.Step(m, events[0]), events[1..], id);
    }
  }

  /** A job is reported as canceled only if a cancel or a transition asked for it. */
  lemma CanceledWasAskedFor(m: Manager, id: JobId)
    requires Reachable(m) && id < |m.jobs| && m.jobs[id].status == Canceled
    ensures m.jobs[id].cancel
  {
    var restricted: bool, events: seq<Event> :|
      && Possible(Exports.Initial(m.graph, m.lineOf, restricted), events)
      && Exports.Run(Exports.Initial(m.graph, m.lineOf, restricted), events) == m;
    RunTellsCancel(Exports.Initial(m.graph, m.lineOf, restricted), events, id);
  }

  predicate Stopping(job: Job) {
    && job.cancel && job.status != Completed && job.status != Failed && job.worker != Failing(false)
    && (job.worker.Cleaning? || job.worker.Ended? ==> job.status == Canceled)
    && (job.worker.Starting? || job.worker.Looping? || job.worker.Publishing? || job.worker == Failing(true)
        || job.worker.Cleaning? || job.worker.Ended?)
  }

  /** A cancel that finds the worker at its start, at the head of its loop or before
      publication ends the job as canceled, whatever else goes wrong. */
  lemma {:induction false} StoppedWorkerIsCanceled(m: Manager, job: Job, retained: nat, ws: seq<WorkerEvent>)
    requires Stopping(job) && ExportWorker.WorkerPossible(m, job, retained, ws)
    ensures Stopping(ExportWorker.WorkerRun(m, job, retained, ws))
    decreases |ws|
  {
    if ws == [] {
    } else {
      StoppedWorkerIsCanceled(m, WorkerStep(m, job, retained, ws[0]), retained, ws[1..]);
    }
  }

  // ---------- the objects' passes are the machine's ----------

  /** One cleaner's steps on one job; it takes the job out of the table if no file is left. */
  function CleanupPass(job: Job, id: JobId, cleaner: CleanerId, now: Time, partGoes: bool, dataGoes: bool): seq<Event> {
    [Expire(cleaner, id, now)]
    + ([Delete(cleaner, partGoes, dataGoes)]
       + (if (job.part.None? || partGoes) && (job.data.None? || dataGoes) then [Pop(cleaner)] + [] else []))
  }

  lemma ExpireStep(m: Manager, id: JobId, cleaner: CleanerId, now: Time)
    requires id < |m.jobs| && Enabled(m, Expire(cleaner, id, now))
    ensures var a := Exports.Step(m, Expire(cleaner, id, now));
            a.jobs == m.jobs[id := MarkExpired(m.jobs[id])] && a.cleaners == m.cleaners[cleaner := Deleting(id)]
  {
  }

  lemma DeleteStep(m: Manager, id: JobId, cleaner: CleanerId, partGoes: bool, dataGoes: bool)
    requires id < |m.jobs| && cleaner in m.cleaners && m.cleaners[cleaner] == Deleting(id)
    ensures Enabled(m, Delete(cleaner, partGoes, dataGoes))
    ensures var b := Exports.Step(m, Delete(cleaner, partGoes, dataGoes));
            && b.jobs == m.jobs[id := DeleteFiles(m.jobs[id], partGoes, dataGoes)]
            && cleaner in b.cleaners
            && b.cleaners[cleaner] == if NoFiles(DeleteFiles(m.jobs[id], partGoes, dataGoes)) then Popping(id) else Through
  {
  }

  lemma PopStep(m: Manager, id: JobId, cleaner: CleanerId)
    requires id < |m.jobs| && cleaner in m.cleaners && m.cleaners[cleaner] == Popping(id)
    ensures Enabled(m, Pop(cleaner)) && Exports.Step(m, Pop(cleaner)).jobs == m.jobs[id := m.jobs[id].(listed := false)]
  {
  }

  /** The manager's cleanup of a job is what one cleaner's steps on it come to. */
  lemma CleanedIsThePass(m: Manager, id: JobId, cleaner: CleanerId, now: Time, partGoes: bool, dataGoes: bool)
    requires id < |m.jobs| && ExpiredAt(m.jobs[id], now) && cleaner !in m.cleaners
    ensures var pass := CleanupPass(m.jobs[id], id, cleaner, now, partGoes, dataGoes);
            && Possible(m, pass)
            && Exports.Run(m, pass).jobs == m.jobs[id := ExportObject.Cleaned(m.jobs[id], now, partGoes, dataGoes)]
  {
    var expire, delete := Expire(cleaner, id, now), Delete(cleaner, partGoes, dataGoes);
    ExpireStep(m, id, cleaner, now);
    var a := Exports.Step(m, expire);
    DeleteStep(a, id, cleaner, partGoes, dataGoes);
    var b := Exports.Step(a, delete);
    if (m.jobs[id].part.None? || partGoes) && (m.jobs[id].data.None? || dataGoes) {
      PopStep(b, id, cleaner);
      StepThenRun(b, Pop(cleaner), []);
      StepThenRun(a, delete, [Pop(cleaner)] + []);
      StepThenRun(m, expire, [delete] + ([Pop(cleaner)] + []));
    } else {
      StepThenRun(a, delete, []);
      StepThenRun(m, expire, [delete] + []);
    }
  }

  /** ... and its sweep over the jobs is the machine's step on each job in the table. */
  lemma RevokedIsTheSweep(m: Manager, id: JobId, now: Time)
    requires Enabled(m, SweepCancels(id, now)) && m.jobs[id].listed
    ensures Exports.Step(m, SweepCancels(id, now)).jobs == m.jobs[id := ExportObject.Revoked(m.jobs[id], now)]
  {
  }

  // ---------- how long the file can be fetched ----------

  /** Nobody cancels or revokes the job, and no cleanup pass of `until` or later reaches it. */
  predicate Spares(e: Event, id: JobId, until: Time) {
    match e
    case Cancel(i, _, _) => i != id
    case SweepCancels(i, _) => i != id
    case Expire(_, i, now) => i == id ==> now < until
    case _ => true
  }

  ghost predicate AllSpare(events: seq<Event>, id: JobId, until: Time) {
    forall i :: 0 <= i < |events| ==> Spares(events[i], id, until)
  }

  /** No cleanup pass is about to delete the job's files. */
  ghost predicate NotBeingDeleted(m: Manager, id: JobId) {
    forall c :: c in m.cleaners && (m.cleaners[c].Deleting? || m.cleaners[c].Popping?) ==> m.cleaners[c].id != id
  }

  predicate Published(job: Job, until: Time) {
    job.listed && job.status == Completed && !job.cancel && job.expiresAt == until && job.data.Some?
    && (job.worker.Cleaning? || job.worker.Ended?)
  }

  lemma StepKeepsPublished(m: Manager, e: Event, id: JobId, until: Time)
    requires Enabled(m, e) && Spares(e, id, until) && id < |m.jobs| && Published(m.jobs[id], until) && NotBeingDeleted(m, id)
    ensures id < |Exports.Step(m, e).jobs| && Published(Exports.Step(m, e).jobs[id], until) && NotBeingDeleted(Exports.Step(m, e), id)
  {
  }

  lemma {:induction false} RunKeepsPublished(m: Manager, events: seq<Event>, id: JobId, until: Time)
    requires Possible(m, events) && AllSpare(events, id, until)
    requires id < |m.jobs| && Published(m.jobs[id], until) && NotBeingDeleted(m, id)
    ensures id < |Exports.Run(m, events).jobs| && Published(Exports.Run(m, events).jobs[id], until)
    decreases |events|
  {
    if events == [] {
    } else {
      assert Spares(events[0], id, until);
      assert AllSpare(events[1..], id, until) by {
        assert forall i :: 0 <= i < |events| - 1 ==> events[1..][i] == events[i + 1];
      }
      StepKeepsPublished(m, events[0], id, until);
      RunKeepsPublished(Exports.Step(m, events[0]), events[1..], id, until);
    }
  }

  /** An export that is published stays downloadable for 600 seconds, whatever other jobs and
      cleanup passes do, unless it is canceled or revoked. */
  lemma PublishedIsDownloadable(m: Manager, id: JobId, now: Time, later: seq<Event>, t: Time)
    requires Reachable(m) && Enabled(m, Work(id, Publish(now, true))) && !m.jobs[id].cancel
    requires Possible(Exports.Step(m, Work(id, Publish(now, true))), later) && AllSpare(later, id, now + 600.0)
    requires t < now + 600.0
    ensures var q := Exports.Run(Exports.Step(m, Work(id, Publish(now, true))), later);
            id < |q.jobs| && Downloadable(q.jobs[id], t)
  {
    ReachableFits(m);
    assert SlotFits(m, id);
    PublishingIsNotDeleted(m, id);
    RunKeepsPublished(Exports.Step(m, Work(id, Publish(now, true))), later, id, now + 600.0);
  }

  lemma PublishingIsNotDeleted(m: Manager, id: JobId)
    requires Invariant(m) && id < |m.jobs| && m.jobs[id].worker.Publishing?
    ensures NotBeingDeleted(m, id)
  {
    assert SlotFits(m, id);
  }

  /** A completed job that a transition revokes is due for every cleanup pass from then on. */
  lemma RevokedIsDue(m: Manager, id: JobId, now: Time, t: Time)
    requires Reachable(m) && Enabled(m, SweepCancels(id, now)) && m.jobs[id].status == Completed && now <= t
    ensures ExpiredAt(Exports.Step(m, SweepCancels(id, now)).jobs[id], t)
  {
    ReachableFits(m);
    assert SlotFits(m, id);
  }
}
