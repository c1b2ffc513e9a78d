/** The export manager's objects: its table of jobs and the critical sections on a job. */
module ExportObject {
  import opened Common
  import opened TreeGraph
  import opened TreeWalk
  import opened Exports

  /** Writing a batch to its end, or up to the record that a quota refuses. */
  function WriteAll(lineOf: Record -> Bytes, job: Job): (r: Job)
    requires job.worker.Writing? && job.part.Some?
    ensures !r.worker.Writing?
    decreases |job.worker.batch|
  {
    var next := WriteNext(lineOf, job);
    if next.worker.Writing? then WriteAll(lineOf, next) else next
  }

  /** A job with its two files; the ghost fields say where its worker is and what it has walked. */
  class ExportJob {
    const options: Limits
    var status: Status
    var cancelEvent: bool
    var startedAt: Time
    var expiresAt: Time
    var nodeCount: nat
    var byteCount: nat
    var truncationReasons: seq<Reason>
    var retainedAtStart: nat
    var part: Option<Bytes>
    var data: Option<Bytes>
    ghost var worker: Worker
    ghost var root: Option<Obj>
    ghost var progress: Progress
    ghost var steps: nat
    ghost var secured: bool
    ghost var listed: bool

    ghost function Contents(): Job
      reads this
    {
      Job(options, status, cancelEvent, startedAt, expiresAt, nodeCount, byteCount, truncationReasons,
          retainedAtStart, part, data, worker, root, progress, steps, secured, listed)
    }

    constructor (options: Limits, now: Time)
      ensures Contents() == NewJob(options, now)
    {
      this.options := options;
      status, cancelEvent, startedAt, expiresAt := Queued, false, now, now + EXPORT_TTL_SECONDS;
      nodeCount, byteCount, truncationReasons, retainedAtStart := 0, 0, [], 0;
      part, data := None, None;
      worker, root, progress, steps, secured, listed := Starting, None, Start(None), 0, false, true;
    }

    method DeleteFiles(partGoes: bool, dataGoes: bool) returns (removed: bool)
      modifies this
      ensures Contents() == Exports.DeleteFiles(old(Contents()), partGoes, dataGoes)
      ensures removed <==> NoFiles(Contents())
    {
      removed := true;
      if part.Some? {
        if partGoes {
          part := None;
        } else {
          removed := false;
        }
      }
      if data.Some? {
        if dataGoes {
          data := None;
        } else {
          removed := false;
        }
      }
    }

    method Cancel(partGoes: bool, dataGoes: bool)
      modifies this
      ensures Contents() == CancelJob(old(Contents()), partGoes, dataGoes)
    {
      cancelEvent := true;
      if status == Completed {
        var _ := DeleteFiles(partGoes, dataGoes);
        status := Canceled;
      }
    }

    method Revoke(now: Time)
      modifies this
      ensures Contents() == CancelSensitive(old(Contents()), now)
    {
      cancelEvent := true;
      if status == Completed {
        status := Canceled;
        expiresAt := now;
      }
    }

    method Expire()
      modifies this
      ensures Contents() == MarkExpired(old(Contents()))
    {
      cancelEvent := true;
      if status == Completed {
        status := Expired;
      }
    }

    /** The worker's first critical section. */
    method Begin(now: Time, ghost m: Manager) returns (goOn: bool)
      requires worker == Starting
      modifies this
      ensures Contents() == WorkerStep(m, old(Contents()), 0, WorkerEvent.Begin(now))
      ensures goOn <==> worker == Preparing
    {
      if cancelEvent {
        status := Canceled;
        worker := Cleaning;
        return false;
      }
      status := Running;
      startedAt := now;
      worker := Preparing;
      return true;
    }

    /** Its first call to the main thread: the checks, the root, and a new generation. */
    method Prepare(found: Option<Obj>, allowed: bool, ghost m: Manager) returns (goOn: bool)
      requires worker == Preparing && m.sweep.Idle? && !m.restricted
      modifies `worker, `root, `progress, `steps
      ensures Contents() == WorkerStep(m, old(Contents()), 0, WorkerEvent.Prepare(found, allowed))
      ensures goOn <==> allowed
    {
      if !allowed {
        worker := Failing(false);
        return false;
      }
      root, progress, steps, worker := found, Start(found), 0, Opening;
      return true;
    }

    method OpenPart(opens: bool, ghost m: Manager) returns (goOn: bool)
      requires worker == Opening
      modifies `worker, `part
      ensures Contents() == WorkerStep(m, old(Contents()), 0, WorkerEvent.OpenPart(opens))
      ensures goOn <==> opens && old(part).None?
      ensures goOn ==> worker == Sizing
      ensures !goOn ==> worker == Failing(false)
    {
      if !opens || part.Some? {
        worker := Failing(false);
        return false;
      }
      part, worker := Some([]), Sizing;
      return true;
    }

    method Measure(retained: nat, ghost m: Manager)
      requires worker == Sizing
      modifies `worker, `retainedAtStart
      ensures Contents() == WorkerStep(m, old(Contents()), retained, SizeRetained)
    {
      retainedAtStart, worker := retained, Looping;
    }

    method FinalCheck(allowed: bool, ghost m: Manager) returns (goOn: bool)
      requires worker == Checking && m.sweep.Idle? && !m.restricted
      modifies `worker, `secured
      ensures Contents() == WorkerStep(m, old(Contents()), 0, WorkerEvent.FinalCheck(allowed))
      ensures goOn <==> allowed
    {
      if !allowed {
        worker := Failing(false);
        return false;
      }
      secured, worker := true, Publishing;
      return true;
    }

    /** What the worker does at the head of its loop and right after it. */
    method CheckLoop(now: Time, walkDone: bool, ghost m: Manager) returns (goOn: bool)
      requires worker == Looping && walkDone == progress.walk.done
      modifies `worker
      ensures Contents() == WorkerStep(m, old(Contents()), 0, Loop(now))
      ensures goOn <==> worker == Batching || worker == Checking
    {
      if cancelEvent {
        worker := Failing(true);
        return false;
      }
      if walkDone {
        worker := Checking;
        return true;
      }
      if now - startedAt >= EXPORT_MAX_DURATION_SECONDS {
        worker := Failing(false);
        return false;
      }
      worker := Batching;
      return true;
    }

    /** The exception handlers: a cancellation, or any other failure. */
    method Settle(canceled: bool, ghost m: Manager)
      requires worker == Failing(canceled)
      modifies this
      ensures Contents() == WorkerStep(m, old(Contents()), 0, WorkerEvent.Settle)
    {
      status := if canceled then Canceled else Failed;
      worker := Cleaning;
    }

    /** The worker's last act: what is not published is deleted. */
    method CleanUp(partGoes: bool, dataGoes: bool, ghost m: Manager)
      requires worker == Cleaning
      modifies this
      ensures Contents() == WorkerStep(m, old(Contents()), 0, WorkerEvent.CleanUp(partGoes, dataGoes))
    {
      if status != Completed {
        var _ := DeleteFiles(partGoes, dataGoes);
      }
      worker := Ended;
    }

    /** One record of a batch, unless a quota refuses its line. */
    method WriteRecord(line: Bytes, ghost lineOf: Record -> Bytes) returns (withinQuota: bool)
      requires part.Some? && worker.Writing? && worker.batch != [] && line == lineOf(worker.batch[0])
      modifies `part, `byteCount, `nodeCount, `worker
      ensures Contents() == WriteNext(lineOf, old(Contents()))
      ensures withinQuota <==> worker.Writing?
      ensures withinQuota ==> part.Some? && worker == Writing(old(worker.batch)[1..])
      ensures !withinQuota ==> worker == Failing(false)
    {
      if byteCount + |line| > EXPORT_MAX_BYTES || retainedAtStart + byteCount + |line| > EXPORT_MAX_TOTAL_BYTES {
        worker := Failing(false);
        return false;
      }
      part := Some(part.value + line);
      byteCount := byteCount + |line|;
      nodeCount := nodeCount + 1;
      worker := Writing(worker.batch[1..]);
      return true;
    }

    /** The worker's loop over one batch. */
    method WriteBatch(lineOf: Record -> Bytes, batch: seq<Record>, reasons: seq<Reason>) returns (withinQuota: bool)
      requires part.Some? && worker == Writing(batch) && reasons == progress.walk.reasons
      modifies `part, `byteCount, `nodeCount, `worker, `truncationReasons
      ensures Contents() == WriteAll(lineOf, old(Contents()))
      ensures worker == if withinQuota then Looping else Failing(false)
      ensures withinQuota ==> part.Some?
    {
      var i := 0;
      while i < |batch|
        invariant 0 <= i <= |batch| && part.Some? && worker == Writing(batch[i..])
        invariant reasons == progress.walk.reasons
        invariant WriteAll(lineOf, Contents()) == WriteAll(lineOf, old(Contents()))
      {
        withinQuota := WriteRecord(lineOf(batch[i]), lineOf);
        if !withinQuota {
          return;
        }
        i := i + 1;
      }
      truncationReasons := reasons;
      worker := Looping;
      return true;
    }

    /** An exception has been raised. */
    method Refuse(ghost canceled: bool)
      modifies `worker
      ensures Contents() == old(Contents()).(worker := Failing(canceled))
    {
      worker := Failing(canceled);
    }

    method MakePublic(now: Time, reasons: seq<Reason>)
      modifies this
      ensures Contents() == old(Contents()).(data := old(part), part := None, status := Completed,
                                             expiresAt := now + EXPORT_TTL_SECONDS, reasons := reasons, worker := Cleaning)
    {
      data, part := part, None;
      status := Completed;
      expiresAt := now + EXPORT_TTL_SECONDS;
      truncationReasons := reasons;
      worker := Cleaning;
    }

    /** The critical section that turns the partial file into the published one. */
    method Publish(now: Time, renamed: bool, reasons: seq<Reason>) returns (published: bool)
      requires worker == Publishing && reasons == progress.walk.reasons
      modifies this
      ensures Contents() == PublishFile(old(Contents()), now, renamed)
      ensures published <==> !old(cancelEvent) && renamed
    {
      published := !cancelEvent && renamed;
      if cancelEvent {
        Refuse(true);
      } else if !renamed {
        Refuse(false);
      } else {
        MakePublic(now, reasons);
      }
    }
  }

  lemma TotalsStep(values: seq<Job>, id: nat)
    requires id < |values|
    ensures ActiveJobs(values[..id + 1]) == ActiveJobs(values[..id]) + ActiveWeight(values[id])
    ensures CompletedJobs(values[..id + 1]) == CompletedJobs(values[..id]) + CompletedWeight(values[id])
    ensures CompletedBytes(values[..id + 1]) == CompletedBytes(values[..id]) + BytesWeight(values[id])
  {
    assert values[..id + 1][..id] == values[..id];
  }

  ghost function Values(jobs: seq<ExportJob>): (r: seq<Job>)
    reads jobs
    ensures |r| == |jobs| && forall i :: 0 <= i < |jobs| ==> r[i] == jobs[i].Contents()
  {
    seq(|jobs|, i requires 0 <= i < |jobs| reads jobs => jobs[i].Contents())
  }

  class ExportManager {
    var jobs: map<JobId, ExportJob>
    var nextId: JobId
    var closing: bool
    // every job that was ever created, also after it has left the table
    ghost var all: seq<ExportJob>

    ghost predicate Valid()
      reads this, all
    {
      && nextId == |all|
      && (forall a, b :: 0 <= a < b < |all| ==> all[a] != all[b])
      && (forall id :: id in jobs ==> id < |all| && jobs[id] == all[id])
      && (forall id :: 0 <= id < |all| ==> (all[id].listed <==> id in jobs))
    }

    constructor ()
      ensures Valid() && all == [] && !closing
    {
      jobs, nextId, all, closing := map[], 0, [], false;
    }

    method Totals() returns (active: nat, completed: nat, bytes: nat)
      requires Valid()
      ensures active == ActiveJobs(Values(all)) && completed == CompletedJobs(Values(all)) && bytes == CompletedBytes(Values(all))
    {
      active, completed, bytes := 0, 0, 0;
      ghost var values := Values(all);
      var id := 0;
      while id < nextId
        invariant 0 <= id <= nextId
        invariant active == ActiveJobs(values[..id]) && completed == CompletedJobs(values[..id]) && bytes == CompletedBytes(values[..id])
      {
        TotalsStep(values, id);
        if id in jobs {
          var job := jobs[id];
          if job.status == Queued || job.status == Running {
            active := active + 1;
          } else if job.status == Completed {
            completed := completed + 1;
            bytes := bytes + job.byteCount;
          }
        }
        id := id + 1;
      }
      assert values[..nextId] == values;
    }

    method Refuses() returns (r: Option<Refusal>)
      requires Valid()
      ensures r == CreateRefusal(Values(all))
    {
      var active, completed, bytes := Totals();
      if active >= EXPORT_MAX_CONCURRENT {
        return Some(AlreadyRunning);
      }
      if completed >= EXPORT_MAX_RETAINED_JOBS {
        return Some(TooManyRetained);
      }
      if bytes >= EXPORT_MAX_TOTAL_BYTES {
        return Some(StorageFull);
      }
      return None;
    }

    method AddJob(options: Limits, now: Time) returns (id: JobId, ghost job: ExportJob)
      requires Valid()
      modifies this
      ensures Valid() && closing == old(closing)
      ensures id == |old(all)| && all == old(all) + [job] && fresh(job) && job.Contents() == NewJob(options, now)
    {
      var created := new ExportJob(options, now);
      id, job := nextId, created;
      jobs := jobs[id := created];
      all := all + [created];
      nextId := nextId + 1;
    }

    /** The critical section of `create`; a job is made exactly when the manager is not closing
        and the machine has such a step. */
    method Admit(options: Limits, now: Time) returns (r: Result<JobId, CreateError>)
      requires Valid()
      modifies this
      ensures Valid() && closing == old(closing)
      ensures var error := AdmitError(closing, old(Values(all)));
              if error.Some? then r == Err(error.value) && all == old(all) && jobs == old(jobs)
              else
                && r == Ok(|old(all)|) && |all| == |old(all)| + 1 && fresh(all[|old(all)|])
                && all == old(all) + [all[|old(all)|]]
                && all[|old(all)|].Contents() == NewJob(options, now)
    {
      if closing {
        return Err(ShuttingDown);
      }
      var refusal := Refuses();
      if refusal.Some? {
        return Err(Refused(refusal.value));
      }
      var id;
      ghost var job;
      id, job := AddJob(options, now);
      return Ok(id);
    }

    /** `create` on a started manager: a cleanup pass, the security check, and then the
        critical section on what the pass has left. */
    method Create(options: Limits, cleanupAt: Time, partGoes: JobId -> bool, dataGoes: JobId -> bool, allowed: bool, now: Time)
      returns (r: Result<JobId, CreateError>)
      requires Valid()
      modifies this, all
      ensures Valid() && closing == old(closing)
      ensures |all| >= |old(all)| && all[..|old(all)|] == old(all)
      ensures Values(old(all)) == CleanedAll(old(Values(all)), cleanupAt, partGoes, dataGoes)
      ensures var error := if !allowed then Some(Restricted) else AdmitError(closing, Values(old(all)));
              if error.Some? then r == Err(error.value) && all == old(all)
              else
                && r == Ok(|old(all)|) && |all| == |old(all)| + 1 && fresh(all[|old(all)|])
                && all[|old(all)|].Contents() == NewJob(options, now)
    {
      CleanupExpired(cleanupAt, partGoes, dataGoes);
      if !allowed {
        return Err(Restricted);
      }
      r := Admit(options, now);
    }

    method RevokeJob(id: JobId, now: Time)
      requires Valid() && id < |all|
      modifies all[id]
      ensures Valid()
      ensures all[id].Contents() == Revoked(old(all[id].Contents()), now)
    {
      if id in jobs {
        jobs[id].Revoke(now);
      }
    }

    /** Every job in the table is revoked; the files are left to the reaper. */
    method CancelSensitive(now: Time)
      requires Valid()
      modifies all
      ensures Valid()
      ensures forall id :: 0 <= id < |all| ==> Values(all)[id] == Revoked(old(Values(all))[id], now)
    {
      ghost var before := Values(all);
      var id := 0;
      while id < nextId
        invariant 0 <= id <= nextId
        invariant Valid()
        invariant forall j :: 0 <= j < |all| ==> Values(all)[j] == if j < id then Revoked(before[j], now) else before[j]
      {
        ghost var now0 := Values(all);
        RevokeJob(id, now);
        assert forall j :: 0 <= j < |all| && j != id ==> Values(all)[j] == now0[j];
        id := id + 1;
      }
    }

    method CleanJob(id: JobId, now: Time, partGoes: bool, dataGoes: bool)
      requires Valid() && id < |all|
      modifies this`jobs, all[id]
      ensures Valid()
      ensures all[id].Contents() == Cleaned(old(all[id].Contents()), now, partGoes, dataGoes)
    {
      if id in jobs {
        var job := jobs[id];
        if job.status != Queued && job.status != Running && job.expiresAt <= now {
          job.Expire();
          var removed := job.DeleteFiles(partGoes, dataGoes);
          if removed {
            jobs := jobs - {id};
            job.listed := false;
          }
        }
      }
    }

    /** One pass over the expired jobs; a job whose files could not both be removed stays in the table. */
    method CleanupExpired(now: Time, partGoes: JobId -> bool, dataGoes: JobId -> bool)
      requires Valid()
      modifies this`jobs, all
      ensures Valid()
      ensures Values(all) == CleanedAll(old(Values(all)), now, partGoes, dataGoes)
    {
      ghost var before := Values(all);
      var id := 0;
      while id < nextId
        invariant 0 <= id <= nextId
        invariant Valid()
        invariant forall j :: 0 <= j < |all| ==>
                    Values(all)[j] == if j < id then Cleaned(before[j], now, partGoes(j), dataGoes(j)) else before[j]
      {
        ghost var now0 := Values(all);
        CleanJob(id, now, partGoes(id), dataGoes(id));
        assert forall j :: 0 <= j < |all| && j != id ==> Values(all)[j] == now0[j];
        id := id + 1;
      }
    }
  }

  /** What one cleanup pass leaves of a job. */
  function Cleaned(job: Job, now: Time, partGoes: bool, dataGoes: bool): Job {
    if !ExpiredAt(job, now) then job
    else
      var left := Exports.DeleteFiles(MarkExpired(job), partGoes, dataGoes);
      if NoFiles(left) then left.(listed := false) else left
  }

  /** ... and of all the jobs. */
  function CleanedAll(jobs: seq<Job>, now: Time, partGoes: JobId -> bool, dataGoes: JobId -> bool): (r: seq<Job>)
    ensures |r| == |jobs| && forall id :: 0 <= id < |jobs| ==> r[id] == Cleaned(jobs[id], now, partGoes(id), dataGoes(id))
  {
    seq(|jobs|, id requires 0 <= id < |jobs| => Cleaned(jobs[id], now, partGoes(id), dataGoes(id)))
  }

  datatype CreateError = Restricted | ShuttingDown | Refused(refusal: Refusal)

  /** What the critical section of `create` answers, in the order in which it looks. */
  function AdmitError(closing: bool, jobs: seq<Job>): Option<CreateError> {
    if closing then Some(ShuttingDown)
    else
      match CreateRefusal(jobs)
      case Some(refusal) => Some(Refused(refusal))
      case None => None
  }

  /** What the security transition leaves of a job. */
  function Revoked(job: Job, now: Time): Job {
    if job.listed then CancelSensitive(job, now) else job
  }
}
