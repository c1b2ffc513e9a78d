/**
 The export manager's jobs as a machine: the worker of each job, `cancel`, the security
 transition with its `cancel_sensitive`, and any number of `cleanup_expired` passes,
 interleaved at the granularity of critical sections and main-thread calls. A job is never
 removed from `jobs`; `listed` says whether it is still in the manager's table.
 */
module Exports {
  import opened Common
  import opened TreeGraph
  import opened TreeWalk

  type JobId = nat
  type CleanerId = nat
  type Time = real
  type Byte = b: int | 0 <= b < 256
  type Bytes = seq<Byte>

  const EXPORT_MAX_CONCURRENT: nat := 1
  const EXPORT_MAX_RETAINED_JOBS: nat := 8
  const EXPORT_MAX_BYTES: nat := 100 * 1024 * 1024
  const EXPORT_MAX_TOTAL_BYTES: nat := 200 * 1024 * 1024
  const EXPORT_MAX_DEPTH: nat := 100
  const EXPORT_MAX_CHILDREN: nat := 10000
  const EXPORT_MAX_NODES: nat := 1000000
  const EXPORT_MAX_DURATION_SECONDS: real := 300.0
  const EXPORT_TTL_SECONDS: real := 600.0

  datatype Status = Queued | Running | Completed | Canceled | Failed | Expired

  /** Where a job's worker thread is. */
  datatype Worker =
    | Starting
    | Preparing
    | Opening
    | Sizing
    | Looping
    | Batching
    | Writing(batch: seq<Record>)
    | Checking
    | Publishing
    | Failing(canceled: bool)
    | Cleaning
    | Ended

  /** A job; `root`, `steps` and `secured` record which walk it is, how far the walk has got,
      and whether a security check has passed on the main thread since the last batch. */
  datatype Job = Job(
    options: Limits,
    status: Status,
    cancel: bool,
    startedAt: Time,
    expiresAt: Time,
    nodes: nat,
    bytes: nat,
    reasons: seq<Reason>,
    retainedAtStart: nat,
    part: Option<Bytes>,
    data: Option<Bytes>,
    worker: Worker,
    root: Option<Obj>,
    progress: Progress,
    steps: nat,
    secured: bool,
    listed: bool
  )

  datatype Sweep = Idle | Revoking | Sweeping(left: set<JobId>)

  datatype Cleaner = Deleting(id: JobId) | Popping(id: JobId) | Through

  /** The static object graph, the encoded line of a record, and the mutable state. */
  datatype Manager = Manager(
    graph: Graph,
    lineOf: Record -> Bytes,
    jobs: seq<Job>,
    restricted: bool,
    sweep: Sweep,
    cleaners: map<CleanerId, Cleaner>
  )

  function Initial(graph: Graph, lineOf: Record -> Bytes, restricted: bool): Manager {
    Manager(graph, lineOf, [], restricted, Idle, map[])
  }

  /** The smaller of the two, where an absent limit is none. */
  function Capped(limit: Option<nat>, cap: nat): (c: nat)
    ensures c <= cap && (limit.Some? ==> c <= limit.value) && (c == cap || limit == Some(c))
  {
    if limit.None? || limit.value > cap then cap else limit.value
  }

  function EffectiveOptions(options: Limits): Limits {
    Limits(Some(Capped(options.depth, EXPORT_MAX_DEPTH)),
           Some(Capped(options.maxChildren, EXPORT_MAX_CHILDREN)),
           Some(Capped(options.maxNodes, EXPORT_MAX_NODES)))
  }

  function NewJob(options: Limits, now: Time): Job {
    Job(options, Queued, false, now, now + EXPORT_TTL_SECONDS, 0, 0, [], 0, None, None, Starting,
        None, Start(None), 0, false, true)
  }

  /** The records of a walk as the lines of a file. */
  function FileOf(lineOf: Record -> Bytes, records: seq<Record>): Bytes {
    if records == [] then [] else FileOf(lineOf, records[..|records| - 1]) + lineOf(records[|records| - 1])
  }

  // ---------- totals over the table ----------

  predicate Active(job: Job) {
    job.status == Queued || job.status == Running
  }

  function Total(jobs: seq<Job>, weight: Job -> nat): nat {
    if jobs == [] then 0 else Total(jobs[..|jobs| - 1], weight) + weight(jobs[|jobs| - 1])
  }

  function ActiveWeight(job: Job): nat {
    if job.listed && Active(job) then 1 else 0
  }

  function CompletedWeight(job: Job): nat {
    if job.listed && job.status == Completed then 1 else 0
  }

  function BytesWeight(job: Job): nat {
    if job.listed && job.status == Completed then job.bytes else 0
  }

  function ActiveJobs(jobs: seq<Job>): nat {
    Total(jobs, ActiveWeight)
  }

  function CompletedJobs(jobs: seq<Job>): nat {
    Total(jobs, CompletedWeight)
  }

  function CompletedBytes(jobs: seq<Job>): nat {
    Total(jobs, BytesWeight)
  }

  // ---------- the worker ----------

  /** `allowed` is what the rest of the security check says; it also fails while restricted. */
  datatype WorkerEvent =
    | Begin(now: Time)
    | Prepare(root: Option<Obj>, allowed: bool)
    | OpenPart(opens: bool)
    | SizeRetained
    | Loop(now: Time)
    | Batch(steps: nat, allowed: bool)
    | Write
    | FinalCheck(allowed: bool)
    | Publish(now: Time, renamed: bool)
    | Break
    | Settle
    | CleanUp(partGoes: bool, dataGoes: bool)

  predicate WorkerCan(worker: Worker, mainThreadFree: bool, w: WorkerEvent) {
    match w
    case Begin(_) => worker.Starting?
    case Prepare(_, _) => worker.Preparing? && mainThreadFree
    case OpenPart(_) => worker.Opening?
    case SizeRetained => worker.Sizing?
    case Loop(_) => worker.Looping?
    case Batch(_, _) => worker.Batching? && mainThreadFree
    case Write => worker.Writing?
    case FinalCheck(_) => worker.Checking? && mainThreadFree
    case Publish(_, _) => worker.Publishing?
    case Break => worker.Preparing? || worker.Batching? || worker.Writing? || worker.Checking?
    case Settle => worker.Failing?
    case CleanUp(_, _) => worker.Cleaning?
  }

  predicate NoFiles(job: Job) {
    job.part.None? && job.data.None?
  }

  /** os.remove on both files, each of which may be refused; a file that is not there is no failure. */
  function DeleteFiles(job: Job, partGoes: bool, dataGoes: bool): Job {
    job.(part := if partGoes then None else job.part, data := if dataGoes then None else job.data)
  }

  function WriteNext(lineOf: Record -> Bytes, job: Job): Job
    requires job.worker.Writing? && job.part.Some?
  {
    var batch := job.worker.batch;
    if batch == [] then job.(worker := Looping, reasons := job.progress.walk.reasons)
    else
      var line := lineOf(batch[0]);
      if job.bytes + |line| > EXPORT_MAX_BYTES then job.(worker := Failing(false))
      else if job.retainedAtStart + job.bytes + |line| > EXPORT_MAX_TOTAL_BYTES then job.(worker := Failing(false))
      else job.(part := Some(job.part.value + line), bytes := job.bytes + |line|, nodes := job.nodes + 1, worker := Writing(batch[1..]))
  }

  function Since(records: seq<Record>, n: nat): seq<Record> {
    if n <= |records| then records[n..] else []
  }

  function NextBatch(graph: Graph, job: Job, steps: nat): Job {
    var progress := TreeWalk.Run(graph, EffectiveOptions(job.options), job.progress, steps);
    var records := Since(progress.out, |job.progress.out|);
    job.(progress := progress, steps := job.steps + steps, secured := false,
         worker := if records == [] && !progress.walk.done then Looping else Writing(records))
  }

  function PublishFile(job: Job, now: Time, renamed: bool): Job {
    if job.cancel then job.(worker := Failing(true))
    else if !renamed then job.(worker := Failing(false))
    else
      job.(data := job.part, part := None, status := Completed, expiresAt := now + EXPORT_TTL_SECONDS,
           reasons := job.progress.walk.reasons, worker := Cleaning)
  }

  /** One step of a worker, in a manager whose other completed jobs hold `retained` bytes. */
  function WorkerStep(m: Manager, job: Job, retained: nat, w: WorkerEvent): Job
    requires WorkerCan(job.worker, m.sweep.Idle?, w)
  {
    match w
    case Begin(now) =>
      if job.cancel then job.(status := Canceled, worker := Cleaning)
      else job.(status := Running, startedAt := now, worker := Preparing)
    case Prepare(root, allowed) =>
      if m.restricted || !allowed then job.(worker := Failing(false))
      else job.(root := root, progress := Start(root), steps := 0, worker := Opening)
    case OpenPart(opens) =>
      if !opens || job.part.Some? then job.(worker := Failing(false)) else job.(part := Some([]), worker := Sizing)
    case SizeRetained => job.(retainedAtStart := retained, worker := Looping)
    case Loop(now) =>
      if job.cancel then job.(worker := Failing(true))
      else if job.progress.walk.done then job.(worker := Checking)
      else if now - job.startedAt >= EXPORT_MAX_DURATION_SECONDS then job.(worker := Failing(false))
      else job.(worker := Batching)
    case Batch(steps, allowed) =>
      if m.restricted || !allowed then job.(worker := Failing(false)) else NextBatch(m.graph, job, steps)
    case Write => if job.part.None? then job.(worker := Failing(false)) else WriteNext(m.lineOf, job)
    case FinalCheck(allowed) =>
      if m.restricted || !allowed then job.(worker := Failing(false)) else job.(secured := true, worker := Publishing)
    case Publish(now, renamed) => PublishFile(job, now, renamed)
    case Break => job.(worker := Failing(false))
    case Settle => job.(status := if job.worker.canceled then Canceled else Failed, worker := Cleaning)
    case CleanUp(partGoes, dataGoes) =>
      (if job.status == Completed then job else DeleteFiles(job, partGoes, dataGoes)).(worker := Ended)
  }

  // ---------- the other parties ----------

  function CancelJob(job: Job, partGoes: bool, dataGoes: bool): Job {
    if job.status == Completed then DeleteFiles(job, partGoes, dataGoes).(cancel := true, status := Canceled)
    else job.(cancel := true)
  }

  function CancelSensitive(job: Job, now: Time): Job {
    if job.status == Completed then job.(cancel := true, status := Canceled, expiresAt := now) else job.(cancel := true)
  }

  predicate ExpiredAt(job: Job, now: Time) {
    job.listed && !Active(job) && job.expiresAt <= now
  }

  function MarkExpired(job: Job): Job {
    if job.status == Completed then job.(cancel := true, status := Expired) else job.(cancel := true)
  }

  datatype Refusal = AlreadyRunning | TooManyRetained | StorageFull

  /** What `create` refuses, in the order in which it looks. */
  function CreateRefusal(jobs: seq<Job>): Option<Refusal> {
    if ActiveJobs(jobs) >= EXPORT_MAX_CONCURRENT then Some(AlreadyRunning)
    else if CompletedJobs(jobs) >= EXPORT_MAX_RETAINED_JOBS then Some(TooManyRetained)
    else if CompletedBytes(jobs) >= EXPORT_MAX_TOTAL_BYTES then Some(StorageFull)
    else None
  }

  datatype Event =
    | Create(options: Limits, now: Time)
    | Work(id: JobId, w: WorkerEvent)
    | Cancel(id: JobId, partGoes: bool, dataGoes: bool)
    | Restrict
    | ListJobs
    | SweepCancels(id: JobId, now: Time)
    | SweepEnds
    | Unrestrict
    | Expire(cleaner: CleanerId, id: JobId, now: Time)
    | Delete(cleaner: CleanerId, partGoes: bool, dataGoes: bool)
    | Pop(cleaner: CleanerId)

  predicate Enabled(m: Manager, e: Event) {
    match e
    case Create(_, _) => CreateRefusal(m.jobs).None?
    case Work(id, w) => id < |m.jobs| && WorkerCan(m.jobs[id].worker, m.sweep.Idle?, w)
    case Cancel(id, _, _) => id < |m.jobs|
    case Restrict => m.sweep.Idle?
    case ListJobs => m.sweep.Revoking?
    case SweepCancels(id, _) => m.sweep.Sweeping? && id in m.sweep.left && id < |m.jobs|
    case SweepEnds => m.sweep.Sweeping? && m.sweep.left == {}
    case Unrestrict => m.sweep.Idle?
    case Expire(c, id, now) => c !in m.cleaners && id < |m.jobs| && ExpiredAt(m.jobs[id], now)
    case Delete(c, _, _) => c in m.cleaners && m.cleaners[c].Deleting? && m.cleaners[c].id < |m.jobs|
    case Pop(c) => c in m.cleaners && m.cleaners[c].Popping? && m.cleaners[c].id < |m.jobs|
  }

  /** The job that a step changes, if it changes one. */
  function Changed(m: Manager, e: Event): Option<JobId>
    requires Enabled(m, e)
  {
    match e
    case Work(id, _) => Some(id)
    case Cancel(id, _, _) => Some(id)
    case SweepCancels(id, _) => Some(id)
    case Expire(_, id, _) => Some(id)
    case Delete(c, _, _) => Some(m.cleaners[c].id)
    case Pop(c) => Some(m.cleaners[c].id)
    case _ => None
  }

  function NewValue(m: Manager, e: Event): Job
    requires Enabled(m, e) && Changed(m, e).Some?
    requires Changed(m, e).value < |m.jobs|
  {
    var job := m.jobs[Changed(m, e).value];
    match e
    case Work(_, w) => WorkerStep(m, job, CompletedBytes(m.jobs), w)
    case Cancel(_, partGoes, dataGoes) => CancelJob(job, partGoes, dataGoes)
    case SweepCancels(_, now) => CancelSensitive(job, now)
    case Expire(_, _, _) => MarkExpired(job)
    case Delete(_, partGoes, dataGoes) => DeleteFiles(job, partGoes, dataGoes)
    case Pop(_) => job.(listed := false)
  }

  function NextJobs(m: Manager, e: Event): seq<Job>
    requires Enabled(m, e)
  {
    if e.Create? then m.jobs + [NewJob(e.options, e.now)]
    else if Changed(m, e).Some? then m.jobs[Changed(m, e).value := NewValue(m, e)]
    else m.jobs
  }

  function NextSweep(m: Manager, e: Event): Sweep
    requires Enabled(m, e)
  {
    match e
    case Restrict => Revoking
    case ListJobs => Sweeping(set id | 0 <= id < |m.jobs| && m.jobs[id].listed)
    case SweepCancels(id, _) => Sweeping(m.sweep.left - {id})
    case SweepEnds => Idle
    case _ => m.sweep
  }

  function NextCleaners(m: Manager, e: Event): map<CleanerId, Cleaner>
    requires Enabled(m, e)
  {
    match e
    case Expire(c, id, _) => m.cleaners[c := Deleting(id)]
    case Delete(c, partGoes, dataGoes) =>
      var id := m.cleaners[c].id;
      m.cleaners[c := if NoFiles(DeleteFiles(m.jobs[id], partGoes, dataGoes)) then Popping(id) else Through]
    case Pop(c) => m.cleaners[c := Through]
    case _ => m.cleaners
  }

  function Step(m: Manager, e: Event): Manager
    requires Enabled(m, e)
  {
    m.(jobs := NextJobs(m, e),
       restricted := if e.Restrict? then true else if e.Unrestrict? then false else m.restricted,
       sweep := NextSweep(m, e),
       cleaners := NextCleaners(m, e))
  }

  predicate Possible(m: Manager, events: seq<Event>)
    decreases |events|
  {
    events == [] || (Enabled(m, events[0]) && Possible(Step(m, events[0]), events[1..]))
  }

  function Run(m: Manager, events: seq<Event>): Manager
    requires Possible(m, events)
    decreases |events|
  {
    if events == [] then m else Run(Step(m, events[0]), events[1..])
  }

  /** is_downloadable, and what open_data asks before it opens the file. */
  predicate Downloadable(job: Job, now: Time) {
    job.listed && job.status == Completed && !job.cancel && job.expiresAt > now && job.data.Some?
  }
}
