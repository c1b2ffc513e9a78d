/**
 The main-thread executor as a protocol. Its parties are the callers (one for each task),
 the wrappers that the scheduler runs for a task, and `close`. A step is one critical
 section or one read outside a lock, and any enabled step may come next. The scheduler may
 delay, reorder, drop or repeat wrappers, and may run them at the same time.
 */
module Executor {
  import opened Common

  type TaskId = nat
  type RunnerId = nat
  type Value = int
  type Time = real

  datatype Failure =
    | ShuttingDown
    | TimedOut(completionUnknown: bool)
    | ExpiredBeforeStart
    | FunctionRaised(error: int)
    | Unschedulable

  datatype TaskState = Pending | Running | Finished | Canceled

  /** A task; `starts`, `runner` and `entrants` record its history: how often its function
      was started, by which wrapper run, and which wrapper runs there were. */
  datatype Task = Task(
    deadline: Time,
    state: TaskState,
    result: Option<Value>,
    error: Option<Failure>,
    done: bool,
    startedAt: Option<Time>,
    lockedBy: Option<RunnerId>,
    starts: nat,
    runner: Option<RunnerId>,
    entrants: set<RunnerId>
  )

  /** Where the caller of a task is. */
  datatype Caller =
    | Scheduling
    | Waiting
    | TimingOut
    | Unregistering(canceled: bool)
    | Returned(value: Option<Value>)
    | Raised(failure: Failure)

  /** Where one run of a task's wrapper is; from `Locked` to the decision it holds the task's lock. */
  datatype Runner =
    | Entered(task: TaskId)
    | Locked(task: TaskId, now: Time)
    | Looked(task: TaskId, now: Time, sawClosing: bool)
    | InFunction(task: TaskId)
    | Delivered(task: TaskId)
    | Leaving(task: TaskId)
    | Gone(task: TaskId)

  /** The first call of `close`; `left` are the tasks it has still to cancel. */
  datatype Closer = Open | Closing(left: set<TaskId>) | Closed

  datatype System = System(
    maxPending: nat,
    closing: bool,
    registered: set<TaskId>,
    tasks: map<TaskId, Task>,
    callers: map<TaskId, Caller>,
    handed: set<TaskId>,
    runners: map<RunnerId, Runner>,
    closer: Closer
  )

  function Initial(maxPending: nat): System {
    System(maxPending, false, {}, map[], map[], {}, map[], Open)
  }

  function NewTask(deadline: Time): Task {
    Task(deadline, Pending, None, None, false, None, None, 0, None, {})
  }

  // ---------- the critical sections on one task ----------

  /** cancel_pending */
  function CancelPending(task: Task, reason: Failure): (Task, bool) {
    if task.state != Pending then (task, false)
    else (task.(state := Canceled, error := Some(reason), done := true), true)
  }

  /** The wrapper's decision under the task's lock: expire the task or start its function. */
  function Decide(task: Task, now: Time, sawClosing: bool, runner: RunnerId): Task {
    if sawClosing || now >= task.deadline then
      task.(state := Canceled, error := Some(ExpiredBeforeStart), done := true, lockedBy := None)
    else
      task.(state := Running, startedAt := Some(now), lockedBy := None, starts := task.starts + 1, runner := Some(runner))
  }

  function Finish(task: Task): Task {
    task.(state := Finished, done := true)
  }

  // ---------- the steps ----------

  datatype Event =
    | Admit(id: TaskId, deadline: Time)
    | Enqueue(id: TaskId)
    | ScheduleReturns(id: TaskId)
    | ScheduleFails(id: TaskId)
    | WaitEnds(id: TaskId)
    | WaitTimesOut(id: TaskId)
    | CallerCancels(id: TaskId)
    | CallerLeaves(id: TaskId)
    | Enter(runner: RunnerId, id: TaskId)
    | Lock(runner: RunnerId, now: Time)
    | Look(runner: RunnerId)
    | DecideStart(runner: RunnerId)
    | FunctionReturns(runner: RunnerId, value: Value)
    | FunctionRaises(runner: RunnerId, error: int)
    | FinishRun(runner: RunnerId)
    | Leave(runner: RunnerId)
    | BeginClose
    | CloseCancels(id: TaskId)
    | CloseReturns

  predicate CallerIs(s: System, id: TaskId, caller: Caller) {
    id in s.tasks && id in s.callers && s.callers[id] == caller
  }

  predicate Unlocked(s: System, id: TaskId) {
    id in s.tasks && s.tasks[id].lockedBy.None?
  }

  predicate RunnerTask(s: System, r: RunnerId) {
    r in s.runners && s.runners[r].task in s.tasks
  }

  predicate Enabled(s: System, e: Event) {
    match e
    case Admit(id, deadline) => !s.closing && |s.registered| < s.maxPending && id !in s.tasks
    case Enqueue(id) => CallerIs(s, id, Scheduling) && id !in s.handed
    case ScheduleReturns(id) => CallerIs(s, id, Scheduling) && id in s.handed
    case ScheduleFails(id) => CallerIs(s, id, Scheduling) && id !in s.handed
    case WaitEnds(id) => CallerIs(s, id, Waiting) && s.tasks[id].done
    case WaitTimesOut(id) => CallerIs(s, id, Waiting) && !s.tasks[id].done
    case CallerCancels(id) => CallerIs(s, id, TimingOut) && Unlocked(s, id)
    case CallerLeaves(id) => id in s.tasks && id in s.callers && s.callers[id].Unregistering?
    case Enter(r, id) => id in s.tasks && id in s.handed && r !in s.runners
    case Lock(r, now) => RunnerTask(s, r) && s.runners[r].Entered? && Unlocked(s, s.runners[r].task)
    case Look(r) => RunnerTask(s, r) && s.runners[r].Locked?
    case DecideStart(r) => RunnerTask(s, r) && s.runners[r].Looked?
    case FunctionReturns(r, value) => RunnerTask(s, r) && s.runners[r].InFunction? && Unlocked(s, s.runners[r].task)
    case FunctionRaises(r, error) => RunnerTask(s, r) && s.runners[r].InFunction? && Unlocked(s, s.runners[r].task)
    case FinishRun(r) => RunnerTask(s, r) && s.runners[r].Delivered? && Unlocked(s, s.runners[r].task)
    case Leave(r) => RunnerTask(s, r) && s.runners[r].Leaving?
    case BeginClose => true
    case CloseCancels(id) => s.closer.Closing? && id in s.closer.left && Unlocked(s, id)
    case CloseReturns => s.closer.Closing? && s.closer.left == {}
  }

  function WithTask(s: System, id: TaskId, task: Task): System {
    s.(tasks := s.tasks[id := task])
  }

  function WithCaller(s: System, id: TaskId, caller: Caller): System {
    s.(callers := s.callers[id := caller])
  }

  function WithRunner(s: System, r: RunnerId, runner: Runner): System {
    s.(runners := s.runners[r := runner])
  }

  function Outcome(task: Task): Caller {
    if task.error.Some? then Raised(task.error.value) else Returned(task.result)
  }

  predicate CallerEvent(e: Event) {
    e.Admit? || e.Enqueue? || e.ScheduleReturns? || e.ScheduleFails? || e.WaitEnds? || e.WaitTimesOut? || e.CallerCancels? || e.CallerLeaves?
  }

  predicate CloseEvent(e: Event) {
    e.BeginClose? || e.CloseCancels? || e.CloseReturns?
  }

  predicate RunnerEvent(e: Event) {
    !CallerEvent(e) && !CloseEvent(e)
  }

  function CallerStep(s: System, e: Event): System
    requires Enabled(s, e) && CallerEvent(e)
  {
    match e
    case Admit(id, deadline) =>
      s.(registered := s.registered + {id}, tasks := s.tasks[id := NewTask(deadline)], callers := s.callers[id := Scheduling])
    case Enqueue(id) => s.(handed := s.handed + {id})
    case ScheduleReturns(id) => WithCaller(s, id, Waiting)
    case ScheduleFails(id) => WithCaller(s, id, Raised(Unschedulable)).(registered := s.registered - {id})
    case WaitEnds(id) => WithCaller(s, id, Outcome(s.tasks[id]))
    case WaitTimesOut(id) => WithCaller(s, id, TimingOut)
    case CallerCancels(id) =>
      var canceled := CancelPending(s.tasks[id], TimedOut(false));
      WithCaller(WithTask(s, id, canceled.0), id, Unregistering(canceled.1))
    case CallerLeaves(id) =>
      var canceled := s.callers[id].canceled;
      WithCaller(s, id, Raised(TimedOut(!canceled))).(registered := if canceled then s.registered - {id} else s.registered)
  }

  function RunnerStep(s: System, e: Event): System
    requires Enabled(s, e) && RunnerEvent(e)
  {
    match e
    case Enter(r, id) => WithRunner(WithTask(s, id, s.tasks[id].(entrants := s.tasks[id].entrants + {r})), r, Entered(id))
    case Lock(r, now) =>
      var id := s.runners[r].task;
      if s.tasks[id].state != Pending then WithRunner(s, r, Leaving(id))
      else WithRunner(WithTask(s, id, s.tasks[id].(lockedBy := Some(r))), r, Locked(id, now))
    case Look(r) => WithRunner(s, r, Looked(s.runners[r].task, s.runners[r].now, s.closing))
    case DecideStart(r) =>
      var looked := s.runners[r];
      var task := Decide(s.tasks[looked.task], looked.now, looked.sawClosing, r);
      WithRunner(WithTask(s, looked.task, task), r, if task.state == Running then InFunction(looked.task) else Leaving(looked.task))
    case FunctionReturns(r, value) =>
      var id := s.runners[r].task;
      WithRunner(WithTask(s, id, s.tasks[id].(result := Some(value))), r, Delivered(id))
    case FunctionRaises(r, error) =>
      var id := s.runners[r].task;
      WithRunner(WithTask(s, id, s.tasks[id].(error := Some(FunctionRaised(error)))), r, Delivered(id))
    case FinishRun(r) =>
      var id := s.runners[r].task;
      WithRunner(WithTask(s, id, Finish(s.tasks[id])), r, Leaving(id))
    case Leave(r) =>
      var id := s.runners[r].task;
      WithRunner(s, r, Gone(id)).(registered := s.registered - {id})
  }

  function CloseStep(s: System, e: Event): System
    requires Enabled(s, e) && CloseEvent(e)
  {
    match e
    case BeginClose => if s.closing then s else s.(closing := true, closer := Closing(s.registered))
    case CloseCancels(id) => WithTask(s, id, CancelPending(s.tasks[id], ShuttingDown).0).(closer := Closing(s.closer.left - {id}))
    case CloseReturns => s.(closer := Closed)
  }

  function Step(s: System, e: Event): System
    requires Enabled(s, e)
  {
    if CallerEvent(e) then CallerStep(s, e) else if CloseEvent(e) then CloseStep(s, e) else RunnerStep(s, e)
  }

  /** A run: events that are enabled one after another. */
  predicate Possible(s: System, events: seq<Event>)
    decreases |events|
  {
    events == [] || (Enabled(s, events[0]) && Possible(Step(s, events[0]), events[1..]))
  }

  function Run(s: System, events: seq<Event>): System
    requires Possible(s, events)
    decreases |events|
  {
    if events == [] then s else Run(Step(s, events[0]), events[1..])
  }

  // ---------- what every step keeps ----------

  /** A task's own fields fit its state; in particular its function has been started at most
      once, before the deadline, and never if the task is pending or canceled. */
  predicate TaskFits(task: Task) {
    && (task.lockedBy.Some? ==> task.state == Pending)
    && match task.state
       case Pending => task.starts == 0 && task.runner.None? && !task.done && task.result.None? && task.error.None?
       case Running => task.starts == 1 && task.runner.Some? && !task.done
       case Finished =>
         && task.starts == 1 && task.runner.Some? && task.done
         && (task.error.None? <==> task.result.Some?)
         && (task.error.Some? ==> task.error.value.FunctionRaised?)
       case Canceled =>
         && task.starts == 0 && task.runner.None? && task.done && task.result.None?
         && task.error.Some? && !task.error.value.FunctionRaised? && !task.error.value.Unschedulable?
  }

  predicate StartedInTime(task: Task) {
    task.starts > 0 ==> task.startedAt.Some? && task.startedAt.value < task.deadline
  }

  predicate RunnerFits(task: Task, r: RunnerId, runner: Runner) {
    && r in task.entrants
    && match runner
       case Entered(_) => task.runner != Some(r)
       case Locked(_, _) => task.lockedBy == Some(r)
       case Looked(_, _, _) => task.lockedBy == Some(r)
       case InFunction(_) => task.state == Running && task.runner == Some(r) && task.result.None? && task.error.None?
       case Delivered(_) =>
         && task.state == Running && task.runner == Some(r)
         && (task.error.None? <==> task.result.Some?)
         && (task.error.Some? ==> task.error.value.FunctionRaised?)
       case Leaving(_) => task.state != Pending && (task.runner == Some(r) ==> task.state != Running)
       case Gone(_) => task.state != Pending && (task.runner == Some(r) ==> task.state != Running)
  }

  predicate CallerFits(task: Task, caller: Caller, handed: bool) {
    match caller
    case Scheduling => true
    case Waiting => handed
    case TimingOut => handed
    case Unregistering(canceled) => handed && (canceled ==> task.state == Canceled)
    case Returned(value) => task.state == Finished && task.error.None? && value.Some? && value == task.result
    case Raised(failure) =>
      match failure
      case TimedOut(unknown) => !unknown ==> task.state == Canceled
      case ExpiredBeforeStart => task.state == Canceled
      case ShuttingDown => task.state == Canceled
      case FunctionRaised(_) => task.state == Finished && task.error == Some(failure)
      case Unschedulable => !handed
  }

  /** The only wrapper run of a task is the one that started its function. */
  predicate RanOnce(task: Task) {
    forall r :: r in task.entrants ==> task.runner == Some(r)
  }

  /** A task that still matters takes up capacity. */
  predicate CountedFits(task: Task, caller: Caller, handed: bool, registered: bool) {
    && (task.state == Pending && (handed || caller == Scheduling) ==> registered)
    && (task.state == Running && RanOnce(task) ==> registered)
  }

  predicate CloserFits(s: System) {
    && (s.closing <==> !s.closer.Open?)
    && (s.closer.Closing? ==> forall id :: id in s.registered && id in s.tasks && s.tasks[id].state == Pending ==> id in s.closer.left)
    && (s.closer.Closed? ==> forall id :: id in s.registered && id in s.tasks ==> s.tasks[id].state != Pending)
  }

  predicate TaskInvariant(s: System, id: TaskId)
    requires id in s.tasks
  {
    var task := s.tasks[id];
    && id in s.callers
    && TaskFits(task) && StartedInTime(task)
    && CallerFits(task, s.callers[id], id in s.handed)
    && CountedFits(task, s.callers[id], id in s.handed, id in s.registered)
    && (task.lockedBy.Some? ==> id in s.handed)
    && (task.state == Running ==> id in s.handed)
    && (task.runner.Some? ==> task.runner.value in s.runners)
  }

  predicate RunnerInvariant(s: System, r: RunnerId)
    requires r in s.runners
  {
    var id := s.runners[r].task;
    id in s.tasks && id in s.handed && RunnerFits(s.tasks[id], r, s.runners[r])
  }

  /** The key sets, the capacity and the closer. */
  ghost predicate FrameInvariant(s: System) {
    && |s.registered| <= s.maxPending
    && s.registered <= s.tasks.Keys && s.handed <= s.tasks.Keys
    && (s.closer.Closing? ==> s.closer.left <= s.tasks.Keys)
    && CloserFits(s)
  }

  ghost predicate Invariant(s: System) {
    && FrameInvariant(s)
    && (forall id :: id in s.tasks ==> TaskInvariant(s, id))
    && (forall r :: r in s.runners ==> RunnerInvariant(s, r))
  }

  lemma InitialInvariant(maxPending: nat)
    ensures Invariant(Initial(maxPending))
  {
  }

  predicate SchedulingEvent(e: Event) {
    e.Admit? || e.Enqueue? || e.ScheduleReturns? || e.ScheduleFails?
  }

  lemma SchedulingKeepsTask(s: System, e: Event)
    requires Enabled(s, e) && SchedulingEvent(e) && s.handed <= s.tasks.Keys
    requires e.id in s.tasks ==> TaskInvariant(s, e.id)
    ensures TaskInvariant(CallerStep(s, e), e.id)
  {
  }

  lemma WaitingKeepsTask(s: System, e: Event)
    requires Enabled(s, e) && CallerEvent(e) && !SchedulingEvent(e)
    requires TaskInvariant(s, e.id)
    ensures TaskInvariant(CallerStep(s, e), e.id)
  {
  }

  lemma CallerStepKeepsOtherTask(s: System, e: Event, id: TaskId)
    requires Enabled(s, e) && CallerEvent(e) && id in s.tasks && id != e.id && TaskInvariant(s, id)
    ensures TaskInvariant(CallerStep(s, e), id)
  {
  }

  lemma CallerStepKeepsTask(s: System, e: Event, id: TaskId)
    requires Enabled(s, e) && CallerEvent(e) && s.handed <= s.tasks.Keys
    requires id in s.tasks ==> TaskInvariant(s, id)
    requires id in CallerStep(s, e).tasks
    ensures TaskInvariant(CallerStep(s, e), id)
  {
    if id != e.id {
      CallerStepKeepsOtherTask(s, e, id);
    } else if SchedulingEvent(e) {
      SchedulingKeepsTask(s, e);
    } else {
      WaitingKeepsTask(s, e);
    }
  }

  lemma CallerStepKeepsTasks(s: System, e: Event)
    requires Invariant(s) && Enabled(s, e) && CallerEvent(e)
    ensures var q := CallerStep(s, e); forall id :: id in q.tasks ==> TaskInvariant(q, id)
  {
    forall id | id in CallerStep(s, e).tasks
      ensures TaskInvariant(CallerStep(s, e), id)
    {
      CallerStepKeepsTask(s, e, id);
    }
  }

  lemma CallerStepKeepsRunners(s: System, e: Event)
    requires Invariant(s) && Enabled(s, e) && CallerEvent(e)
    ensures var q := CallerStep(s, e); forall r :: r in q.runners ==> RunnerInvariant(q, r)
  {
    var q := CallerStep(s, e);
    forall r | r in q.runners
      ensures RunnerInvariant(q, r)
    {
      assert RunnerInvariant(s, r) && TaskInvariant(s, s.runners[r].task);
    }
  }

  /** The task that a wrapper run works on. */
  function TaskOf(s: System, e: Event): TaskId
    requires Enabled(s, e) && RunnerEvent(e)
  {
    if e.Enter? then e.id else s.runners[e.runner].task
  }

  /** What a step of a wrapper run relies on. */
  predicate RunnerReady(s: System, e: Event)
    requires Enabled(s, e) && RunnerEvent(e)
  {
    && TaskOf(s, e) in s.handed
    && TaskInvariant(s, TaskOf(s, e))
    && (!e.Enter? ==> RunnerInvariant(s, e.runner))
  }

  /** A wrapper run changes its own place, its task, and perhaps the task's registration. */
  predicate OnlyTouches(s: System, q: System, id: TaskId, r: RunnerId) {
    && id in q.tasks && r in q.runners
    && q == s.(tasks := s.tasks[id := q.tasks[id]], runners := s.runners[r := q.runners[r]], registered := q.registered)
    && (q.registered == s.registered || q.registered == s.registered - {id})
  }

  lemma RunnerStepTouches(s: System, e: Event)
    requires Enabled(s, e) && RunnerEvent(e)
    ensures OnlyTouches(s, RunnerStep(s, e), TaskOf(s, e), e.runner)
  {
    var q, id, r := RunnerStep(s, e), TaskOf(s, e), e.runner;
    assert s.tasks == s.tasks[id := s.tasks[id]];
  }

  /** The wrapper's steps up to its decision. */
  predicate BeforeFunction(e: Event) {
    e.Enter? || e.Lock? || e.Look? || e.DecideStart?
  }

  lemma DecidingKeepsTask(s: System, e: Event)
    requires Enabled(s, e) && BeforeFunction(e) && RunnerReady(s, e)
    ensures TaskInvariant(RunnerStep(s, e), TaskOf(s, e))
  {
  }

  lemma RunnerStepKeepsTask(s: System, e: Event)
    requires Enabled(s, e) && RunnerEvent(e) && RunnerReady(s, e)
    ensures TaskInvariant(RunnerStep(s, e), TaskOf(s, e))
  {
    if BeforeFunction(e) {
      DecidingKeepsTask(s, e);
    }
  }

  lemma RunnerStepKeepsSelf(s: System, e: Event)
    requires Enabled(s, e) && RunnerEvent(e) && RunnerReady(s, e)
    ensures RunnerInvariant(RunnerStep(s, e), e.runner)
  {
  }

  lemma RunnerStepKeepsOtherTask(s: System, q: System, id: TaskId, r: RunnerId, other: TaskId)
    requires OnlyTouches(s, q, id, r) && other in s.tasks && other != id && TaskInvariant(s, other)
    ensures TaskInvariant(q, other)
  {
  }

  lemma RunnerStepKeepsOtherRunner(s: System, q: System, id: TaskId, r: RunnerId, other: RunnerId)
    requires OnlyTouches(s, q, id, r) && other in s.runners && other != r && s.runners[other].task != id && RunnerInvariant(s, other)
    ensures RunnerInvariant(q, other)
  {
  }

  lemma RunnerStepKeepsRival(s: System, e: Event, r: RunnerId)
    requires Enabled(s, e) && RunnerEvent(e) && RunnerReady(s, e)
    requires r in s.runners && r != e.runner && s.runners[r].task == TaskOf(s, e) && RunnerInvariant(s, r)
    ensures RunnerInvariant(RunnerStep(s, e), r)
  {
  }

  lemma RunnerStepKeepsAll(s: System, e: Event)
    requires Invariant(s) && Enabled(s, e) && RunnerEvent(e)
    ensures var q := RunnerStep(s, e);
            && RunnerReady(s, e) && OnlyTouches(s, q, TaskOf(s, e), e.runner)
            && (forall id :: id in q.tasks ==> TaskInvariant(q, id))
            && (forall r :: r in q.runners ==> RunnerInvariant(q, r))
  {
    var q, id := RunnerStep(s, e), TaskOf(s, e);
    assert RunnerReady(s, e) by {
      if !e.Enter? {
        assert RunnerInvariant(s, e.runner);
      }
    }
    RunnerStepTouches(s, e);
    forall other | other in q.tasks
      ensures TaskInvariant(q, other)
    {
      if other == id {
        RunnerStepKeepsTask(s, e);
      } else {
        RunnerStepKeepsOtherTask(s, q, id, e.runner, other);
      }
    }
    forall r | r in q.runners
      ensures RunnerInvariant(q, r)
    {
      if r == e.runner {
        RunnerStepKeepsSelf(s, e);
      } else if s.runners[r].task == id {
        RunnerStepKeepsRival(s, e, r);
      } else {
        RunnerStepKeepsOtherRunner(s, q, id, e.runner, r);
      }
    }
  }

  lemma CloseStepKeepsTasks(s: System, e: Event)
    requires Invariant(s) && Enabled(s, e) && CloseEvent(e)
    ensures var q := CloseStep(s, e);
            && (forall id :: id in q.tasks ==> TaskInvariant(q, id))
            && (forall r :: r in q.runners ==> RunnerInvariant(q, r))
  {
    var q := CloseStep(s, e);
    forall id | id in q.tasks
      ensures TaskInvariant(q, id)
    {
      assert TaskInvariant(s, id);
    }
    forall r | r in q.runners
      ensures RunnerInvariant(q, r)
    {
      assert RunnerInvariant(s, r) && TaskInvariant(s, s.runners[r].task);
    }
  }

  lemma CallerStepKeepsFrame(s: System, e: Event)
    requires FrameInvariant(s) && Enabled(s, e) && CallerEvent(e)
    ensures FrameInvariant(CallerStep(s, e))
  {
    if !e.Admit? {
      SubsetSize(CallerStep(s, e).registered, s.registered);
    }
  }

  lemma CloseStepKeepsFrame(s: System, e: Event)
    requires FrameInvariant(s) && Enabled(s, e) && CloseEvent(e)
    ensures FrameInvariant(CloseStep(s, e))
  {
  }

  lemma RunnerStepKeepsFrame(s: System, e: Event)
    requires FrameInvariant(s) && Enabled(s, e) && RunnerEvent(e) && RunnerReady(s, e)
    ensures FrameInvariant(RunnerStep(s, e))
  {
    var q, id := RunnerStep(s, e), TaskOf(s, e);
    RunnerStepTouches(s, e);
    SubsetSize(q.registered, s.registered);
    assert q.tasks[id].state == Pending ==> s.tasks[id].state == Pending;
  }

  /** Every step of every party keeps the invariant. */
  lemma StepKeepsInvariant(s: System, e: Event)
    requires Invariant(s) && Enabled(s, e)
    ensures Invariant(Step(s, e))
  {
    if CallerEvent(e) {
      CallerStepKeepsFrame(s, e);
      CallerStepKeepsTasks(s, e);
      CallerStepKeepsRunners(s, e);
    } else if CloseEvent(e) {
      CloseStepKeepsFrame(s, e);
      CloseStepKeepsTasks(s, e);
    } else {
      RunnerStepKeepsAll(s, e);
      RunnerStepKeepsFrame(s, e);
    }
  }
}
