/** What the executor's protocol promises over whole runs. */
module ExecutorRuns {
  import opened Common
  import opened Executor

  lemma {:induction false} RunKeepsInvariant(s: System, events: seq<Event>)
    requires Invariant(s) && Possible(s, events)
    ensures Invariant(Run(s, events))
    decreases |events|
  {
    if events == [] {
    } else {
      StepKeepsInvariant(s, events[0]);
      RunKeepsInvariant(Step(s, events[0]), events[1..]);
    }
  }

  lemma ReachableInvariant(maxPending: nat, events: seq<Event>)
    requires Possible(Initial(maxPending), events)
    ensures Invariant(Run(Initial(maxPending), events))
  {
    InitialInvariant(maxPending);
    RunKeepsInvariant(Initial(maxPending), events);
  }

  // ---------- at most once, and in time ----------

  /** This step starts the function of task `id`. */
  predicate Starts(s: System, e: Event, id: TaskId)
    requires Enabled(s, e)
  {
    && e.DecideStart? && s.runners[e.runner].task == id
    && e.runner in Step(s, e).runners && Step(s, e).runners[e.runner].InFunction?
  }

  function StartCount(s: System, events: seq<Event>, id: TaskId): nat
    requires Possible(s, events)
    decreases |events|
  {
    if events == [] then 0
    else (if Starts(s, events[0], id) then 1 else 0) + StartCount(Step(s, events[0]), events[1..], id)
  }

  function StartsSoFar(s: System, id: TaskId): nat {
    if id in s.tasks then s.tasks[id].starts else 0
  }

  lemma OthersStartNothing(s: System, e: Event, id: TaskId)
    requires Enabled(s, e) && !RunnerEvent(e)
    ensures StartsSoFar(Step(s, e), id) == StartsSoFar(s, id)
  {
  }

  lemma RunnerStartsOnce(s: System, e: Event)
    requires Enabled(s, e) && RunnerEvent(e) && RunnerReady(s, e)
    ensures StartsSoFar(RunnerStep(s, e), TaskOf(s, e)) == StartsSoFar(s, TaskOf(s, e)) + (if Starts(s, e, TaskOf(s, e)) then 1 else 0)
    ensures Starts(s, e, TaskOf(s, e)) ==> s.runners[e.runner].now < s.tasks[TaskOf(s, e)].deadline
  {
  }

  lemma RunnerIsReady(s: System, e: Event)
    requires Invariant(s) && Enabled(s, e) && RunnerEvent(e)
    ensures RunnerReady(s, e) && OnlyTouches(s, RunnerStep(s, e), TaskOf(s, e), e.runner)
  {
    assert e.Enter? || RunnerInvariant(s, e.runner);
    assert TaskInvariant(s, TaskOf(s, e));
    RunnerStepTouches(s, e);
  }

  /** A step starts a function only when it says so, and only before the deadline. */
  lemma StepCountsStarts(s: System, e: Event, id: TaskId)
    requires Invariant(s) && Enabled(s, e)
    ensures StartsSoFar(Step(s, e), id) == StartsSoFar(s, id) + (if Starts(s, e, id) then 1 else 0)
    ensures Starts(s, e, id) ==> s.runners[e.runner].now < s.tasks[id].deadline
  {
    if RunnerEvent(e) {
      RunnerIsReady(s, e);
      RunnerStartsOnce(s, e);
    } else {
      OthersStartNothing(s, e, id);
    }
  }

  lemma {:induction false} StartsAreCounted(s: System, events: seq<Event>, id: TaskId)
    requires Invariant(s) && Possible(s, events)
    ensures StartsSoFar(Run(s, events), id) == StartsSoFar(s, id) + StartCount(s, events, id)
    decreases |events|
  {
    if events == [] {
    } else {
      StepCountsStarts(s, events[0], id);
      StepKeepsInvariant(s, events[0]);
      StartsAreCounted(Step(s, events[0]), events[1..], id);
    }
  }

  /** In every run a task's function is started at most once. */
  lemma StartedAtMostOnce(maxPending: nat, events: seq<Event>, id: TaskId)
    requires Possible(Initial(maxPending), events)
    ensures StartCount(Initial(maxPending), events, id) <= 1
  {
    var s := Run(Initial(maxPending), events);
    InitialInvariant(maxPending);
    ReachableInvariant(maxPending, events);
    StartsAreCounted(Initial(maxPending), events, id);
    assert id in s.tasks ==> TaskInvariant(s, id);
  }

  // ---------- completionUnknown = false is the truth ----------

  /** The bridge told the caller that the function certainly did not run. */
  predicate ReportedNotRun(s: System, id: TaskId) {
    id in s.callers && (s.callers[id] == Raised(TimedOut(false)) || s.callers[id] == Raised(ExpiredBeforeStart))
  }

  lemma RunnerKeepsCanceled(s: System, e: Event)
    requires Enabled(s, e) && RunnerEvent(e) && RunnerReady(s, e) && s.tasks[TaskOf(s, e)].state == Canceled
    ensures RunnerStep(s, e).tasks[TaskOf(s, e)].state == Canceled && !Starts(s, e, TaskOf(s, e))
  {
  }

  lemma OthersKeepCanceled(s: System, e: Event, id: TaskId)
    requires Enabled(s, e) && !RunnerEvent(e) && id in s.tasks && s.tasks[id].state == Canceled
    ensures id in Step(s, e).tasks && Step(s, e).tasks[id].state == Canceled && !Starts(s, e, id)
  {
  }

  lemma StepKeepsCanceled(s: System, e: Event, id: TaskId)
    requires Invariant(s) && Enabled(s, e) && id in s.tasks && s.tasks[id].state == Canceled
    ensures id in Step(s, e).tasks && Step(s, e).tasks[id].state == Canceled && !Starts(s, e, id)
  {
    if RunnerEvent(e) {
      RunnerIsReady(s, e);
      if TaskOf(s, e) == id {
        RunnerKeepsCanceled(s, e);
      }
    } else {
      OthersKeepCanceled(s, e, id);
    }
  }

  lemma {:induction false} CanceledNeverStarts(s: System, events: seq<Event>, id: TaskId)
    requires Invariant(s) && Possible(s, events) && id in s.tasks && s.tasks[id].state == Canceled
    ensures StartCount(s, events, id) == 0
    decreases |events|
  {
    if events == [] {
    } else {
      StepKeepsCanceled(s, events[0], id);
      StepKeepsInvariant(s, events[0]);
      CanceledNeverStarts(Step(s, events[0]), events[1..], id);
    }
  }

  /** A task reported with completionUnknown = false had not been started before the report
      and is not started after it. */
  lemma ReportedNotRunNeverRuns(maxPending: nat, events: seq<Event>, later: seq<Event>, id: TaskId)
    requires Possible(Initial(maxPending), events) && ReportedNotRun(Run(Initial(maxPending), events), id)
    requires Possible(Run(Initial(maxPending), events), later)
    ensures StartCount(Initial(maxPending), events, id) == 0
    ensures StartCount(Run(Initial(maxPending), events), later, id) == 0
  {
    var s := Run(Initial(maxPending), events);
    InitialInvariant(maxPending);
    ReachableInvariant(maxPending, events);
    CallersHaveTasks(maxPending, events, id);
    assert TaskInvariant(s, id);
    StartsAreCounted(Initial(maxPending), events, id);
    CanceledNeverStarts(s, later, id);
  }

  predicate CallersKnown(s: System) {
    s.callers.Keys <= s.tasks.Keys
  }

  lemma {:induction false} RunKeepsCallersKnown(s: System, events: seq<Event>)
    requires Possible(s, events) && CallersKnown(s)
    ensures CallersKnown(Run(s, events))
    decreases |events|
  {
    if events == [] {
    } else {
      RunKeepsCallersKnown(Step(s, events[0]), events[1..]);
    }
  }

  lemma CallersHaveTasks(maxPending: nat, events: seq<Event>, id: TaskId)
    requires Possible(Initial(maxPending), events) && id in Run(Initial(maxPending), events).callers
    ensures id in Run(Initial(maxPending), events).tasks
  {
    RunKeepsCallersKnown(Initial(maxPending), events);
  }

  // ---------- a normal return carries the result of the one run ----------

  /** The values that the function of task `id` returned, over a run. */
  function ValuesReturned(s: System, events: seq<Event>, id: TaskId): seq<Value>
    requires Possible(s, events)
    decreases |events|
  {
    if events == [] then []
    else ValueTaken(s, events[0], id) + ValuesReturned(Step(s, events[0]), events[1..], id)
  }

  function ResultSoFar(s: System, id: TaskId): seq<Value> {
    if id in s.tasks && s.tasks[id].result.Some? then [s.tasks[id].result.value] else []
  }

  /** The value that this step takes from the function of task `id`. */
  function ValueTaken(s: System, e: Event, id: TaskId): seq<Value>
    requires Enabled(s, e)
  {
    if e.FunctionReturns? && s.runners[e.runner].task == id then [e.value] else []
  }

  lemma OthersTakeNothing(s: System, e: Event, id: TaskId)
    requires Enabled(s, e) && !RunnerEvent(e)
    ensures ResultSoFar(Step(s, e), id) == ResultSoFar(s, id)
  {
  }

  lemma RunnerTakesValue(s: System, e: Event)
    requires Enabled(s, e) && RunnerEvent(e) && RunnerReady(s, e)
    ensures ResultSoFar(RunnerStep(s, e), TaskOf(s, e)) == ResultSoFar(s, TaskOf(s, e)) + ValueTaken(s, e, TaskOf(s, e))
  {
  }

  lemma StepRecordsResult(s: System, e: Event, id: TaskId)
    requires Invariant(s) && Enabled(s, e)
    ensures ResultSoFar(Step(s, e), id) == ResultSoFar(s, id) + ValueTaken(s, e, id)
  {
    if RunnerEvent(e) {
      RunnerIsReady(s, e);
      RunnerTakesValue(s, e);
    } else {
      OthersTakeNothing(s, e, id);
    }
  }

  lemma {:induction false} ResultsAreReturned(s: System, events: seq<Event>, id: TaskId)
    requires Invariant(s) && Possible(s, events)
    ensures ResultSoFar(Run(s, events), id) == ResultSoFar(s, id) + ValuesReturned(s, events, id)
    decreases |events|
  {
    if events == [] {
    } else {
      StepRecordsResult(s, events[0], id);
      StepKeepsInvariant(s, events[0]);
      ResultsAreReturned(Step(s, events[0]), events[1..], id);
    }
  }

  /** When a call returns normally, its function was started exactly once, returned exactly
      once, and this is the value. */
  lemma NormalReturnIsTheOneResult(maxPending: nat, events: seq<Event>, id: TaskId)
    requires Possible(Initial(maxPending), events)
    requires var s := Run(Initial(maxPending), events); id in s.callers && s.callers[id].Returned?
    ensures var s := Run(Initial(maxPending), events);
            && s.callers[id].value.Some?
            && ValuesReturned(Initial(maxPending), events, id) == [s.callers[id].value.value]
            && StartCount(Initial(maxPending), events, id) == 1
  {
    var s := Run(Initial(maxPending), events);
    InitialInvariant(maxPending);
    ReachableInvariant(maxPending, events);
    CallersHaveTasks(maxPending, events, id);
    assert TaskInvariant(s, id);
    StartsAreCounted(Initial(maxPending), events, id);
    ResultsAreReturned(Initial(maxPending), events, id);
  }

  // ---------- capacity ----------

  /** Another run of the task's wrapper has come and gone. */
  predicate Disowned(s: System, id: TaskId) {
    exists r :: r in s.runners && s.runners[r] == Gone(id)
  }

  /** A running task is registered exactly until another run of its wrapper has come and gone. */
  predicate RunningCounted(s: System, id: TaskId) {
    id in s.tasks && s.tasks[id].state == Running ==> (id in s.registered <==> !Disowned(s, id))
  }

  lemma NoOneLeftPending(s: System, id: TaskId)
    requires Invariant(s) && id in s.tasks && s.tasks[id].state == Pending
    ensures !Disowned(s, id)
  {
    forall r | r in s.runners
      ensures s.runners[r] != Gone(id)
    {
      assert RunnerInvariant(s, r);
    }
  }

  lemma SameRunnersSameDisowned(s: System, q: System, id: TaskId)
    requires q.runners == s.runners
    ensures Disowned(q, id) <==> Disowned(s, id)
  {
  }

  /** Only a task that is not running can be started, finished or unregistered by these parties. */
  lemma OthersLeaveRunningAlone(s: System, e: Event, id: TaskId)
    requires Enabled(s, e) && !RunnerEvent(e) && (id in s.tasks ==> TaskInvariant(s, id))
    ensures var q := Step(s, e);
            && q.runners == s.runners
            && (id in q.tasks && q.tasks[id].state == Running ==>
                  id in s.tasks && s.tasks[id].state == Running && (id in q.registered <==> id in s.registered))
  {
    if CallerEvent(e) {
      CallersLeaveRunningAlone(s, e, id);
    }
  }

  lemma CallersLeaveRunningAlone(s: System, e: Event, id: TaskId)
    requires Enabled(s, e) && CallerEvent(e) && (id in s.tasks ==> TaskInvariant(s, id))
    ensures var q := CallerStep(s, e);
            && q.runners == s.runners
            && (id in q.tasks && q.tasks[id].state == Running ==>
                  id in s.tasks && s.tasks[id].state == Running && (id in q.registered <==> id in s.registered))
  {
    if e.ScheduleFails? || e.CallerLeaves? {
      UnregisteringSparesRunning(s, e, id);
    }
  }

  lemma UnregisteringSparesRunning(s: System, e: Event, id: TaskId)
    requires Enabled(s, e) && (e.ScheduleFails? || e.CallerLeaves?) && (id in s.tasks ==> TaskInvariant(s, id))
    ensures var q := CallerStep(s, e);
            && q.tasks == s.tasks
            && (id in s.tasks && s.tasks[id].state == Running ==> (id in q.registered <==> id in s.registered))
  {
  }

  lemma OthersKeepRunningCounted(s: System, e: Event, id: TaskId)
    requires Invariant(s) && Enabled(s, e) && !RunnerEvent(e) && RunningCounted(s, id)
    ensures RunningCounted(Step(s, e), id)
  {
    OthersLeaveRunningAlone(s, e, id);
    SameRunnersSameDisowned(s, Step(s, e), id);
  }

  lemma OnlyTouchesKeepsDisowned(s: System, q: System, id: TaskId, r: RunnerId, other: TaskId)
    requires OnlyTouches(s, q, id, r) && (r in s.runners ==> !s.runners[r].Gone?)
    ensures Disowned(q, other) <==> Disowned(s, other) || q.runners[r] == Gone(other)
  {
    if Disowned(s, other) {
      var witness0 :| witness0 in s.runners && s.runners[witness0] == Gone(other);
      assert q.runners[witness0] == Gone(other);
    }
  }

  lemma RunnerMarksItsTask(s: System, e: Event)
    requires Enabled(s, e) && RunnerEvent(e) && RunnerReady(s, e)
    ensures var q, id := RunnerStep(s, e), TaskOf(s, e);
            && (q.runners[e.runner].Gone? <==> e.Leave?)
            && (q.registered == if e.Leave? then s.registered - {id} else s.registered)
            && q.runners[e.runner].task == id
            && (e.runner in s.runners ==> !s.runners[e.runner].Gone?)
            && (q.tasks[id].state == Running ==> s.tasks[id].state == Running || s.tasks[id].state == Pending)
            && (s.tasks[id].state == Pending && q.tasks[id].state == Running ==> e.DecideStart?)
  {
  }

  lemma StepKeepsRunningCounted(s: System, e: Event, id: TaskId)
    requires Invariant(s) && Enabled(s, e) && RunningCounted(s, id)
    ensures RunningCounted(Step(s, e), id)
  {
    if RunnerEvent(e) {
      var q := RunnerStep(s, e);
      RunnerIsReady(s, e);
      RunnerMarksItsTask(s, e);
      OnlyTouchesKeepsDisowned(s, q, TaskOf(s, e), e.runner, id);
      if id in s.tasks && s.tasks[id].state == Pending {
        NoOneLeftPending(s, id);
        assert TaskInvariant(s, id);
      }
    } else {
      OthersKeepRunningCounted(s, e, id);
    }
  }

  lemma {:induction false} RunKeepsRunningCounted(s: System, events: seq<Event>, id: TaskId)
    requires Invariant(s) && Possible(s, events) && RunningCounted(s, id)
    ensures RunningCounted(Run(s, events), id)
    decreases |events|
  {
    if events == [] {
    } else {
      StepKeepsInvariant(s, events[0]);
      StepKeepsRunningCounted(s, events[0], id);
      RunKeepsRunningCounted(Step(s, events[0]), events[1..], id);
    }
  }

  /** A running task takes up capacity if and only if no second run of its wrapper has left. */
  lemma RunningIsCountedUnlessDisowned(maxPending: nat, events: seq<Event>, id: TaskId)
    requires Possible(Initial(maxPending), events)
    requires var s := Run(Initial(maxPending), events); id in s.tasks && s.tasks[id].state == Running
    ensures var s := Run(Initial(maxPending), events); id in s.registered <==> !Disowned(s, id)
  {
    InitialInvariant(maxPending);
    RunKeepsRunningCounted(Initial(maxPending), events, id);
  }

  /** The queue never holds more than its limit; a scheduled task that is still pending is in it. */
  lemma QueueIsBounded(maxPending: nat, events: seq<Event>, id: TaskId)
    requires Possible(Initial(maxPending), events)
    ensures var s := Run(Initial(maxPending), events);
            && |s.registered| <= maxPending
            && (id in s.tasks && id in s.handed && s.tasks[id].state == Pending ==> id in s.registered)
  {
    var s := Run(Initial(maxPending), events);
    ReachableInvariant(maxPending, events);
    RunKeepsLimit(Initial(maxPending), events);
    assert id in s.tasks ==> TaskInvariant(s, id);
  }

  lemma StepKeepsLimit(s: System, e: Event)
    requires Enabled(s, e)
    ensures Step(s, e).maxPending == s.maxPending
  {
  }

  lemma {:induction false} RunKeepsLimit(s: System, events: seq<Event>)
    requires Possible(s, events)
    ensures Run(s, events).maxPending == s.maxPending
    decreases |events|
  {
    if events == [] {
    } else {
      StepKeepsLimit(s, events[0]);
      RunKeepsLimit(Step(s, events[0]), events[1..]);
    }
  }
}
