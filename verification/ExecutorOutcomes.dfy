/** What a caller is told, and which tasks take up capacity, in every run. */
module ExecutorOutcomes {
  import opened Common
  import opened Executor
  import opened ExecutorRuns

  // ---------- who canceled a task, and what its caller is told ----------

  datatype Canceler = ByClose | ByCaller | ByWrapper

  /** The party that makes task `id` canceled by this step, if it does. */
  function CancelerNow(s: System, e: Event, id: TaskId): Option<Canceler>
    requires Enabled(s, e)
  {
    if id in s.tasks && s.tasks[id].state == Pending && id in Step(s, e).tasks && Step(s, e).tasks[id].state == Canceled then
      Some(if CloseEvent(e) then ByClose else if CallerEvent(e) then ByCaller else ByWrapper)
    else None
  }

  function CancelerOf(s: System, events: seq<Event>, id: TaskId): Option<Canceler>
    requires Possible(s, events)
    decreases |events|
  {
    if events == [] then None
    else
      match CancelerNow(s, events[0], id)
      case Some(who) => Some(who)
      case None => CancelerOf(Step(s, events[0]), events[1..], id)
  }

  function ReasonOf(who: Canceler): Failure {
    match who
    case ByClose => ShuttingDown
    case ByCaller => TimedOut(false)
    case ByWrapper => ExpiredBeforeStart
  }

  predicate IsCanceled(s: System, id: TaskId) {
    id in s.tasks && s.tasks[id].state == Canceled
  }

  /** A step that cancels task `id` leaves the canceler's reason; any other leaves a canceled task's. */
  ghost predicate Reasoned(s: System, e: Event, q: System, id: TaskId)
    requires Enabled(s, e)
  {
    && (id in s.tasks && id in q.tasks && s.tasks[id].state == Pending && q.tasks[id].state == Canceled ==>
          q.tasks[id].error == Some(ReasonOf(if CloseEvent(e) then ByClose else if CallerEvent(e) then ByCaller else ByWrapper)))
    && (IsCanceled(q, id) ==> id in s.tasks && (s.tasks[id].state == Pending || (IsCanceled(s, id) && q.tasks[id].error == s.tasks[id].error)))
  }

  lemma CallerGivesReason(s: System, e: Event, id: TaskId)
    requires Enabled(s, e) && CallerEvent(e)
    ensures Reasoned(s, e, CallerStep(s, e), id)
  {
  }

  lemma CloseGivesReason(s: System, e: Event, id: TaskId)
    requires Enabled(s, e) && CloseEvent(e)
    ensures Reasoned(s, e, CloseStep(s, e), id)
  {
  }

  lemma RunnerGivesReason(s: System, e: Event)
    requires Enabled(s, e) && RunnerEvent(e) && RunnerReady(s, e)
    ensures Reasoned(s, e, RunnerStep(s, e), TaskOf(s, e))
  {
  }

  lemma RunnerSparesOthers(s: System, e: Event, id: TaskId)
    requires Enabled(s, e) && RunnerEvent(e) && id != TaskOf(s, e) && OnlyTouches(s, RunnerStep(s, e), TaskOf(s, e), e.runner)
    ensures Reasoned(s, e, RunnerStep(s, e), id)
  {
  }

  lemma RunnerStepIsReasoned(s: System, e: Event, id: TaskId)
    requires Invariant(s) && Enabled(s, e) && RunnerEvent(e)
    ensures Reasoned(s, e, RunnerStep(s, e), id)
  {
    RunnerIsReady(s, e);
    if id == TaskOf(s, e) {
      RunnerGivesReason(s, e);
    } else {
      RunnerSparesOthers(s, e, id);
    }
  }

  lemma StepIsReasoned(s: System, e: Event, id: TaskId)
    requires Invariant(s) && Enabled(s, e)
    ensures Reasoned(s, e, Step(s, e), id)
  {
    if CallerEvent(e) {
      CallerGivesReason(s, e, id);
    } else if CloseEvent(e) {
      CloseGivesReason(s, e, id);
    } else {
      RunnerStepIsReasoned(s, e, id);
    }
  }

  lemma StepGivesReason(s: System, e: Event, id: TaskId)
    requires Invariant(s) && Enabled(s, e)
    ensures var q, who := Step(s, e), CancelerNow(s, e, id);
            && (who.Some? ==> q.tasks[id].error == Some(ReasonOf(who.value)))
            && (who.None? && IsCanceled(q, id) ==> IsCanceled(s, id) && q.tasks[id].error == s.tasks[id].error)
  {
    StepIsReasoned(s, e, id);
  }

  lemma {:induction false} ReasonStays(s: System, events: seq<Event>, id: TaskId)
    requires Invariant(s) && Possible(s, events) && IsCanceled(s, id)
    ensures var q := Run(s, events); IsCanceled(q, id) && q.tasks[id].error == s.tasks[id].error
    decreases |events|
  {
    if events == [] {
    } else {
      StepKeepsCanceled(s, events[0], id);
      StepGivesReason(s, events[0], id);
      StepKeepsInvariant(s, events[0]);
      ReasonStays(Step(s, events[0]), events[1..], id);
    }
  }

  /** A task's error names the party that canceled it. */
  lemma {:induction false} ErrorNamesCanceler(s: System, events: seq<Event>, id: TaskId)
    requires Invariant(s) && Possible(s, events) && !IsCanceled(s, id)
    ensures var q, who := Run(s, events), CancelerOf(s, events, id);
            if who.Some? then IsCanceled(q, id) && q.tasks[id].error == Some(ReasonOf(who.value)) else !IsCanceled(q, id)
    decreases |events|
  {
    if events == [] {
    } else {
      var next := Step(s, events[0]);
      StepGivesReason(s, events[0], id);
      StepKeepsInvariant(s, events[0]);
      if CancelerNow(s, events[0], id).Some? {
        ReasonStays(next, events[1..], id);
      } else {
        ErrorNamesCanceler(next, events[1..], id);
      }
    }
  }

  /** In every run, a caller whose wait ends is told that the bridge is shutting down if and
      only if `close` canceled its task, and that the task expired if and only if its wrapper
      found it so. */
  lemma CallerIsToldWhoCanceled(maxPending: nat, events: seq<Event>, id: TaskId)
    requires Possible(Initial(maxPending), events) && Enabled(Run(Initial(maxPending), events), WaitEnds(id))
    ensures var q := Step(Run(Initial(maxPending), events), WaitEnds(id));
            var who := CancelerOf(Initial(maxPending), events, id);
            && id in q.callers
            && (q.callers[id] == Raised(ShuttingDown) <==> who == Some(ByClose))
            && (q.callers[id] == Raised(ExpiredBeforeStart) <==> who == Some(ByWrapper))
  {
    var s := Run(Initial(maxPending), events);
    InitialInvariant(maxPending);
    ReachableInvariant(maxPending, events);
    ErrorNamesCanceler(Initial(maxPending), events, id);
    assert TaskInvariant(s, id);
  }

  // ---------- what a timeout says ----------

  predicate Withdrawn(s: System, id: TaskId) {
    IsCanceled(s, id) && s.tasks[id].error == Some(TimedOut(false))
  }

  predicate Undecided(caller: Caller) {
    caller.Scheduling? || caller.Waiting? || caller.TimingOut?
  }

  /** The caller's timeout is one with a known outcome exactly if the caller has withdrawn the task. */
  predicate TellsTruth(s: System, id: TaskId) {
    id in s.callers ==>
      && id in s.tasks
      && (s.tasks[id].error.Some? && s.tasks[id].error.value.TimedOut? ==> Withdrawn(s, id))
      && match s.callers[id]
         case Unregistering(canceled) => canceled <==> Withdrawn(s, id)
         case Raised(failure) => failure.TimedOut? ==> (!failure.completionUnknown <==> Withdrawn(s, id))
         case _ => Undecided(s.callers[id]) ==> !Withdrawn(s, id)
  }

  lemma OwnStepTellsTruth(s: System, e: Event)
    requires Enabled(s, e) && CallerEvent(e) && TellsTruth(s, e.id) && (e.id in s.tasks ==> TaskInvariant(s, e.id))
    ensures TellsTruth(CallerStep(s, e), e.id)
  {
  }

  lemma OthersAreLeftAlone(s: System, e: Event, id: TaskId)
    requires Enabled(s, e) && CallerEvent(e) && e.id != id
    ensures var q := CallerStep(s, e);
            && (id in q.registered <==> id in s.registered) && (id in q.tasks <==> id in s.tasks) && (id in q.callers <==> id in s.callers)
            && (id in s.tasks ==> q.tasks[id] == s.tasks[id]) && (id in s.callers ==> q.callers[id] == s.callers[id])
  {
  }

  lemma CloseTellsTruth(s: System, e: Event, id: TaskId)
    requires Enabled(s, e) && CloseEvent(e) && TellsTruth(s, id) && (id in s.tasks ==> TaskInvariant(s, id))
    ensures TellsTruth(CloseStep(s, e), id)
  {
  }

  lemma RunnerWithdrawsNothing(s: System, e: Event)
    requires Enabled(s, e) && RunnerEvent(e) && RunnerReady(s, e)
    ensures var q, id := RunnerStep(s, e), TaskOf(s, e);
            && (q.tasks[id].error != s.tasks[id].error ==> q.tasks[id].error.Some? && !q.tasks[id].error.value.TimedOut?)
            && (Withdrawn(s, id) <==> Withdrawn(q, id))
  {
  }

  lemma RunnerTellsTruth(s: System, e: Event, id: TaskId)
    requires Invariant(s) && Enabled(s, e) && RunnerEvent(e) && TellsTruth(s, id)
    ensures TellsTruth(RunnerStep(s, e), id)
  {
    RunnerIsReady(s, e);
    RunnerWithdrawsNothing(s, e);
  }

  lemma CallerTellsTruth(s: System, e: Event, id: TaskId)
    requires Enabled(s, e) && CallerEvent(e) && TellsTruth(s, id) && (id in s.tasks ==> TaskInvariant(s, id))
    ensures TellsTruth(CallerStep(s, e), id)
  {
    if e.id == id {
      OwnStepTellsTruth(s, e);
    } else {
      OthersAreLeftAlone(s, e, id);
    }
  }

  lemma StepTellsTruth(s: System, e: Event, id: TaskId)
    requires Invariant(s) && Enabled(s, e) && TellsTruth(s, id)
    ensures TellsTruth(Step(s, e), id)
  {
    assert id in s.tasks ==> TaskInvariant(s, id);
    if RunnerEvent(e) {
      RunnerTellsTruth(s, e, id);
    } else if CloseEvent(e) {
      CloseTellsTruth(s, e, id);
    } else {
      CallerTellsTruth(s, e, id);
    }
  }

  lemma {:induction false} RunTellsTruth(s: System, events: seq<Event>, id: TaskId)
    requires Invariant(s) && Possible(s, events) && TellsTruth(s, id)
    ensures TellsTruth(Run(s, events), id)
    decreases |events|
  {
    if events == [] {
    } else {
      StepTellsTruth(s, events[0], id);
      StepKeepsInvariant(s, events[0]);
      RunTellsTruth(Step(s, events[0]), events[1..], id);
    }
  }

  /** In every run, a caller that timed out is told that the outcome is unknown unless it has
      itself withdrawn the task before it began. */
  lemma TimeoutTellsTheTruth(maxPending: nat, events: seq<Event>, id: TaskId)
    requires Possible(Initial(maxPending), events)
    requires var s := Run(Initial(maxPending), events); id in s.callers && s.callers[id].Raised? && s.callers[id].failure.TimedOut?
    ensures var s := Run(Initial(maxPending), events);
            s.callers[id].failure.completionUnknown <==> CancelerOf(Initial(maxPending), events, id) != Some(ByCaller)
  {
    InitialInvariant(maxPending);
    RunTellsTruth(Initial(maxPending), events, id);
    ErrorNamesCanceler(Initial(maxPending), events, id);
  }

  // ---------- the function's error ----------

  /** The errors that the function of task `id` raised, over a run. */
  function ErrorsRaised(s: System, events: seq<Event>, id: TaskId): seq<int>
    requires Possible(s, events)
    decreases |events|
  {
    if events == [] then []
    else ErrorTaken(s, events[0], id) + ErrorsRaised(Step(s, events[0]), events[1..], id)
  }

  function ErrorTaken(s: System, e: Event, id: TaskId): seq<int>
    requires Enabled(s, e)
  {
    if e.FunctionRaises? && s.runners[e.runner].task == id then [e.error] else []
  }

  function ErrorSoFar(s: System, id: TaskId): seq<int> {
    if id in s.tasks && s.tasks[id].error.Some? && s.tasks[id].error.value.FunctionRaised? then [s.tasks[id].error.value.error] else []
  }

  lemma OthersRaiseNothing(s: System, e: Event, id: TaskId)
    requires Enabled(s, e) && !RunnerEvent(e) && (id in s.tasks ==> TaskFits(s.tasks[id]))
    ensures ErrorSoFar(Step(s, e), id) == ErrorSoFar(s, id)
  {
  }

  lemma RunnerTakesError(s: System, e: Event)
    requires Enabled(s, e) && RunnerEvent(e) && RunnerReady(s, e)
    ensures ErrorSoFar(RunnerStep(s, e), TaskOf(s, e)) == ErrorSoFar(s, TaskOf(s, e)) + ErrorTaken(s, e, TaskOf(s, e))
  {
  }

  lemma RunnerRecordsError(s: System, e: Event, id: TaskId)
    requires Invariant(s) && Enabled(s, e) && RunnerEvent(e)
    ensures ErrorSoFar(RunnerStep(s, e), id) == ErrorSoFar(s, id) + ErrorTaken(s, e, id)
  {
    RunnerIsReady(s, e);
    RunnerTakesError(s, e);
  }

  lemma StepRecordsError(s: System, e: Event, id: TaskId)
    requires Invariant(s) && Enabled(s, e)
    ensures ErrorSoFar(Step(s, e), id) == ErrorSoFar(s, id) + ErrorTaken(s, e, id)
  {
    assert id in s.tasks ==> TaskInvariant(s, id);
    if RunnerEvent(e) {
      RunnerRecordsError(s, e, id);
    } else {
      OthersRaiseNothing(s, e, id);
    }
  }

  lemma {:induction false} ErrorsAreReported(s: System, events: seq<Event>, id: TaskId)
    requires Invariant(s) && Possible(s, events)
    ensures ErrorSoFar(Run(s, events), id) == ErrorSoFar(s, id) + ErrorsRaised(s, events, id)
    decreases |events|
  {
    if events == [] {
    } else {
      StepRecordsError(s, events[0], id);
      StepKeepsInvariant(s, events[0]);
      ErrorsAreReported(Step(s, events[0]), events[1..], id);
    }
  }

  /** When a call raises an error of its function, the function was started exactly once and
      raised exactly this error. */
  lemma FunctionErrorIsTheOneRaised(maxPending: nat, events: seq<Event>, id: TaskId)
    requires Possible(Initial(maxPending), events)
    requires var s := Run(Initial(maxPending), events); id in s.callers && s.callers[id].Raised? && s.callers[id].failure.FunctionRaised?
    ensures var s := Run(Initial(maxPending), events);
            && ErrorsRaised(Initial(maxPending), events, id) == [s.callers[id].failure.error]
            && StartCount(Initial(maxPending), events, id) == 1
  {
    var s := Run(Initial(maxPending), events);
    InitialInvariant(maxPending);
    ReachableInvariant(maxPending, events);
    CallersHaveTasks(maxPending, events, id);
    assert TaskInvariant(s, id);
    StartsAreCounted(Initial(maxPending), events, id);
    ErrorsAreReported(Initial(maxPending), events, id);
  }

  // ---------- exactly which tasks take up capacity ----------

  /** The caller was told that its task was not scheduled or is withdrawn. */
  predicate GivenUp(s: System, id: TaskId) {
    id in s.callers && (s.callers[id] == Raised(Unschedulable) || s.callers[id] == Raised(TimedOut(false)))
  }

  predicate Counted(s: System, id: TaskId) {
    id in s.registered <==> id in s.tasks && !GivenUp(s, id) && !Disowned(s, id)
  }

  lemma NobodyRanUnknown(s: System, id: TaskId)
    requires Invariant(s) && id !in s.tasks
    ensures !Disowned(s, id)
  {
    forall r | r in s.runners
      ensures s.runners[r] != Gone(id)
    {
      assert RunnerInvariant(s, r);
    }
  }

  lemma NobodyRanUnhanded(s: System, id: TaskId)
    requires Invariant(s) && id !in s.handed
    ensures !Disowned(s, id)
  {
    forall r | r in s.runners
      ensures s.runners[r] != Gone(id)
    {
      assert RunnerInvariant(s, r);
    }
  }

  /** `gone` says whether a run of the wrapper has left. */
  predicate CountedBut(s: System, id: TaskId, gone: bool) {
    id in s.registered <==> id in s.tasks && !GivenUp(s, id) && !gone
  }

  lemma SchedulingIsCounted(s: System, e: Event, gone: bool)
    requires Enabled(s, e) && SchedulingEvent(e) && CountedBut(s, e.id, gone)
    requires e.id in s.callers ==> e.id in s.tasks
    requires e.id !in s.tasks || e.id !in s.handed ==> !gone
    ensures CountedBut(CallerStep(s, e), e.id, gone)
  {
  }

  lemma WaitingIsCounted(s: System, e: Event, gone: bool)
    requires Enabled(s, e) && CallerEvent(e) && !SchedulingEvent(e) && CountedBut(s, e.id, gone) && TellsTruth(s, e.id)
    requires e.id in s.tasks && TaskInvariant(s, e.id)
    ensures CountedBut(CallerStep(s, e), e.id, gone)
  {
  }

  lemma OwnStepIsCounted(s: System, e: Event, gone: bool)
    requires Enabled(s, e) && CallerEvent(e) && CountedBut(s, e.id, gone) && TellsTruth(s, e.id)
    requires e.id in s.tasks ==> TaskInvariant(s, e.id)
    requires e.id !in s.tasks || e.id !in s.handed ==> !gone
    ensures CountedBut(CallerStep(s, e), e.id, gone)
  {
    if SchedulingEvent(e) {
      SchedulingIsCounted(s, e, gone);
    } else {
      WaitingIsCounted(s, e, gone);
    }
  }

  lemma CallerStepIsCounted(s: System, e: Event, id: TaskId)
    requires Enabled(s, e) && CallerEvent(e) && Counted(s, id) && TellsTruth(s, id) && (id in s.tasks ==> TaskInvariant(s, id))
    requires id !in s.tasks || id !in s.handed ==> !Disowned(s, id)
    ensures Counted(CallerStep(s, e), id)
  {
    var q := CallerStep(s, e);
    assert q.runners == s.runners;
    SameRunnersSameDisowned(s, q, id);
    if e.id == id {
      OwnStepIsCounted(s, e, Disowned(s, id));
    } else {
      OthersAreLeftAlone(s, e, id);
    }
  }

  lemma CloseStepIsCounted(s: System, e: Event, id: TaskId)
    requires Enabled(s, e) && CloseEvent(e) && Counted(s, id)
    ensures Counted(CloseStep(s, e), id)
  {
    SameRunnersSameDisowned(s, CloseStep(s, e), id);
  }

  lemma RunnerStepIsCounted(s: System, e: Event, id: TaskId)
    requires Invariant(s) && Enabled(s, e) && RunnerEvent(e) && Counted(s, id)
    ensures Counted(RunnerStep(s, e), id)
  {
    var q := RunnerStep(s, e);
    RunnerIsReady(s, e);
    RunnerMarksItsTask(s, e);
    OnlyTouchesKeepsDisowned(s, q, TaskOf(s, e), e.runner, id);
  }

  lemma StepIsCounted(s: System, e: Event, id: TaskId)
    requires Invariant(s) && Enabled(s, e) && Counted(s, id) && TellsTruth(s, id)
    ensures Counted(Step(s, e), id)
  {
    if RunnerEvent(e) {
      RunnerStepIsCounted(s, e, id);
    } else if CloseEvent(e) {
      CloseStepIsCounted(s, e, id);
    } else {
      if id !in s.tasks {
        NobodyRanUnknown(s, id);
      }
      if id !in s.handed {
        NobodyRanUnhanded(s, id);
      }
      CallerStepIsCounted(s, e, id);
    }
  }

  lemma {:induction false} RunIsCounted(s: System, events: seq<Event>, id: TaskId)
    requires Invariant(s) && Possible(s, events) && Counted(s, id) && TellsTruth(s, id)
    ensures Counted(Run(s, events), id)
    decreases |events|
  {
    if events == [] {
    } else {
      StepIsCounted(s, events[0], id);
      StepTellsTruth(s, events[0], id);
      StepKeepsInvariant(s, events[0]);
      RunIsCounted(Step(s, events[0]), events[1..], id);
    }
  }

  /** In every reachable state a task takes up capacity if and only if it was admitted, its
      caller has not been told that it was not scheduled or is withdrawn, and no run of its
      wrapper has left. */
  lemma CapacityIsExact(maxPending: nat, events: seq<Event>, id: TaskId)
    requires Possible(Initial(maxPending), events)
    ensures var s := Run(Initial(maxPending), events);
            id in s.registered <==> id in s.tasks && !GivenUp(s, id) && !Disowned(s, id)
  {
    InitialInvariant(maxPending);
    RunIsCounted(Initial(maxPending), events, id);
  }
}
