/** What `close` promises, and two schedules that show where its promises stop. */
module ExecutorShutdown {
  import opened Common
  import opened Executor
  import opened ExecutorRuns

  // ---------- nothing starts after close has returned ----------

  lemma ClosedStepStartsNothing(s: System, e: Event, id: TaskId)
    requires Invariant(s) && Enabled(s, e) && s.closer.Closed?
    ensures !Starts(s, e, id) && Step(s, e).closer.Closed? && Step(s, e).tasks.Keys == s.tasks.Keys
  {
    if RunnerEvent(e) {
      RunnerIsReady(s, e);
      var task := TaskOf(s, e);
      assert s.tasks[task].state != Pending;
    }
  }

  /** Once `close` has returned, no function starts and no task is admitted. */
  lemma {:induction false} AfterCloseNothingStarts(s: System, later: seq<Event>, id: TaskId)
    requires Invariant(s) && s.closer.Closed? && Possible(s, later)
    ensures StartCount(s, later, id) == 0 && Run(s, later).tasks.Keys == s.tasks.Keys
    decreases |later|
  {
    if later == [] {
    } else {
      ClosedStepStartsNothing(s, later[0], id);
      StepKeepsInvariant(s, later[0]);
      AfterCloseNothingStarts(Step(s, later[0]), later[1..], id);
    }
  }

  // ---------- which of the pending tasks close cancels ----------

  /** A wrapper run holds the task's lock, has read that the executor was open, and is in time. */
  predicate AboutToStart(s: System, id: TaskId)
    requires id in s.tasks
  {
    var task := s.tasks[id];
    && task.lockedBy.Some? && task.lockedBy.value in s.runners
    && var runner := s.runners[task.lockedBy.value];
    && runner.Looked? && runner.task == id && !runner.sawClosing && runner.now < task.deadline
  }

  predicate Doomed(s: System, id: TaskId) {
    && id in s.tasks && s.closing
    && (s.tasks[id].state == Canceled
        || (s.tasks[id].state == Pending && s.closer.Closing? && id in s.closer.left && !AboutToStart(s, id)))
  }

  predicate Committed(s: System, id: TaskId) {
    id in s.tasks && (s.tasks[id].starts == 1 || (s.tasks[id].state == Pending && id in s.handed && AboutToStart(s, id)))
  }

  lemma OthersKeepFate(s: System, e: Event, id: TaskId)
    requires Enabled(s, e) && !RunnerEvent(e)
    ensures Doomed(s, id) ==> Doomed(Step(s, e), id)
    ensures Committed(s, id) ==> Committed(Step(s, e), id)
  {
  }

  lemma RunnerKeepsItsDoom(s: System, e: Event)
    requires Enabled(s, e) && RunnerEvent(e) && RunnerReady(s, e) && Doomed(s, TaskOf(s, e))
    ensures Doomed(RunnerStep(s, e), TaskOf(s, e))
  {
  }

  lemma RunnerKeepsItsCommitment(s: System, e: Event)
    requires Enabled(s, e) && RunnerEvent(e) && RunnerReady(s, e) && Committed(s, TaskOf(s, e))
    ensures Committed(RunnerStep(s, e), TaskOf(s, e))
  {
  }

  lemma RunnerKeepsOtherFate(s: System, q: System, id: TaskId, r: RunnerId, other: TaskId)
    requires OnlyTouches(s, q, id, r) && other != id && (r in s.runners ==> s.runners[r].task == id) && q.runners[r].task == id
    ensures Doomed(s, other) ==> Doomed(q, other)
    ensures Committed(s, other) ==> Committed(q, other)
  {
  }

  lemma StepKeepsFate(s: System, e: Event, id: TaskId)
    requires Invariant(s) && Enabled(s, e)
    ensures Doomed(s, id) ==> Doomed(Step(s, e), id)
    ensures Committed(s, id) ==> Committed(Step(s, e), id)
  {
    if RunnerEvent(e) {
      RunnerIsReady(s, e);
      RunnerMarksItsTask(s, e);
      if TaskOf(s, e) != id {
        RunnerKeepsOtherFate(s, RunnerStep(s, e), TaskOf(s, e), e.runner, id);
      } else {
        if Doomed(s, id) {
          RunnerKeepsItsDoom(s, e);
        }
        if Committed(s, id) {
          RunnerKeepsItsCommitment(s, e);
        }
      }
    } else {
      OthersKeepFate(s, e, id);
    }
  }

  lemma {:induction false} RunKeepsFate(s: System, events: seq<Event>, id: TaskId)
    requires Invariant(s) && Possible(s, events)
    ensures Doomed(s, id) ==> Doomed(Run(s, events), id)
    ensures Committed(s, id) ==> Committed(Run(s, events), id)
    decreases |events|
  {
    if events == [] {
    } else {
      StepKeepsFate(s, events[0], id);
      StepKeepsInvariant(s, events[0]);
      RunKeepsFate(Step(s, events[0]), events[1..], id);
    }
  }

  /** A task that was waiting when `close` began is canceled when `close` returns, unless its
      wrapper had by then looked at the closing flag: then its function runs, once. */
  lemma CloseCancelsUnlessAboutToStart(maxPending: nat, events: seq<Event>, later: seq<Event>, id: TaskId)
    requires Possible(Initial(maxPending), events)
    requires var s := Run(Initial(maxPending), events);
             && s.closer.Open? && id in s.registered && id in s.tasks && s.tasks[id].state == Pending
             && Possible(Step(s, BeginClose), later) && Run(Step(s, BeginClose), later).closer.Closed?
    ensures var s := Run(Initial(maxPending), events);
            var q := Run(Step(s, BeginClose), later);
            && id in q.tasks
            && (q.tasks[id].state == Canceled <==> !AboutToStart(s, id))
            && (q.tasks[id].starts == 1 <==> AboutToStart(s, id))
  {
    var s := Run(Initial(maxPending), events);
    var c := Step(s, BeginClose);
    var q := Run(c, later);
    ReachableInvariant(maxPending, events);
    assert TaskInvariant(s, id);
    StepKeepsInvariant(s, BeginClose);
    assert AboutToStart(c, id) == AboutToStart(s, id);
    assert Doomed(c, id) || Committed(c, id);
    RunKeepsFate(c, later, id);
    RunKeepsInvariant(c, later);
    assert TaskInvariant(q, id);
  }

  // ---------- two schedules ----------

  lemma StepThenRun(s: System, e: Event, rest: seq<Event>)
    requires Enabled(s, e) && Possible(Step(s, e), rest)
    ensures Possible(s, [e] + rest) && Run(s, [e] + rest) == Run(Step(s, e), rest)
  {
    assert ([e] + rest)[1..] == rest;
  }

  /** Whenever a wrapper is about to start its function, `close` may begin first, and the
      function then starts while `close` is under way. */
  lemma FunctionCanStartDuringClose(s: System, id: TaskId)
    requires Invariant(s) && s.closer.Open? && id in s.tasks && AboutToStart(s, id)
    ensures var c, start := Step(s, BeginClose), DecideStart(s.tasks[id].lockedBy.value);
            c.closing && c.closer.Closing? && Enabled(c, start) && Starts(c, start, id)
  {
    assert TaskInvariant(s, id);
  }

  /** A second run of a wrapper, from its beginning to its end. */
  function SecondWrapper(r: RunnerId, id: TaskId, now: Time): seq<Event> {
    [Enter(r, id)] + ([Lock(r, now)] + ([Leave(r)] + []))
  }

  lemma SecondWrapperEnters(s: System, r: RunnerId, id: TaskId)
    requires Invariant(s) && id in s.tasks && s.tasks[id].state == Running && r !in s.runners
    ensures Enabled(s, Enter(r, id))
    ensures Step(s, Enter(r, id))
         == WithRunner(WithTask(s, id, s.tasks[id].(entrants := s.tasks[id].entrants + {r})), r, Entered(id))
    ensures s.tasks[id].lockedBy.None?
  {
    assert TaskInvariant(s, id);
  }

  lemma SecondWrapperLeaves(s: System, r: RunnerId, id: TaskId, now: Time)
    requires id in s.tasks && s.tasks[id].state == Running && s.tasks[id].lockedBy.None?
    requires r in s.runners && s.runners[r] == Entered(id)
    ensures Possible(s, [Lock(r, now)] + ([Leave(r)] + []))
    ensures Run(s, [Lock(r, now)] + ([Leave(r)] + []))
         == WithRunner(WithRunner(s, r, Leaving(id)), r, Gone(id)).(registered := s.registered - {id})
  {
    var left := WithRunner(s, r, Leaving(id));
    assert Enabled(s, Lock(r, now)) && Step(s, Lock(r, now)) == left;
    assert Enabled(left, Leave(r));
    StepThenRun(left, Leave(r), []);
    StepThenRun(s, Lock(r, now), [Leave(r)] + []);
  }

  /** Whenever a function is running, a scheduler that runs the wrapper again takes the task's
      registration away while the function goes on. */
  lemma RunningTaskCanBeUnregistered(s: System, r: RunnerId, id: TaskId, now: Time)
    requires Invariant(s) && id in s.tasks && s.tasks[id].state == Running && r !in s.runners
    ensures Possible(s, SecondWrapper(r, id, now))
    ensures var q := Run(s, SecondWrapper(r, id, now));
            id in q.tasks && q.tasks[id].state == Running && id !in q.registered
  {
    SecondWrapperEnters(s, r, id);
    SecondWrapperLeaves(Step(s, Enter(r, id)), r, id, now);
    StepThenRun(s, Enter(r, id), [Lock(r, now)] + ([Leave(r)] + []));
  }

  // ---------- such states are reached ----------

  /** One task, handed to the scheduler while its caller has not come back from it. */
  function HandedOver(deadline: Time, runner: Runner, lockedBy: Option<RunnerId>): System {
    System(1, false, {0},
           map[0 := NewTask(deadline).(lockedBy := lockedBy, entrants := {0})],
           map[0 := Scheduling], {0}, map[0 := runner], Open)
  }

  /** A wrapper that has begun takes the lock and reads the closing flag. */
  function WrapperLooks(): seq<Event> {
    [Lock(0, 0.0)] + ([Look(0)] + [])
  }

  function WrapperBeginsAndLooks(deadline: Time): seq<Event> {
    [Admit(0, deadline)] + ([Enqueue(0)] + ([Enter(0, 0)] + WrapperLooks()))
  }

  lemma WrapperHasLooked(deadline: Time)
    ensures var s := HandedOver(deadline, Entered(0), None);
            Possible(s, WrapperLooks()) && Run(s, WrapperLooks()) == HandedOver(deadline, Looked(0, 0.0, false), Some(0))
  {
    var s0 := HandedOver(deadline, Entered(0), None);
    var s1 := HandedOver(deadline, Locked(0, 0.0), Some(0));
    assert Enabled(s0, Lock(0, 0.0)) && Step(s0, Lock(0, 0.0)) == s1;
    assert Enabled(s1, Look(0)) && Step(s1, Look(0)) == HandedOver(deadline, Looked(0, 0.0, false), Some(0));
    StepThenRun(s1, Look(0), []);
    StepThenRun(s0, Lock(0, 0.0), [Look(0)] + []);
  }

  function Admitted(deadline: Time, handed: set<TaskId>): System {
    System(1, false, {0}, map[0 := NewTask(deadline)], map[0 := Scheduling], handed, map[], Open)
  }

  lemma TaskIsHandedOver(deadline: Time)
    ensures Enabled(Initial(1), Admit(0, deadline)) && Step(Initial(1), Admit(0, deadline)) == Admitted(deadline, {})
    ensures Enabled(Admitted(deadline, {}), Enqueue(0)) && Step(Admitted(deadline, {}), Enqueue(0)) == Admitted(deadline, {0})
  {
  }

  lemma WrapperBegins(deadline: Time)
    ensures Enabled(Admitted(deadline, {0}), Enter(0, 0))
    ensures Step(Admitted(deadline, {0}), Enter(0, 0)) == HandedOver(deadline, Entered(0), None)
  {
    var s, q := Admitted(deadline, {0}), Step(Admitted(deadline, {0}), Enter(0, 0));
    assert q == s.(tasks := q.tasks, runners := q.runners);
    assert q.runners == map[0 := Entered(0)];
    assert q.tasks == map[0 := NewTask(deadline).(entrants := {0})];
  }

  /** A run that leads to a wrapper about to start its function; its next step starts it. */
  lemma AboutToStartIsReached(deadline: Time)
    requires deadline > 0.0
    ensures Possible(Initial(1), WrapperBeginsAndLooks(deadline))
    ensures var s := Run(Initial(1), WrapperBeginsAndLooks(deadline));
            && s.closer.Open? && 0 in s.tasks && AboutToStart(s, 0)
            && Enabled(s, DecideStart(0)) && 0 in Step(s, DecideStart(0)).tasks
            && Step(s, DecideStart(0)).tasks[0].state == Running
  {
    TaskIsHandedOver(deadline);
    WrapperBegins(deadline);
    WrapperHasLooked(deadline);
    StepThenRun(Admitted(deadline, {0}), Enter(0, 0), WrapperLooks());
    StepThenRun(Admitted(deadline, {}), Enqueue(0), [Enter(0, 0)] + WrapperLooks());
    StepThenRun(Initial(1), Admit(0, deadline), [Enqueue(0)] + ([Enter(0, 0)] + WrapperLooks()));
  }
}
