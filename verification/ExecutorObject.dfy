/** The executor's objects: each critical section of the protocol on a task and on the queue. */
module ExecutorObject {
  import opened Common
  import opened Executor

  /** What the function handed to the executor did. */
  datatype FunctionOutcome = Value(value: int) | Raise(error: int)

  /** A task; the ghost fields are the history that the protocol records. */
  class TaskCell {
    const deadline: Time
    var state: TaskState
    var result: Option<int>
    var error: Option<Failure>
    var done: bool
    var startedAt: Option<Time>
    ghost var starts: nat
    ghost var runner: Option<RunnerId>
    ghost var entrants: set<RunnerId>

    ghost function Contents(): Task
      reads this
    {
      Task(deadline, state, result, error, done, startedAt, None, starts, runner, entrants)
    }

    constructor (deadline: Time)
      ensures Contents() == NewTask(deadline)
    {
      this.deadline := deadline;
      state, result, error, done, startedAt := Pending, None, None, false, None;
      starts, runner, entrants := 0, None, {};
    }

    method CancelPending(reason: Failure) returns (canceled: bool)
      modifies this
      ensures (Contents(), canceled) == Executor.CancelPending(old(Contents()), reason)
      ensures canceled <==> old(state) == Pending
      ensures canceled ==> state == Canceled && error == Some(reason) && done && result == old(result) && starts == old(starts)
      ensures !canceled ==> Contents() == old(Contents())
    {
      if state != Pending {
        return false;
      }
      state := Canceled;
      error := Some(reason);
      done := true;
      return true;
    }

    /** The wrapper's first critical section; `started` says whether to call the function. */
    method Decide(now: Time, closing: bool, ghost r: RunnerId) returns (started: bool)
      modifies this
      ensures Contents() == (if old(state) != Pending then old(Contents()) else Executor.Decide(old(Contents()), now, closing, r))
      ensures started <==> old(state) == Pending && state == Running
    {
      if state != Pending {
        return false;
      }
      if closing || now >= deadline {
        state := Canceled;
        error := Some(ExpiredBeforeStart);
        done := true;
        return false;
      }
      state := Running;
      startedAt := Some(now);
      starts, runner := starts + 1, Some(r);
      return true;
    }

    /** What `call` returns or raises once the task is done. */
    method Collect() returns (r: Result<Option<int>, Failure>)
      requires done
      ensures Executor.Outcome(Contents()) == if r.Ok? then Returned(r.value) else Raised(r.error)
    {
      if error.Some? {
        return Err(error.value);
      }
      return Ok(result);
    }

    /** The wrapper with nobody else at work on the task: a pending task ends finished with
        what the function did, or canceled; any other task is left alone. */
    method RunAlone(now: Time, closing: bool, outcome: FunctionOutcome, ghost r: RunnerId)
      modifies this
      ensures old(state) != Pending ==> Contents() == old(Contents())
      ensures old(state) == Pending && (closing || now >= deadline) ==>
                state == Canceled && done && error == Some(ExpiredBeforeStart) && starts == old(starts)
      ensures old(state) == Pending && !closing && now < deadline ==>
                && state == Finished && done && starts == old(starts) + 1
                && result == (if outcome.Value? then Some(outcome.value) else old(result))
                && error == (if outcome.Raise? then Some(FunctionRaised(outcome.error)) else old(error))
    {
      var started := Decide(now, closing, r);
      if !started {
        return;
      }
      match outcome {
        case Value(v) => result := Some(v);
        case Raise(e) => error := Some(FunctionRaised(e));
      }
      state := Finished;
      done := true;
    }
  }

  datatype AdmitError = Closing | QueueFull

  class MainThreadExecutor {
    const maxPending: nat
    var closing: bool
    var nextId: TaskId
    var tasks: map<TaskId, TaskCell>

    ghost predicate Valid()
      reads this
    {
      && |tasks| <= maxPending
      && (forall id :: id in tasks ==> id < nextId)
      && (forall a, b :: a in tasks && b in tasks && a != b ==> tasks[a] != tasks[b])
    }

    constructor (maxPending: nat)
      ensures Valid() && !closing && tasks == map[] && this.maxPending == maxPending
    {
      this.maxPending := maxPending;
      closing, nextId, tasks := false, 1, map[];
    }

    /** The first critical section of `call`; the answer is refused exactly when the protocol has no such step. */
    method Admit(deadline: Time) returns (r: Result<(TaskId, TaskCell), AdmitError>)
      requires Valid()
      modifies this
      ensures Valid() && closing == old(closing)
      ensures r.Err? && r.error == AdmitError.Closing <==> old(closing)
      ensures r.Err? && r.error == QueueFull <==> !old(closing) && |old(tasks)| >= maxPending
      ensures r.Err? ==> tasks == old(tasks) && nextId == old(nextId)
      ensures r.Ok? ==>
                && r.value.0 == old(nextId) && r.value.0 !in old(tasks) && nextId == old(nextId) + 1
                && fresh(r.value.1) && r.value.1.Contents() == NewTask(deadline)
                && tasks == old(tasks)[r.value.0 := r.value.1]
    {
      if closing {
        return Err(AdmitError.Closing);
      }
      if |tasks| >= maxPending {
        return Err(QueueFull);
      }
      var cell := new TaskCell(deadline);
      var id := nextId;
      nextId := nextId + 1;
      tasks := tasks[id := cell];
      return Ok((id, cell));
    }

    method Unregister(id: TaskId)
      requires Valid()
      modifies this
      ensures Valid() && closing == old(closing) && nextId == old(nextId)
      ensures tasks == old(tasks) - {id}
    {
      SubsetSize((tasks - {id}).Keys, tasks.Keys);
      tasks := tasks - {id};
    }

    /** What `call` does when its wait times out: the task is withdrawn if it is still pending,
        and the answer says whether its function may have run. */
    method GiveUp(id: TaskId, cell: TaskCell) returns (failure: Failure)
      requires Valid()
      modifies this, cell
      ensures Valid() && closing == old(closing) && nextId == old(nextId)
      ensures var canceled := Executor.CancelPending(old(cell.Contents()), TimedOut(false));
              && cell.Contents() == canceled.0
              && failure == TimedOut(!canceled.1)
              && tasks == if canceled.1 then old(tasks) - {id} else old(tasks)
    {
      var canceled := cell.CancelPending(TimedOut(false));
      if canceled {
        Unregister(id);
      }
      return TimedOut(!canceled);
    }

    /** The first call cancels every registered task that is still pending; a later call does nothing. */
    method Close()
      requires Valid()
      modifies this, tasks.Values
      ensures Valid() && closing && tasks == old(tasks) && nextId == old(nextId)
      ensures forall id :: id in tasks ==>
                tasks[id].Contents() == if old(closing) then old(tasks[id].Contents())
                                        else Executor.CancelPending(old(tasks[id].Contents()), ShuttingDown).0
      ensures forall id :: id in tasks && !old(closing) && old(tasks[id].state) == Pending ==>
                tasks[id].state == Canceled && tasks[id].error == Some(ShuttingDown) && tasks[id].done
    {
      if closing {
        return;
      }
      closing := true;
      CancelAll(tasks.Values, ShuttingDown);
    }
  }

  method CancelAll(cells: set<TaskCell>, reason: Failure)
    modifies cells
    ensures forall cell :: cell in cells ==> cell.Contents() == Executor.CancelPending(old(cell.Contents()), reason).0
  {
    var left := cells;
    while left != {}
      invariant left <= cells
      invariant forall cell :: cell in left ==> cell.Contents() == old(cell.Contents())
      invariant forall cell :: cell in cells && cell !in left ==>
                  cell.Contents() == Executor.CancelPending(old(cell.Contents()), reason).0
      decreases |left|
    {
      var cell :| cell in left;
      var _ := cell.CancelPending(reason);
      left := left - {cell};
    }
  }
}
