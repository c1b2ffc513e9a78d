/** The delivery loop as the request handler runs it, one round after each wait. */
module SseObject {
  import opened Common
  import opened Events
  import EventsObject
  import SecurityObject
  import opened Sse

  /** The handler's own next step. */
  function OwnStep(phase: Phase): Event
    requires !phase.Waiting? && !phase.Ended?
  {
    match phase
    case Got(_, _) => Proceed
    case Recovering(_) => Recover
    case Reconnecting => Recover
    case Resetting(_) => WriteReset
    case Delivering(items, _) => if items == [] then FinishBatch else WriteItem
    case Idling => WriteKeepAlive
  }

  function Left(phase: Phase): nat {
    match phase
    case Got(items, _) => |items| + 5
    case Recovering(items) => |items| + 4
    case Reconnecting => 5
    case Resetting(rest) => if rest.Some? then |rest.value| + 3 else 3
    case Delivering(items, _) => |items| + 2
    case Idling => 1
    case _ => 0
  }

  /** The handler goes on, with nobody else at work, until it waits again or ends. */
  function FinishRound(s: Stream): (r: Stream)
    ensures r.phase.Waiting? || r.phase.Ended?
    decreases Left(s.phase)
  {
    if s.phase.Waiting? || s.phase.Ended? then s else FinishRound(ReaderStep(s, OwnStep(s.phase)))
  }

  class SseHandler {
    const events: EventsObject.EventBuffer
    const security: SecurityObject.SecurityState
    const kinds: set<Kind>
    var lastId: int
    var written: seq<Message>

    constructor (events: EventsObject.EventBuffer, security: SecurityObject.SecurityState, kinds: set<Kind>, lastId: int)
      ensures this.events == events && this.security == security && this.kinds == kinds
      ensures this.lastId == lastId && written == []
    {
      this.events, this.security, this.kinds, this.lastId, written := events, security, kinds, lastId, [];
    }

    ghost function View(phase: Phase, log: seq<Item>): Stream
      reads this, events, security
    {
      Stream(events.State(), log, security.flags.Restricted(), kinds, lastId, phase, written)
    }

    /** The check that precedes every message; `instance` is the one the message names. */
    method MayWrite(instance: Instance) returns (may: bool)
      ensures may <==> !security.flags.Restricted() && IsCurrent(events.State(), instance)
    {
      may := !security.flags.Restricted() && !events.closed && events.enabled && instance == events.instance;
    }

    method WriteReset(ghost rest: Option<seq<Item>>, ghost log: seq<Item>) returns (ok: bool)
      modifies `written
      ensures View(if ok then (if rest.None? then Waiting else Deliver(rest.value)) else Ended, log)
           == ReaderStep(old(View(Resetting(rest), log)), Event.WriteReset)
    {
      ok := MayWrite(events.instance);
      if ok {
        written := written + [ResetSent(events.instance, lastId)];
      }
    }

    /** The request's first message if its Last-Event-ID names another instance. */
    method Reconnect(ghost log: seq<Item>) returns (goOn: bool)
      modifies `lastId, `written
      ensures View(if goOn then Waiting else Ended, log) == FinishRound(old(View(Reconnecting, log)))
    {
      ghost var start := View(Reconnecting, log);
      lastId := events.RecoveryCursor(0);
      assert FinishRound(start) == FinishRound(View(Resetting(None), log));
      goOn := WriteReset(None, log);
      assert FinishRound(View(if goOn then Waiting else Ended, log)) == View(if goOn then Waiting else Ended, log);
    }

    /** The loop over one batch. */
    method DeliverItems(items: seq<Item>, ghost log: seq<Item>) returns (goOn: bool)
      modifies `lastId, `written
      ensures !goOn ==> View(Ended, log) == FinishRound(old(View(Deliver(items), log)))
      ensures goOn ==> FinishRound(View(Delivering([], items != []), log)) == FinishRound(old(View(Deliver(items), log)))
    {
      var i := 0;
      while i < |items|
        invariant 0 <= i <= |items|
        invariant FinishRound(View(Delivering(items[i..], items != []), log)) == FinishRound(old(View(Deliver(items), log)))
      {
        assert items[i..][1..] == items[i + 1..];
        var may := MayWrite(items[i].instance);
        if !may {
          return false;
        }
        written := written + [ItemSent(items[i])];
        lastId := items[i].id;
        i := i + 1;
      }
      return true;
    }

    /** What follows a wait that was not cut off; `goOn` says whether to wait again. */
    method ServeRound(items: seq<Item>, gap: bool, ghost log: seq<Item>) returns (goOn: bool)
      modifies `lastId, `written
      ensures View(if goOn then Waiting else Ended, log) == FinishRound(old(View(Got(items, gap), log)))
    {
      ghost var start := View(Got(items, gap), log);
      if security.flags.Restricted() {
        assert FinishRound(View(Ended, log)) == View(Ended, log);
        return false;
      }
      if gap {
        assert FinishRound(start) == FinishRound(View(Recovering(items), log));
        lastId := events.RecoveryCursor(lastId);
        assert FinishRound(start) == FinishRound(View(Resetting(Some(items)), log));
        goOn := WriteReset(Some(items), log);
        assert FinishRound(start) == FinishRound(View(if goOn then Deliver(items) else Ended, log));
        if !goOn {
          return;
        }
      }
      assert FinishRound(start) == FinishRound(View(Deliver(items), log));
      goOn := DeliverItems(items, log);
      if goOn {
        goOn := EndRound(items != [], log);
      }
    }

    /** A round without items still shows that the stream is alive. */
    method EndRound(any: bool, ghost log: seq<Item>) returns (goOn: bool)
      modifies `written
      ensures View(if goOn then Waiting else Ended, log) == FinishRound(old(View(Delivering([], any), log)))
    {
      ghost var start := View(Delivering([], any), log);
      goOn := true;
      if !any {
        assert FinishRound(start) == FinishRound(View(Idling, log));
        goOn := MayWrite(events.instance);
        if goOn {
          written := written + [KeepAliveSent];
        }
      }
      assert FinishRound(View(if goOn then Waiting else Ended, log)) == View(if goOn then Waiting else Ended, log);
    }
  }
}
