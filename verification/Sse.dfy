/**
 One server-sent-event stream reading the event buffer while other threads append to it,
 clear it, suspend it, rotate its instance or change the security state. A step is one
 critical section of the buffer or one write to the socket with the checks before it.
 */
module Sse {
  import opened Common
  import opened Events

  datatype Message =
    | ItemSent(item: Item)
    | ResetSent(instance: Instance, cursor: int)
    | KeepAliveSent

  /** Where the delivery loop is. */
  datatype Phase =
    | Reconnecting
    | Waiting
    | Got(items: seq<Item>, gap: bool)
    | Recovering(items: seq<Item>)
    | Resetting(rest: Option<seq<Item>>)
    | Delivering(items: seq<Item>, any: bool)
    | Idling
    | Ended

  /** `log` records everything appended in the buffer's current instance. */
  datatype Stream = Stream(
    buffer: Buffer,
    log: seq<Item>,
    restricted: bool,
    kinds: set<Kind>,
    last: int,
    phase: Phase,
    written: seq<Message>
  )

  /** What the Last-Event-ID header asks for. */
  datatype Resume = FromCursor(cursor: int) | InstanceChanged

  const SSE_BATCH: int := 100

  function Connected(buffer: Buffer, log: seq<Item>, restricted: bool, kinds: set<Kind>, resume: Resume): Stream {
    match resume
    case FromCursor(cursor) => Stream(buffer, log, restricted, kinds, cursor, Waiting, [])
    case InstanceChanged => Stream(buffer, log, restricted, kinds, 0, Reconnecting, [])
  }

  datatype Event =
    | Append(kind: Kind, data: Data)
    | Clear
    | Suspend(enabled: bool, clear: bool)
    | Rotate(enabled: bool, instance: Instance)
    | CloseBuffer
    | SetRestricted(restricted: bool)
    | Disconnect
    | Read
    | WaitTimesOut
    | Proceed
    | Recover
    | WriteReset
    | WriteItem
    | FinishBatch
    | WriteKeepAlive

  predicate OfReader(e: Event) {
    e.Disconnect? || e.Read? || e.WaitTimesOut? || e.Proceed? || e.Recover? || e.WriteReset? || e.WriteItem? || e.FinishBatch?
    || e.WriteKeepAlive?
  }

  function ReadNow(s: Stream): (seq<Item>, bool) {
    ReadAfter(s.buffer, s.last, s.kinds, SSE_BATCH)
  }

  predicate Enabled(s: Stream, e: Event) {
    match e
    case Append(_, _) => true
    case Clear => true
    case Suspend(_, _) => true
    case Rotate(_, instance) => instance > s.buffer.instance
    case CloseBuffer => true
    case SetRestricted(_) => true
    case Disconnect => true
    case Read => s.phase.Waiting?
    case WaitTimesOut => s.phase.Waiting? && Accepts(s.buffer) && ReadNow(s) == ([], false)
    case Proceed => s.phase.Got?
    case Recover => s.phase.Recovering? || s.phase.Reconnecting?
    case WriteReset => s.phase.Resetting?
    case WriteItem => s.phase.Delivering? && s.phase.items != []
    case FinishBatch => s.phase.Delivering? && s.phase.items == []
    case WriteKeepAlive => s.phase.Idling?
  }

  function Deliver(items: seq<Item>): Phase {
    Delivering(items, items != [])
  }

  function BufferStep(s: Stream, e: Event): Stream
    requires Enabled(s, e) && !OfReader(e)
  {
    match e
    case Append(kind, data) =>
      s.(buffer := Events.Append(s.buffer, kind, data),
         log := if Accepts(s.buffer) then s.log + [NewItem(s.buffer, kind, data)] else s.log)
    case Clear => s.(buffer := Events.Clear(s.buffer))
    case Suspend(enabled, clear) => s.(buffer := SetEnabled(s.buffer, enabled, clear, None))
    case Rotate(enabled, instance) => s.(buffer := SetEnabled(s.buffer, enabled, true, Some(instance)), log := [])
    case CloseBuffer => s.(buffer := Close(s.buffer))
    case SetRestricted(restricted) => s.(restricted := restricted)
  }

  function ReaderStep(s: Stream, e: Event): Stream
    requires Enabled(s, e) && OfReader(e)
  {
    match e
    case Disconnect => s.(phase := Ended)
    case Read =>
      if !Accepts(s.buffer) then s.(phase := Ended)
      else
        var (items, gap) := ReadNow(s);
        if items != [] || gap then s.(phase := Got(items, gap)) else s
    case WaitTimesOut => s.(phase := Got([], false))
    case Proceed =>
      if s.restricted then s.(phase := Ended)
      else s.(phase := if s.phase.gap then Recovering(s.phase.items) else Deliver(s.phase.items))
    case Recover =>
      if s.phase.Reconnecting? then s.(last := RecoveryCursor(s.buffer, 0), phase := Resetting(None))
      else s.(last := RecoveryCursor(s.buffer, s.last), phase := Resetting(Some(s.phase.items)))
    case WriteReset =>
      if s.restricted || !Accepts(s.buffer) then s.(phase := Ended)
      else
        s.(written := s.written + [ResetSent(s.buffer.instance, s.last)],
           phase := if s.phase.rest.None? then Waiting else Deliver(s.phase.rest.value))
    case WriteItem =>
      var item := s.phase.items[0];
      if s.restricted || !IsCurrent(s.buffer, item.instance) then s.(phase := Ended)
      else s.(written := s.written + [ItemSent(item)], last := item.id, phase := Delivering(s.phase.items[1..], true))
    case FinishBatch => s.(phase := if s.phase.any then Waiting else Idling)
    case WriteKeepAlive =>
      if s.restricted || !Accepts(s.buffer) then s.(phase := Ended)
      else s.(written := s.written + [KeepAliveSent], phase := Waiting)
  }

  function Step(s: Stream, e: Event): Stream
    requires Enabled(s, e)
  {
    if OfReader(e) then ReaderStep(s, e) else BufferStep(s, e)
  }

  predicate Possible(s: Stream, events: seq<Event>)
    decreases |events|
  {
    events == [] || (Enabled(s, events[0]) && Possible(Step(s, events[0]), events[1..]))
  }

  function Run(s: Stream, events: seq<Event>): Stream
    requires Possible(s, events)
    decreases |events|
  {
    if events == [] then s else Run(Step(s, events[0]), events[1..])
  }

  // ---------- what a reader of the stream can rely on ----------

  /** The id of the last item written, or `a`, and whether a reset was written after it. */
  function Mark(a: int, reset: bool, written: seq<Message>): (int, bool)
    decreases |written|
  {
    if written == [] then (a, reset)
    else
      match written[0]
      case ItemSent(item) => Mark(item.id, false, written[1..])
      case ResetSent(_, _) => Mark(a, true, written[1..])
      case KeepAliveSent => Mark(a, reset, written[1..])
  }

  /** After `a` every written item follows the one before it; a matching event of the log is
      left out between two of them only if a reset stands between them too, and no reset goes
      back before the last item. */
  ghost predicate NoSilentLoss(log: seq<Item>, kinds: set<Kind>, a: int, reset: bool, written: seq<Message>)
    decreases |written|
  {
    written == [] ||
    match written[0]
    case ItemSent(item) =>
      && a < item.id && (reset || NothingBetween(log, kinds, a, item.id))
      && NoSilentLoss(log, kinds, item.id, false, written[1..])
    case ResetSent(_, cursor) => a <= cursor && NoSilentLoss(log, kinds, a, true, written[1..])
    case KeepAliveSent => NoSilentLoss(log, kinds, a, reset, written[1..])
  }

  /** What a new message has to add to that. */
  ghost predicate Continues(log: seq<Item>, kinds: set<Kind>, mark: (int, bool), m: Message) {
    && (m.ItemSent? ==> mark.0 < m.item.id && (mark.1 || NothingBetween(log, kinds, mark.0, m.item.id)))
    && (m.ResetSent? ==> mark.0 <= m.cursor)
  }

  lemma {:induction false} OneMoreMessage(log: seq<Item>, kinds: set<Kind>, a: int, reset: bool, written: seq<Message>, m: Message)
    requires NoSilentLoss(log, kinds, a, reset, written) && Continues(log, kinds, Mark(a, reset, written), m)
    ensures NoSilentLoss(log, kinds, a, reset, written + [m])
    ensures Mark(a, reset, written + [m])
         == (match m
             case ItemSent(item) => (item.id, false)
             case ResetSent(_, _) => (Mark(a, reset, written).0, true)
             case KeepAliveSent => Mark(a, reset, written))
    decreases |written|
  {
    if written == [] {
      assert [m][1..] == [];
    } else {
      assert (written + [m])[1..] == written[1..] + [m];
      match written[0] {
        case ItemSent(item) => OneMoreMessage(log, kinds, item.id, false, written[1..], m);
        case ResetSent(_, _) => OneMoreMessage(log, kinds, a, true, written[1..], m);
        case KeepAliveSent => OneMoreMessage(log, kinds, a, reset, written[1..], m);
      }
    }
  }

  predicate WrittenUpTo(written: seq<Message>, n: nat) {
    forall i :: 0 <= i < |written| && written[i].ItemSent? ==> 1 <= written[i].item.id <= n
  }

  predicate ItemsUpTo(items: seq<Item>, n: nat) {
    forall i :: 0 <= i < |items| ==> 1 <= items[i].id <= n
  }

  lemma {:induction false} LossStaysReported(log: seq<Item>, item: Item, kinds: set<Kind>, a: int, reset: bool, written: seq<Message>)
    requires NoSilentLoss(log, kinds, a, reset, written) && WrittenUpTo(written, |log|) && item.id > |log|
    ensures NoSilentLoss(log + [item], kinds, a, reset, written)
    decreases |written|
  {
    if written == [] {
    } else {
      assert WrittenUpTo(written[1..], |log|) by {
        forall i | 0 <= i < |written| - 1 && written[1..][i].ItemSent?
          ensures 1 <= written[1..][i].item.id <= |log|
        {
          assert written[1..][i] == written[i + 1];
        }
      }
      match written[0] {
        case ItemSent(sent) => LossStaysReported(log, item, kinds, sent.id, false, written[1..]);
        case ResetSent(_, _) => LossStaysReported(log, item, kinds, a, true, written[1..]);
        case KeepAliveSent => LossStaysReported(log, item, kinds, a, reset, written[1..]);
      }
    }
  }

  lemma {:induction false} ConsecutiveStays(log: seq<Item>, item: Item, kinds: set<Kind>, a: int, items: seq<Item>)
    requires Consecutive(log, kinds, a, items) && ItemsUpTo(items, |log|) && item.id > |log|
    ensures Consecutive(log + [item], kinds, a, items)
    decreases |items|
  {
    if items == [] {
    } else {
      assert ItemsUpTo(items[1..], |log|) by {
        assert forall i :: 0 <= i < |items| - 1 ==> items[1..][i] == items[i + 1];
      }
      ConsecutiveStays(log, item, kinds, items[0].id, items[1..]);
    }
  }

  // ---------- the invariant ----------

  /** The cursor stands at the last item, unless a reset has been written since. */
  predicate CursorFits(s: Stream, mark: (int, bool)) {
    mark.0 <= s.last && (mark.1 || (s.last == mark.0 && s.last != 0))
  }

  ghost predicate BatchFits(s: Stream, mark: (int, bool), items: seq<Item>, gap: bool) {
    && ItemsUpTo(items, |s.log|)
    && Following(s.log, s.kinds, mark.0, items)
    && (!mark.1 && !gap ==> Consecutive(s.log, s.kinds, mark.0, items))
  }

  ghost predicate PhaseFits(s: Stream, mark: (int, bool)) {
    match s.phase
    case Reconnecting => mark.0 <= 0
    case Waiting => CursorFits(s, mark)
    case Got(items, gap) => CursorFits(s, mark) && BatchFits(s, mark, items, gap)
    case Recovering(items) => CursorFits(s, mark) && BatchFits(s, mark, items, true)
    case Resetting(rest) => mark.0 <= s.last && (rest.Some? ==> BatchFits(s, mark, rest.value, true))
    case Delivering(items, _) => CursorFits(s, mark) && BatchFits(s, mark, items, false)
    case Idling => CursorFits(s, mark)
    case Ended => true
  }

  ghost predicate Invariant(s: Stream, a: int, reset: bool) {
    && Retains(s.buffer, s.log)
    && NoSilentLoss(s.log, s.kinds, a, reset, s.written)
    && WrittenUpTo(s.written, |s.log|)
    && PhaseFits(s, Mark(a, reset, s.written))
  }

  lemma FollowingStays(log: seq<Item>, item: Item, kinds: set<Kind>, a: int, items: seq<Item>)
    requires Following(log, kinds, a, items) && ItemsUpTo(items, |log|) && item.id > |log|
    ensures Following(log + [item], kinds, a, items)
  {
    if items != [] {
      assert ItemsUpTo(items[1..], |log|) by {
        assert forall i :: 0 <= i < |items| - 1 ==> items[1..][i] == items[i + 1];
      }
      ConsecutiveStays(log, item, kinds, items[0].id, items[1..]);
    }
  }

  lemma LogGrows(s: Stream, kind: Kind, data: Data, a: int, reset: bool)
    requires Invariant(s, a, reset) && Accepts(s.buffer)
    ensures Invariant(BufferStep(s, Append(kind, data)), a, reset)
  {
    var item, mark := NewItem(s.buffer, kind, data), Mark(a, reset, s.written);
    AppendRetains(s.buffer, s.log, kind, data);
    LossStaysReported(s.log, item, s.kinds, a, reset, s.written);
    var items := if s.phase.Got? || s.phase.Recovering? || s.phase.Delivering? then s.phase.items
                 else if s.phase.Resetting? && s.phase.rest.Some? then s.phase.rest.value else [];
    if ItemsUpTo(items, |s.log|) {
      if Following(s.log, s.kinds, mark.0, items) {
        FollowingStays(s.log, item, s.kinds, mark.0, items);
      }
      if Consecutive(s.log, s.kinds, mark.0, items) {
        ConsecutiveStays(s.log, item, s.kinds, mark.0, items);
      }
    }
  }

  lemma BufferStepKeeps(s: Stream, e: Event, a: int, reset: bool)
    requires Invariant(s, a, reset) && Enabled(s, e) && !OfReader(e) && !e.Rotate?
    ensures Invariant(BufferStep(s, e), a, reset)
  {
    if e.Append? {
      if Accepts(s.buffer) {
        LogGrows(s, e.kind, e.data, a, reset);
      }
    } else if e.Suspend? {
      SetEnabledRetains(s.buffer, s.log, e.enabled, e.clear, None);
    } else {
      ClearRetains(s.buffer, s.log);
    }
  }

  lemma {:induction false} SelectedAreLogged(items: seq<Item>, last: int, kinds: set<Kind>, n: nat)
    requires ItemsUpTo(items, n)
    ensures ItemsUpTo(Select(items, last, kinds), n)
  {
    if items == [] {
    } else {
      SelectedAreLogged(items[1..], last, kinds, n);
    }
  }

  lemma ReadFits(s: Stream, mark: (int, bool))
    requires Retains(s.buffer, s.log) && CursorFits(s, mark)
    ensures BatchFits(s, mark, ReadNow(s).0, ReadNow(s).1)
  {
    var (items, gap) := ReadNow(s);
    ReadIsFollowing(s.buffer, s.log, s.kinds, s.last, SSE_BATCH);
    SelectedAreLogged(s.buffer.items, s.last, s.kinds, |s.log|);
    if !mark.1 && !gap && s.last > 0 {
      GaplessReadIsConsecutive(s.buffer, s.log, s.kinds, s.last, SSE_BATCH);
    }
  }

  lemma ItemWritten(s: Stream, a: int, reset: bool)
    requires Invariant(s, a, reset) && s.phase.Delivering? && s.phase.items != []
    ensures Invariant(ReaderStep(s, WriteItem), a, reset)
  {
    var mark, item := Mark(a, reset, s.written), s.phase.items[0];
    OneMoreMessage(s.log, s.kinds, a, reset, s.written, ItemSent(item));
  }

  lemma ReaderStepKeeps(s: Stream, e: Event, a: int, reset: bool)
    requires Invariant(s, a, reset) && Enabled(s, e) && OfReader(e)
    ensures Invariant(ReaderStep(s, e), a, reset)
  {
    var mark := Mark(a, reset, s.written);
    match e {
      case Read => ReadFits(s, mark);
      case WriteItem => ItemWritten(s, a, reset);
      case WriteReset => OneMoreMessage(s.log, s.kinds, a, reset, s.written, ResetSent(s.buffer.instance, s.last));
      case WriteKeepAlive => OneMoreMessage(s.log, s.kinds, a, reset, s.written, KeepAliveSent);
      case _ =>
    }
  }

  ghost predicate OneInstance(events: seq<Event>) {
    forall i :: 0 <= i < |events| ==> !events[i].Rotate?
  }

  lemma {:induction false} RunKeeps(s: Stream, events: seq<Event>, a: int, reset: bool)
    requires Invariant(s, a, reset) && Possible(s, events) && OneInstance(events)
    ensures Invariant(Run(s, events), a, reset)
    decreases |events|
  {
    if events == [] {
    } else {
      assert !events[0].Rotate?;
      if OfReader(events[0]) {
        ReaderStepKeeps(s, events[0], a, reset);
      } else {
        BufferStepKeeps(s, events[0], a, reset);
      }
      assert OneInstance(events[1..]) by {
        assert forall i :: 0 <= i < |events| - 1 ==> events[1..][i] == events[i + 1];
      }
      RunKeeps(Step(s, events[0]), events[1..], a, reset);
    }
  }

  /** Over every run within one buffer instance: item ids strictly increase, and a matching
      event is left out between two consecutive items only if a reset is written between them.
      The same holds between the cursor a client resumes from, unless it is 0, and the first item. */
  lemma NothingIsLostSilently(buffer: Buffer, log: seq<Item>, restricted: bool, kinds: set<Kind>, resume: Resume, events: seq<Event>)
    requires Retains(buffer, log) && OneInstance(events)
    requires Possible(Connected(buffer, log, restricted, kinds, resume), events)
    ensures var s := Run(Connected(buffer, log, restricted, kinds, resume), events);
            match resume
            case FromCursor(cursor) => NoSilentLoss(s.log, kinds, cursor, cursor == 0, s.written)
            case InstanceChanged => NoSilentLoss(s.log, kinds, 0, true, s.written)
  {
    var s := Connected(buffer, log, restricted, kinds, resume);
    var a := if resume.FromCursor? then resume.cursor else 0;
    var reset := resume == FromCursor(0) || resume.InstanceChanged?;
    RunKeeps(s, events, a, reset);
    RunKeepsKinds(s, events);
  }

  lemma {:induction false} RunKeepsKinds(s: Stream, events: seq<Event>)
    requires Possible(s, events)
    ensures Run(s, events).kinds == s.kinds
    decreases |events|
  {
    if events == [] {
    } else {
      RunKeepsKinds(Step(s, events[0]), events[1..]);
    }
  }
}
