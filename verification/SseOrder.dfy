/** Streams across buffer instances: the order that survives a rotation. */
module SseOrder {
  import opened Common
  import opened Events
  import opened Sse

  // ---------- order in every run ----------

  predicate Rising(a: int, items: seq<Item>)
    decreases |items|
  {
    items == [] || (a < items[0].id && Rising(items[0].id, items[1..]))
  }

  lemma {:induction false} ConsecutiveRises(log: seq<Item>, kinds: set<Kind>, a: int, items: seq<Item>)
    requires Consecutive(log, kinds, a, items)
    ensures Rising(a, items)
    decreases |items|
  {
    if items == [] {
    } else {
      ConsecutiveRises(log, kinds, items[0].id, items[1..]);
    }
  }

  /** Item ids strictly increase and instances never go back. */
  predicate Orderly(a: int, instance: Instance, written: seq<Message>)
    decreases |written|
  {
    written == [] ||
    match written[0]
    case ItemSent(item) => a < item.id && instance <= item.instance && Orderly(item.id, item.instance, written[1..])
    case ResetSent(i, _) => instance <= i && Orderly(a, i, written[1..])
    case KeepAliveSent => Orderly(a, instance, written[1..])
  }

  function Place(a: int, instance: Instance, written: seq<Message>): (int, Instance)
    decreases |written|
  {
    if written == [] then (a, instance)
    else
      match written[0]
      case ItemSent(item) => Place(item.id, item.instance, written[1..])
      case ResetSent(i, _) => Place(a, i, written[1..])
      case KeepAliveSent => Place(a, instance, written[1..])
  }

  lemma {:induction false} OneMoreInOrder(a: int, instance: Instance, written: seq<Message>, m: Message)
    requires Orderly(a, instance, written)
    requires var p := Place(a, instance, written);
             && (m.ItemSent? ==> p.0 < m.item.id && p.1 <= m.item.instance)
             && (m.ResetSent? ==> p.1 <= m.instance)
    ensures Orderly(a, instance, written + [m])
    ensures var p := Place(a, instance, written);
            Place(a, instance, written + [m])
            == (match m
                case ItemSent(item) => (item.id, item.instance)
                case ResetSent(i, _) => (p.0, i)
                case KeepAliveSent => p)
    decreases |written|
  {
    if written == [] {
      assert [m][1..] == [];
    } else {
      assert (written + [m])[1..] == written[1..] + [m];
      match written[0] {
        case ItemSent(item) => OneMoreInOrder(item.id, item.instance, written[1..], m);
        case ResetSent(i, _) => OneMoreInOrder(a, i, written[1..], m);
        case KeepAliveSent => OneMoreInOrder(a, instance, written[1..], m);
      }
    }
  }

  function Batch(phase: Phase): seq<Item> {
    match phase
    case Got(items, _) => items
    case Recovering(items) => items
    case Resetting(rest) => if rest.Some? then rest.value else []
    case Delivering(items, _) => items
    case _ => []
  }

  ghost predicate InOrder(s: Stream, a: int) {
    var place := Place(a, 0, s.written);
    && Retains(s.buffer, s.log)
    && Orderly(a, 0, s.written) && place.1 <= s.buffer.instance
    && (s.phase.Reconnecting? ==> place.0 <= 0)
    && (!s.phase.Reconnecting? && !s.phase.Ended? ==> place.0 <= s.last)
    && Rising(place.0, Batch(s.phase))
  }

  lemma BufferStepKeepsOrder(s: Stream, e: Event, a: int)
    requires InOrder(s, a) && Enabled(s, e) && !OfReader(e)
    ensures InOrder(BufferStep(s, e), a)
  {
    match e {
      case Append(kind, data) => AppendRetains(s.buffer, s.log, kind, data);
      case Suspend(enabled, clear) => SetEnabledRetains(s.buffer, s.log, enabled, clear, None);
      case Rotate(enabled, instance) => SetEnabledRetains(s.buffer, s.log, enabled, true, Some(instance));
      case _ => ClearRetains(s.buffer, s.log);
    }
  }

  lemma ReadRises(s: Stream, a: int)
    requires Retains(s.buffer, s.log) && a <= s.last
    ensures Rising(a, ReadNow(s).0)
  {
    var items := ReadNow(s).0;
    ReadIsFollowing(s.buffer, s.log, s.kinds, s.last, SSE_BATCH);
    if items != [] {
      ConsecutiveRises(s.log, s.kinds, items[0].id, items[1..]);
    }
  }

  lemma WritesKeepOrder(s: Stream, e: Event, a: int)
    requires InOrder(s, a) && Enabled(s, e) && (e.WriteItem? || e.WriteReset? || e.WriteKeepAlive?)
    ensures InOrder(ReaderStep(s, e), a)
  {
    if e.WriteItem? {
      if !s.restricted && IsCurrent(s.buffer, s.phase.items[0].instance) {
        OneMoreInOrder(a, 0, s.written, ItemSent(s.phase.items[0]));
      }
    } else if e.WriteReset? {
      OneMoreInOrder(a, 0, s.written, ResetSent(s.buffer.instance, s.last));
    } else {
      OneMoreInOrder(a, 0, s.written, KeepAliveSent);
    }
  }

  lemma ReaderStepKeepsOrder(s: Stream, e: Event, a: int)
    requires InOrder(s, a) && Enabled(s, e) && OfReader(e)
    ensures InOrder(ReaderStep(s, e), a)
  {
    if e.Read? {
      ReadRises(s, Place(a, 0, s.written).0);
    } else if e.WriteItem? || e.WriteReset? || e.WriteKeepAlive? {
      WritesKeepOrder(s, e, a);
    }
  }

  lemma {:induction false} RunKeepsOrder(s: Stream, events: seq<Event>, a: int)
    requires InOrder(s, a) && Possible(s, events)
    ensures InOrder(Run(s, events), a)
    decreases |events|
  {
    if events == [] {
    } else {
      if OfReader(events[0]) {
        ReaderStepKeepsOrder(s, events[0], a);
      } else {
        BufferStepKeepsOrder(s, events[0], a);
      }
      RunKeepsOrder(Step(s, events[0]), events[1..], a);
    }
  }

  /** In every run, rotations included, item ids strictly increase from the cursor on, and no
      message of an earlier instance follows one of a later instance. */
  lemma ItemsAlwaysRise(buffer: Buffer, log: seq<Item>, restricted: bool, kinds: set<Kind>, resume: Resume, events: seq<Event>)
    requires Retains(buffer, log) && Possible(Connected(buffer, log, restricted, kinds, resume), events)
    ensures Orderly(if resume.FromCursor? then resume.cursor else 0, 0,
                    Run(Connected(buffer, log, restricted, kinds, resume), events).written)
  {
    RunKeepsOrder(Connected(buffer, log, restricted, kinds, resume), events, if resume.FromCursor? then resume.cursor else 0);
  }

  // ---------- a stale client is told first ----------

  predicate ResetFirst(s: Stream) {
    if s.written == [] then s.phase.Reconnecting? || s.phase == Resetting(None) || s.phase.Ended?
    else s.written[0].ResetSent?
  }

  lemma {:induction false} RunKeepsResetFirst(s: Stream, events: seq<Event>)
    requires ResetFirst(s) && Possible(s, events)
    ensures ResetFirst(Run(s, events))
    decreases |events|
  {
    if events == [] {
    } else {
      RunKeepsResetFirst(Step(s, events[0]), events[1..]);
    }
  }

  /** A client that names another instance receives a reset before anything else. */
  lemma StaleClientIsResetFirst(buffer: Buffer, log: seq<Item>, restricted: bool, kinds: set<Kind>, events: seq<Event>)
    requires Possible(Connected(buffer, log, restricted, kinds, InstanceChanged), events)
    ensures var written := Run(Connected(buffer, log, restricted, kinds, InstanceChanged), events).written;
            written != [] ==> written[0].ResetSent?
  {
    RunKeepsResetFirst(Connected(buffer, log, restricted, kinds, InstanceChanged), events);
  }
}
