/** What the messages of a stream say: which events they carry, and all that a round writes. */
module SseContents {
  import opened Common
  import opened Events
  import opened Sse
  import opened SseOrder
  import opened SseRotation
  import SseObject
  import Resume

  // ---------- only what was requested, and only what was appended ----------

  /** Of a requested type, and an event of the log if it is of the buffer's instance. */
  predicate Genuine(s: Stream, item: Item) {
    && (s.kinds == {} || item.kind in s.kinds)
    && item.instance <= s.buffer.instance
    && (item.instance == s.buffer.instance ==> item in s.log)
  }

  predicate AllGenuine(s: Stream, items: seq<Item>) {
    forall i :: 0 <= i < |items| ==> Genuine(s, items[i])
  }

  predicate WrittenGenuine(s: Stream) {
    forall i :: 0 <= i < |s.written| && s.written[i].ItemSent? ==> Genuine(s, s.written[i].item)
  }

  ghost predicate Honest(s: Stream) {
    Retains(s.buffer, s.log) && AllGenuine(s, Batch(s.phase)) && WrittenGenuine(s)
  }

  lemma ReadIsGenuine(s: Stream)
    requires Retains(s.buffer, s.log)
    ensures AllGenuine(s, ReadNow(s).0)
  {
    var read := ReadNow(s).0;
    ReadIsExact(s.buffer, s.log, s.last, s.kinds, SSE_BATCH);
    forall i | 0 <= i < |read|
      ensures Genuine(s, read[i])
    {
      assert read[i] in s.buffer.items;
      var k :| 0 <= k < |s.buffer.items| && s.buffer.items[k] == read[i];
      assert s.log[|s.log| - |s.buffer.items| + k] == read[i];
    }
  }

  lemma GenuineStays(s: Stream, q: Stream, item: Item)
    requires Genuine(s, item) && q.kinds == s.kinds
    requires (q.buffer.instance == s.buffer.instance && s.log <= q.log) || q.buffer.instance > s.buffer.instance
    ensures Genuine(q, item)
  {
  }

  lemma BufferStepIsHonest(s: Stream, e: Event)
    requires Honest(s) && Enabled(s, e) && !OfReader(e)
    ensures Honest(BufferStep(s, e))
  {
    var q := BufferStep(s, e);
    match e {
      case Append(kind, data) => AppendRetains(s.buffer, s.log, kind, data);
      case Suspend(enabled, clear) => SetEnabledRetains(s.buffer, s.log, enabled, clear, None);
      case Rotate(enabled, instance) => SetEnabledRetains(s.buffer, s.log, enabled, true, Some(instance));
      case _ => ClearRetains(s.buffer, s.log);
    }
    forall item | Genuine(s, item)
      ensures Genuine(q, item)
    {
      GenuineStays(s, q, item);
    }
  }

  lemma ReaderStepIsHonest(s: Stream, e: Event)
    requires Honest(s) && Enabled(s, e) && OfReader(e)
    ensures Honest(ReaderStep(s, e))
  {
    var q := ReaderStep(s, e);
    if e.Read? {
      ReadIsGenuine(s);
    } else {
      ReaderKeepsBatch(s, e);
    }
    forall item | Genuine(s, item)
      ensures Genuine(q, item)
    {
      GenuineStays(s, q, item);
    }
    assert forall i :: 0 <= i < |s.written| ==> q.written[i] == s.written[i];
  }

  lemma {:induction false} RunIsHonest(s: Stream, events: seq<Event>)
    requires Honest(s) && Possible(s, events)
    ensures Honest(Run(s, events))
    decreases |events|
  {
    if events == [] {
    } else {
      if OfReader(events[0]) {
        ReaderStepIsHonest(s, events[0]);
      } else {
        BufferStepIsHonest(s, events[0]);
      }
      RunIsHonest(Step(s, events[0]), events[1..]);
    }
  }

  /** In every run, rotations included, a client receives only events of the types it
      requested, and of the buffer's instance only events that were appended in it. */
  lemma OnlyRequestedIsWritten(buffer: Buffer, log: seq<Item>, restricted: bool, kinds: set<Kind>, resume: Sse.Resume, events: seq<Event>, i: nat)
    requires Retains(buffer, log) && Possible(Connected(buffer, log, restricted, kinds, resume), events)
    requires var s := Run(Connected(buffer, log, restricted, kinds, resume), events);
             i < |s.written| && s.written[i].ItemSent?
    ensures var s := Run(Connected(buffer, log, restricted, kinds, resume), events);
            var item := s.written[i].item;
            && (kinds == {} || item.kind in kinds)
            && (item.instance == s.buffer.instance ==> item in s.log)
  {
    var s := Connected(buffer, log, restricted, kinds, resume);
    RunIsHonest(s, events);
    RunKeepsKinds(s, events);
    assert Genuine(Run(s, events), Run(s, events).written[i].item);
  }

  // ---------- nothing in a restricted session ----------

  lemma RestrictedStep(s: Stream, e: Event)
    requires s.restricted && Enabled(s, e) && e != SetRestricted(false)
    ensures Step(s, e).restricted && Step(s, e).written == s.written
  {
  }

  /** While the session is restricted nothing is written, whatever the loop had in hand. */
  lemma {:induction false} RestrictedWritesNothing(s: Stream, events: seq<Event>)
    requires s.restricted && Possible(s, events) && forall i :: 0 <= i < |events| ==> events[i] != SetRestricted(false)
    ensures Run(s, events).written == s.written
    decreases |events|
  {
    if events == [] {
    } else {
      RestrictedStep(s, events[0]);
      RestrictedWritesNothing(Step(s, events[0]), events[1..]);
    }
  }

  // ---------- all that an undisturbed round writes ----------

  function Sent(items: seq<Item>): (r: seq<Message>)
    ensures |r| == |items| && forall i :: 0 <= i < |r| ==> r[i] == ItemSent(items[i])
  {
    seq(|items|, i requires 0 <= i < |items| => ItemSent(items[i]))
  }

  function LastOf(last: int, items: seq<Item>): int {
    if items == [] then last else items[|items| - 1].id
  }

  predicate OfInstance(items: seq<Item>, instance: Instance) {
    forall i :: 0 <= i < |items| ==> items[i].instance == instance
  }

  lemma FirstIsSent(written: seq<Message>, last: int, items: seq<Item>, end: seq<Message>)
    requires items != []
    ensures written + [ItemSent(items[0])] + Sent(items[1..]) + end == written + Sent(items) + end
    ensures LastOf(items[0].id, items[1..]) == LastOf(last, items)
  {
    assert Sent(items) == [ItemSent(items[0])] + Sent(items[1..]);
  }

  lemma BatchStep(s: Stream)
    requires s.phase.Delivering? && s.phase.items != [] && !s.restricted && IsCurrent(s.buffer, s.phase.items[0].instance)
    ensures SseObject.FinishRound(s)
         == SseObject.FinishRound(s.(written := s.written + [ItemSent(s.phase.items[0])], last := s.phase.items[0].id,
                                     phase := Delivering(s.phase.items[1..], true)))
  {
    assert ReaderStep(s, WriteItem) == s.(written := s.written + [ItemSent(s.phase.items[0])], last := s.phase.items[0].id,
                                          phase := Delivering(s.phase.items[1..], true));
  }

  lemma BatchEnds(s: Stream)
    requires s.phase.Delivering? && s.phase.items == [] && !s.restricted && Accepts(s.buffer)
    ensures SseObject.FinishRound(s) == s.(phase := Waiting, written := s.written + if s.phase.any then [] else [KeepAliveSent])
  {
    var next := ReaderStep(s, FinishBatch);
    assert SseObject.FinishRound(s) == SseObject.FinishRound(next);
    if !s.phase.any {
      assert SseObject.FinishRound(next) == SseObject.FinishRound(ReaderStep(next, WriteKeepAlive));
    }
  }

  /** The loop over a batch writes the whole batch, and for a batch that was empty a keep-alive. */
  lemma {:induction false} BatchIsWritten(s: Stream, items: seq<Item>, any: bool)
    requires s.phase == Delivering(items, any) && (items != [] ==> any)
    requires !s.restricted && Accepts(s.buffer) && OfInstance(items, s.buffer.instance)
    ensures var q := SseObject.FinishRound(s);
            && q.phase.Waiting? && q.last == LastOf(s.last, items)
            && q.written == s.written + Sent(items) + if any then [] else [KeepAliveSent]
    decreases |items|
  {
    if items == [] {
      BatchEnds(s);
      assert s.written + Sent(items) == s.written;
    } else {
      var next := s.(written := s.written + [ItemSent(items[0])], last := items[0].id, phase := Delivering(items[1..], true));
      BatchStep(s);
      BatchIsWritten(next, items[1..], true);
      FirstIsSent(s.written, s.last, items, []);
    }
  }

  /** A round in a free session: the reset first if there was a gap, then every item of the
      batch in order, and a keep-alive if and only if there was none. */
  lemma RoundWritesAll(s: Stream, items: seq<Item>, gap: bool)
    requires s.phase == Got(items, gap) && !s.restricted && Accepts(s.buffer) && OfInstance(items, s.buffer.instance)
    ensures var q, cursor := SseObject.FinishRound(s), if gap then RecoveryCursor(s.buffer, s.last) else s.last;
            && q.phase.Waiting? && q.last == LastOf(cursor, items)
            && q.written == s.written + (if gap then [ResetSent(s.buffer.instance, cursor)] else []) + Sent(items)
                            + if items == [] then [KeepAliveSent] else []
  {
    var s1 := ReaderStep(s, Proceed);
    assert SseObject.FinishRound(s) == SseObject.FinishRound(s1);
    if gap {
      var s2 := ReaderStep(s1, Recover);
      var s3 := ReaderStep(s2, WriteReset);
      assert SseObject.FinishRound(s1) == SseObject.FinishRound(s2) == SseObject.FinishRound(s3);
      BatchIsWritten(s3, items, items != []);
    } else {
      BatchIsWritten(s1, items, items != []);
    }
  }

  lemma ReadIsOfInstance(s: Stream)
    requires Retains(s.buffer, s.log)
    ensures OfInstance(ReadNow(s).0, s.buffer.instance)
  {
    var read := ReadNow(s).0;
    ReadIsExact(s.buffer, s.log, s.last, s.kinds, SSE_BATCH);
    forall i | 0 <= i < |read|
      ensures read[i].instance == s.buffer.instance
    {
      assert read[i] in s.buffer.items;
      var k :| 0 <= k < |s.buffer.items| && s.buffer.items[k] == read[i];
      assert s.log[|s.log| - |s.buffer.items| + k] == read[i];
    }
  }

  /** A stream that waits on an open buffer with a gap before its cursor, or with a requested
      event after it, goes on: a reset if there is a gap, also if no event matches, and then
      the events. */
  lemma WaitingStreamGoesOn(s: Stream)
    requires Retains(s.buffer, s.log) && s.phase.Waiting? && Accepts(s.buffer) && !s.restricted
    requires Gap(s.buffer, s.last) || exists x :: x in s.buffer.items && Requested(s.last, s.kinds, x)
    ensures var items, gap := ReadNow(s).0, Gap(s.buffer, s.last);
            && Enabled(s, Read) && Step(s, Read).phase == Got(items, gap)
            && SseObject.FinishRound(Step(s, Read)).written
               == s.written + (if gap then [ResetSent(s.buffer.instance, s.buffer.items[0].id - 1)] else []) + Sent(items)
                  + (if items == [] then [KeepAliveSent] else [])
            && (items == [] <==> forall x :: x in s.buffer.items ==> !Requested(s.last, s.kinds, x))
  {
    var items, gap := ReadNow(s).0, Gap(s.buffer, s.last);
    ReadIsExact(s.buffer, s.log, s.last, s.kinds, SSE_BATCH);
    assert items != [] ==> items[0] in items;
    ReadIsOfInstance(s);
    assert Step(s, Read) == s.(phase := Got(items, gap));
    RoundWritesAll(Step(s, Read), items, gap);
  }

  /** Held, and of a requested type. */
  predicate HeldFor(b: Buffer, kinds: set<Kind>, x: Item) {
    x in b.items && (kinds == {} || x.kind in kinds)
  }

  lemma ReadFromStart(b: Buffer, log: seq<Item>, kinds: set<Kind>)
    requires Retains(b, log)
    ensures var (items, gap) := ReadAfter(b, 0, kinds, SSE_BATCH);
            && !gap
            && (forall x :: x in items ==> HeldFor(b, kinds, x))
            && (forall x :: HeldFor(b, kinds, x) ==> items != [] && (x in items || items[|items| - 1].id < x.id))
  {
    ReadIsExact(b, log, 0, kinds, SSE_BATCH);
    assert forall i :: 0 <= i < |b.items| ==> b.items[i] == log[|log| - |b.items| + i];
    forall x | HeldFor(b, kinds, x)
      ensures Requested(0, kinds, x)
    {
    }
  }

  /** A client without a Last-Event-ID whose request finds matching events held receives the
      first of them, from the oldest on, and no reset before them. */
  lemma NoHeaderStartsAtOldest(buffer: Buffer, log: seq<Item>, kinds: set<Kind>, instance: string, x: Item)
    requires Retains(buffer, log) && Accepts(buffer) && HeldFor(buffer, kinds, x)
    ensures var s, items := Connected(buffer, log, false, kinds, Resume.ResumeOf("", instance)), ReadAfter(buffer, 0, kinds, SSE_BATCH).0;
            && Enabled(s, Read) && Step(s, Read).phase == Got(items, false)
            && SseObject.FinishRound(Step(s, Read)).written == Sent(items)
            && items != [] && (x in items || items[|items| - 1].id < x.id)
  {
    var s, items := Connected(buffer, log, false, kinds, Resume.ResumeOf("", instance)), ReadAfter(buffer, 0, kinds, SSE_BATCH).0;
    ReadFromStart(buffer, log, kinds);
    assert ReadNow(s) == (items, false);
    assert Step(s, Read) == s.(phase := Got(items, false));
    ReadIsOfInstance(s);
    RoundWritesAll(Step(s, Read), items, false);
    assert [] + [] + Sent(items) + [] == Sent(items);
  }

  /** A client whose header is no id of the current instance receives a reset before anything else. */
  lemma BadHeaderIsResetFirst(buffer: Buffer, log: seq<Item>, restricted: bool, kinds: set<Kind>, header: string, instance: string, events: seq<Event>)
    requires header != "" && !Resume.IsIdOf(header, instance)
    requires Possible(Connected(buffer, log, restricted, kinds, Resume.ResumeOf(header, instance)), events)
    ensures var written := Run(Connected(buffer, log, restricted, kinds, Resume.ResumeOf(header, instance)), events).written;
            written != [] ==> written[0].ResetSent?
  {
    Resume.HeaderIsExact(header, instance);
    StaleClientIsResetFirst(buffer, log, restricted, kinds, events);
  }
}
