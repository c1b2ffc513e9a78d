/** From which cursors a stream can leave events out without a reset. */
module SseLoss {
  import opened Common
  import opened Events
  import opened Sse
  import opened Resume

  lemma StepThenRun(s: Stream, e: Event, rest: seq<Event>)
    requires Enabled(s, e) && Possible(Step(s, e), rest)
    ensures Possible(s, [e] + rest) && Run(s, [e] + rest) == Run(Step(s, e), rest)
  {
    assert ([e] + rest)[1..] == rest;
  }

  lemma {:induction false} RunThenRun(s: Stream, events: seq<Event>, more: seq<Event>)
    requires Possible(s, events) && Possible(Run(s, events), more)
    ensures Possible(s, events + more) && Run(s, events + more) == Run(Run(s, events), more)
    decreases |events|
  {
    if events == [] {
      assert events + more == more;
    } else {
      RunThenRun(Step(s, events[0]), events[1..], more);
      assert events + more == [events[0]] + (events[1..] + more);
      StepThenRun(s, events[0], events[1..] + more);
    }
  }

  // ---------- what is written does not influence what is written next ----------

  lemma StepForgets(s: Stream, w: seq<Message>, e: Event)
    requires Enabled(s, e) && s.written == []
    ensures Enabled(s.(written := w), e)
    ensures Step(s.(written := w), e) == Step(s, e).(written := w + Step(s, e).written)
  {
    assert w + [] == w;
  }

  /** A run writes the same messages after any others. */
  lemma {:induction false} RunForgets(s: Stream, w: seq<Message>, events: seq<Event>)
    requires Possible(s, events) && s.written == []
    ensures Possible(s.(written := w), events)
    ensures Run(s.(written := w), events) == Run(s, events).(written := w + Run(s, events).written)
    decreases |events|, 1
  {
    if events == [] {
      assert w + [] == w;
    } else {
      StepForgets(s, w, events[0]);
      RestForgets(Step(s, events[0]), w, events[1..]);
    }
  }

  lemma {:induction false} RestForgets(next: Stream, w: seq<Message>, rest: seq<Event>)
    requires Possible(next, rest)
    ensures Possible(next.(written := w + next.written), rest)
    ensures Run(next.(written := w + next.written), rest) == Run(next, rest).(written := w + Run(next, rest).written)
    decreases |rest|, 2
  {
    var bare := next.(written := []);
    assert bare.(written := next.written) == next;
    BareIsPossible(bare, next.written, rest);
    RunForgets(bare, next.written, rest);
    RunForgets(bare, w + next.written, rest);
    assert w + next.written + Run(bare, rest).written == w + (next.written + Run(bare, rest).written);
  }

  lemma BareStep(s: Stream, w: seq<Message>, e: Event)
    requires Enabled(s.(written := w), e)
    ensures Enabled(s, e) && Step(s, e).(written := []) == Step(s.(written := w), e).(written := [])
  {
  }

  lemma {:induction false} BareIsPossible(s: Stream, w: seq<Message>, events: seq<Event>)
    requires Possible(s.(written := w), events)
    ensures Possible(s, events)
    decreases |events|, 0
  {
    if events == [] {
    } else {
      var q, bare := Step(s.(written := w), events[0]), Step(s, events[0]);
      BareStep(s, w, events[0]);
      var plain := bare.(written := []);
      assert plain.(written := q.written) == q;
      BareIsPossible(plain, q.written, events[1..]);
      if bare.written == [] {
        assert plain == bare;
      } else {
        RunForgets(plain, bare.written, events[1..]);
        assert plain.(written := bare.written) == bare;
      }
    }
  }

  // ---------- a stream between two batches, from any cursor ----------

  /** The loop is about to wait with nothing in hand: what it writes next depends on its cursor. */
  predicate Idle(phase: Phase) {
    phase.Waiting? || phase == Got([], false) || (phase.Delivering? && phase.items == []) || phase.Idling?
  }

  /** From an idle stream with a nonzero cursor nothing after the cursor is left out without a reset. */
  lemma IdleStreamLosesNothing(s: Stream, later: seq<Event>)
    requires Retains(s.buffer, s.log) && Idle(s.phase) && s.written == [] && Possible(s, later) && OneInstance(later)
    ensures var q := Run(s, later); NoSilentLoss(q.log, s.kinds, s.last, s.last == 0, q.written)
  {
    assert Invariant(s, s.last, s.last == 0);
    RunKeeps(s, later, s.last, s.last == 0);
    RunKeepsKinds(s, later);
  }

  /** The first message that carries an id is an item. */
  predicate FirstIsItem(written: seq<Message>) {
    written != [] && (written[0].ItemSent? || (written[0].KeepAliveSent? && FirstIsItem(written[1..])))
  }

  /** Messages that lose nothing after `c` lose nothing after an earlier `n` either, exactly
      if they begin with a reset or no matching event lies between `n` and `c`. */
  lemma {:induction false} LossBelowCursor(log: seq<Item>, kinds: set<Kind>, n: int, c: int, written: seq<Message>)
    requires NoSilentLoss(log, kinds, c, false, written) && n <= c
    ensures NoSilentLoss(log, kinds, n, false, written) <==> !FirstIsItem(written) || NothingBetween(log, kinds, n, c + 1)
    decreases |written|
  {
    if written == [] {
    } else {
      match written[0] {
        case ItemSent(item) => SplitBetween(log, kinds, n, c, item.id);
        case ResetSent(_, _) => LaterCursorIsEnough(log, kinds, n, c, true, written[1..]);
        case KeepAliveSent => LossBelowCursor(log, kinds, n, c, written[1..]);
      }
    }
  }

  lemma SplitBetween(log: seq<Item>, kinds: set<Kind>, n: int, c: int, z: int)
    requires n <= c < z && NothingBetween(log, kinds, c, z)
    ensures NothingBetween(log, kinds, n, z) <==> NothingBetween(log, kinds, n, c + 1)
  {
  }

  /** An idle stream whose cursor is ahead of the events so far, as after a rotation: what it
      writes leaves out no event after the n-th silently if and only if it begins with a
      reset or no matching event has an id above n and up to the cursor. */
  lemma CursorAheadIsHarmlessIff(s: Stream, n: int, later: seq<Event>)
    requires Retains(s.buffer, s.log) && Idle(s.phase) && s.written == [] && Possible(s, later) && OneInstance(later)
    requires s.last != 0 && n <= s.last
    ensures var q := Run(s, later);
            NoSilentLoss(q.log, s.kinds, n, false, q.written)
            <==> !FirstIsItem(q.written) || NothingBetween(q.log, s.kinds, n, s.last + 1)
  {
    IdleStreamLosesNothing(s, later);
    LossBelowCursor(Run(s, later).log, s.kinds, n, s.last, Run(s, later).written);
  }

  // ---------- runs that do lose an event ----------

  function Appends(kind: Kind, data: Data, n: nat): seq<Event> {
    if n == 0 then [] else [Append(kind, data)] + Appends(kind, data, n - 1)
  }

  /** n more events, each of this kind. */
  ghost predicate Grown(before: seq<Item>, after: seq<Item>, kind: Kind, n: nat) {
    && |after| == |before| + n && before <= after
    && forall i :: |before| <= i < |after| ==> after[i].kind == kind
  }

  lemma {:induction false} AppendsGrow(s: Stream, kind: Kind, data: Data, n: nat)
    requires Retains(s.buffer, s.log) && Accepts(s.buffer)
    ensures Possible(s, Appends(kind, data, n)) && OneInstance(Appends(kind, data, n))
    ensures var q := Run(s, Appends(kind, data, n));
            && q == s.(buffer := q.buffer, log := q.log) && Grown(s.log, q.log, kind, n)
            && Retains(q.buffer, q.log) && Accepts(q.buffer) && q.buffer.maxsize == s.buffer.maxsize
    decreases n
  {
    if n == 0 {
    } else {
      var e, rest := Append(kind, data), Appends(kind, data, n - 1);
      AppendRetains(s.buffer, s.log, kind, data);
      AppendsGrow(Step(s, e), kind, data, n - 1);
      StepThenRun(s, e, rest);
    }
  }

  function Delivery(): seq<Event> {
    [Read] + ([Proceed] + ([WriteItem] + []))
  }

  /** The newest event is alone in the buffer and within the cursor's reach. */
  lemma LoneEventIsWritten(s: Stream)
    requires s.phase.Waiting? && !s.restricted && Accepts(s.buffer) && |s.buffer.items| == 1
    requires var item := s.buffer.items[0];
             && item.instance == s.buffer.instance && Matches(s.kinds, item)
             && item.id > s.last && (s.last == 0 || s.last >= item.id - 1)
    ensures Possible(s, Delivery())
    ensures Run(s, Delivery())
         == s.(written := s.written + [ItemSent(s.buffer.items[0])], last := s.buffer.items[0].id, phase := Delivering([], true))
  {
    var item := s.buffer.items[0];
    assert s.buffer.items == [item] && [item][1..] == [];
    assert Select([item], s.last, s.kinds) == [item] + Select([], s.last, s.kinds) == [item];
    assert ReadNow(s) == ([item], false);
    var s1 := s.(phase := Got([item], false));
    var s2 := s.(phase := Delivering([item], true));
    assert Step(s, Read) == s1 && Step(s1, Proceed) == s2;
    StepThenRun(s2, WriteItem, []);
    StepThenRun(s1, Proceed, [WriteItem] + []);
    StepThenRun(s, Read, [Proceed] + ([WriteItem] + []));
  }

  /** Events up to the cursor, which the buffer then drops, and one after it. */
  function OvertakingRun(kind: Kind, data: Data, n: nat): seq<Event> {
    Appends(kind, data, n) + LoneAppend(kind, data) + Delivery()
  }

  function LoneAppend(kind: Kind, data: Data): seq<Event> {
    [Clear] + ([Append(kind, data)] + [])
  }

  /** After a clear the next event is alone in the buffer. */
  lemma LoneAppendRuns(s: Stream, kind: Kind, data: Data)
    requires Retains(s.buffer, s.log) && Accepts(s.buffer) && s.buffer.maxsize >= 1
    ensures Possible(s, LoneAppend(kind, data))
    ensures var q, item := Run(s, LoneAppend(kind, data)), NewItem(s.buffer, kind, data);
            && q == s.(buffer := q.buffer, log := s.log + [item])
            && Retains(q.buffer, q.log) && Accepts(q.buffer) && q.buffer.items == [item]
  {
    var b := Step(s, Clear);
    ClearRetains(s.buffer, s.log);
    AppendRetains(b.buffer, b.log, kind, data);
    StepThenRun(b, Append(kind, data), []);
    StepThenRun(s, Clear, [Append(kind, data)] + []);
  }

  /** n more events, and then one that is alone in the buffer. */
  lemma EventsOvertake(s: Stream, kind: Kind, data: Data, n: nat)
    requires Retains(s.buffer, s.log) && Accepts(s.buffer) && s.buffer.maxsize >= 1
    ensures var events := Appends(kind, data, n) + LoneAppend(kind, data);
            && Possible(s, events) && OneInstance(events)
            && var q := Run(s, events);
            && q == s.(buffer := q.buffer, log := q.log) && Grown(s.log, q.log, kind, n + 1)
            && Retains(q.buffer, q.log) && Accepts(q.buffer) && q.buffer.items == [q.log[|s.log| + n]]
  {
    AppendsGrow(s, kind, data, n);
    var a := Run(s, Appends(kind, data, n));
    LoneAppendRuns(a, kind, data);
    RunThenRun(s, Appends(kind, data, n), LoneAppend(kind, data));
    OneInstanceTogether(Appends(kind, data, n), LoneAppend(kind, data));
    GrownByOne(s.log, a.log, kind, n, NewItem(a.buffer, kind, data));
  }

  lemma OneInstanceTogether(events: seq<Event>, more: seq<Event>)
    requires OneInstance(events) && OneInstance(more)
    ensures OneInstance(events + more)
  {
  }

  lemma GrownByOne(before: seq<Item>, after: seq<Item>, kind: Kind, n: nat, item: Item)
    requires Grown(before, after, kind, n) && item.kind == kind
    ensures Grown(before, after + [item], kind, n + 1) && (after + [item])[|before| + n] == item
  {
  }

  lemma OvertakingIsWritten(s: Stream, kind: Kind, data: Data, n: nat)
    requires Retains(s.buffer, s.log) && Accepts(s.buffer) && s.buffer.maxsize >= 1 && !s.restricted
    requires s.phase.Waiting? && (s.kinds == {} || kind in s.kinds)
    requires s.last <= |s.log| + n && (s.last == 0 || s.last == |s.log| + n)
    ensures Possible(s, OvertakingRun(kind, data, n)) && OneInstance(OvertakingRun(kind, data, n))
    ensures var q := Run(s, OvertakingRun(kind, data, n));
            && Grown(s.log, q.log, kind, n + 1)
            && (forall i :: 0 <= i < |q.log| ==> q.log[i].id == i + 1)
            && q.written == s.written + [ItemSent(q.log[|s.log| + n])]
  {
    EventsOvertake(s, kind, data, n);
    var events := Appends(kind, data, n) + LoneAppend(kind, data);
    LoneEventIsWritten(Run(s, events));
    RunThenRun(s, events, Delivery());
  }

  /** A waiting stream whose cursor is 0 or ahead of the events so far has a run that leaves
      out a matching event with no reset: its only message is an item beyond that event. */
  lemma SomeRunLosesSilently(s: Stream, a: int, kind: Kind, data: Data)
    requires Retains(s.buffer, s.log) && Accepts(s.buffer) && s.buffer.maxsize >= 1 && !s.restricted
    requires s.phase.Waiting? && s.written == [] && (s.kinds == {} || kind in s.kinds)
    requires (s.last == 0 || s.last > |s.log|) && a <= |s.log|
    ensures var events := OvertakingRun(kind, data, if s.last == 0 then 1 else s.last - |s.log|);
            && Possible(s, events) && OneInstance(events)
            && !NoSilentLoss(Run(s, events).log, s.kinds, a, false, Run(s, events).written)
  {
    var n := if s.last == 0 then 1 else s.last - |s.log|;
    OvertakingIsWritten(s, kind, data, n);
    var q := Run(s, OvertakingRun(kind, data, n));
    var missed, sent := q.log[|s.log|], q.log[|s.log| + n];
    assert q.written == [ItemSent(sent)];
    assert missed in q.log && a < missed.id < sent.id && Matches(s.kinds, missed);
  }

  /** Among all runs of a client within one buffer instance some lose an event silently if and
      only if the client resumes from a cursor of 0. */
  lemma SilentLossIffCursorIsZero(buffer: Buffer, log: seq<Item>, kinds: set<Kind>, cursor: int)
    requires Retains(buffer, log) && Accepts(buffer) && buffer.maxsize >= 1
    ensures (forall events: seq<Event> ::
               Possible(Connected(buffer, log, false, kinds, FromCursor(cursor)), events) && OneInstance(events) ==>
               var q := Run(Connected(buffer, log, false, kinds, FromCursor(cursor)), events);
               NoSilentLoss(q.log, kinds, cursor, false, q.written))
       <==> cursor != 0
  {
    var s := Connected(buffer, log, false, kinds, FromCursor(cursor));
    if cursor != 0 {
      forall events: seq<Event> | Possible(s, events) && OneInstance(events)
        ensures NoSilentLoss(Run(s, events).log, kinds, cursor, false, Run(s, events).written)
      {
        NothingIsLostSilently(buffer, log, false, kinds, FromCursor(cursor), events);
      }
    } else {
      var kind := "";
      if kinds != {} {
        kind :| kind in kinds;
      }
      SomeRunLosesSilently(s, 0, kind, 0);
    }
  }
}
