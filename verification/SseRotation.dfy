/**
 What becomes of a stream when the buffer is suspended with a new instance and resumed:
 which streams survive it, and exactly when they then leave out an event without a reset.
 */
module SseRotation {
  import opened Common
  import opened Events
  import opened Sse
  import opened SseOrder
  import opened SseLoss

  // ---------- while the buffer is suspended ----------

  /** The reader's steps that look at whether the buffer is open. */
  predicate Looks(e: Event) {
    e.Read? || e.WriteReset? || e.WriteItem? || e.WriteKeepAlive?
  }

  predicate Resumes(e: Event) {
    (e.Suspend? && e.enabled) || (e.Rotate? && e.enabled)
  }

  ghost predicate NoneResumes(events: seq<Event>) {
    forall i :: 0 <= i < |events| ==> !Resumes(events[i])
  }

  ghost predicate SomeLooks(events: seq<Event>) {
    exists i :: 0 <= i < |events| && Looks(events[i])
  }

  lemma TailEvents(events: seq<Event>)
    requires events != []
    ensures NoneResumes(events) ==> NoneResumes(events[1..])
    ensures SomeLooks(events) <==> Looks(events[0]) || SomeLooks(events[1..])
  {
    assert events == [events[0]] + events[1..];
    if SomeLooks(events) && !Looks(events[0]) {
      var i :| 0 <= i < |events| && Looks(events[i]);
      assert Looks(events[1..][i - 1]);
    }
    if SomeLooks(events[1..]) {
      var i :| 0 <= i < |events| - 1 && Looks(events[1..][i]);
      assert Looks(events[i + 1]);
    }
  }

  lemma SuspendedStep(s: Stream, e: Event)
    requires !Accepts(s.buffer) && Enabled(s, e) && !Resumes(e)
    ensures var q := Step(s, e);
            && !Accepts(q.buffer) && q.written == s.written
            && (Looks(e) || s.phase.Ended? ==> q.phase.Ended?)
  {
  }

  lemma {:induction false} SuspendedRun(s: Stream, events: seq<Event>)
    requires !Accepts(s.buffer) && Possible(s, events) && NoneResumes(events)
    ensures var q := Run(s, events);
            && !Accepts(q.buffer) && q.written == s.written
            && (SomeLooks(events) || s.phase.Ended? ==> q.phase.Ended?)
    decreases |events|
  {
    if events == [] {
    } else {
      TailEvents(events);
      SuspendedStep(s, events[0]);
      SuspendedRun(Step(s, events[0]), events[1..]);
    }
  }

  lemma {:induction false} EndedStays(s: Stream, events: seq<Event>)
    requires s.phase.Ended? && Possible(s, events)
    ensures Run(s, events).phase.Ended? && Run(s, events).written == s.written
    decreases |events|
  {
    if events == [] {
    } else {
      EndedStays(Step(s, events[0]), events[1..]);
    }
  }

  /** If the reader takes any step that looks at the buffer between a rotation and the next
      enabling event, the stream ends, and nothing more is ever written on it. */
  lemma WatchfulStreamEnds(s: Stream, instance: Instance, during: seq<Event>, later: seq<Event>)
    requires Enabled(s, Rotate(false, instance)) && NoneResumes(during) && SomeLooks(during)
    requires var r := Step(s, Rotate(false, instance)); Possible(r, during) && Possible(Run(r, during), later)
    ensures var q := Run(Run(Step(s, Rotate(false, instance)), during), later); q.phase.Ended? && q.written == s.written
  {
    var r := Step(s, Rotate(false, instance));
    SuspendedRun(r, during);
    EndedStays(Run(r, during), later);
  }

  // ---------- the streams that survive ----------

  /** A reset comes before any item. */
  predicate ResetDue(phase: Phase) {
    phase.Reconnecting? || phase == Got([], true) || phase == Recovering([]) || phase == Resetting(None) || phase == Resetting(Some([]))
  }

  ghost predicate BatchBefore(s: Stream, instance: Instance) {
    forall i :: 0 <= i < |Batch(s.phase)| ==> Batch(s.phase)[i].instance < instance
  }

  /** The loop has items of an earlier instance in hand. */
  ghost predicate Stale(s: Stream) {
    Batch(s.phase) != [] && BatchBefore(s, s.buffer.instance)
  }

  /** The stream `q` is what is left of `s`: ended, or as far as its kind of place goes where it was. */
  ghost predicate LeftOf(s: Stream, q: Stream) {
    q.phase.Ended? ||
    (&& (Idle(s.phase) ==> Idle(q.phase) && q.last == s.last)
     && (ResetDue(s.phase) ==> ResetDue(q.phase))
     && (s.phase.Resetting? ==> q.phase == s.phase && q.last == s.last)
     && (Stale(s) ==> Stale(q)))
  }

  lemma ReaderKeepsPlace(s: Stream, e: Event)
    requires !Accepts(s.buffer) && Enabled(s, e) && OfReader(e) && !Looks(e)
    ensures var q := ReaderStep(s, e);
            && q.buffer == s.buffer && q.log == s.log && q.kinds == s.kinds
            && (q.phase.Ended? ||
                (&& Batch(q.phase) == Batch(s.phase)
                 && (Idle(s.phase) ==> Idle(q.phase) && q.last == s.last)
                 && (ResetDue(s.phase) ==> ResetDue(q.phase))
                 && !s.phase.Resetting?))
  {
  }

  lemma BufferKeepsPlace(s: Stream, e: Event)
    requires !Accepts(s.buffer) && Enabled(s, e) && !OfReader(e) && !Resumes(e)
    requires Retains(s.buffer, s.log) && s.log == []
    ensures var q := BufferStep(s, e);
            && q.phase == s.phase && q.last == s.last && q.kinds == s.kinds && q.buffer.instance >= s.buffer.instance
            && Retains(q.buffer, q.log) && q.log == []
  {
    if e.Suspend? {
      SetEnabledRetains(s.buffer, s.log, e.enabled, e.clear, None);
    } else if e.Rotate? {
      SetEnabledRetains(s.buffer, s.log, e.enabled, true, Some(e.instance));
    } else {
      ClearRetains(s.buffer, s.log);
    }
  }

  lemma SurvivingStep(s: Stream, e: Event)
    requires !Accepts(s.buffer) && Enabled(s, e) && !Resumes(e) && !Looks(e)
    requires Retains(s.buffer, s.log) && s.log == []
    ensures var q := Step(s, e); LeftOf(s, q) && Retains(q.buffer, q.log) && q.log == [] && q.kinds == s.kinds
  {
    if OfReader(e) {
      ReaderKeepsPlace(s, e);
    } else {
      BufferKeepsPlace(s, e);
    }
  }

  lemma {:induction false} SurvivingRun(s: Stream, events: seq<Event>)
    requires !Accepts(s.buffer) && Possible(s, events) && NoneResumes(events) && !SomeLooks(events)
    requires Retains(s.buffer, s.log) && s.log == []
    ensures var q := Run(s, events); LeftOf(s, q) && Retains(q.buffer, q.log) && q.log == [] && q.kinds == s.kinds
    decreases |events|
  {
    if events == [] {
    } else {
      var next := Step(s, events[0]);
      TailEvents(events);
      SuspendedStep(s, events[0]);
      SurvivingStep(s, events[0]);
      SurvivingRun(next, events[1..]);
      if next.phase.Ended? {
        EndedStays(next, events[1..]);
      }
    }
  }

  /** What the place of a stream before a rotation says of its place after it. */
  ghost predicate Survived(s: Stream, t: Stream) {
    && (Idle(s.phase) ==> Idle(t.phase) && t.last == s.last)
    && (ResetDue(s.phase) ==> ResetDue(t.phase))
    && (s.phase.Resetting? ==> t.phase == s.phase && t.last == s.last)
    && (Batch(s.phase) != [] ==> Stale(t))
  }

  // ---------- what a surviving stream writes ----------

  /** The first message after a rotation, if any, is a reset; one that was about to be written
      carries the new instance and the old cursor. */
  lemma {:induction false} DueResetIsFirst(s: Stream, later: seq<Event>)
    requires ResetDue(s.phase) && s.written == [] && Possible(s, later) && OneInstance(later)
    ensures var q := Run(s, later);
            q.written != [] ==>
              && q.written[0].ResetSent?
              && (s.phase.Resetting? ==> q.written[0] == ResetSent(s.buffer.instance, s.last))
    decreases |later|
  {
    if later == [] {
    } else {
      var next := Step(s, later[0]);
      assert !later[0].Rotate?;
      TailIsOneInstance(later);
      DueResetStaysOrGoes(s, later[0]);
      if next.phase.Ended? {
        EndedStays(next, later[1..]);
      } else if next.written == [] {
        DueResetIsFirst(next, later[1..]);
      } else {
        WrittenStays(next, later[1..]);
      }
    }
  }

  lemma DueResetStaysOrGoes(s: Stream, e: Event)
    requires ResetDue(s.phase) && s.written == [] && Enabled(s, e) && !e.Rotate?
    ensures var q := Step(s, e);
            && q.buffer.instance == s.buffer.instance
            && ((q.written == [] && (q.phase.Ended? || (ResetDue(q.phase) && (s.phase.Resetting? ==> q.phase.Resetting? && q.last == s.last))))
                || (q.written == [ResetSent(s.buffer.instance, s.last)] && !q.phase.Ended?))
  {
  }

  lemma TailIsOneInstance(events: seq<Event>)
    requires events != [] && OneInstance(events)
    ensures OneInstance(events[1..])
  {
    assert forall i :: 0 <= i < |events| - 1 ==> events[1..][i] == events[i + 1];
  }

  lemma {:induction false} WrittenStays(s: Stream, later: seq<Event>)
    requires Possible(s, later)
    ensures s.written <= Run(s, later).written
    decreases |later|
  {
    if later == [] {
    } else {
      WrittenStays(Step(s, later[0]), later[1..]);
    }
  }

  ghost predicate NoItems(written: seq<Message>) {
    forall i :: 0 <= i < |written| ==> !written[i].ItemSent?
  }

  /** Items of an earlier instance are never written. */
  lemma {:induction false} StaleItemsAreDropped(s: Stream, later: seq<Event>)
    requires (Stale(s) || s.phase.Ended?) && NoItems(s.written) && Possible(s, later)
    ensures NoItems(Run(s, later).written)
    decreases |later|
  {
    if later == [] {
    } else {
      StaleItemsAreDropped(Step(s, later[0]), later[1..]);
    }
  }

  /** A stream with nothing in hand: the events of the new instance up to the old cursor are
      left out silently, exactly if a matching one of them is overtaken by an item. */
  lemma IdleSurvivorLosesIff(s: Stream, later: seq<Event>)
    requires Retains(s.buffer, s.log) && Idle(s.phase) && s.written == [] && Possible(s, later) && OneInstance(later)
    ensures var q, n := Run(s, later), if s.last < 0 then s.last else 0;
            if s.last == 0 then NoSilentLoss(q.log, s.kinds, 0, true, q.written)
            else
              NoSilentLoss(q.log, s.kinds, n, false, q.written)
              <==> !FirstIsItem(q.written) || NothingBetween(q.log, s.kinds, 0, s.last + 1)
  {
    var n := if s.last < 0 then s.last else 0;
    if s.last == 0 {
      IdleStreamLosesNothing(s, later);
    } else {
      CursorAheadIsHarmlessIff(s, n, later);
    }
  }

  // ---------- the whole rotation ----------

  /** The stream after the buffer was suspended under a new instance and resumed. */
  function Resumed(s: Stream, instance: Instance, during: seq<Event>, clear: bool): Stream
    requires Enabled(s, Rotate(false, instance)) && Possible(Step(s, Rotate(false, instance)), during)
  {
    Step(Run(Step(s, Rotate(false, instance)), during), Suspend(true, clear))
  }

  /** What it writes from then on. */
  function WrittenLater(t: Stream, later: seq<Event>): seq<Message>
    requires Possible(t.(written := []), later)
  {
    Run(t.(written := []), later).written
  }

  lemma RotatingKeepsPlace(s: Stream, instance: Instance)
    requires Retains(s.buffer, s.log) && BatchBefore(s, instance) && Enabled(s, Rotate(false, instance))
    ensures var r := Step(s, Rotate(false, instance));
            && r.phase == s.phase && r.last == s.last && r.kinds == s.kinds && r.written == s.written
            && !Accepts(r.buffer) && Retains(r.buffer, r.log) && r.log == []
            && (Batch(s.phase) != [] ==> Stale(r))
  {
    SetEnabledRetains(s.buffer, s.log, false, true, Some(instance));
  }

  lemma ResumingKeepsPlace(u: Stream, clear: bool)
    requires Retains(u.buffer, u.log)
    ensures var t := Step(u, Suspend(true, clear));
            && t.phase == u.phase && t.last == u.last && t.kinds == u.kinds && t.written == u.written && t.log == u.log
            && t.buffer.instance == u.buffer.instance && Retains(t.buffer, t.log)
  {
    SetEnabledRetains(u.buffer, u.log, true, clear, None);
  }

  lemma RotatedIsFresh(s: Stream, instance: Instance, during: seq<Event>, clear: bool)
    requires Retains(s.buffer, s.log) && BatchBefore(s, instance)
    requires Enabled(s, Rotate(false, instance)) && Possible(Step(s, Rotate(false, instance)), during)
    requires NoneResumes(during) && !SomeLooks(during)
    ensures var t := Resumed(s, instance, during, clear);
            && Retains(t.buffer, t.log) && t.log == [] && t.kinds == s.kinds && t.written == s.written
            && (t.phase.Ended? || Survived(s, t))
  {
    var r := Step(s, Rotate(false, instance));
    RotatingKeepsPlace(s, instance);
    SuspendedRun(r, during);
    SurvivingRun(r, during);
    ResumingKeepsPlace(Run(r, during), clear);
    SurvivedAll(s, r, Run(r, during), Resumed(s, instance, during, clear));
  }

  lemma SurvivedAll(s: Stream, r: Stream, u: Stream, t: Stream)
    requires r.phase == s.phase && r.last == s.last && (Batch(s.phase) != [] ==> Stale(r))
    requires LeftOf(r, u) && t.phase == u.phase && t.last == u.last && t.buffer.instance == u.buffer.instance
    ensures t.phase.Ended? || Survived(s, t)
  {
  }

  /** A rotation under a stream, wherever its loop is. If the loop looks at the buffer in the
      meantime, the stream is over. Otherwise, within the new instance: with items in hand it
      writes no item at all; with a reset due it writes that first; and with nothing in hand it
      loses no event silently if and only if no item comes first or no matching event has an
      id up to the old cursor. */
  lemma RotationUnderStream(s: Stream, instance: Instance, during: seq<Event>, clear: bool, later: seq<Event>)
    requires Retains(s.buffer, s.log) && BatchBefore(s, instance)
    requires Enabled(s, Rotate(false, instance)) && Possible(Step(s, Rotate(false, instance)), during) && NoneResumes(during)
    requires var t := Resumed(s, instance, during, clear); Possible(t.(written := []), later)
    requires OneInstance(later)
    ensures var t := Resumed(s, instance, during, clear);
            var q, w := Run(t.(written := []), later), WrittenLater(t, later);
            && Possible(t, later) && Run(t, later).written == s.written + w
            && (SomeLooks(during) ==> w == [])
            && (Batch(s.phase) != [] ==> NoItems(w))
            && (ResetDue(s.phase) && w != [] ==> w[0].ResetSent?)
            && (s.phase.Resetting? && ResetDue(s.phase) && w != [] ==> w[0] == ResetSent(t.buffer.instance, s.last))
            && (Idle(s.phase) && s.last == 0 ==> NoSilentLoss(q.log, s.kinds, 0, true, w))
            && (Idle(s.phase) && s.last != 0 ==>
                  (NoSilentLoss(q.log, s.kinds, if s.last < 0 then s.last else 0, false, w)
                   <==> !FirstIsItem(w) || NothingBetween(q.log, s.kinds, 0, s.last + 1)))
  {
    var t := Resumed(s, instance, during, clear);
    var bare := t.(written := []);
    SuspendedRun(Step(s, Rotate(false, instance)), during);
    RunForgets(bare, t.written, later);
    assert bare.(written := t.written) == t;
    if !SomeLooks(during) {
      RotatedIsFresh(s, instance, during, clear);
    }
    if t.phase.Ended? {
      EndedStays(bare, later);
    } else {
      SurvivorWrites(s, bare, later);
    }
  }

  lemma SurvivorWrites(s: Stream, t: Stream, later: seq<Event>)
    requires Retains(t.buffer, t.log) && t.kinds == s.kinds && t.written == [] && Possible(t, later) && OneInstance(later)
    requires Survived(s, t)
    ensures var q := Run(t, later);
            && (Batch(s.phase) != [] ==> NoItems(q.written))
            && (ResetDue(s.phase) && q.written != [] ==> q.written[0].ResetSent?)
            && (s.phase.Resetting? && ResetDue(s.phase) && q.written != [] ==> q.written[0] == ResetSent(t.buffer.instance, s.last))
            && (Idle(s.phase) && s.last == 0 ==> NoSilentLoss(q.log, s.kinds, 0, true, q.written))
            && (Idle(s.phase) && s.last != 0 ==>
                  (NoSilentLoss(q.log, s.kinds, if s.last < 0 then s.last else 0, false, q.written)
                   <==> !FirstIsItem(q.written) || NothingBetween(q.log, s.kinds, 0, s.last + 1)))
  {
    if Batch(s.phase) != [] {
      StaleItemsAreDropped(t, later);
    } else if ResetDue(s.phase) {
      DueResetIsFirst(t, later);
    } else if Idle(s.phase) {
      IdleSurvivorLosesIff(t, later);
    }
  }

  /** These are all the places of the loop. */
  lemma EveryPlaceIsCovered(phase: Phase)
    ensures phase.Ended? || Idle(phase) || ResetDue(phase) || Batch(phase) != []
  {
  }

  // ---------- every stream is in such a state ----------

  ghost predicate Placed(s: Stream) {
    && Retains(s.buffer, s.log)
    && forall i :: 0 <= i < |Batch(s.phase)| ==> Batch(s.phase)[i].instance <= s.buffer.instance
  }

  lemma {:induction false} SelectedAreOfInstance(items: seq<Item>, last: int, kinds: set<Kind>, instance: Instance)
    requires forall i :: 0 <= i < |items| ==> items[i].instance == instance
    ensures forall i :: 0 <= i < |Select(items, last, kinds)| ==> Select(items, last, kinds)[i].instance == instance
  {
    if items == [] {
    } else {
      SelectedAreOfInstance(items[1..], last, kinds, instance);
    }
  }

  lemma ReaderKeepsBatch(s: Stream, e: Event)
    requires Enabled(s, e) && OfReader(e) && !e.Read?
    ensures var before, after := Batch(s.phase), Batch(ReaderStep(s, e).phase);
            after == [] || after == before || (before != [] && after == before[1..])
    ensures ReaderStep(s, e).buffer == s.buffer && ReaderStep(s, e).log == s.log
  {
  }

  lemma BufferKeepsPlaced(s: Stream, e: Event)
    requires Placed(s) && Enabled(s, e) && !OfReader(e)
    ensures Placed(BufferStep(s, e))
  {
    match e {
      case Append(kind, data) => AppendRetains(s.buffer, s.log, kind, data);
      case Suspend(enabled, clear) => SetEnabledRetains(s.buffer, s.log, enabled, clear, None);
      case Rotate(enabled, instance) => SetEnabledRetains(s.buffer, s.log, enabled, true, Some(instance));
      case _ => ClearRetains(s.buffer, s.log);
    }
  }

  lemma StepKeepsPlaced(s: Stream, e: Event)
    requires Placed(s) && Enabled(s, e)
    ensures Placed(Step(s, e))
  {
    if !OfReader(e) {
      BufferKeepsPlaced(s, e);
    } else if e.Read? {
      SelectedAreOfInstance(s.buffer.items, s.last, s.kinds, s.buffer.instance);
    } else {
      ReaderKeepsBatch(s, e);
    }
  }

  lemma {:induction false} EveryStreamIsPlaced(s: Stream, events: seq<Event>)
    requires Placed(s) && Possible(s, events)
    ensures Placed(Run(s, events))
    decreases |events|
  {
    if events == [] {
    } else {
      StepKeepsPlaced(s, events[0]);
      EveryStreamIsPlaced(Step(s, events[0]), events[1..]);
    }
  }

  /** Any run of any client, then a rotation. */
  lemma RotationIsHarmlessIff(buffer: Buffer, log: seq<Item>, restricted: bool, kinds: set<Kind>, resume: Sse.Resume, before: seq<Event>,
                              instance: Instance, during: seq<Event>, clear: bool, later: seq<Event>)
    requires Retains(buffer, log) && Possible(Connected(buffer, log, restricted, kinds, resume), before)
    requires var s := Run(Connected(buffer, log, restricted, kinds, resume), before);
             && Enabled(s, Rotate(false, instance)) && Possible(Step(s, Rotate(false, instance)), during) && NoneResumes(during)
             && Possible(Resumed(s, instance, during, clear), later) && OneInstance(later)
             && Idle(s.phase) && s.last > 0
    ensures var s := Run(Connected(buffer, log, restricted, kinds, resume), before);
            var t := Resumed(s, instance, during, clear);
            var q := Run(t, later);
            && s.written <= q.written
            && var w := q.written[|s.written|..];
            && (SomeLooks(during) ==> w == [])
            && (NoSilentLoss(q.log, kinds, 0, false, w) <==> !FirstIsItem(w) || NothingBetween(q.log, kinds, 0, s.last + 1))
  {
    var start := Connected(buffer, log, restricted, kinds, resume);
    var s := Run(start, before);
    EveryStreamIsPlaced(start, before);
    RunKeepsKinds(start, before);
    var t := Resumed(s, instance, during, clear);
    var bare := t.(written := []);
    assert bare.(written := t.written) == t;
    BareIsPossible(bare, t.written, later);
    RotationUnderStream(s, instance, during, clear, later);
    RunForgets(bare, t.written, later);
  }

  /** And every waiting stream that survives a rotation with a positive cursor has a run that
      does lose an event silently. */
  lemma SurvivorCanLoseSilently(s: Stream, instance: Instance, during: seq<Event>, clear: bool, kind: Kind, data: Data)
    requires Retains(s.buffer, s.log) && s.phase.Waiting? && s.last > 0
    requires Enabled(s, Rotate(false, instance)) && Possible(Step(s, Rotate(false, instance)), during)
    requires NoneResumes(during) && !SomeLooks(during)
    requires var t := Resumed(s, instance, during, clear);
             && t.phase.Waiting? && Accepts(t.buffer) && !t.restricted && t.buffer.maxsize >= 1 && (t.kinds == {} || kind in t.kinds)
    ensures var t := Resumed(s, instance, during, clear).(written := []);
            && Possible(t, OvertakingRun(kind, data, s.last))
            && !NoSilentLoss(Run(t, OvertakingRun(kind, data, s.last)).log, t.kinds, 0, false, Run(t, OvertakingRun(kind, data, s.last)).written)
  {
    RotatedIsFresh(s, instance, during, clear);
    SomeRunLosesSilently(Resumed(s, instance, during, clear).(written := []), 0, kind, data);
  }
}
