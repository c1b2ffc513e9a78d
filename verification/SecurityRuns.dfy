/** Security transitions told on what callers pass to them: the flags, the stores, and what a free session captures. */
module SecurityRuns {
  import opened Common
  import Events
  import opened Security

  datatype Flag = Locked | SecureDesktop | Unknown

  function FlagOf(flags: Flags, flag: Flag): bool {
    match flag
    case Locked => flags.locked
    case SecureDesktop => flags.secureDesktop
    case Unknown => flags.unknown
  }

  /** What a step says about a flag, if anything. */
  function Given(e: Event, flag: Flag): Option<bool> {
    match e
    case SecurityChanged(locked, secureDesktop, unknown) =>
      (match flag
       case Locked => locked
       case SecureDesktop => secureDesktop
       case Unknown => unknown)
    case _ => None
  }

  ghost predicate SilentFrom(events: seq<Event>, flag: Flag, from: nat) {
    forall i :: from <= i < |events| ==> Given(events[i], flag).None?
  }

  lemma StepSetsFlag(b: Bridge, e: Event, flag: Flag)
    requires Enabled(b, e)
    ensures FlagOf(Step(b, e).flags, flag) == if Given(e, flag).Some? then Given(e, flag).value else FlagOf(b.flags, flag)
  {
  }

  lemma {:induction false} FlagStays(b: Bridge, events: seq<Event>, flag: Flag)
    requires Possible(b, events) && SilentFrom(events, flag, 0)
    ensures FlagOf(Run(b, events).flags, flag) == FlagOf(b.flags, flag)
    decreases |events|
  {
    if events == [] {
    } else {
      assert Given(events[0], flag).None?;
      assert SilentFrom(events[1..], flag, 0) by {
        assert forall i :: 0 <= i < |events| - 1 ==> events[1..][i] == events[i + 1];
      }
      StepSetsFlag(b, events[0], flag);
      FlagStays(Step(b, events[0]), events[1..], flag);
    }
  }

  /** After any run each flag is what it was last given, or what it was before if it was not given. */
  lemma {:induction false} FlagIsLastGiven(b: Bridge, events: seq<Event>, flag: Flag, last: nat)
    requires Possible(b, events) && last < |events| && Given(events[last], flag).Some? && SilentFrom(events, flag, last + 1)
    ensures FlagOf(Run(b, events).flags, flag) == Given(events[last], flag).value
    decreases |events|
  {
    var rest := events[1..];
    assert forall i :: 0 <= i < |events| - 1 ==> rest[i] == events[i + 1];
    StepSetsFlag(b, events[0], flag);
    if last == 0 {
      assert SilentFrom(rest, flag, 0);
      FlagStays(Step(b, events[0]), rest, flag);
    } else {
      assert SilentFrom(rest, flag, last);
      FlagIsLastGiven(Step(b, events[0]), rest, flag, last - 1);
    }
  }

  /** A session is restricted if any flag is set, and free only if none is. */
  lemma RestrictedIffSomeFlag(flags: Flags)
    ensures flags.Restricted() <==> exists flag: Flag :: FlagOf(flags, flag)
  {
    assert flags.locked == FlagOf(flags, Locked);
    assert flags.secureDesktop == FlagOf(flags, SecureDesktop);
    assert flags.unknown == FlagOf(flags, Unknown);
  }

  ghost predicate NoOtherChange(events: seq<Event>) {
    forall i :: 0 <= i < |events| ==> !events[i].SecurityChanged?
  }

  lemma SameFlags(b: Bridge, events: seq<Event>)
    requires Possible(b, events) && NoOtherChange(events)
    ensures Run(b, events).flags == b.flags
  {
    forall flag: Flag
      ensures FlagOf(Run(b, events).flags, flag) == FlagOf(b.flags, flag)
    {
      FlagStays(b, events, flag);
    }
    assert forall flag: Flag :: FlagOf(Run(b, events).flags, flag) == FlagOf(b.flags, flag);
    assert FlagOf(Run(b, events).flags, Locked) == FlagOf(b.flags, Locked);
    assert FlagOf(Run(b, events).flags, SecureDesktop) == FlagOf(b.flags, SecureDesktop);
    assert FlagOf(Run(b, events).flags, Unknown) == FlagOf(b.flags, Unknown);
  }

  /** The main thread has gone on to a new generation, or still will. */
  predicate Renews(b: Bridge, generation: nat) {
    && generation <= b.generation
    && (b.main.Idle? || b.main.Capturing? || b.main.ResumeEvents? || b.main.ResumeSpeech? ==> generation < b.generation)
  }

  lemma {:induction false} RunRenews(b: Bridge, events: seq<Event>, generation: nat)
    requires Possible(b, events) && Renews(b, generation)
    ensures Renews(Run(b, events), generation)
    decreases |events|
  {
    if events == [] {
    } else {
      RunRenews(Step(b, events[0]), events[1..], generation);
    }
  }

  /** A transition in which any flag is set: once it has finished, whatever other threads did in
      between, every store is empty and closed, the buffer has another instance, and a new generation has begun. */
  lemma SettingAFlagEmpties(b: Bridge, change: Event, events: seq<Event>, flag: Flag)
    requires Invariant(b) && change.SecurityChanged? && Given(change, flag) == Some(true)
    requires Enabled(b, change) && Possible(Step(b, change), events) && NoOtherChange(events)
    requires Run(Step(b, change), events).main.Idle?
    ensures var q := Run(Step(b, change), events); Quiet(q) && q.events.instance > b.events.instance && q.generation > b.generation
  {
    var s := Step(b, change);
    StepSetsFlag(b, change, flag);
    RestrictedIffSomeFlag(s.flags);
    RunKeepsInvariant(s, events);
    RunKeepsRotated(s, events, b.events.instance);
    RunRenews(s, events, b.generation);
    SameFlags(s, events);
  }

  /** A transition after which no flag is set: once it has finished, capture is on, with the
      instance and the events, the speech and the registry that were there. */
  lemma ClearingAllFlagsFrees(b: Bridge, change: Event)
    requires Invariant(b) && change.SecurityChanged? && Enabled(b, change)
    requires forall flag: Flag :: Given(change, flag) == Some(false) || (Given(change, flag).None? && !FlagOf(b.flags, flag))
    ensures var s := Step(b, change);
            && s.main.ResumeEvents? && Step(s, Continue).main.ResumeSpeech?
            && (b.speaker.Silent? ==>
                  var q := Step(Step(s, Continue), Continue);
                  && q.main.Idle? && Live(q) && q.events.items == b.events.items && q.events.instance == b.events.instance
                  && q.history == b.history && q.registry == b.registry)
  {
    var s := Step(b, change);
    forall flag: Flag
      ensures !FlagOf(s.flags, flag)
    {
      StepSetsFlag(b, change, flag);
    }
    RestrictedIffSomeFlag(s.flags);
  }

  // ---------- a free session captures ----------

  lemma StepThenRun(b: Bridge, e: Event, rest: seq<Event>)
    requires Enabled(b, e) && Possible(Step(b, e), rest)
    ensures Possible(b, [e] + rest) && Run(b, [e] + rest) == Run(Step(b, e), rest)
  {
    assert ([e] + rest)[1..] == rest;
  }

  function Spoken(text: Text, data: Events.Data): seq<Event> {
    [Speak(text)] + ([StoreSpeech] + ([AppendSpeech(data)] + []))
  }

  /** In a free session an utterance becomes the newest of the history and the newest event;
      the history keeps the 100 newest. */
  lemma SpeechIsCaptured(b: Bridge, text: Text, data: Events.Data)
    requires Invariant(b) && b.main.Idle? && !b.flags.Restricted() && b.speaker.Silent? && b.events.maxsize >= 1
    ensures Possible(b, Spoken(text, data))
    ensures var q := Run(b, Spoken(text, data));
            && q.history == (if |b.history| < 100 then b.history else b.history[|b.history| - 99..]) + [text]
            && q.events.items != [] && q.events.items[|q.events.items| - 1] == Events.Item(b.events.nextId, b.events.instance, "speech", data)
            && q.speaker.Silent?
  {
    var b1 := b.(speaker := Allowed(text));
    assert Enabled(b, Speak(text)) && Step(b, Speak(text)) == b1;
    var b2 := Step(b1, StoreSpeech);
    StepThenRun(b2, AppendSpeech(data), []);
    StepThenRun(b1, StoreSpeech, [AppendSpeech(data)] + []);
    StepThenRun(b, Speak(text), [StoreSpeech] + ([AppendSpeech(data)] + []));
  }
}
