/** The security state, the speech observer, and the service's transition over its stores. */
module SecurityObject {
  import opened Common
  import Events
  import EventsObject
  import Registry
  import RegistryObject
  import opened Security

  const MAX_EVENT_TEXT: nat := 8192

  class SecurityState {
    var flags: Flags

    constructor (flags: Flags)
      ensures this.flags == flags
    {
      this.flags := flags;
    }

    /** Answers whether the session was restricted before and is restricted now. */
    method Update(locked: Option<bool>, secureDesktop: Option<bool>, unknown: Option<bool>) returns (was: bool, now: bool)
      modifies this
      ensures flags == Security.Update(old(flags), locked, secureDesktop, unknown)
      ensures flags.locked == if locked.Some? then locked.value else old(flags.locked)
      ensures flags.secureDesktop == if secureDesktop.Some? then secureDesktop.value else old(flags.secureDesktop)
      ensures flags.unknown == if unknown.Some? then unknown.value else old(flags.unknown)
      ensures was == old(flags).Restricted() && now == flags.Restricted()
    {
      was := flags.Restricted();
      if locked.Some? {
        flags := flags.(locked := locked.value);
      }
      if secureDesktop.Some? {
        flags := flags.(secureDesktop := secureDesktop.value);
      }
      if unknown.Some? {
        flags := flags.(unknown := unknown.value);
      }
      now := flags.Restricted();
    }
  }

  // ---------- the text of an utterance ----------

  function Concat(parts: seq<Text>): Text {
    if parts == [] then [] else Concat(parts[..|parts| - 1]) + parts[|parts| - 1]
  }

  /** The text items of a speech sequence; the others are commands. */
  function Spoken(sequence: seq<Option<Text>>): seq<Text> {
    if sequence == [] then []
    else
      var last := sequence[|sequence| - 1];
      Spoken(sequence[..|sequence| - 1]) + (if last.Some? then [last.value] else [])
  }

  function Limited(text: Text, limit: nat): Text {
    if |text| <= limit then text else text[..limit]
  }

  lemma ConcatOne(parts: seq<Text>, part: Text)
    ensures Concat(parts + [part]) == Concat(parts) + part
  {
    assert (parts + [part])[..|parts|] == parts;
  }

  lemma {:induction false} ConcatGrows(sequence: seq<Option<Text>>, i: nat)
    requires i <= |sequence|
    ensures Concat(Spoken(sequence[..i])) <= Concat(Spoken(sequence))
    decreases |sequence| - i
  {
    if i < |sequence| {
      assert sequence[..i + 1][..i] == sequence[..i];
      if sequence[i].Some? {
        ConcatOne(Spoken(sequence[..i]), sequence[i].value);
      } else {
        assert Spoken(sequence[..i]) + [] == Spoken(sequence[..i]);
      }
      ConcatGrows(sequence, i + 1);
    } else {
      assert sequence[..i] == sequence;
    }
  }

  lemma LimitedOfPrefix(a: Text, b: Text, limit: nat)
    requires a <= b && |a| >= limit
    ensures Limited(a, limit) == Limited(b, limit)
  {
  }

  /** The parts kept of an utterance are the first MAX_EVENT_TEXT characters of its text. */
  method SpeechParts(sequence: seq<Option<Text>>) returns (parts: seq<Text>)
    ensures Concat(parts) == Limited(Concat(Spoken(sequence)), MAX_EVENT_TEXT)
  {
    parts := [];
    var length := 0;
    var i := 0;
    while i < |sequence|
      invariant 0 <= i <= |sequence|
      invariant length == |Concat(parts)|
      invariant Concat(parts) == Limited(Concat(Spoken(sequence[..i])), MAX_EVENT_TEXT)
    {
      assert sequence[..i + 1][..i] == sequence[..i];
      if sequence[i].Some? {
        var item := Limited(sequence[i].value, MAX_EVENT_TEXT);
        if length >= MAX_EVENT_TEXT {
          ConcatGrows(sequence, i);
          LimitedOfPrefix(Concat(Spoken(sequence[..i])), Concat(Spoken(sequence)), MAX_EVENT_TEXT);
          return;
        }
        var part := Limited(item, MAX_EVENT_TEXT - length);
        ConcatOne(parts, part);
        ConcatOne(Spoken(sequence[..i]), sequence[i].value);
        parts := parts + [part];
        length := length + |part|;
      } else {
        assert Spoken(sequence[..i]) + [] == Spoken(sequence[..i]);
      }
      i := i + 1;
    }
    assert sequence[..i] == sequence;
  }

  // ---------- the stores ----------

  class SpeechObserver {
    var enabled: bool
    var history: seq<Text>

    constructor ()
      ensures enabled && history == []
    {
      enabled, history := true, [];
    }

    /** The critical section of on_pre_speech: history and event together, or neither. */
    method Record(text: Text, restricted: bool, events: EventsObject.EventBuffer, data: Events.Data, ghost log: seq<Events.Item>)
      requires Events.Retains(events.State(), log)
      modifies this, events
      ensures enabled == old(enabled)
      ensures history == if old(enabled) && !restricted then Events.Newest(old(history) + [text], SPEECH_BUFFER_SIZE) else old(history)
      ensures events.State() == if old(enabled) && !restricted then Events.Append(old(events.State()), "speech", data) else old(events.State())
    {
      if !enabled || restricted {
        return;
      }
      history := Events.Newest(history + [text], SPEECH_BUFFER_SIZE);
      var _ := events.Append("speech", data, log);
    }

    method SetEnabled(enabled: bool, clear: bool)
      modifies this
      ensures this.enabled == enabled && history == if clear then [] else old(history)
    {
      this.enabled := enabled;
      if clear {
        history := [];
      }
    }
  }

  class BridgeService {
    const security: SecurityState
    const events: EventsObject.EventBuffer
    const speech: SpeechObserver
    const registry: RegistryObject.ObjectRegistry
    var eventGeneration: nat

    constructor (security: SecurityState, events: EventsObject.EventBuffer, speech: SpeechObserver, registry: RegistryObject.ObjectRegistry)
      ensures this.security == security && this.events == events && this.speech == speech && this.registry == registry
      ensures eventGeneration == 0
    {
      this.security, this.events, this.speech, this.registry, eventGeneration := security, events, speech, registry, 0;
    }

    /** The bridge's stores as the machine sees them between two steps of the main thread. */
    ghost function View(main: Main): Bridge
      reads this, security, events, speech, registry
    {
      Bridge(security.flags, events.State(), speech.enabled, speech.history, registry.State(), eventGeneration, main, Silent)
    }

    /** With no other thread at work the transition is the machine's run of its stages. */
    method SecurityChanged(locked: Option<bool>, secureDesktop: Option<bool>, unknown: Option<bool>)
      modifies this`eventGeneration, security, events, speech, registry
      ensures View(Idle) == Transition(old(View(Idle)), Event.SecurityChanged(locked, secureDesktop, unknown))
    {
      var _, restricted := security.Update(locked, secureDesktop, unknown);
      if restricted {
        ClearSensitive();
      } else {
        FreeingFinishes(View(ResumeEvents));
        events.SetEnabled(true, false, None);
        speech.SetEnabled(true, false);
      }
    }

    method ClearSensitive()
      modifies this`eventGeneration, events, speech, registry
      ensures View(Idle) == FinishMain(old(View(SuspendEvents)))
    {
      RestrictingFinishes(View(SuspendEvents));
      events.SetEnabled(false, true, Some(events.instance + 1));
      speech.SetEnabled(false, true);
      registry.Clear();
      eventGeneration := eventGeneration + 1;
    }
  }

  /** How many stages the main thread has still to go through. */
  function Left(main: Main): nat {
    match main
    case Idle => 0
    case Capturing(_, _) => 1
    case SuspendEvents => 4
    case SuspendSpeech => 3
    case ClearRegistry => 2
    case NewGeneration => 1
    case ResumeEvents => 2
    case ResumeSpeech => 1
  }

  /** The main thread goes on, with no speaker in its way, until it is idle. */
  function FinishMain(b: Bridge): (r: Bridge)
    requires b.speaker.Silent?
    ensures r.main.Idle?
    decreases Left(b.main)
  {
    if b.main.Idle? then b else FinishMain(Security.Step(b, Continue))
  }

  function Transition(b: Bridge, e: Event): Bridge
    requires b.main.Idle? && b.speaker.Silent? && e.SecurityChanged?
  {
    FinishMain(Security.Step(b, e))
  }

  lemma RestrictingFinishes(b: Bridge)
    requires b.main.SuspendEvents? && b.speaker.Silent?
    ensures FinishMain(b)
         == b.(events := Events.SetEnabled(b.events, false, true, Some(b.events.instance + 1)),
               speechEnabled := false, history := [], registry := EMPTY_REGISTRY, generation := b.generation + 1, main := Idle)
  {
    var b1 := Security.Step(b, Continue);
    var b2 := Security.Step(b1, Continue);
    var b3 := Security.Step(b2, Continue);
    var b4 := Security.Step(b3, Continue);
    assert FinishMain(b4) == b4;
    assert FinishMain(b3) == FinishMain(b4);
    assert FinishMain(b2) == FinishMain(b3);
  }

  lemma FreeingFinishes(b: Bridge)
    requires b.main.ResumeEvents? && b.speaker.Silent?
    ensures FinishMain(b) == b.(events := Events.SetEnabled(b.events, true, false, None), speechEnabled := true, main := Idle)
  {
    var b1 := Security.Step(b, Continue);
    var b2 := Security.Step(b1, Continue);
    assert FinishMain(b2) == b2;
    assert FinishMain(b1) == FinishMain(b2);
  }
}
