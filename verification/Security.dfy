/**
 Security transitions against the threads that fill the stores they empty. The main thread
 runs transitions, event callbacks and executor slices one at a time; speech is captured on
 any thread, under the observer's lock. A step is one critical section of one store.
 */
module Security {
  import opened Common
  import Events
  import Registry

  type Text = string

  const SPEECH_BUFFER_SIZE: nat := 100

  /** SecurityState's flags. */
  datatype Flags = Flags(locked: bool, secureDesktop: bool, unknown: bool) {
    predicate Restricted() {
      locked || secureDesktop || unknown
    }
  }

  function Updated(old0: bool, change: Option<bool>): bool {
    if change.Some? then change.value else old0
  }

  function Update(flags: Flags, locked: Option<bool>, secureDesktop: Option<bool>, unknown: Option<bool>): Flags {
    Flags(Updated(flags.locked, locked), Updated(flags.secureDesktop, secureDesktop), Updated(flags.unknown, unknown))
  }

  /** What the main thread is in the middle of. */
  datatype Main =
    | Idle
    | Capturing(kind: Events.Kind, data: Events.Data)
    | SuspendEvents
    | SuspendSpeech
    | ClearRegistry
    | NewGeneration
    | ResumeEvents
    | ResumeSpeech

  /** The thread that holds the speech observer's lock. */
  datatype Speaker = Silent | Allowed(text: Text) | Stored(text: Text)

  datatype Bridge = Bridge(
    flags: Flags,
    events: Events.Buffer,
    speechEnabled: bool,
    history: seq<Text>,
    registry: Registry.Cache,
    generation: nat,
    main: Main,
    speaker: Speaker
  )

  const EMPTY_REGISTRY: Registry.Cache := Registry.Cache([], map[])

  /** The bridge as it is built: capture is on exactly if the session is not restricted. */
  function Initial(flags: Flags, maxEvents: nat): Bridge {
    Bridge(flags, Events.Fresh(maxEvents, 0, !flags.Restricted()), !flags.Restricted(), [], EMPTY_REGISTRY, 0, Idle, Silent)
  }

  /** `registry` is what registering an object, or the work of a slice, makes of the registry;
      `speechData` is the event's data. */
  datatype Event =
    | SecurityChanged(locked: Option<bool>, secureDesktop: Option<bool>, unknown: Option<bool>)
    | Continue
    | Capture(kind: Events.Kind, data: Events.Data, registry: Registry.Cache)
    | Slice(registry: Registry.Cache)
    | Speak(text: Text)
    | StoreSpeech
    | AppendSpeech(speechData: Events.Data)

  predicate Enabled(b: Bridge, e: Event) {
    match e
    case SecurityChanged(_, _, _) => b.main.Idle?
    case Continue => !b.main.Idle? && (b.main.SuspendSpeech? || b.main.ResumeSpeech? ==> b.speaker.Silent?)
    case Capture(_, _, _) => b.main.Idle?
    case Slice(_) => b.main.Idle?
    case Speak(_) => b.speaker.Silent?
    case StoreSpeech => b.speaker.Allowed?
    case AppendSpeech(_) => b.speaker.Stored?
  }

  /** The next store that the main thread reaches. */
  function ContinueMain(b: Bridge): Bridge
    requires !b.main.Idle?
  {
    match b.main
    case Capturing(kind, data) => b.(events := Events.Append(b.events, kind, data), main := Idle)
    case SuspendEvents =>
      b.(events := Events.SetEnabled(b.events, false, true, Some(b.events.instance + 1)), main := SuspendSpeech)
    case SuspendSpeech => b.(speechEnabled := false, history := [], main := ClearRegistry)
    case ClearRegistry => b.(registry := EMPTY_REGISTRY, main := NewGeneration)
    case NewGeneration => b.(generation := b.generation + 1, main := Idle)
    case ResumeEvents => b.(events := Events.SetEnabled(b.events, true, false, None), main := ResumeSpeech)
    case ResumeSpeech => b.(speechEnabled := true, main := Idle)
  }

  function Step(b: Bridge, e: Event): Bridge
    requires Enabled(b, e)
  {
    match e
    case SecurityChanged(locked, secureDesktop, unknown) =>
      var flags := Update(b.flags, locked, secureDesktop, unknown);
      b.(flags := flags, main := if flags.Restricted() then SuspendEvents else ResumeEvents)
    case Continue => ContinueMain(b)
    case Capture(kind, data, registry) =>
      if b.flags.Restricted() then b else b.(registry := registry, main := Capturing(kind, data))
    case Slice(registry) => if b.flags.Restricted() then b else b.(registry := registry)
    case Speak(text) => if !b.speechEnabled || b.flags.Restricted() then b else b.(speaker := Allowed(text))
    case StoreSpeech =>
      b.(history := Events.Newest(b.history + [b.speaker.text], SPEECH_BUFFER_SIZE), speaker := Stored(b.speaker.text))
    case AppendSpeech(speechData) => b.(events := Events.Append(b.events, "speech", speechData), speaker := Silent)
  }

  predicate Possible(b: Bridge, events: seq<Event>)
    decreases |events|
  {
    events == [] || (Enabled(b, events[0]) && Possible(Step(b, events[0]), events[1..]))
  }

  function Run(b: Bridge, events: seq<Event>): Bridge
    requires Possible(b, events)
    decreases |events|
  {
    if events == [] then b else Run(Step(b, events[0]), events[1..])
  }

  // ---------- restricted means empty ----------

  predicate EventsQuiet(b: Bridge) {
    !b.events.enabled && b.events.items == []
  }

  predicate SpeechQuiet(b: Bridge) {
    !b.speechEnabled && b.history == [] && b.speaker.Silent?
  }

  predicate Quiet(b: Bridge) {
    EventsQuiet(b) && SpeechQuiet(b) && b.registry == EMPTY_REGISTRY
  }

  predicate Live(b: Bridge) {
    b.events.enabled && b.speechEnabled
  }

  predicate Invariant(b: Bridge) {
    && !b.events.closed
    && match b.main
       case Idle => if b.flags.Restricted() then Quiet(b) else Live(b)
       case Capturing(_, _) => !b.flags.Restricted() && Live(b)
       case SuspendEvents => b.flags.Restricted()
       case SuspendSpeech => b.flags.Restricted() && EventsQuiet(b)
       case ClearRegistry => b.flags.Restricted() && EventsQuiet(b) && SpeechQuiet(b)
       case NewGeneration => b.flags.Restricted() && Quiet(b)
       case ResumeEvents => !b.flags.Restricted()
       case ResumeSpeech => !b.flags.Restricted() && b.events.enabled
  }

  lemma {:induction false} RunKeepsInvariant(b: Bridge, events: seq<Event>)
    requires Invariant(b) && Possible(b, events)
    ensures Invariant(Run(b, events))
    decreases |events|
  {
    if events == [] {
    } else {
      RunKeepsInvariant(Step(b, events[0]), events[1..]);
    }
  }

  /** What the main thread can be in the middle of while a restricted session stays restricted. */
  predicate IdleOrRestricting(main: Main) {
    !main.Capturing? && !main.ResumeEvents? && !main.ResumeSpeech?
  }

  /** The flags are restricted before, between and after these events. */
  predicate RestrictedThroughout(b: Bridge, events: seq<Event>)
    requires Possible(b, events)
    decreases |events|
  {
    b.flags.Restricted() && (events == [] || RestrictedThroughout(Step(b, events[0]), events[1..]))
  }

  lemma StepKeepsQuiet(b: Bridge, e: Event)
    requires Quiet(b) && IdleOrRestricting(b.main) && Enabled(b, e)
    requires b.flags.Restricted() && Step(b, e).flags.Restricted()
    ensures Quiet(Step(b, e)) && IdleOrRestricting(Step(b, e).main)
  {
  }

  /** No thread's step puts anything back before the session is freed, also not in the middle
      of further restricting transitions. */
  lemma {:induction false} StaysEmpty(b: Bridge, events: seq<Event>)
    requires Quiet(b) && IdleOrRestricting(b.main) && Possible(b, events) && RestrictedThroughout(b, events)
    ensures Quiet(Run(b, events)) && IdleOrRestricting(Run(b, events).main)
    decreases |events|
  {
    if events == [] {
    } else {
      StepKeepsQuiet(b, events[0]);
      StaysEmpty(Step(b, events[0]), events[1..]);
    }
  }

  /** In every run, from the end of a transition to restricted until the session is freed,
      every store is empty and closed to new entries. */
  lemma RestrictedMeansEmpty(flags: Flags, maxEvents: nat, events: seq<Event>, later: seq<Event>)
    requires Possible(Initial(flags, maxEvents), events)
    requires var b := Run(Initial(flags, maxEvents), events);
             b.main.Idle? && Possible(b, later) && RestrictedThroughout(b, later)
    ensures Quiet(Run(Run(Initial(flags, maxEvents), events), later))
  {
    RunKeepsInvariant(Initial(flags, maxEvents), events);
    StaysEmpty(Run(Initial(flags, maxEvents), events), later);
  }

  /** Whenever the session is free and no transition is under way, capture is on. */
  lemma FreeMeansLive(flags: Flags, maxEvents: nat, events: seq<Event>)
    requires Possible(Initial(flags, maxEvents), events)
    requires var b := Run(Initial(flags, maxEvents), events); b.main.Idle? && !b.flags.Restricted()
    ensures Live(Run(Initial(flags, maxEvents), events))
  {
    RunKeepsInvariant(Initial(flags, maxEvents), events);
  }

  /** Without a further transition nothing at all changes. */
  lemma {:induction false} IdleRestrictedIsStill(b: Bridge, events: seq<Event>)
    requires Invariant(b) && Possible(b, events) && b.main.Idle? && b.flags.Restricted()
    requires forall i :: 0 <= i < |events| ==> !events[i].SecurityChanged?
    ensures Run(b, events) == b
    decreases |events|
  {
    if events == [] {
    } else {
      assert !events[0].SecurityChanged?;
      IdleRestrictedIsStill(Step(b, events[0]), events[1..]);
    }
  }

  // ---------- a transition ends the cursors of the session before it ----------

  predicate RotatedSince(b: Bridge, instance: nat) {
    && instance <= b.events.instance
    && (b.flags.Restricted() && !b.main.SuspendEvents? ==> instance < b.events.instance)
  }

  lemma {:induction false} RunKeepsRotated(b: Bridge, events: seq<Event>, instance: nat)
    requires Invariant(b) && Possible(b, events) && RotatedSince(b, instance)
    ensures RotatedSince(Run(b, events), instance)
    decreases |events|
  {
    if events == [] {
    } else {
      RunKeepsRotated(Step(b, events[0]), events[1..], instance);
    }
  }

  /** Between a free session and any later restricted one the buffer gets another instance. */
  lemma RestrictingRotates(b: Bridge, events: seq<Event>)
    requires Invariant(b) && Possible(b, events) && !b.flags.Restricted()
    requires var q := Run(b, events); q.main.Idle? && q.flags.Restricted()
    ensures b.events.instance < Run(b, events).events.instance
  {
    RunKeepsRotated(b, events, b.events.instance);
  }
}
