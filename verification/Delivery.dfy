/** The whole way of an event: from the delivery loop over the wire to the client, and back
 as the header of its next request. */
module Delivery {
  import opened Common
  import Events
  import Sse
  import Resume
  import Wire

  /** Instance ids as text, and the JSON payload of each message. */
  datatype Format = Format(json: Wire.Json, instanceText: Events.Instance -> string, payload: Sse.Message -> Wire.Value)

  ghost predicate FormatFits(f: Format) {
    Wire.Sound(f.json) && forall i :: Wire.OneLine(f.instanceText(i)) && f.instanceText(i) != ""
  }

  function OnWire(f: Format, m: Sse.Message): Wire.Message {
    match m
    case ItemSent(item) => Wire.Event(Resume.IdText(f.instanceText(item.instance), item.id), item.kind, f.payload(m))
    case ResetSent(instance, cursor) => Wire.Event(Resume.IdText(f.instanceText(instance), cursor), "reset", f.payload(m))
    case KeepAliveSent => Wire.KeepAlive
  }

  function AllOnWire(f: Format, written: seq<Sse.Message>): (r: seq<Wire.Message>)
    ensures |r| == |written| && forall i :: 0 <= i < |r| ==> r[i] == OnWire(f, written[i])
  {
    if written == [] then [] else [OnWire(f, written[0])] + AllOnWire(f, written[1..])
  }

  predicate OfInstance(m: Sse.Message, instance: Events.Instance) {
    match m
    case ItemSent(item) => item.instance == instance
    case ResetSent(i, _) => i == instance
    case KeepAliveSent => true
  }

  predicate AllOfInstance(written: seq<Sse.Message>, instance: Events.Instance) {
    forall i :: 0 <= i < |written| ==> OfInstance(written[i], instance)
  }

  lemma {:induction false} OneInstanceOnTheWire(s: Sse.Stream, events: seq<Sse.Event>)
    requires Sse.Possible(s, events) && Sse.OneInstance(events) && AllOfInstance(s.written, s.buffer.instance)
    ensures var q := Sse.Run(s, events); q.buffer.instance == s.buffer.instance && AllOfInstance(q.written, s.buffer.instance)
    decreases |events|
  {
    if events == [] {
    } else {
      assert !events[0].Rotate?;
      assert Sse.OneInstance(events[1..]) by {
        assert forall i :: 0 <= i < |events| - 1 ==> events[1..][i] == events[i + 1];
      }
      OneInstanceOnTheWire(Sse.Step(s, events[0]), events[1..]);
    }
  }

  predicate KindsAreOneLine(written: seq<Sse.Message>) {
    forall i :: 0 <= i < |written| && written[i].ItemSent? ==> Wire.OneLine(written[i].item.kind)
  }

  lemma IdIsOneLine(instance: string, n: int)
    requires Wire.OneLine(instance)
    ensures Wire.OneLine(Resume.IdText(instance, n))
  {
    Resume.DigitsOnly(if n < 0 then -n else n);
  }

  lemma WrittenIsSendable(f: Format, written: seq<Sse.Message>)
    requires FormatFits(f) && KindsAreOneLine(written)
    ensures Wire.AllSendable(AllOnWire(f, written))
  {
    forall i | 0 <= i < |written|
      ensures Wire.Sendable(OnWire(f, written[i]))
    {
      match written[i] {
        case ItemSent(item) => IdIsOneLine(f.instanceText(item.instance), item.id);
        case ResetSent(instance, cursor) => IdIsOneLine(f.instanceText(instance), cursor);
        case KeepAliveSent =>
      }
    }
  }

  /** The whole messages among those written, when the stream is cut after n characters. */
  function WholeCount(f: Format, written: seq<Sse.Message>, n: nat): (k: nat)
    ensures k <= |written|
  {
    if written == [] || n < |Wire.Print(f.json, OnWire(f, written[0]))| then 0
    else 1 + WholeCount(f, written[1..], n - |Wire.Print(f.json, OnWire(f, written[0]))|)
  }

  lemma {:induction false} WholeAreAPrefix(f: Format, written: seq<Sse.Message>, n: nat)
    ensures Wire.Whole(f.json, AllOnWire(f, written), n) == AllOnWire(f, written[..WholeCount(f, written, n)])
    decreases |written|
  {
    if written == [] || n < |Wire.Print(f.json, OnWire(f, written[0]))| {
    } else {
      var rest := n - |Wire.Print(f.json, OnWire(f, written[0]))|;
      WholeAreAPrefix(f, written[1..], rest);
      var k := WholeCount(f, written, n);
      assert written[..k][1..] == written[1..][..k - 1];
      assert AllOnWire(f, written)[1..] == AllOnWire(f, written[1..]);
    }
  }

  /** The id the client would send back: that of its last event. */
  function LastId(events: seq<Wire.ClientEvent>): Option<string> {
    if events == [] then None else events[|events| - 1].id
  }

  lemma {:induction false} LastReceivedId(f: Format, written: seq<Sse.Message>, instance: Events.Instance, start: int)
    requires AllOfInstance(written, instance)
    ensures var events := Wire.ReceivedAll(AllOnWire(f, written));
            if events == [] then Resume.LastCursor(start, written) == start
            else LastId(events) == Some(Resume.IdText(f.instanceText(instance), Resume.LastCursor(start, written)))
    decreases |written|
  {
    if written == [] {
    } else {
      assert AllOnWire(f, written)[1..] == AllOnWire(f, written[1..]);
      assert OfInstance(written[0], instance);
      assert AllOfInstance(written[1..], instance) by {
        assert forall i :: 0 <= i < |written| - 1 ==> written[1..][i] == written[i + 1];
      }
      var next := match written[0] case ItemSent(item) => item.id case ResetSent(_, c) => c case KeepAliveSent => start;
      LastReceivedId(f, written[1..], instance, next);
    }
  }

  /** How many of the messages that arrived a client takes that stops at `maxEvents` events. */
  function Taken(messages: seq<Wire.Message>, maxEvents: nat): (k: nat)
    ensures k <= |messages|
    decreases |messages|
  {
    if messages == [] then 0
    else if messages[0].KeepAlive? then 1 + Taken(messages[1..], maxEvents)
    else if maxEvents == 0 then 0
    else 1 + Taken(messages[1..], maxEvents - 1)
  }

  lemma {:induction false} TakenAreEnough(messages: seq<Wire.Message>, maxEvents: nat)
    ensures Wire.AtMost(Wire.ReceivedAll(messages), maxEvents) == Wire.ReceivedAll(messages[..Taken(messages, maxEvents)])
    ensures Taken(messages, maxEvents) == |messages| || |Wire.ReceivedAll(messages[..Taken(messages, maxEvents)])| == maxEvents
    decreases |messages|
  {
    var k := Taken(messages, maxEvents);
    if messages == [] || k == 0 {
    } else {
      var left := if messages[0].KeepAlive? then maxEvents else maxEvents - 1;
      var first, rest := Wire.Received(messages[0]), Wire.ReceivedAll(messages[1..]);
      TakenAreEnough(messages[1..], left);
      assert messages[..k][1..] == messages[1..][..k - 1];
      assert Wire.AtMost(first + rest, maxEvents) == first + Wire.AtMost(rest, left);
    }
  }

  lemma {:induction false} OnWirePrefix(f: Format, written: seq<Sse.Message>, k: nat)
    requires k <= |written|
    ensures AllOnWire(f, written)[..k] == AllOnWire(f, written[..k])
  {
    if k == 0 {
    } else {
      OnWirePrefix(f, written[1..], k - 1);
      assert written[..k][1..] == written[1..][..k - 1];
    }
  }

  /** The messages that a client has whole when the stream is cut after n characters and it
      stops at `maxEvents` events. */
  function Heard(f: Format, written: seq<Sse.Message>, n: nat, maxEvents: nat): (k: nat)
    ensures k <= WholeCount(f, written, n) <= |written|
  {
    Taken(AllOnWire(f, written[..WholeCount(f, written, n)]), maxEvents)
  }

  function Parsed(f: Format, written: seq<Sse.Message>, n: nat, maxEvents: nat): seq<Wire.ClientEvent>
    requires n <= |Wire.PrintAll(f.json, AllOnWire(f, written))|
  {
    Wire.ParseStream(f.json, Wire.PrintAll(f.json, AllOnWire(f, written))[..n], maxEvents)
  }

  lemma ParsedIsHeard(f: Format, written: seq<Sse.Message>, n: nat, maxEvents: nat)
    requires FormatFits(f) && KindsAreOneLine(written) && n <= |Wire.PrintAll(f.json, AllOnWire(f, written))|
    ensures var k := Heard(f, written, n, maxEvents);
            && Parsed(f, written, n, maxEvents) == Wire.ReceivedAll(AllOnWire(f, written[..k]))
            && (k == WholeCount(f, written, n) || |Parsed(f, written, n, maxEvents)| == maxEvents)
  {
    var arrived := written[..WholeCount(f, written, n)];
    var k := Heard(f, written, n, maxEvents);
    WrittenIsSendable(f, written);
    Wire.CutStreamComesBack(f.json, AllOnWire(f, written), n, maxEvents);
    WholeAreAPrefix(f, written, n);
    TakenAreEnough(AllOnWire(f, arrived), maxEvents);
    OnWirePrefix(f, arrived, k);
    assert arrived[..k] == written[..k];
  }

  /** A stream that is cut anywhere, read by a client that stops after any number of events:
      the client has exactly the events of the first k messages, all that arrived whole unless
      it has had enough before; and the last id among them, sent back while the instance is the
      same, resumes at exactly the cursor after those messages. */
  lemma CutStreamResumes(f: Format, s: Sse.Stream, events: seq<Sse.Event>, n: nat, maxEvents: nat)
    requires FormatFits(f) && s.written == [] && Sse.Possible(s, events) && Sse.OneInstance(events)
    requires var written := Sse.Run(s, events).written;
             KindsAreOneLine(written) && n <= |Wire.PrintAll(f.json, AllOnWire(f, written))|
    ensures var written := Sse.Run(s, events).written;
            var k, got := Heard(f, written, n, maxEvents), Parsed(f, written, n, maxEvents);
            && got == Wire.ReceivedAll(AllOnWire(f, written[..k]))
            && (k == WholeCount(f, written, n) || |got| == maxEvents)
            && if got == [] then Resume.LastCursor(s.last, written[..k]) == s.last
               else
                 && LastId(got).Some?
                 && Resume.ResumeOf(LastId(got).value, f.instanceText(s.buffer.instance))
                    == Sse.FromCursor(Resume.LastCursor(s.last, written[..k]))
  {
    var written := Sse.Run(s, events).written;
    var k := Heard(f, written, n, maxEvents);
    ParsedIsHeard(f, written, n, maxEvents);
    OneInstanceOnTheWire(s, events);
    LastReceivedId(f, written[..k], s.buffer.instance, s.last);
    Resume.IdResumes(f.instanceText(s.buffer.instance), Resume.LastCursor(s.last, written[..k]), f.instanceText(s.buffer.instance));
  }

  // ---------- any number of connections ----------

  /** One request of a client: what happens during it and until the next, where the stream is
      cut, and after how many events the client stops. */
  datatype Session = Session(events: seq<Sse.Event>, cut: nat, maxEvents: nat)

  /** The connections that these sessions are on the server's side. */
  function Connections(f: Format, s: Sse.Stream, sessions: seq<Session>): seq<Resume.Connection>
    requires SessionsPossible(f, s, sessions)
    decreases |sessions|
  {
    if sessions == [] then []
    else [ConnectionOf(f, s, sessions[0])] + Connections(f, Resume.Next(s, ConnectionOf(f, s, sessions[0])), sessions[1..])
  }

  function ConnectionOf(f: Format, s: Sse.Stream, session: Session): (c: Resume.Connection)
    requires Sse.Possible(s, session.events)
    ensures c.events == session.events && c.received <= |Sse.Run(s, session.events).written|
  {
    Resume.Connection(session.events, Heard(f, Sse.Run(s, session.events).written, session.cut, session.maxEvents))
  }

  ghost predicate SessionsPossible(f: Format, s: Sse.Stream, sessions: seq<Session>)
    decreases |sessions|
  {
    sessions == [] ||
    var session := sessions[0];
    && Sse.Possible(s, session.events) && Sse.OneInstance(session.events)
    && var written := Sse.Run(s, session.events).written;
    && KindsAreOneLine(written) && session.cut <= |Wire.PrintAll(f.json, AllOnWire(f, written))|
    && SessionsPossible(f, Resume.Next(s, ConnectionOf(f, s, session)), sessions[1..])
  }

  /** The header of the next request: the last id received, or the one sent before. */
  function NextHeader(header: string, got: seq<Wire.ClientEvent>): string {
    if LastId(got).Some? then LastId(got).value else header
  }

  /** The client's side: it sends a header, parses what it gets, and sends the next header. */
  function ClientGets(f: Format, server: Sse.Stream, kinds: set<Events.Kind>, header: string, sessions: seq<Session>): seq<Wire.ClientEvent>
    decreases |sessions|
  {
    if sessions == [] then []
    else
      var session := sessions[0];
      var resume := Resume.ResumeOf(header, f.instanceText(server.buffer.instance));
      var s := Sse.Connected(server.buffer, server.log, server.restricted, kinds, resume);
      if !Sse.Possible(s, session.events) then []
      else
        var q := Sse.Run(s, session.events);
        if session.cut > |Wire.PrintAll(f.json, AllOnWire(f, q.written))| then []
        else
          var got := Parsed(f, q.written, session.cut, session.maxEvents);
          got + ClientGets(f, q, kinds, NextHeader(header, got), sessions[1..])
  }

  lemma {:induction false} ReceivedTogether(a: seq<Wire.Message>, b: seq<Wire.Message>)
    ensures Wire.ReceivedAll(a + b) == Wire.ReceivedAll(a) + Wire.ReceivedAll(b)
    decreases |a|
  {
    if a == [] {
      assert a + b == b && [] + Wire.ReceivedAll(b) == Wire.ReceivedAll(b);
    } else {
      ReceivedTogether(a[1..], b);
      assert (a + b)[1..] == a[1..] + b;
      var first, rest, more := Wire.Received(a[0]), Wire.ReceivedAll(a[1..]), Wire.ReceivedAll(b);
      assert first + (rest + more) == first + rest + more;
    }
  }

  lemma AllOnWireTogether(f: Format, a: seq<Sse.Message>, b: seq<Sse.Message>)
    ensures AllOnWire(f, a + b) == AllOnWire(f, a) + AllOnWire(f, b)
  {
    forall i | 0 <= i < |a| + |b|
      ensures AllOnWire(f, a + b)[i] == (AllOnWire(f, a) + AllOnWire(f, b))[i]
    {
      assert (a + b)[i] == if i < |a| then a[i] else b[i - |a|];
    }
  }

  lemma OnWireTogether(f: Format, a: seq<Sse.Message>, b: seq<Sse.Message>)
    ensures Wire.ReceivedAll(AllOnWire(f, a + b)) == Wire.ReceivedAll(AllOnWire(f, a)) + Wire.ReceivedAll(AllOnWire(f, b))
  {
    AllOnWireTogether(f, a, b);
    ReceivedTogether(AllOnWire(f, a), AllOnWire(f, b));
  }

  /** What the client parses, request after request, are the events of the messages it has
      received on the server's connections. */
  lemma {:induction false} ClientGetsAllReceived(f: Format, s: Sse.Stream, header: string, sessions: seq<Session>)
    requires FormatFits(f) && s == Resume.Reconnected(s, s.last) && SessionsPossible(f, s, sessions)
    requires Resume.ResumeOf(header, f.instanceText(s.buffer.instance)) == Sse.FromCursor(s.last)
    ensures Resume.AllPossible(s, Connections(f, s, sessions))
    ensures ClientGets(f, s, s.kinds, header, sessions)
         == Wire.ReceivedAll(AllOnWire(f, Resume.AllReceived(s, Connections(f, s, sessions))))
    decreases |sessions|
  {
    if sessions == [] {
    } else {
      var session := sessions[0];
      var c := ConnectionOf(f, s, session);
      var q := Sse.Run(s, session.events);
      var got := Parsed(f, q.written, session.cut, session.maxEvents);
      CutStreamResumes(f, s, session.events, session.cut, session.maxEvents);
      OneInstanceOnTheWire(s, session.events);
      Sse.RunKeepsKinds(s, session.events);
      var next := Resume.Next(s, c);
      ClientGetsAllReceived(f, next, NextHeader(header, got), sessions[1..]);
      OnWireTogether(f, Resume.ReceivedOn(s, c), Resume.AllReceived(next, Connections(f, next, sessions[1..])));
    }
  }

  /** The whole way, over any number of requests: the client's events are those of a series of
      messages in which nothing is left out between consecutive items without a reset. */
  lemma ClientLosesNothingSilently(f: Format, s: Sse.Stream, header: string, sessions: seq<Session>)
    requires FormatFits(f) && Events.Retains(s.buffer, s.log) && s == Resume.Reconnected(s, s.last) && SessionsPossible(f, s, sessions)
    requires Resume.ResumeOf(header, f.instanceText(s.buffer.instance)) == Sse.FromCursor(s.last)
    ensures Resume.AllPossible(s, Connections(f, s, sessions))
    ensures var messages := Resume.AllReceived(s, Connections(f, s, sessions));
            && ClientGets(f, s, s.kinds, header, sessions) == Wire.ReceivedAll(AllOnWire(f, messages))
            && Sse.NoSilentLoss(Resume.FinalLog(s, Connections(f, s, sessions)), s.kinds, s.last, s.last == 0, messages)
  {
    ClientGetsAllReceived(f, s, header, sessions);
    Resume.ReconnectingLosesNothing(s, Connections(f, s, sessions));
  }
}
