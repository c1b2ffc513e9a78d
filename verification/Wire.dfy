/**
 The event stream on the wire: the server's printer and the client's line-by-line parser,
 for the part of the format of sections 9.2.5 and 9.2.6 of the WHATWG HTML standard that
 they use. JSON encoding and decoding are parameters.
 */
module Wire {
  import opened Common

  type Text = string

  /** A JSON value. */
  type Value = int

  const CR: char := '\r'
  const LF: char := '\n'

  predicate LineEnd(c: char) {
    c == CR || c == LF
  }

  /** A field value that one line can carry: no line feed, and no carriage return at its end. */
  predicate OneLine(t: Text) {
    LF !in t && (t != [] ==> t[|t| - 1] != CR)
  }

  datatype Message = Event(id: Text, name: Text, payload: Value) | KeepAlive

  datatype Json = Json(dumps: Value -> Text, loads: Text -> Option<Value>)

  /** What the stream relies on: decoding inverts encoding, and encoded text is one line. */
  ghost predicate Sound(json: Json) {
    forall v :: json.loads(json.dumps(v)) == Some(v) && OneLine(json.dumps(v))
  }

  // ---------- the printer ----------

  function Print(json: Json, m: Message): Text {
    match m
    case Event(id, name, payload) =>
      "id: " + id + "\n" + "event: " + name + "\n" + "data: " + json.dumps(payload) + "\n\n"
    case KeepAlive => ": keepalive\n\n"
  }

  function PrintAll(json: Json, messages: seq<Message>): Text {
    if messages == [] then [] else Print(json, messages[0]) + PrintAll(json, messages[1..])
  }

  // ---------- the client ----------

  datatype Decoded = Decoded(value: Value) | Undecoded(raw: Text)

  datatype ClientEvent = ClientEvent(name: Text, data: Decoded, id: Option<Text>)

  datatype Current = Current(data: seq<Text>, name: Option<Text>, id: Option<Text>)

  datatype Parser = Parser(events: seq<ClientEvent>, current: Current)

  const EMPTY: Current := Current([], None, None)

  function IndexOf(t: Text, c: char): (i: nat)
    ensures i <= |t| && (i < |t| ==> t[i] == c) && forall k :: 0 <= k < i ==> t[k] != c
  {
    if t == [] || t[0] == c then 0 else IndexOf(t[1..], c) + 1
  }

  /** readline until the end of the stream: the last line may lack its line feed. */
  function Lines(t: Text): seq<Text>
    decreases |t|
  {
    if t == [] then []
    else
      var i := IndexOf(t, LF);
      if i == |t| then [t] else [t[..i + 1]] + Lines(t[i + 1..])
  }

  function TrimEnd(t: Text): Text {
    if t != [] && LineEnd(t[|t| - 1]) then TrimEnd(t[..|t| - 1]) else t
  }

  function Join(lines: seq<Text>): Text {
    if lines == [] then [] else if |lines| == 1 then lines[0] else lines[0] + [LF] + Join(lines[1..])
  }

  function Decode(json: Json, raw: Text): Decoded {
    match json.loads(raw)
    case Some(v) => Decoded(v)
    case None => Undecoded(raw)
  }

  /** A blank line ends an event; one without data is dropped. */
  function Dispatch(json: Json, p: Parser): Parser {
    if p.current.data == [] then p.(current := EMPTY)
    else
      var name := if p.current.name.Some? then p.current.name.value else "message";
      Parser(p.events + [ClientEvent(name, Decode(json, Join(p.current.data)), p.current.id)], EMPTY)
  }

  function SetField(current: Current, name: Text, value: Text): Current {
    if name == "data" then current.(data := current.data + [value])
    else if name == "event" then current.(name := Some(value))
    else if name == "id" then current.(id := Some(value))
    else current
  }

  function FieldValue(t: Text, colon: nat): Text
    requires colon <= |t|
  {
    if colon == |t| then []
    else if t[colon + 1..] != [] && t[colon + 1] == ' ' then t[colon + 2..]
    else t[colon + 1..]
  }

  function Feed(json: Json, p: Parser, line: Text): Parser {
    var t := TrimEnd(line);
    if t == [] then Dispatch(json, p)
    else if t[0] == ':' then p
    else
      var colon := IndexOf(t, ':');
      p.(current := SetField(p.current, t[..colon], FieldValue(t, colon)))
  }

  /** The client's loop: it stops when it has enough events. */
  function FeedAll(json: Json, p: Parser, lines: seq<Text>, maxEvents: nat): Parser
    decreases |lines|
  {
    if lines == [] || |p.events| >= maxEvents then p else FeedAll(json, Feed(json, p, lines[0]), lines[1..], maxEvents)
  }

  function ParseStream(json: Json, t: Text, maxEvents: nat): seq<ClientEvent> {
    FeedAll(json, Parser([], EMPTY), Lines(t), maxEvents).events
  }

  /** The client reads lines as long as its time lasts; `lines` are those it gets to see. */
  method ReadEvents(json: Json, lines: seq<Text>, maxEvents: nat) returns (events: seq<ClientEvent>)
    ensures events == FeedAll(json, Parser([], EMPTY), lines, maxEvents).events
  {
    events := [];
    var data, name, id := [], None, None;
    var i := 0;
    while |events| < maxEvents && i < |lines|
      invariant 0 <= i <= |lines|
      invariant FeedAll(json, Parser(events, Current(data, name, id)), lines[i..], maxEvents)
             == FeedAll(json, Parser([], EMPTY), lines, maxEvents)
      decreases |lines| - i
    {
      assert lines[i..][0] == lines[i] && lines[i..][1..] == lines[i + 1..];
      var t := TrimEnd(lines[i]);
      i := i + 1;
      if t == [] {
        if data != [] {
          var decoded := Decode(json, Join(data));
          events := events + [ClientEvent(if name.Some? then name.value else "message", decoded, id)];
        }
        data, name, id := [], None, None;
        continue;
      }
      if t[0] == ':' {
        continue;
      }
      var colon := IndexOf(t, ':');
      var value := FieldValue(t, colon);
      if t[..colon] == "data" {
        data := data + [value];
      } else if t[..colon] == "event" {
        name := Some(value);
      } else if t[..colon] == "id" {
        id := Some(value);
      }
    }
  }

  // ---------- reading back what was printed ----------

  predicate Sendable(m: Message) {
    m.Event? ==> OneLine(m.id) && OneLine(m.name)
  }

  predicate AllSendable(messages: seq<Message>) {
    forall i :: 0 <= i < |messages| ==> Sendable(messages[i])
  }

  function Received(m: Message): seq<ClientEvent> {
    match m
    case Event(id, name, payload) => [ClientEvent(name, Decoded(payload), Some(id))]
    case KeepAlive => []
  }

  function ReceivedAll(messages: seq<Message>): seq<ClientEvent> {
    if messages == [] then [] else Received(messages[0]) + ReceivedAll(messages[1..])
  }

  lemma IndexAfter(before: Text, c: char, after: Text)
    requires c !in before
    ensures IndexOf(before + [c] + after, c) == |before|
  {
    var t := before + [c] + after;
    assert t[|before|] == c && forall k :: 0 <= k < |before| ==> t[k] == before[k];
  }

  // ---------- a message as lines ----------

  function Field(name: Text, value: Text): Text {
    name + ": " + value
  }

  function LinesOf(json: Json, m: Message): seq<Text> {
    match m
    case Event(id, name, payload) => [Field("id", id), Field("event", name), Field("data", json.dumps(payload)), ""]
    case KeepAlive => [": keepalive", ""]
  }

  function Unlines(lines: seq<Text>): Text {
    if lines == [] then [] else lines[0] + [LF] + Unlines(lines[1..])
  }

  function Terminated(lines: seq<Text>): seq<Text> {
    if lines == [] then [] else [lines[0] + [LF]] + Terminated(lines[1..])
  }

  predicate NoLineFeed(lines: seq<Text>) {
    forall i :: 0 <= i < |lines| ==> LF !in lines[i]
  }

  lemma PrintIsItsLines(json: Json, m: Message)
    ensures Print(json, m) == Unlines(LinesOf(json, m))
  {
    if m.Event? {
      var ls := LinesOf(json, m);
      assert ls[1..] == [ls[1], ls[2], ls[3]] && ls[1..][1..] == [ls[2], ls[3]] && ls[1..][1..][1..] == [ls[3]];
      assert Unlines([ls[3]]) == "\n";
      assert Unlines([ls[2], ls[3]]) == "data: " + json.dumps(m.payload) + "\n\n";
      assert Unlines([ls[1], ls[2], ls[3]]) == "event: " + m.name + "\n" + ("data: " + json.dumps(m.payload) + "\n\n");
    } else {
      assert LinesOf(json, m)[1..] == [""] && Unlines([""]) == "\n";
    }
  }

  lemma FirstLine(line: Text, rest: Text)
    requires LF !in line
    ensures Lines(line + [LF] + rest) == [line + [LF]] + Lines(rest)
  {
    var t := line + [LF] + rest;
    IndexAfter(line, LF, rest);
    assert t[..|line| + 1] == line + [LF] && t[|line| + 1..] == rest;
  }

  lemma {:induction false} LinesComeApart(lines: seq<Text>, rest: Text)
    requires NoLineFeed(lines)
    ensures Lines(Unlines(lines) + rest) == Terminated(lines) + Lines(rest)
    decreases |lines|
  {
    if lines == [] {
      assert Unlines(lines) + rest == rest;
    } else {
      LinesComeApart(lines[1..], rest);
      FirstLine(lines[0], Unlines(lines[1..]) + rest);
      assert Unlines(lines) + rest == lines[0] + [LF] + (Unlines(lines[1..]) + rest);
    }
  }

  lemma OneMoreTerminated(lines: seq<Text>, j: nat)
    requires j < |lines|
    ensures Terminated(lines[..j + 1]) == [lines[0] + [LF]] + Terminated(lines[1..][..j])
  {
    assert lines[..j + 1][1..] == lines[1..][..j];
  }

  /** Where a cut leaves a text of whole lines: some whole lines, then part of the next. */
  lemma {:induction false} CutLines(lines: seq<Text>, k: nat) returns (j: nat, part: Text)
    requires NoLineFeed(lines) && k < |Unlines(lines)|
    ensures j < |lines| && part <= lines[j]
    ensures Lines(Unlines(lines)[..k]) == Terminated(lines[..j]) + (if part == [] then [] else [part])
    decreases |lines|
  {
    var line, after := lines[0], Unlines(lines[1..]);
    var t := line + [LF] + after;
    if k <= |line| {
      j, part := 0, line[..k];
      assert t[..k] == part && LF !in part;
      if part != [] {
        assert IndexOf(part, LF) == |part|;
      }
    } else {
      var more: nat := k - |line| - 1;
      assert t[..k] == line + [LF] + after[..more];
      FirstLine(line, after[..more]);
      j, part := CutLines(lines[1..], more);
      OneMoreTerminated(lines, j);
      j := j + 1;
    }
  }

  // ---------- feeding lines ----------

  lemma {:induction false} FeedInParts(json: Json, p: Parser, first: seq<Text>, second: seq<Text>, maxEvents: nat)
    ensures FeedAll(json, p, first + second, maxEvents) == FeedAll(json, FeedAll(json, p, first, maxEvents), second, maxEvents)
    decreases |first|
  {
    if first == [] {
      assert first + second == second;
    } else if |p.events| < maxEvents {
      assert (first + second)[1..] == first[1..] + second;
      FeedInParts(json, Feed(json, p, first[0]), first[1..], second, maxEvents);
    } else {
      assert FeedAll(json, p, second, maxEvents) == p;
    }
  }

  lemma TrimmedLine(line: Text)
    requires line != [] ==> !LineEnd(line[|line| - 1])
    ensures TrimEnd(line + [LF]) == line
  {
    assert (line + [LF])[..|line|] == line;
  }

  /** A printed field comes back as that field. */
  lemma FieldComesBack(json: Json, p: Parser, name: Text, value: Text)
    requires name in {"id", "event", "data"} && OneLine(value)
    ensures Feed(json, p, Field(name, value) + [LF]) == p.(current := SetField(p.current, name, value))
  {
    var t := Field(name, value);
    TrimmedLine(t);
    assert t == name + [':'] + ([' '] + value);
    assert ':' !in name;
    IndexAfter(name, ':', [' '] + value);
    assert t[..|name|] == name && t[|name| + 1] == ' ' && t[|name| + 2..] == value;
  }

  lemma FeedsFirst(json: Json, p: Parser, line: Text, lines: seq<Text>, maxEvents: nat)
    requires |p.events| < maxEvents
    ensures FeedAll(json, p, Terminated([line] + lines), maxEvents)
         == FeedAll(json, Feed(json, p, line + [LF]), Terminated(lines), maxEvents)
  {
    assert ([line] + lines)[1..] == lines;
    assert ([line + [LF]] + Terminated(lines))[1..] == Terminated(lines);
  }

  lemma DataEndsEvent(json: Json, events: seq<ClientEvent>, id: Text, name: Text, raw: Text, maxEvents: nat)
    requires OneLine(raw) && |events| < maxEvents
    ensures FeedAll(json, Parser(events, Current([], Some(name), Some(id))), Terminated([Field("data", raw)] + [""]), maxEvents)
         == Parser(events + [ClientEvent(name, Decode(json, raw), Some(id))], EMPTY)
  {
    var p := Parser(events, Current([], Some(name), Some(id)));
    var q := Parser(events, Current([raw], Some(name), Some(id)));
    FieldComesBack(json, p, "data", raw);
    FeedsFirst(json, p, Field("data", raw), [""], maxEvents);
    assert "" + [LF] == [LF] && TrimEnd([LF]) == [];
    FeedsFirst(json, q, "", [], maxEvents);
    assert [""] + [] == [""];
  }

  /** The lines of one message, fed to a parser between events. */
  lemma LinesComeBack(json: Json, events: seq<ClientEvent>, m: Message, maxEvents: nat)
    requires Sound(json) && Sendable(m) && |events| < maxEvents
    ensures FeedAll(json, Parser(events, EMPTY), Terminated(LinesOf(json, m)), maxEvents) == Parser(events + Received(m), EMPTY)
  {
    var p := Parser(events, EMPTY);
    match m {
      case KeepAlive =>
        TrimmedLine(": keepalive");
        FeedsFirst(json, p, ": keepalive", [""], maxEvents);
        assert "" + [LF] == [LF] && TrimEnd([LF]) == [];
        FeedsFirst(json, p, "", [], maxEvents);
        assert [""] + [] == [""] && [": keepalive"] + [""] == LinesOf(json, m);
      case Event(id, name, payload) =>
        var data := [Field("data", json.dumps(payload))] + [""];
        var q := Parser(events, Current([], None, Some(id)));
        FieldComesBack(json, p, "id", id);
        FeedsFirst(json, p, Field("id", id), [Field("event", name)] + data, maxEvents);
        FieldComesBack(json, q, "event", name);
        FeedsFirst(json, q, Field("event", name), data, maxEvents);
        DataEndsEvent(json, events, id, name, json.dumps(payload), maxEvents);
        assert [Field("id", id)] + ([Field("event", name)] + data) == LinesOf(json, m);
    }
  }

  lemma MessageHasNoOtherLineFeed(json: Json, m: Message)
    requires Sound(json) && Sendable(m)
    ensures NoLineFeed(LinesOf(json, m))
  {
    if m.Event? {
      assert OneLine(json.dumps(m.payload));
      assert forall value: Text, name: Text :: LF !in name && LF !in value ==> LF !in Field(name, value);
    }
  }

  lemma MessageComesBack(json: Json, events: seq<ClientEvent>, m: Message, rest: Text, maxEvents: nat)
    requires Sound(json) && Sendable(m) && |events| < maxEvents
    ensures FeedAll(json, Parser(events, EMPTY), Lines(Print(json, m) + rest), maxEvents)
         == FeedAll(json, Parser(events + Received(m), EMPTY), Lines(rest), maxEvents)
  {
    PrintIsItsLines(json, m);
    MessageHasNoOtherLineFeed(json, m);
    LinesComeApart(LinesOf(json, m), rest);
    FeedInParts(json, Parser(events, EMPTY), Terminated(LinesOf(json, m)), Lines(rest), maxEvents);
    LinesComeBack(json, events, m, maxEvents);
  }

  // ---------- whole streams, and streams that are cut ----------

  predicate NoBlank(lines: seq<Text>) {
    forall i :: 0 <= i < |lines| ==> lines[i] != [] && !LineEnd(lines[i][0])
  }

  lemma {:induction false} TrimKeepsStart(t: Text)
    requires t != [] && !LineEnd(t[0])
    ensures TrimEnd(t) != []
  {
    if |t| <= 1 {
    } else {
      TrimKeepsStart(t[..|t| - 1]);
    }
  }

  /** Without a blank line no event ends. */
  lemma {:induction false} NoBlankNoEvent(json: Json, p: Parser, lines: seq<Text>, maxEvents: nat)
    requires NoBlank(lines)
    ensures FeedAll(json, p, lines, maxEvents).events == p.events
    decreases |lines|
  {
    if lines == [] || |p.events| >= maxEvents {
    } else {
      TrimKeepsStart(lines[0]);
      assert NoBlank(lines[1..]) by {
        assert forall i :: 0 <= i < |lines| - 1 ==> lines[1..][i] == lines[i + 1];
      }
      NoBlankNoEvent(json, Feed(json, p, lines[0]), lines[1..], maxEvents);
    }
  }

  lemma {:induction false} TerminatedNoBlank(lines: seq<Text>)
    requires NoBlank(lines)
    ensures NoBlank(Terminated(lines))
  {
    if lines == [] {
    } else {
      assert NoBlank(lines[1..]) by {
        assert forall i :: 0 <= i < |lines| - 1 ==> lines[1..][i] == lines[i + 1];
      }
      TerminatedNoBlank(lines[1..]);
    }
  }

  /** Part of a message yields no event. */
  lemma CutMessageYieldsNothing(json: Json, events: seq<ClientEvent>, m: Message, k: nat, maxEvents: nat)
    requires Sound(json) && Sendable(m) && k < |Print(json, m)|
    ensures FeedAll(json, Parser(events, EMPTY), Lines(Print(json, m)[..k]), maxEvents).events == events
  {
    var ls := LinesOf(json, m);
    PrintIsItsLines(json, m);
    MessageHasNoOtherLineFeed(json, m);
    var j, part := CutLines(ls, k);
    TerminatedNoBlank(ls[..j]);
    NoBlankNoEvent(json, Parser(events, EMPTY), Lines(Print(json, m)[..k]), maxEvents);
  }

  /** The messages that fit whole into the first k characters of the stream. */
  function Whole(json: Json, messages: seq<Message>, k: nat): seq<Message> {
    if messages == [] || k < |Print(json, messages[0])| then []
    else [messages[0]] + Whole(json, messages[1..], k - |Print(json, messages[0])|)
  }

  function AtMost<T>(items: seq<T>, n: nat): seq<T> {
    if |items| <= n then items else items[..n]
  }

  lemma AllButFirstSendable(messages: seq<Message>)
    requires messages != [] && AllSendable(messages)
    ensures Sendable(messages[0]) && AllSendable(messages[1..])
  {
    assert forall i :: 0 <= i < |messages| - 1 ==> messages[1..][i] == messages[i + 1];
  }

  lemma EnoughIsEnough(json: Json, p: Parser, lines: seq<Text>, maxEvents: nat)
    requires |p.events| >= maxEvents
    ensures FeedAll(json, p, lines, maxEvents) == p
  {
  }

  /** What a client that already has `events` ends with, after the first k characters of the rest. */
  function AfterCut(json: Json, events: seq<ClientEvent>, messages: seq<Message>, k: nat, maxEvents: nat): seq<ClientEvent>
    requires k <= |PrintAll(json, messages)|
  {
    FeedAll(json, Parser(events, EMPTY), Lines(PrintAll(json, messages)[..k]), maxEvents).events
  }

  function Expected(json: Json, events: seq<ClientEvent>, messages: seq<Message>, k: nat, maxEvents: nat): seq<ClientEvent> {
    AtMost(events + ReceivedAll(Whole(json, messages, k)), maxEvents)
  }

  lemma FirstIsExpected(json: Json, events: seq<ClientEvent>, messages: seq<Message>, k: nat, maxEvents: nat)
    requires messages != [] && |Print(json, messages[0])| <= k
    ensures Expected(json, events, messages, k, maxEvents)
         == Expected(json, events + Received(messages[0]), messages[1..], k - |Print(json, messages[0])|, maxEvents)
  {
    var whole := Whole(json, messages[1..], k - |Print(json, messages[0])|);
    assert ([messages[0]] + whole)[1..] == whole;
    assert events + Received(messages[0]) + ReceivedAll(whole) == events + (Received(messages[0]) + ReceivedAll(whole));
  }

  lemma FirstIsReceived(json: Json, events: seq<ClientEvent>, messages: seq<Message>, k: nat, maxEvents: nat)
    requires Sound(json) && AllSendable(messages) && messages != [] && |events| < maxEvents
    requires |Print(json, messages[0])| <= k <= |PrintAll(json, messages)|
    ensures var more := k - |Print(json, messages[0])|;
            && more <= |PrintAll(json, messages[1..])| && AllSendable(messages[1..])
            && AfterCut(json, events, messages, k, maxEvents)
               == AfterCut(json, events + Received(messages[0]), messages[1..], more, maxEvents)
  {
    var rest := PrintAll(json, messages[1..])[..k - |Print(json, messages[0])|];
    AllButFirstSendable(messages);
    assert PrintAll(json, messages)[..k] == Print(json, messages[0]) + rest;
    MessageComesBack(json, events, messages[0], rest, maxEvents);
  }

  lemma NoMoreEvents(json: Json, events: seq<ClientEvent>, messages: seq<Message>, k: nat, maxEvents: nat)
    requires Sound(json) && AllSendable(messages) && k <= |PrintAll(json, messages)| && |events| <= maxEvents
    requires |events| == maxEvents || messages == [] || k < |Print(json, messages[0])|
    ensures AfterCut(json, events, messages, k, maxEvents) == Expected(json, events, messages, k, maxEvents)
  {
    if |events| == maxEvents {
      EnoughIsEnough(json, Parser(events, EMPTY), Lines(PrintAll(json, messages)[..k]), maxEvents);
      assert AtMost(events + ReceivedAll(Whole(json, messages, k)), maxEvents) == events;
    } else {
      assert events + [] == events;
      if messages != [] {
        AllButFirstSendable(messages);
        assert PrintAll(json, messages)[..k] == Print(json, messages[0])[..k];
        CutMessageYieldsNothing(json, events, messages[0], k, maxEvents);
      }
    }
  }

  lemma FirstThenRest(json: Json, events: seq<ClientEvent>, messages: seq<Message>, k: nat, rest: seq<Message>, more: nat, maxEvents: nat)
    requires Sound(json) && AllSendable(messages) && |events| < maxEvents
    requires SplitsAt(json, messages, k, rest, more)
    requires AfterCut(json, events + Received(messages[0]), rest, more, maxEvents)
          == Expected(json, events + Received(messages[0]), rest, more, maxEvents)
    ensures AfterCut(json, events, messages, k, maxEvents) == Expected(json, events, messages, k, maxEvents)
  {
    FirstIsReceived(json, events, messages, k, maxEvents);
    FirstIsExpected(json, events, messages, k, maxEvents);
  }

  /** The first message is within the first k characters, and `more` characters of the rest are. */
  ghost predicate SplitsAt(json: Json, messages: seq<Message>, k: nat, rest: seq<Message>, more: nat) {
    && messages != [] && rest == messages[1..] && k == |Print(json, messages[0])| + more
    && more <= |PrintAll(json, rest)| && k <= |PrintAll(json, messages)|
  }

  lemma SplitFirst(json: Json, messages: seq<Message>, k: nat) returns (rest: seq<Message>, more: nat)
    requires AllSendable(messages) && messages != [] && |Print(json, messages[0])| <= k <= |PrintAll(json, messages)|
    ensures SplitsAt(json, messages, k, rest, more) && AllSendable(rest) && |Received(messages[0])| <= 1
  {
    AllButFirstSendable(messages);
    rest, more := messages[1..], k - |Print(json, messages[0])|;
  }

  lemma {:induction false} CutStreamFrom(json: Json, events: seq<ClientEvent>, messages: seq<Message>, k: nat, maxEvents: nat)
    requires Sound(json) && AllSendable(messages) && k <= |PrintAll(json, messages)| && |events| <= maxEvents
    ensures AfterCut(json, events, messages, k, maxEvents) == Expected(json, events, messages, k, maxEvents)
    decreases |messages|
  {
    if |events| == maxEvents || messages == [] || k < |Print(json, messages[0])| {
      NoMoreEvents(json, events, messages, k, maxEvents);
    } else {
      var rest, more := SplitFirst(json, messages, k);
      CutStreamFrom(json, events + Received(messages[0]), rest, more, maxEvents);
      FirstThenRest(json, events, messages, k, rest, more, maxEvents);
    }
  }

  /** Wherever the stream is cut, the client returns exactly the events of the messages that
      arrived whole, in order, up to the number it asked for; keep-alives change nothing. */
  lemma CutStreamComesBack(json: Json, messages: seq<Message>, k: nat, maxEvents: nat)
    requires Sound(json) && AllSendable(messages) && k <= |PrintAll(json, messages)|
    ensures ParseStream(json, PrintAll(json, messages)[..k], maxEvents) == AtMost(ReceivedAll(Whole(json, messages, k)), maxEvents)
  {
    CutStreamFrom(json, [], messages, k, maxEvents);
    assert [] + ReceivedAll(Whole(json, messages, k)) == ReceivedAll(Whole(json, messages, k));
  }

  lemma FirstIsWhole(json: Json, messages: seq<Message>, more: nat)
    requires messages != []
    ensures Whole(json, messages, |Print(json, messages[0])| + more) == [messages[0]] + Whole(json, messages[1..], more)
  {
  }

  lemma {:induction false} AllAreWhole(json: Json, messages: seq<Message>)
    ensures Whole(json, messages, |PrintAll(json, messages)|) == messages
    decreases |messages|
  {
    if messages == [] {
    } else {
      var rest := |PrintAll(json, messages[1..])|;
      assert |PrintAll(json, messages)| == |Print(json, messages[0])| + rest;
      FirstIsWhole(json, messages, rest);
      AllAreWhole(json, messages[1..]);
    }
  }

  /** The whole stream gives back every message. */
  lemma StreamComesBack(json: Json, messages: seq<Message>, maxEvents: nat)
    requires Sound(json) && AllSendable(messages)
    ensures ParseStream(json, PrintAll(json, messages), maxEvents) == AtMost(ReceivedAll(messages), maxEvents)
  {
    var t := PrintAll(json, messages);
    assert t[..|t|] == t;
    CutStreamComesBack(json, messages, |t|, maxEvents);
    AllAreWhole(json, messages);
  }

  // ---------- exactly which messages can be sent ----------

  predicate ReadsOneLine(p: Parser) {
    && (forall i :: 0 <= i < |p.events| ==> OneLine(p.events[i].name) && (p.events[i].id.Some? ==> OneLine(p.events[i].id.value)))
    && (p.current.name.Some? ==> OneLine(p.current.name.value))
    && (p.current.id.Some? ==> OneLine(p.current.id.value))
  }

  lemma {:induction false} LinesEndAtLineFeed(t: Text)
    ensures forall i :: 0 <= i < |Lines(t)| ==> Lines(t)[i] != [] && LF !in Lines(t)[i][..|Lines(t)[i]| - 1]
    decreases |t|
  {
    if t == [] {
    } else {
      var i := IndexOf(t, LF);
      if i < |t| {
        LinesEndAtLineFeed(t[i + 1..]);
        assert t[..i + 1][..i] == t[..i];
      } else {
        assert t[..|t| - 1] <= t;
      }
    }
  }

  lemma {:induction false} TrimmedIsOneLine(t: Text)
    requires t != [] ==> LF !in t[..|t| - 1]
    ensures OneLine(TrimEnd(t)) && TrimEnd(t) <= t
  {
    if t != [] && LineEnd(t[|t| - 1]) {
      var shorter := t[..|t| - 1];
      assert shorter != [] ==> shorter[..|shorter| - 1] <= shorter;
      TrimmedIsOneLine(shorter);
    } else if t != [] {
      assert t == t[..|t| - 1] + [t[|t| - 1]];
    }
  }

  lemma TailIsOneLine(t: Text, k: nat)
    requires OneLine(t) && k <= |t|
    ensures OneLine(t[k..])
  {
  }

  lemma FeedReadsOneLine(json: Json, p: Parser, line: Text)
    requires ReadsOneLine(p) && (line != [] ==> LF !in line[..|line| - 1])
    ensures ReadsOneLine(Feed(json, p, line))
  {
    var t := TrimEnd(line);
    TrimmedIsOneLine(line);
    if t != [] && t[0] != ':' {
      var colon := IndexOf(t, ':');
      var value := FieldValue(t, colon);
      assert value == t[|t| - |value|..];
      TailIsOneLine(t, |t| - |value|);
    }
  }

  lemma {:induction false} FeedAllReadsOneLine(json: Json, p: Parser, lines: seq<Text>, maxEvents: nat)
    requires ReadsOneLine(p)
    requires forall i :: 0 <= i < |lines| ==> lines[i] != [] && LF !in lines[i][..|lines[i]| - 1]
    ensures ReadsOneLine(FeedAll(json, p, lines, maxEvents))
    decreases |lines|
  {
    if lines == [] || |p.events| >= maxEvents {
    } else {
      FeedReadsOneLine(json, p, lines[0]);
      FeedAllReadsOneLine(json, Feed(json, p, lines[0]), lines[1..], maxEvents);
    }
  }

  /** A message comes back unchanged if and only if its id and event name fit on one line. */
  lemma ComesBackIffOneLine(json: Json, m: Message, maxEvents: nat)
    requires Sound(json) && m.Event? && maxEvents > 0
    ensures ParseStream(json, Print(json, m), maxEvents) == Received(m) <==> OneLine(m.id) && OneLine(m.name)
  {
    var t := Print(json, m);
    if Sendable(m) {
      assert PrintAll(json, [m]) == t + [] == t;
      StreamComesBack(json, [m], maxEvents);
      assert ReceivedAll([m]) == Received(m) + [] == Received(m);
    } else {
      LinesEndAtLineFeed(t);
      FeedAllReadsOneLine(json, Parser([], EMPTY), Lines(t), maxEvents);
      var events := ParseStream(json, t, maxEvents);
      assert events != [] ==> OneLine(events[0].name) && (events[0].id.Some? ==> OneLine(events[0].id.value));
      assert Received(m)[0].name == m.name && Received(m)[0].id == Some(m.id);
    }
  }
}
