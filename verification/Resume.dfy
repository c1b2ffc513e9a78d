/** Event ids as text, the Last-Event-ID header, and what a client loses by reconnecting. */
module Resume {
  import opened Common
  import opened Events
  import opened Sse

  // ---------- int() and its inverse ----------

  function DigitChar(d: nat): char
    requires d < 10
  {
    "0123456789"[d]
  }

  function DigitValue(c: char): Option<nat> {
    if '0' <= c <= '9' then Some((c - '0') as nat) else None
  }

  function DecimalNat(n: nat): string {
    if n < 10 then [DigitChar(n)] else DecimalNat(n / 10) + [DigitChar(n % 10)]
  }

  function Decimal(n: int): string {
    if n < 0 then "-" + DecimalNat(-n) else DecimalNat(n)
  }

  /** Digits, with single underscores between them; `open` says a digit came last. */
  function ParseDigits(t: string, open: bool, n: nat): Option<nat> {
    if t == [] then (if open then Some(n) else None)
    else
      match DigitValue(t[0])
      case Some(d) => ParseDigits(t[1..], true, n * 10 + d)
      case None => if t[0] == '_' && open then ParseDigits(t[1..], false, n) else None
  }

  predicate Blank(c: char) {
    c == ' ' || '\t' <= c <= '\r'
  }

  function Strip(t: string): string
    decreases |t|
  {
    if t != [] && Blank(t[0]) then Strip(t[1..])
    else if t != [] && Blank(t[|t| - 1]) then Strip(t[..|t| - 1])
    else t
  }

  /** Python's int() on ASCII text. */
  function ParseInt(text: string): Option<int> {
    var t := Strip(text);
    var signed := t != [] && (t[0] == '-' || t[0] == '+');
    match ParseDigits(if signed then t[1..] else t, false, 0)
    case Some(n) =>
      var size: int := n;
      Some(if signed && t[0] == '-' then -size else size)
    case None => None
  }

  lemma {:induction false} DigitsParse(n: nat, rest: string)
    ensures ParseDigits(DecimalNat(n) + rest, false, 0) == ParseDigits(rest, true, n)
    decreases n
  {
    var d := DigitChar(n % 10);
    assert DigitValue(d) == Some(n % 10);
    if n < 10 {
      assert ([d] + rest)[1..] == rest;
    } else {
      DigitsParse(n / 10, [d] + rest);
      assert DecimalNat(n) + rest == DecimalNat(n / 10) + ([d] + rest);
      assert ([d] + rest)[1..] == rest;
    }
  }

  lemma {:induction false} DigitsOnly(n: nat)
    ensures DecimalNat(n) != [] && forall i :: 0 <= i < |DecimalNat(n)| ==> '0' <= DecimalNat(n)[i] <= '9'
  {
    if n < 10 {
    } else {
      DigitsOnly(n / 10);
    }
  }

  lemma NothingToStrip(t: string)
    requires t != [] && !Blank(t[0]) && !Blank(t[|t| - 1])
    ensures Strip(t) == t
  {
  }

  lemma DecimalParses(n: int)
    ensures ParseInt(Decimal(n)) == Some(n)
  {
    var size: nat := if n < 0 then -n else n;
    var digits := DecimalNat(size);
    DigitsOnly(size);
    DigitsParse(size, []);
    assert digits + [] == digits;
    NothingToStrip(Decimal(n));
    assert n < 0 ==> Decimal(n)[0] == '-' && Decimal(n)[1..] == digits;
  }

  // ---------- ids ----------

  function IdText(instance: string, n: int): string {
    instance + ":" + Decimal(n)
  }

  function LastIndexOf(t: string, c: char): Option<nat> {
    if t == [] then None else if t[|t| - 1] == c then Some(|t| - 1) else LastIndexOf(t[..|t| - 1], c)
  }

  lemma {:induction false} LastIndexFits(t: string, c: char)
    ensures LastIndexOf(t, c).Some? ==> LastIndexOf(t, c).value < |t|
  {
    if t == [] {
    } else {
      LastIndexFits(t[..|t| - 1], c);
    }
  }

  /** What the server makes of a Last-Event-ID header; an empty header is no header. */
  function ResumeOf(header: string, instance: string): Sse.Resume {
    if header == "" then FromCursor(0)
    else
      LastIndexFits(header, ':');
      match LastIndexOf(header, ':')
      case None => InstanceChanged
      case Some(i) =>
        match ParseInt(header[i + 1..])
        case None => InstanceChanged
        case Some(n) => if header[..i] != instance then InstanceChanged else FromCursor(n)
  }

  lemma {:induction false} LastIndexAfter(before: string, c: char, after: string)
    requires c !in after
    ensures LastIndexOf(before + [c] + after, c) == Some(|before|)
    decreases |after|
  {
    var t := before + [c] + after;
    if after == [] {
      assert t[|t| - 1] == c;
    } else {
      var shorter := after[..|after| - 1];
      assert t[..|t| - 1] == before + [c] + shorter;
      assert after == shorter + [after[|after| - 1]];
      LastIndexAfter(before, c, shorter);
    }
  }

  /** An id sent back as Last-Event-ID resumes at its cursor in its own instance, and is
      recognized as stale in any other. */
  lemma IdResumes(instance: string, n: int, current: string)
    ensures ResumeOf(IdText(instance, n), current) == if current == instance then FromCursor(n) else InstanceChanged
  {
    var header := instance + [':'] + Decimal(n);
    assert header == IdText(instance, n);
    DigitsOnly(if n < 0 then -n else n);
    LastIndexAfter(instance, ':', Decimal(n));
    assert header[|instance| + 1..] == Decimal(n) && header[..|instance|] == instance;
    DecimalParses(n);
  }

  /** An instance, a colon, and the text of an integer. */
  ghost predicate IsIdOf(header: string, instance: string) {
    exists t :: ':' !in t && ParseInt(t).Some? && header == instance + [':'] + t
  }

  lemma {:induction false} LastIndexSplits(t: string, c: char)
    ensures match LastIndexOf(t, c)
            case None => c !in t
            case Some(i) => i < |t| && c !in t[i + 1..] && t == t[..i] + [c] + t[i + 1..]
  {
    if t == [] || t[|t| - 1] == c {
    } else {
      var shorter := t[..|t| - 1];
      LastIndexSplits(shorter, c);
      match LastIndexOf(shorter, c) {
        case None =>
          assert t == shorter + [t[|t| - 1]];
        case Some(i) =>
          assert t[i + 1..] == shorter[i + 1..] + [t[|t| - 1]];
      }
    }
  }

  /** A header resumes a stream exactly if it is an id of the current instance, at that id's
      cursor; no header starts at 0, and every other one is taken for another instance's. */
  lemma HeaderIsExact(header: string, instance: string)
    ensures ResumeOf(header, instance).FromCursor? <==> header == "" || IsIdOf(header, instance)
    ensures header == "" ==> ResumeOf(header, instance) == FromCursor(0)
    ensures forall t :: ':' !in t && header == instance + [':'] + t && ParseInt(t).Some? ==>
              ResumeOf(header, instance) == FromCursor(ParseInt(t).value)
  {
    LastIndexSplits(header, ':');
    forall t | ':' !in t && header == instance + [':'] + t && ParseInt(t).Some?
      ensures ResumeOf(header, instance) == FromCursor(ParseInt(t).value)
    {
      LastIndexAfter(instance, ':', t);
      assert header[|instance| + 1..] == t && header[..|instance|] == instance;
    }
    if header != "" && ResumeOf(header, instance).FromCursor? {
      var i := LastIndexOf(header, ':').value;
      assert header == instance + [':'] + header[i + 1..];
    }
  }

  predicate Numeral(c: char) {
    '0' <= c <= '9' || c == '_'
  }

  lemma {:induction false} ParsedDigits(t: string, open: bool, n: nat)
    requires ParseDigits(t, open, n).Some?
    ensures (forall i :: 0 <= i < |t| ==> Numeral(t[i])) && (t == [] ==> open)
    ensures t != [] ==> exists i :: 0 <= i < |t| && '0' <= t[i] <= '9'
    decreases |t|
  {
    if t == [] {
    } else {
      var d := DigitValue(t[0]);
      if d.Some? {
        ParsedDigits(t[1..], true, n * 10 + d.value);
      } else {
        ParsedDigits(t[1..], false, n);
        var i :| 0 <= i < |t[1..]| && '0' <= t[1..][i] <= '9';
        assert '0' <= t[i + 1] <= '9';
      }
      assert t == [t[0]] + t[1..];
    }
  }

  lemma {:induction false} StripKeeps(t: string)
    ensures |Strip(t)| <= |t|
    ensures forall c :: c in t && !Blank(c) ==> c in Strip(t)
    ensures forall c :: c in Strip(t) ==> c in t
    decreases |t|
  {
    if t == [] {
    } else if Blank(t[0]) {
      StripKeeps(t[1..]);
      assert t == [t[0]] + t[1..];
    } else if Blank(t[|t| - 1]) {
      StripKeeps(t[..|t| - 1]);
      assert t == t[..|t| - 1] + [t[|t| - 1]];
    }
  }

  /** What int() accepts has a digit, and besides digits only underscores, signs and blanks. */
  lemma OnlyNumeralsParse(text: string)
    requires ParseInt(text).Some?
    ensures exists c :: c in text && '0' <= c <= '9'
    ensures forall c :: c in text ==> Numeral(c) || c == '-' || c == '+' || Blank(c)
  {
    var t := Strip(text);
    var signed := t != [] && (t[0] == '-' || t[0] == '+');
    var digits := if signed then t[1..] else t;
    StripKeeps(text);
    ParsedDigits(digits, false, 0);
    assert digits != [];
    var i :| 0 <= i < |digits| && '0' <= digits[i] <= '9';
    assert digits[i] in t;
    forall c | c in t
      ensures Numeral(c) || c == '-' || c == '+'
    {
      var j :| 0 <= j < |t| && t[j] == c;
      if signed && j > 0 {
        assert digits[j - 1] == c;
      }
    }
  }

  // ---------- reconnecting ----------

  /** The cursor of the last message that carries an id; `start` if there is none. */
  function LastCursor(start: int, written: seq<Message>): int
    decreases |written|
  {
    if written == [] then start
    else
      match written[0]
      case ItemSent(item) => LastCursor(item.id, written[1..])
      case ResetSent(_, cursor) => LastCursor(cursor, written[1..])
      case KeepAliveSent => LastCursor(start, written[1..])
  }

  lemma {:induction false} PrefixLosesNothing(log: seq<Item>, kinds: set<Kind>, a: int, reset: bool, written: seq<Message>, k: nat)
    requires NoSilentLoss(log, kinds, a, reset, written) && k <= |written|
    ensures NoSilentLoss(log, kinds, a, reset, written[..k])
    decreases |written|
  {
    if k == 0 {
    } else {
      assert written[..k][1..] == written[1..][..k - 1];
      match written[0] {
        case ItemSent(item) => PrefixLosesNothing(log, kinds, item.id, false, written[1..], k - 1);
        case ResetSent(_, _) => PrefixLosesNothing(log, kinds, a, true, written[1..], k - 1);
        case KeepAliveSent => PrefixLosesNothing(log, kinds, a, reset, written[1..], k - 1);
      }
    }
  }

  /** After a reset, messages that follow a later cursor follow an earlier one too. */
  lemma {:induction false} LaterCursorIsEnough(log: seq<Item>, kinds: set<Kind>, a: int, b: int, reset: bool, written: seq<Message>)
    requires NoSilentLoss(log, kinds, b, reset, written) && a <= b
    ensures NoSilentLoss(log, kinds, a, true, written)
    decreases |written|
  {
    if written == [] {
    } else {
      match written[0] {
        case ItemSent(item) =>
        case ResetSent(_, _) => LaterCursorIsEnough(log, kinds, a, b, true, written[1..]);
        case KeepAliveSent => LaterCursorIsEnough(log, kinds, a, b, reset, written[1..]);
      }
    }
  }

  /** Messages that were received, followed by those of a stream resumed from their last id. */
  lemma {:induction false} Joined(log: seq<Item>, kinds: set<Kind>, a: int, reset: bool, last: int, received: seq<Message>, resumed: seq<Message>)
    requires NoSilentLoss(log, kinds, a, reset, received)
    requires if reset then a <= last else a == last
    requires var c := LastCursor(last, received);
             NoSilentLoss(log, kinds, c, c == 0, resumed)
    requires a == 0 ==> reset
    requires WrittenFromOne(received)
    ensures NoSilentLoss(log, kinds, a, reset, received + resumed)
    decreases |received|
  {
    if received == [] {
      assert received + resumed == resumed;
      if reset {
        LaterCursorIsEnough(log, kinds, a, last, last == 0, resumed);
      }
    } else {
      assert (received + resumed)[1..] == received[1..] + resumed;
      assert WrittenFromOne(received[1..]) by {
        assert forall i :: 0 <= i < |received| - 1 ==> received[1..][i] == received[i + 1];
      }
      match received[0] {
        case ItemSent(item) => Joined(log, kinds, item.id, false, item.id, received[1..], resumed);
        case ResetSent(_, cursor) => Joined(log, kinds, a, true, cursor, received[1..], resumed);
        case KeepAliveSent => Joined(log, kinds, a, reset, last, received[1..], resumed);
      }
    }
  }

  predicate WrittenFromOne(written: seq<Message>) {
    forall i :: 0 <= i < |written| && written[i].ItemSent? ==> written[i].item.id >= 1
  }

  lemma {:induction false} LossStaysReportedInLongerLog(log: seq<Item>, more: seq<Item>, kinds: set<Kind>, a: int, reset: bool, written: seq<Message>)
    requires NoSilentLoss(log, kinds, a, reset, written) && WrittenUpTo(written, |log|)
    requires log <= more && forall i :: 0 <= i < |more| ==> more[i].id == i + 1
    ensures NoSilentLoss(more, kinds, a, reset, written)
    decreases |more| - |log|
  {
    if |log| == |more| {
      assert log == more;
    } else {
      var longer := log + [more[|log|]];
      LossStaysReported(log, more[|log|], kinds, a, reset, written);
      LossStaysReportedInLongerLog(longer, more, kinds, a, reset, written);
    }
  }

  lemma {:induction false} RunGrowsLog(s: Stream, events: seq<Event>)
    requires Possible(s, events) && OneInstance(events)
    ensures s.log <= Run(s, events).log
    decreases |events|
  {
    if events == [] {
    } else {
      assert !events[0].Rotate?;
      assert OneInstance(events[1..]) by {
        assert forall i :: 0 <= i < |events| - 1 ==> events[1..][i] == events[i + 1];
      }
      RunGrowsLog(Step(s, events[0]), events[1..]);
    }
  }

  /** One connection: what happens during it and until the next, and how many of its messages
      the client has received whole. */
  datatype Connection = Connection(events: seq<Event>, received: nat)

  function Reconnected(s: Stream, cursor: int): Stream {
    Connected(s.buffer, s.log, s.restricted, s.kinds, FromCursor(cursor))
  }

  function ReceivedOn(s: Stream, c: Connection): seq<Message>
    requires Possible(s, c.events) && c.received <= |Run(s, c.events).written|
  {
    Run(s, c.events).written[..c.received]
  }

  /** Where the client connects after connection `c`: from the last id it has received. */
  function Next(s: Stream, c: Connection): Stream
    requires Possible(s, c.events) && c.received <= |Run(s, c.events).written|
  {
    Reconnected(Run(s, c.events), LastCursor(s.last, ReceivedOn(s, c)))
  }

  ghost predicate AllPossible(s: Stream, connections: seq<Connection>)
    decreases |connections|
  {
    connections == [] ||
    var c := connections[0];
    && Possible(s, c.events) && OneInstance(c.events) && c.received <= |Run(s, c.events).written|
    && AllPossible(Next(s, c), connections[1..])
  }

  /** All the messages received, in order. */
  function AllReceived(s: Stream, connections: seq<Connection>): seq<Message>
    requires AllPossible(s, connections)
    decreases |connections|
  {
    if connections == [] then [] else ReceivedOn(s, connections[0]) + AllReceived(Next(s, connections[0]), connections[1..])
  }

  /** The events of the instance by the end. */
  function FinalLog(s: Stream, connections: seq<Connection>): seq<Item>
    requires AllPossible(s, connections)
    decreases |connections|
  {
    if connections == [] then s.log else FinalLog(Next(s, connections[0]), connections[1..])
  }

  lemma OneConnection(s: Stream, c: Connection)
    requires Retains(s.buffer, s.log) && s == Reconnected(s, s.last) && Possible(s, c.events) && OneInstance(c.events)
    requires c.received <= |Run(s, c.events).written|
    ensures var q, received := Run(s, c.events), ReceivedOn(s, c);
            && Retains(q.buffer, q.log) && s.log <= q.log && q.kinds == s.kinds
            && NoSilentLoss(q.log, s.kinds, s.last, s.last == 0, received) && WrittenUpTo(received, |q.log|)
  {
    RunKeeps(s, c.events, s.last, s.last == 0);
    RunKeepsKinds(s, c.events);
    RunGrowsLog(s, c.events);
    var q := Run(s, c.events);
    PrefixLosesNothing(q.log, s.kinds, s.last, s.last == 0, q.written, c.received);
  }

  /** A client that loses its connection any number of times, each time after any number of
      whole messages, and resumes with the last id it received, sees the streams as one:
      between consecutive items nothing is left out without a reset, whatever was appended
      or dropped in the meantime. */
  lemma {:induction false} ReconnectingLosesNothing(s: Stream, connections: seq<Connection>)
    requires Retains(s.buffer, s.log) && s == Reconnected(s, s.last) && AllPossible(s, connections)
    ensures s.log <= FinalLog(s, connections) && forall i :: 0 <= i < |FinalLog(s, connections)| ==> FinalLog(s, connections)[i].id == i + 1
    ensures NoSilentLoss(FinalLog(s, connections), s.kinds, s.last, s.last == 0, AllReceived(s, connections))
    decreases |connections|
  {
    if connections == [] {
    } else {
      var c, rest := connections[0], connections[1..];
      var q, received, log := Run(s, c.events), ReceivedOn(s, c), FinalLog(s, connections);
      OneConnection(s, c);
      ReconnectingLosesNothing(Next(s, c), rest);
      LossStaysReportedInLongerLog(q.log, log, s.kinds, s.last, s.last == 0, received);
      Joined(log, s.kinds, s.last, s.last == 0, s.last, received, AllReceived(Next(s, c), rest));
    }
  }
}
