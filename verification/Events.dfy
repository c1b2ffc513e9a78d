/** The bounded event buffer: its operations on values, and what a reader can tell from it. */
module Events {
  import opened Common

  type Instance = nat
  type Kind = string
  type Data = int

  datatype Item = Item(id: nat, instance: Instance, kind: Kind, data: Data)

  datatype Buffer = Buffer(
    maxsize: nat,
    instance: Instance,
    items: seq<Item>,
    nextId: nat,
    enabled: bool,
    closed: bool
  )

  function Fresh(maxsize: nat, instance: Instance, enabled: bool): Buffer {
    Buffer(maxsize, instance, [], 1, enabled, false)
  }

  /** deque(maxlen): the newest `maxsize` elements. */
  function Newest<T>(items: seq<T>, maxsize: nat): seq<T> {
    if |items| <= maxsize then items else items[|items| - maxsize..]
  }

  function NewItem(b: Buffer, kind: Kind, data: Data): Item {
    Item(b.nextId, b.instance, kind, data)
  }

  predicate Accepts(b: Buffer) {
    !b.closed && b.enabled
  }

  function Append(b: Buffer, kind: Kind, data: Data): Buffer {
    if !Accepts(b) then b
    else b.(items := Newest(b.items + [NewItem(b, kind, data)], b.maxsize), nextId := b.nextId + 1)
  }

  /** An empty filter lets every event through. */
  predicate Matches(kinds: set<Kind>, item: Item) {
    kinds == {} || item.kind in kinds
  }

  function Select(items: seq<Item>, last: int, kinds: set<Kind>): seq<Item> {
    if items == [] then []
    else (if items[0].id > last && Matches(kinds, items[0]) then [items[0]] else []) + Select(items[1..], last, kinds)
  }

  function Take<T>(items: seq<T>, limit: int): seq<T> {
    var n := if limit > 1 then limit else 1;
    if |items| <= n then items else items[..n]
  }

  predicate Gap(b: Buffer, last: int) {
    b.items != [] && last != 0 && last < b.items[0].id - 1
  }

  function ReadAfter(b: Buffer, last: int, kinds: set<Kind>, limit: int): (seq<Item>, bool) {
    (Take(Select(b.items, last, kinds), limit), Gap(b, last))
  }

  function RecoveryCursor(b: Buffer, last: int): int {
    if b.items == [] then last
    else if last < b.items[0].id - 1 then b.items[0].id - 1 else last
  }

  predicate IsCurrent(b: Buffer, instance: Instance) {
    Accepts(b) && instance == b.instance
  }

  function Clear(b: Buffer): Buffer {
    b.(items := [])
  }

  /** set_enabled; a new instance id is one that was never used. */
  function SetEnabled(b: Buffer, enabled: bool, clear: bool, rotateTo: Option<Instance>): Buffer {
    var cleared := if clear then Clear(b) else b;
    var rotated := if rotateTo.Some? then cleared.(instance := rotateTo.value, nextId := 1) else cleared;
    rotated.(enabled := enabled)
  }

  function Close(b: Buffer): Buffer {
    b.(closed := true, enabled := false, items := [])
  }

  // ---------- what the buffer holds ----------

  /** `log` is everything appended in the current instance: ids count from 1. */
  predicate LogFits(b: Buffer, log: seq<Item>) {
    && b.nextId == |log| + 1
    && (forall i :: 0 <= i < |log| ==> log[i].id == i + 1 && log[i].instance == b.instance)
  }

  /** The buffer retains the newest events of its log. */
  predicate Retains(b: Buffer, log: seq<Item>) {
    && LogFits(b, log)
    && |b.items| <= b.maxsize && |b.items| <= |log|
    && b.items == log[|log| - |b.items|..]
  }

  lemma AppendRetains(b: Buffer, log: seq<Item>, kind: Kind, data: Data)
    requires Retains(b, log)
    ensures Retains(Append(b, kind, data), if Accepts(b) then log + [NewItem(b, kind, data)] else log)
  {
    var item := NewItem(b, kind, data);
    assert b.items + [item] == (log + [item])[|log| - |b.items|..];
  }

  lemma ClearRetains(b: Buffer, log: seq<Item>)
    requires Retains(b, log)
    ensures Retains(Clear(b), log) && Retains(Close(b), log)
  {
  }

  /** Disabling and enabling keep the log; a rotation starts a new one, and must clear. */
  lemma SetEnabledRetains(b: Buffer, log: seq<Item>, enabled: bool, clear: bool, rotateTo: Option<Instance>)
    requires Retains(b, log) && (rotateTo.Some? ==> clear)
    ensures Retains(SetEnabled(b, enabled, clear, rotateTo), if rotateTo.Some? then [] else log)
  {
  }

  lemma HeldIffRecent(b: Buffer, log: seq<Item>, x: Item)
    requires Retains(b, log) && x in log
    ensures x in b.items <==> x.id > |log| - |b.items|
  {
    var oldest := |log| - |b.items|;
    assert 1 <= x.id <= |log| && log[x.id - 1] == x;
    if x.id > oldest {
      assert b.items[x.id - 1 - oldest] == x;
    }
    forall k | 0 <= k < |b.items|
      ensures b.items[k].id > oldest
    {
      assert b.items[k] == log[oldest + k];
    }
  }

  /** With a positive cursor, a gap is reported exactly when an event after the cursor is
      gone although a later one is held. */
  lemma GapIffEventLost(b: Buffer, log: seq<Item>, cursor: nat)
    requires Retains(b, log) && b.items != [] && cursor > 0
    ensures Gap(b, cursor) <==> exists x :: x in log && x.id > cursor && x !in b.items
  {
    var oldest := |log| - |b.items|;
    assert b.items[0] == log[oldest];
    if Gap(b, cursor) {
      HeldIffRecent(b, log, log[oldest - 1]);
    } else {
      forall x | x in log && x.id > cursor
        ensures x in b.items
      {
        HeldIffRecent(b, log, x);
      }
    }
  }

  /** No event of the log with an id strictly between `a` and `z` passes the filter. */
  ghost predicate NothingBetween(log: seq<Item>, kinds: set<Kind>, a: int, z: int) {
    forall x :: x in log && a < x.id < z ==> !Matches(kinds, x)
  }

  /** The items follow the cursor `a` and one another with nothing left out. */
  ghost predicate Consecutive(log: seq<Item>, kinds: set<Kind>, a: int, items: seq<Item>)
    decreases |items|
  {
    items == [] ||
    (a < items[0].id && NothingBetween(log, kinds, a, items[0].id) && Consecutive(log, kinds, items[0].id, items[1..]))
  }

  lemma {:induction false} SelectedAreConsecutive(b: Buffer, log: seq<Item>, kinds: set<Kind>, a: int, last: int, from: nat)
    requires LogFits(b, log) && from <= |log| && last <= a && a <= from
    requires forall x :: x in log && a < x.id <= from ==> !Matches(kinds, x)
    requires forall i :: from <= i < |log| ==> log[i].id > last
    ensures Consecutive(log, kinds, a, Select(log[from..], last, kinds))
    decreases |log| - from
  {
    if from >= |log| {
    } else {
      assert log[from..][1..] == log[from + 1..];
      if Matches(kinds, log[from]) {
        SelectedAreConsecutive(b, log, kinds, from + 1, last, from + 1);
        var rest := Select(log[from + 1..], last, kinds);
        assert Select(log[from..], last, kinds) == [log[from]] + rest;
        assert ([log[from]] + rest)[1..] == rest;
      } else {
        SelectedAreConsecutive(b, log, kinds, a, last, from + 1);
        assert Select(log[from..], last, kinds) == Select(log[from + 1..], last, kinds);
      }
    }
  }

  lemma {:induction false} SelectSkips(items: seq<Item>, last: int, kinds: set<Kind>, n: nat)
    requires n <= |items| && forall i :: 0 <= i < n ==> items[i].id <= last
    ensures Select(items, last, kinds) == Select(items[n..], last, kinds)
    decreases n
  {
    if n > 0 {
      SelectSkips(items[1..], last, kinds, n - 1);
      assert items[1..][n - 1..] == items[n..];
    } else {
      assert items[0..] == items;
    }
  }

  lemma {:induction false} TakenAreConsecutive(log: seq<Item>, kinds: set<Kind>, a: int, items: seq<Item>, n: nat)
    requires n <= |items| && Consecutive(log, kinds, a, items)
    ensures Consecutive(log, kinds, a, items[..n])
    decreases n
  {
    if n == 0 {
    } else {
      TakenAreConsecutive(log, kinds, items[0].id, items[1..], n - 1);
      assert items[..n][1..] == items[1..][..n - 1];
    }
  }

  /** Everything held after a cursor inside the retained window. */
  lemma WindowReadIsConsecutive(b: Buffer, log: seq<Item>, kinds: set<Kind>, last: nat)
    requires Retains(b, log) && last >= |log| - |b.items|
    ensures Consecutive(log, kinds, last, Select(b.items, last, kinds))
  {
    var oldest := |log| - |b.items|;
    var from := if last < |log| then last else |log|;
    SelectSkips(b.items, last, kinds, from - oldest);
    assert b.items[from - oldest..] == log[from..];
    if last <= |log| {
      SelectedAreConsecutive(b, log, kinds, last, last, from);
    } else {
      assert Select(log[|log|..], last, kinds) == [];
    }
  }

  /** A read that reports no gap returns the events after a positive cursor with none left out. */
  lemma GaplessReadIsConsecutive(b: Buffer, log: seq<Item>, kinds: set<Kind>, last: nat, limit: int)
    requires Retains(b, log) && last > 0 && !Gap(b, last)
    ensures Consecutive(log, kinds, last, ReadAfter(b, last, kinds, limit).0)
  {
    var selected := Select(b.items, last, kinds);
    if b.items != [] {
      WindowReadIsConsecutive(b, log, kinds, last);
    }
    TakenAreConsecutive(log, kinds, last, selected, |Take(selected, limit)|);
  }

  /** The items after the first leave nothing out, and the first is after the cursor. */
  ghost predicate Following(log: seq<Item>, kinds: set<Kind>, a: int, items: seq<Item>) {
    items == [] || (a < items[0].id && Consecutive(log, kinds, items[0].id, items[1..]))
  }

  /** That much holds of every read, whatever the cursor. */
  lemma ReadIsFollowing(b: Buffer, log: seq<Item>, kinds: set<Kind>, last: int, limit: int)
    requires Retains(b, log)
    ensures Following(log, kinds, last, ReadAfter(b, last, kinds, limit).0)
  {
    var oldest := |log| - |b.items|;
    var selected := Select(b.items, last, kinds);
    var n := |Take(selected, limit)|;
    if last >= oldest {
      WindowReadIsConsecutive(b, log, kinds, last);
      TakenAreConsecutive(log, kinds, last, selected, n);
    } else {
      SelectedAreConsecutive(b, log, kinds, oldest, last, oldest);
      TakenAreConsecutive(log, kinds, oldest, selected, n);
    }
  }

  // ---------- exactly what a read returns ----------

  /** Later than the cursor, and of a requested type if any type was requested. */
  predicate Requested(last: int, kinds: set<Kind>, x: Item) {
    x.id > last && (kinds == {} || x.kind in kinds)
  }

  predicate Ascending(items: seq<Item>) {
    forall i, j :: 0 <= i < j < |items| ==> items[i].id < items[j].id
  }

  lemma {:induction false} SelectedAreRequested(items: seq<Item>, last: int, kinds: set<Kind>)
    ensures forall x :: x in Select(items, last, kinds) <==> x in items && Requested(last, kinds, x)
  {
    if items == [] {
    } else {
      SelectedAreRequested(items[1..], last, kinds);
      assert items == [items[0]] + items[1..];
    }
  }

  lemma {:induction false} SelectedAscend(items: seq<Item>, last: int, kinds: set<Kind>)
    requires Ascending(items)
    ensures Ascending(Select(items, last, kinds))
  {
    if items == [] {
    } else {
      var rest := Select(items[1..], last, kinds);
      SelectedAscend(items[1..], last, kinds);
      SelectedAreRequested(items[1..], last, kinds);
      forall j | 0 <= j < |rest|
        ensures items[0].id < rest[j].id
      {
        assert rest[j] in items[1..];
      }
    }
  }

  lemma HeldAscend(b: Buffer, log: seq<Item>)
    requires Retains(b, log)
    ensures Ascending(b.items)
  {
    assert forall i :: 0 <= i < |b.items| ==> b.items[i] == log[|log| - |b.items| + i];
  }

  lemma TakenComeFirst(items: seq<Item>, limit: int)
    requires Ascending(items)
    ensures var taken, most := Take(items, limit), if limit > 1 then limit else 1;
            && Ascending(taken) && |taken| <= most
            && (forall x :: x in taken ==> x in items)
            && (forall x :: x in items && x !in taken ==> |taken| == most && taken[most - 1].id < x.id)
  {
    var taken := Take(items, limit);
    assert forall k :: 0 <= k < |taken| ==> items[k] == taken[k];
    forall x | x in items && x !in taken
      ensures |taken| < |items| && taken != [] && taken[|taken| - 1].id < x.id
    {
      var i :| 0 <= i < |items| && items[i] == x;
      assert i >= |taken|;
    }
  }

  /** A read returns the first of the held events that were requested, in order: at most
      `limit` of them and at least one, and all of them if there are no more than that. */
  lemma ReadIsExact(b: Buffer, log: seq<Item>, last: int, kinds: set<Kind>, limit: int)
    requires Retains(b, log)
    ensures var read, most := ReadAfter(b, last, kinds, limit).0, if limit > 1 then limit else 1;
            && (forall x :: x in read ==> x in b.items && Requested(last, kinds, x))
            && Ascending(read) && |read| <= most
            && (forall x :: x in b.items && Requested(last, kinds, x) && x !in read ==>
                  |read| == most && read[most - 1].id < x.id)
  {
    HeldAscend(b, log);
    SelectedAscend(b.items, last, kinds);
    SelectedAreRequested(b.items, last, kinds);
    TakenComeFirst(Select(b.items, last, kinds), limit);
  }

  /** The recovery cursor passes over nothing that is held, and no gap is left before it. */
  lemma RecoverySkipsNothing(b: Buffer, log: seq<Item>, last: int)
    requires Retains(b, log)
    ensures var cursor := RecoveryCursor(b, last);
            && last <= cursor && !Gap(b, cursor)
            && (forall x :: x in b.items && x.id > last ==> x.id > cursor)
            && (cursor != last ==> Gap(b, last) || last == 0)
  {
    HeldAscend(b, log);
  }

  // ---------- exactly what is held ----------

  function AppendAll(b: Buffer, events: seq<(Kind, Data)>): Buffer
    decreases |events|
  {
    if events == [] then b else AppendAll(Append(b, events[0].0, events[0].1), events[1..])
  }

  /** An open buffer holds the newest events, as many as there is room for: the oldest are
      dropped only for want of room, and what is held is the end of the longer log. */
  lemma {:induction false} BufferFillsUp(b: Buffer, log: seq<Item>, events: seq<(Kind, Data)>) returns (longer: seq<Item>)
    requires Retains(b, log) && Accepts(b)
    ensures var q := AppendAll(b, events);
            && Retains(q, longer) && log <= longer && |longer| == |log| + |events|
            && (forall i :: 0 <= i < |events| ==> longer[|log| + i].kind == events[i].0 && longer[|log| + i].data == events[i].1)
            && |q.items| == if |b.items| + |events| <= b.maxsize then |b.items| + |events| else b.maxsize
    decreases |events|
  {
    if events == [] {
      longer := log;
    } else {
      var item := NewItem(b, events[0].0, events[0].1);
      AppendRetains(b, log, events[0].0, events[0].1);
      longer := BufferFillsUp(Append(b, events[0].0, events[0].1), log + [item], events[1..]);
      forall i | 0 <= i < |events|
        ensures longer[|log| + i].kind == events[i].0 && longer[|log| + i].data == events[i].1
      {
        if i > 0 {
          assert events[1..][i - 1] == events[i];
        } else {
          assert (log + [item])[|log|] == longer[|log|];
        }
      }
    }
  }

  /** Suspending a buffer without clearing it and resuming it loses nothing. */
  lemma SuspendingKeepsEvents(b: Buffer, log: seq<Item>, kind: Kind, data: Data)
    requires Accepts(b)
    ensures var suspended := SetEnabled(b, false, false, None);
            && Append(suspended, kind, data) == suspended
            && SetEnabled(suspended, true, false, None) == b
  {
  }
}
