/** The event buffer as the object the bridge shares; each method is one critical section. */
module EventsObject {
  import opened Common
  import opened Events

  class EventBuffer {
    const maxsize: nat
    var instance: Instance
    var items: seq<Item>
    var nextId: nat
    var enabled: bool
    var closed: bool

    ghost function State(): Buffer
      reads this
    {
      Buffer(maxsize, instance, items, nextId, enabled, closed)
    }

    constructor (maxsize: nat, instance: Instance, enabled: bool)
      ensures State() == Fresh(maxsize, instance, enabled) && Retains(State(), [])
    {
      this.maxsize, this.instance, this.enabled := maxsize, instance, enabled;
      items, nextId, closed := [], 1, false;
    }

    /** The deque drops its oldest element when it is full. */
    method Append(kind: Kind, data: Data, ghost log: seq<Item>) returns (appended: Option<Item>)
      requires Retains(State(), log)
      modifies this
      ensures State() == Events.Append(old(State()), kind, data)
      ensures appended == (if Accepts(old(State())) then Some(NewItem(old(State()), kind, data)) else None)
      ensures Retains(State(), if appended.Some? then log + [appended.value] else log)
    {
      AppendRetains(State(), log, kind, data);
      if closed || !enabled {
        return None;
      }
      var item := Item(nextId, instance, kind, data);
      nextId := nextId + 1;
      items := items + [item];
      if |items| > maxsize {
        items := items[1..];
      }
      return Some(item);
    }

    method ReadAfter(last: int, kinds: set<Kind>, limit: int) returns (found: seq<Item>, gap: bool)
      ensures (found, gap) == Events.ReadAfter(State(), last, kinds, limit)
      ensures forall x :: x in found ==> x in items && x.id > last && (kinds == {} || x.kind in kinds)
    {
      SelectedAreRequested(items, last, kinds);
      if items == [] {
        return [], false;
      }
      gap := last != 0 && last < items[0].id - 1;
      found := Filter(items, last, kinds);
      found := Take(found, limit);
    }

    method RecoveryCursor(last: int) returns (cursor: int)
      ensures cursor == Events.RecoveryCursor(State(), last)
      ensures !Gap(State(), cursor) && cursor >= last
    {
      if items == [] {
        return last;
      }
      var windowStart := items[0].id - 1;
      return if last < windowStart then windowStart else last;
    }

    method SetEnabled(enabled: bool, clear: bool, rotateTo: Option<Instance>)
      modifies this
      ensures State() == Events.SetEnabled(old(State()), enabled, clear, rotateTo)
      ensures this.enabled == enabled && closed == old(closed) && items == (if clear then [] else old(items))
      ensures if rotateTo.Some? then instance == rotateTo.value && nextId == 1 else instance == old(instance) && nextId == old(nextId)
    {
      this.enabled := enabled;
      if clear {
        items := [];
      }
      if rotateTo.Some? {
        instance := rotateTo.value;
        nextId := 1;
      }
    }

    method Clear()
      modifies this
      ensures State() == Events.Clear(old(State()))
    {
      items := [];
    }

    method Close()
      modifies this
      ensures State() == Events.Close(old(State()))
      ensures closed && !enabled && items == []
    {
      closed, enabled, items := true, false, [];
    }
  }

  lemma OneMore(found: seq<Item>, item: Item, rest: seq<Item>)
    ensures found + ([item] + rest) == found + [item] + rest
  {
  }

  method Filter(items: seq<Item>, last: int, kinds: set<Kind>) returns (found: seq<Item>)
    ensures found == Select(items, last, kinds)
  {
    found := [];
    var i := 0;
    while i < |items|
      invariant 0 <= i <= |items|
      invariant found + Select(items[i..], last, kinds) == Select(items, last, kinds)
    {
      var rest := Select(items[i + 1..], last, kinds);
      assert items[i..][1..] == items[i + 1..];
      if items[i].id > last && Matches(kinds, items[i]) {
        OneMore(found, items[i], rest);
        found := found + [items[i]];
      } else {
        assert [] + rest == rest;
      }
      i := i + 1;
    }
    assert items[i..] == [] && found + [] == found;
  }

  predicate Silent(b: Buffer, last: int, kinds: set<Kind>, limit: int) {
    Accepts(b) && ReadAfter(b, last, kinds, limit) == ([], false)
  }

  type Time = real

  /** What a waiting thread finds when it holds the lock: the buffer, and the clock if it looks at it. */
  datatype Wake = Wake(buffer: Buffer, now: Time)

  /** Nothing to say yet, and time left to wait. */
  predicate KeepsWaiting(wake: Wake, deadline: Time, last: int, kinds: set<Kind>, limit: int) {
    Silent(wake.buffer, last, kinds, limit) && wake.now < deadline
  }

  /** The first wake that ends the wait. */
  function Decisive(wakes: seq<Wake>, deadline: Time, last: int, kinds: set<Kind>, limit: int): (seen: nat)
    requires wakes != [] && wakes[|wakes| - 1].now >= deadline
    ensures seen < |wakes| && !KeepsWaiting(wakes[seen], deadline, last, kinds, limit)
    ensures forall i :: 0 <= i < seen ==> KeepsWaiting(wakes[i], deadline, last, kinds, limit)
  {
    if KeepsWaiting(wakes[0], deadline, last, kinds, limit) then Decisive(wakes[1..], deadline, last, kinds, limit) + 1 else 0
  }

  /** `wakes` is each time the thread holds the lock, notified or not; the clock passes the
      deadline at last. The wait ends at the first wake with something to say or no time left,
      and times out only at one that is silent and late. */
  method WaitAfter(wakes: seq<Wake>, started: Time, timeout: Time, last: int, kinds: set<Kind>, limit: int)
    returns (items: seq<Item>, gap: bool, closed: bool)
    requires wakes != [] && wakes[|wakes| - 1].now >= started + timeout
    ensures var wake := wakes[Decisive(wakes, started + timeout, last, kinds, limit)];
            && (closed <==> !Accepts(wake.buffer))
            && (items, gap) == (if closed then ([], false) else ReadAfter(wake.buffer, last, kinds, limit))
            && (items == [] && !gap && !closed ==> wake.now >= started + timeout)
  {
    var deadline := started + timeout;
    ghost var seen := Decisive(wakes, deadline, last, kinds, limit);
    var i := 0;
    while !wakes[i].buffer.closed
      invariant 0 <= i <= seen
      decreases |wakes| - i
    {
      if !wakes[i].buffer.enabled {
        return [], false, true;
      }
      var (found, lost) := ReadAfter(wakes[i].buffer, last, kinds, limit);
      if found != [] || lost {
        return found, lost, false;
      }
      if deadline - wakes[i].now <= 0.0 {
        return [], false, false;
      }
      assert KeepsWaiting(wakes[i], deadline, last, kinds, limit);
      i := i + 1;
    }
    return [], false, true;
  }
}
