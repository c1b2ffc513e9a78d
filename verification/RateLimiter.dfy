/** The sliding-window rate limiter. */
module RateLimiter {
  type Time = real
  type Key = string

  /** The limiter of one key looks at a queue of accepted call times. */
  datatype Setup = Setup(limit: nat, window: Time)

  /** popleft while the front is outside the window. */
  function Prune(entries: seq<Time>, from: Time): seq<Time> {
    if entries != [] && entries[0] <= from then Prune(entries[1..], from) else entries
  }

  function Check(s: Setup, entries: seq<Time>, now: Time): (seq<Time>, bool) {
    var pruned := Prune(entries, now - s.window);
    if |pruned| >= s.limit then (pruned, false) else (pruned + [now], true)
  }

  /** The queue after calls at these times. */
  function Entries(s: Setup, times: seq<Time>): seq<Time> {
    if times == [] then [] else Check(s, Entries(s, times[..|times| - 1]), times[|times| - 1]).0
  }

  /** Whether the last of these calls is accepted. */
  predicate AcceptsLast(s: Setup, times: seq<Time>)
    requires times != []
  {
    Check(s, Entries(s, times[..|times| - 1]), times[|times| - 1]).1
  }

  // ---------- the reference: accepted calls in a window, counted over the whole history ----------

  /** The times after `from` of the calls that were accepted. */
  function AcceptedAfter(s: Setup, times: seq<Time>, from: Time): seq<Time> {
    if times == [] then []
    else
      var now := times[|times| - 1];
      AcceptedAfter(s, times[..|times| - 1], from) + (if AcceptsLast(s, times) && now > from then [now] else [])
  }

  /** How many calls were accepted in (low, high]. */
  function AcceptedIn(s: Setup, times: seq<Time>, low: Time, high: Time): nat {
    if times == [] then 0
    else
      var now := times[|times| - 1];
      AcceptedIn(s, times[..|times| - 1], low, high) + (if AcceptsLast(s, times) && low < now <= high then 1 else 0)
  }

  predicate Nondecreasing(times: seq<Time>) {
    forall i, j :: 0 <= i <= j < |times| ==> times[i] <= times[j]
  }

  predicate NoneAfter(times: seq<Time>, bound: Time) {
    forall i :: 0 <= i < |times| ==> times[i] <= bound
  }

  lemma {:induction false} PruneAppend(entries: seq<Time>, x: Time, from: Time)
    requires NoneAfter(entries, x)
    ensures Prune(entries + [x], from) == Prune(entries, from) + (if x > from then [x] else [])
  {
    if entries == [] {
      assert [x][1..] == [];
    } else if entries[0] <= from {
      assert (entries + [x])[1..] == entries[1..] + [x];
      PruneAppend(entries[1..], x, from);
    }
  }

  lemma {:induction false} AcceptedAreCalls(s: Setup, times: seq<Time>, from: Time, bound: Time)
    requires NoneAfter(times, bound)
    ensures NoneAfter(AcceptedAfter(s, times, from), bound)
  {
    if times == [] {
    } else {
      AcceptedAreCalls(s, times[..|times| - 1], from, bound);
    }
  }

  /** Looking only at the front of the queue drops everything outside the window. */
  lemma {:induction false} PruneIsFilter(s: Setup, times: seq<Time>, from: Time, later: Time)
    requires Nondecreasing(times) && from <= later
    ensures Prune(AcceptedAfter(s, times, from), later) == AcceptedAfter(s, times, later)
  {
    if times == [] {
    } else {
      var before, now := times[..|times| - 1], times[|times| - 1];
      PruneIsFilter(s, before, from, later);
      AcceptedAreCalls(s, before, from, now);
      if AcceptsLast(s, times) && now > from {
        PruneAppend(AcceptedAfter(s, before, from), now, later);
      } else {
        assert AcceptedAfter(s, before, from) + [] == AcceptedAfter(s, before, from);
      }
    }
  }

  lemma {:induction false} QueueIsWindow(s: Setup, times: seq<Time>)
    requires Nondecreasing(times) && s.window > 0.0 && times != []
    ensures Entries(s, times) == AcceptedAfter(s, times, times[|times| - 1] - s.window)
    ensures Prune(Entries(s, times[..|times| - 1]), times[|times| - 1] - s.window)
         == AcceptedAfter(s, times[..|times| - 1], times[|times| - 1] - s.window)
  {
    var before, now := times[..|times| - 1], times[|times| - 1];
    if before != [] {
      var last := before[|before| - 1];
      assert last == times[|times| - 2] <= now;
      QueueIsWindow(s, before);
      PruneIsFilter(s, before, last - s.window, now - s.window);
    }
    var kept := AcceptedAfter(s, before, now - s.window);
    assert kept + [] == kept;
  }

  /** A call is accepted if and only if fewer than `limit` earlier calls were accepted in the
      window that ends with it; so a rejected call costs nothing. */
  lemma AcceptedIffRoomInWindow(s: Setup, times: seq<Time>)
    requires Nondecreasing(times) && s.window > 0.0 && times != []
    ensures var before, now := times[..|times| - 1], times[|times| - 1];
            AcceptsLast(s, times) <==> AcceptedIn(s, before, now - s.window, now) < s.limit
  {
    var before, now := times[..|times| - 1], times[|times| - 1];
    QueueIsWindow(s, times);
    AcceptedAreCounted(s, before, now - s.window, now);
  }

  lemma {:induction false} AcceptedAreCounted(s: Setup, times: seq<Time>, low: Time, high: Time)
    requires NoneAfter(times, high)
    ensures AcceptedIn(s, times, low, high) == |AcceptedAfter(s, times, low)|
  {
    if times == [] {
    } else {
      AcceptedAreCounted(s, times[..|times| - 1], low, high);
    }
  }

  lemma {:induction false} NarrowerCountsLess(s: Setup, times: seq<Time>, low: Time, lower: Time, high: Time, higher: Time)
    requires lower <= low && (high <= higher || NoneAfter(times, higher))
    ensures AcceptedIn(s, times, low, high) <= AcceptedIn(s, times, lower, higher)
  {
    if times == [] {
    } else {
      NarrowerCountsLess(s, times[..|times| - 1], low, lower, high, higher);
    }
  }

  /** No half-open window of the limiter's length ever holds more than `limit` accepted calls. */
  lemma {:induction false} NoWindowHoldsMore(s: Setup, times: seq<Time>, end: Time)
    requires Nondecreasing(times) && s.window > 0.0
    ensures AcceptedIn(s, times, end - s.window, end) <= s.limit
  {
    if times == [] {
    } else {
      var before, now := times[..|times| - 1], times[|times| - 1];
      if AcceptsLast(s, times) && end - s.window < now <= end {
        AcceptedIffRoomInWindow(s, times);
        NarrowerCountsLess(s, before, end - s.window, now - s.window, end, now);
      } else {
        NoWindowHoldsMore(s, before, end);
      }
    }
  }

  // ---------- keys ----------

  datatype Call = Call(key: Key, time: Time)

  function QueueOf(queues: map<Key, seq<Time>>, key: Key): seq<Time> {
    if key in queues then queues[key] else []
  }

  function CheckKey(s: Setup, queues: map<Key, seq<Time>>, call: Call): (map<Key, seq<Time>>, bool) {
    var checked := Check(s, QueueOf(queues, call.key), call.time);
    (queues[call.key := checked.0], checked.1)
  }

  function Queues(s: Setup, calls: seq<Call>): map<Key, seq<Time>> {
    if calls == [] then map[] else CheckKey(s, Queues(s, calls[..|calls| - 1]), calls[|calls| - 1]).0
  }

  function TimesOf(calls: seq<Call>, key: Key): seq<Time> {
    if calls == [] then []
    else TimesOf(calls[..|calls| - 1], key) + (if calls[|calls| - 1].key == key then [calls[|calls| - 1].time] else [])
  }

  /** Calls with different keys do not affect one another. */
  lemma {:induction false} KeysAreSeparate(s: Setup, calls: seq<Call>, key: Key)
    ensures QueueOf(Queues(s, calls), key) == Entries(s, TimesOf(calls, key))
  {
    if calls == [] {
    } else {
      var before, call := calls[..|calls| - 1], calls[|calls| - 1];
      KeysAreSeparate(s, before, key);
      if call.key == key {
        assert TimesOf(calls, key)[..|TimesOf(calls, key)| - 1] == TimesOf(before, key);
      } else {
        assert TimesOf(before, key) + [] == TimesOf(before, key);
      }
    }
  }

  class Limiter {
    const setup: Setup
    var entries: map<Key, seq<Time>>

    constructor (limit: nat, window: Time)
      ensures setup == Setup(limit, window) && entries == map[]
    {
      setup, entries := Setup(limit, window), map[];
    }

    /** `accepted` false stands for the TooManyRequests error. */
    method Check(key: Key, now: Time, ghost calls: seq<Call>) returns (accepted: bool)
      requires entries == Queues(setup, calls)
      modifies this
      ensures entries == Queues(setup, calls + [Call(key, now)])
      ensures (entries, accepted) == CheckKey(setup, old(entries), Call(key, now))
      ensures accepted <==> AcceptsLast(setup, TimesOf(calls, key) + [now])
    {
      KeysAreSeparate(setup, calls, key);
      assert (calls + [Call(key, now)])[..|calls|] == calls;
      assert (TimesOf(calls, key) + [now])[..|TimesOf(calls, key)|] == TimesOf(calls, key);
      var queue := if key in entries then entries[key] else [];
      while queue != [] && queue[0] <= now - setup.window
        invariant Prune(queue, now - setup.window) == Prune(QueueOf(old(entries), key), now - setup.window)
        decreases |queue|
      {
        queue := queue[1..];
      }
      accepted := |queue| < setup.limit;
      if accepted {
        queue := queue + [now];
      }
      entries := entries[key := queue];
    }
  }
}
