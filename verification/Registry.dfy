/**
 The registry of accessibility objects that were handed out as ids: a table in touch order
 with a time to live, and an index from (generation, identity) to the id in use.

 Eviction only ever looks at the front of the table. `EvictFront` is that loop as a
 function; `Trim` is what it is meant to do, looking at every entry. `NaiveRun` is the same
 registry with no index and with `Trim`; the two answer every sequence of calls alike.
 */
module Registry {
  import opened Common

  type Obj = nat
  type Identity = nat
  type Generation = nat
  type Id = nat
  type Time = real
  type Key = (Generation, Identity)

  datatype Slot = Slot(id: Id, obj: Obj, generation: Generation, expires: Time)

  /** The table, least recently touched first, and the identity index. */
  datatype Cache = Cache(slots: seq<Slot>, index: map<Key, Id>)

  /** What stays the same for a registry: how objects are identified, and its two limits. */
  datatype Setup = Setup(identity: Obj -> Identity, ttl: Time, capacity: nat) {
    function KeyOf(slot: Slot): Key {
      (slot.generation, identity(slot.obj))
    }
  }

  // ---------- the registry's operations ----------

  function Position(slots: seq<Slot>, id: Id): (position: Option<nat>)
    ensures position.Some? ==> position.value < |slots| && slots[position.value].id == id
    ensures position.None? ==> forall i :: 0 <= i < |slots| ==> slots[i].id != id
  {
    if slots == [] then None
    else if slots[|slots| - 1].id == id then Some(|slots| - 1)
    else Position(slots[..|slots| - 1], id)
  }

  function Without<T>(items: seq<T>, i: nat): seq<T>
    requires i < |items|
  {
    items[..i] + items[i + 1..]
  }

  /** Drops an entry; the index is touched only if it still means this entry. */
  function Remove(setup: Setup, cache: Cache, i: nat): Cache
    requires i < |cache.slots|
  {
    var slot := cache.slots[i];
    var key := setup.KeyOf(slot);
    Cache(Without(cache.slots, i),
          if key in cache.index && cache.index[key] == slot.id then cache.index - {key} else cache.index)
  }

  predicate MayStay(setup: Setup, slots: seq<Slot>, now: Time) {
    slots == [] || (slots[0].expires > now && |slots| <= setup.capacity)
  }

  function EvictFront(setup: Setup, cache: Cache, now: Time): Cache
    decreases |cache.slots|
  {
    if MayStay(setup, cache.slots, now) then cache else EvictFront(setup, Remove(setup, cache, 0), now)
  }

  /** The position of the live entry that the index names for a key. */
  function IndexedLive(cache: Cache, key: Key, now: Time): Option<nat> {
    if key !in cache.index then None
    else
      var position := Position(cache.slots, cache.index[key]);
      if position.Some? && cache.slots[position.value].expires > now then position else None
  }

  /** Moves an entry to the end with a new lifetime. */
  function Touch(setup: Setup, slots: seq<Slot>, i: nat, now: Time): seq<Slot>
    requires i < |slots|
  {
    Without(slots, i) + [slots[i].(expires := now + setup.ttl)]
  }

  function RegisterIn(setup: Setup, cache: Cache, obj: Obj, generation: Generation, newId: Id, now: Time): (Cache, Id) {
    var key := (generation, setup.identity(obj));
    var live := IndexedLive(cache, key, now);
    if live.Some? then (cache.(slots := Touch(setup, cache.slots, live.value, now)), cache.slots[live.value].id)
    else
      var added := Cache(cache.slots + [Slot(newId, obj, generation, now + setup.ttl)], cache.index[key := newId]);
      (EvictFront(setup, added, now), newId)
  }

  datatype Answer = Registered(id: Id) | Found(obj: Obj, generation: Generation) | Stale | Count(n: nat) | Cleared

  /** `defunct` are the objects that report themselves gone when asked. */
  function ResolveIn(setup: Setup, cache: Cache, id: Id, generation: Option<Generation>, defunct: set<Obj>, now: Time): (Cache, Answer) {
    var position := Position(cache.slots, id);
    if position.None? then (cache, Stale)
    else
      var slot := cache.slots[position.value];
      if slot.expires <= now || (generation.Some? && slot.generation != generation.value) || slot.obj in defunct then
        (Remove(setup, cache, position.value), Stale)
      else
        (cache.(slots := Touch(setup, cache.slots, position.value, now)), Found(slot.obj, slot.generation))
  }

  datatype Call =
    | Registering(obj: Obj, generation: Generation, newId: Id)
    | Resolving(id: Id, expected: Option<Generation>, defunct: set<Obj>)
    | Sizing
    | Clearing

  function Apply(setup: Setup, cache: Cache, call: Call, now: Time): (Cache, Answer) {
    match call
    case Registering(obj, generation, newId) =>
      var r := RegisterIn(setup, cache, obj, generation, newId, now);
      (r.0, Registered(r.1))
    case Resolving(id, expected, defunct) => ResolveIn(setup, cache, id, expected, defunct, now)
    case Sizing => var evicted := EvictFront(setup, cache, now); (evicted, Count(|evicted.slots|))
    case Clearing => (Cache([], map[]), Cleared)
  }

  // ---------- the naive registry: no index, every entry looked at ----------

  function Live(slots: seq<Slot>, now: Time): (live: seq<Slot>)
  {
    if slots == [] then []
    else Live(slots[..|slots| - 1], now) + (if slots[|slots| - 1].expires > now then [slots[|slots| - 1]] else [])
  }

  function LastN<T>(items: seq<T>, n: nat): seq<T> {
    if |items| <= n then items else items[|items| - n..]
  }

  /** Drop everything expired, then keep the most recently touched. */
  function Trim(setup: Setup, slots: seq<Slot>, now: Time): seq<Slot> {
    LastN(Live(slots, now), setup.capacity)
  }

  function ScanLive(setup: Setup, slots: seq<Slot>, key: Key, now: Time): (position: Option<nat>)
    ensures position.Some? ==>
              && position.value < |slots| && setup.KeyOf(slots[position.value]) == key && slots[position.value].expires > now
    ensures position.None? ==> forall i :: 0 <= i < |slots| ==> !(setup.KeyOf(slots[i]) == key && slots[i].expires > now)
  {
    if slots == [] then None
    else if setup.KeyOf(slots[|slots| - 1]) == key && slots[|slots| - 1].expires > now then Some(|slots| - 1)
    else ScanLive(setup, slots[..|slots| - 1], key, now)
  }

  function NaiveApply(setup: Setup, slots: seq<Slot>, call: Call, now: Time): (seq<Slot>, Answer) {
    match call
    case Registering(obj, generation, newId) =>
      var live := ScanLive(setup, slots, (generation, setup.identity(obj)), now);
      if live.Some? then (Touch(setup, slots, live.value, now), Registered(slots[live.value].id))
      else (Trim(setup, slots + [Slot(newId, obj, generation, now + setup.ttl)], now), Registered(newId))
    case Resolving(id, expected, defunct) =>
      var position := Position(slots, id);
      if position.None? then (slots, Stale)
      else
        var slot := slots[position.value];
        if slot.expires > now && (expected.Some? ==> slot.generation == expected.value) && slot.obj !in defunct then
          (Touch(setup, slots, position.value, now), Found(slot.obj, slot.generation))
        else (Without(slots, position.value), Stale)
    case Sizing => var kept := Trim(setup, slots, now); (kept, Count(|kept|))
    case Clearing => ([], Cleared)
  }

  // ---------- what every operation keeps ----------

  ghost predicate SortedByExpiry(slots: seq<Slot>) {
    forall i, j :: 0 <= i < j < |slots| ==> slots[i].expires <= slots[j].expires
  }

  ghost predicate DistinctSlotIds(slots: seq<Slot>) {
    forall i, j :: 0 <= i < j < |slots| ==> slots[i].id != slots[j].id
  }

  /** Entries and index keys correspond one to one. */
  ghost predicate Bijective(setup: Setup, cache: Cache) {
    && (forall i :: 0 <= i < |cache.slots| ==> Indexes(setup, cache, cache.slots[i]))
    && Grounded(setup, cache)
  }

  predicate Indexes(setup: Setup, cache: Cache, slot: Slot) {
    setup.KeyOf(slot) in cache.index && cache.index[setup.KeyOf(slot)] == slot.id
  }

  /** Every index key names an entry with that key. */
  ghost predicate Grounded(setup: Setup, cache: Cache) {
    forall key :: key in cache.index ==> Names(setup, cache, key)
  }

  ghost predicate Names(setup: Setup, cache: Cache, key: Key)
    requires key in cache.index
  {
    exists slot :: slot in cache.slots && slot.id == cache.index[key] && setup.KeyOf(slot) == key
  }

  /** In the middle of a registration an expired entry may have been replaced in the index. */
  ghost predicate LiveIndexed(setup: Setup, cache: Cache, now: Time) {
    && (forall i :: 0 <= i < |cache.slots| && cache.slots[i].expires > now ==> Indexes(setup, cache, cache.slots[i]))
    && Grounded(setup, cache)
  }

  ghost predicate TableValid(setup: Setup, slots: seq<Slot>, used: set<Id>, now: Time) {
    && SortedByExpiry(slots)
    && DistinctSlotIds(slots)
    && (forall i :: 0 <= i < |slots| ==> slots[i].id in used && slots[i].expires <= now + setup.ttl)
  }

  /** What holds between calls; `used` are the ids handed out so far, `now` is the latest reading. */
  ghost predicate Valid(setup: Setup, cache: Cache, used: set<Id>, now: Time) {
    && TableValid(setup, cache.slots, used, now)
    && Bijective(setup, cache)
    && |cache.slots| <= setup.capacity
  }

  // ---------- eviction from the front is eviction ----------

  lemma {:induction false} LiveOfAllLive(slots: seq<Slot>, now: Time)
    requires forall i :: 0 <= i < |slots| ==> slots[i].expires > now
    ensures Live(slots, now) == slots
  {
    if slots == [] {
    } else {
      LiveOfAllLive(slots[..|slots| - 1], now);
    }
  }

  lemma {:induction false} LiveDropsExpiredHead(slots: seq<Slot>, now: Time)
    requires slots != []
    ensures Live(slots, now) == (if slots[0].expires > now then [slots[0]] else []) + Live(slots[1..], now)
  {
    if |slots| <= 1 {
    } else {
      LiveDropsExpiredHead(slots[..|slots| - 1], now);
      assert slots[..|slots| - 1][1..] == slots[1..][..|slots[1..]| - 1];
    }
  }

  lemma SortedTail(slots: seq<Slot>)
    requires SortedByExpiry(slots) && slots != []
    ensures SortedByExpiry(slots[1..]) && forall i :: 0 <= i < |slots| ==> slots[0].expires <= slots[i].expires
  {
  }

  lemma TrimKeepsWhatMayStay(setup: Setup, slots: seq<Slot>, now: Time)
    requires SortedByExpiry(slots) && MayStay(setup, slots, now)
    ensures Trim(setup, slots, now) == slots
  {
    if slots != [] {
      SortedTail(slots);
    }
    LiveOfAllLive(slots, now);
  }

  lemma LastNDropsHead<T>(items: seq<T>, n: nat)
    requires |items| > n
    ensures LastN(items, n) == LastN(items[1..], n)
  {
  }

  lemma TrimDropsHead(setup: Setup, slots: seq<Slot>, now: Time)
    requires SortedByExpiry(slots) && !MayStay(setup, slots, now)
    ensures Trim(setup, slots, now) == Trim(setup, slots[1..], now)
  {
    SortedTail(slots);
    if slots[0].expires > now {
      LiveOfAllLive(slots, now);
      LiveOfAllLive(slots[1..], now);
      LastNDropsHead(slots, setup.capacity);
    } else {
      LiveDropsExpiredHead(slots, now);
    }
  }

  /** On a table sorted by expiry, popping from the front while the head is expired or the
      table too large leaves exactly the newest unexpired entries. */
  lemma {:induction false} EvictFrontIsTrim(setup: Setup, cache: Cache, now: Time)
    requires SortedByExpiry(cache.slots)
    ensures EvictFront(setup, cache, now).slots == Trim(setup, cache.slots, now)
    decreases |cache.slots|
  {
    if MayStay(setup, cache.slots, now) {
      TrimKeepsWhatMayStay(setup, cache.slots, now);
    } else {
      var rest := Remove(setup, cache, 0);
      assert rest.slots == cache.slots[1..];
      TrimDropsHead(setup, cache.slots, now);
      SortedTail(cache.slots);
      EvictFrontIsTrim(setup, rest, now);
    }
  }

  // ---------- every operation keeps the registry valid ----------

  lemma RemoveKeepsLiveIndexed(setup: Setup, cache: Cache, i: nat, now: Time)
    requires i < |cache.slots| && LiveIndexed(setup, cache, now) && DistinctSlotIds(cache.slots)
    ensures LiveIndexed(setup, Remove(setup, cache, i), now)
  {
    var removed, gone := Remove(setup, cache, i), cache.slots[i];
    forall j | 0 <= j < |removed.slots| && removed.slots[j].expires > now
      ensures Indexes(setup, removed, removed.slots[j])
    {
      var k := if j < i then j else j + 1;
      assert removed.slots[j] == cache.slots[k];
      assert Indexes(setup, cache, cache.slots[k]);
    }
    forall key | key in removed.index
      ensures Names(setup, removed, key)
    {
      assert Names(setup, cache, key);
      var slot :| slot in cache.slots && slot.id == cache.index[key] && setup.KeyOf(slot) == key;
      assert slot != gone;
      InWithout(cache.slots, i, slot);
    }
  }

  lemma InWithout<T>(items: seq<T>, i: nat, item: T)
    requires i < |items| && item in items && item != items[i]
    ensures item in Without(items, i)
  {
    var k :| 0 <= k < |items| && items[k] == item;
    assert Without(items, i)[if k < i then k else k - 1] == item;
  }

  lemma {:induction false} EvictKeepsLiveIndexed(setup: Setup, cache: Cache, now: Time)
    requires LiveIndexed(setup, cache, now) && DistinctSlotIds(cache.slots)
    ensures LiveIndexed(setup, EvictFront(setup, cache, now), now)
    decreases |cache.slots|
  {
    if MayStay(setup, cache.slots, now) {
    } else {
      RemoveKeepsLiveIndexed(setup, cache, 0, now);
      EvictKeepsLiveIndexed(setup, Remove(setup, cache, 0), now);
    }
  }

  /** What eviction leaves is a suffix. */
  lemma {:induction false} EvictKeepsSuffix(setup: Setup, cache: Cache, now: Time) returns (k: nat)
    ensures k <= |cache.slots| && EvictFront(setup, cache, now).slots == cache.slots[k..]
    ensures MayStay(setup, cache.slots[k..], now)
    ensures forall j :: 0 <= j < k ==> !MayStay(setup, cache.slots[j..], now)
    decreases |cache.slots|
  {
    if MayStay(setup, cache.slots, now) {
      k := 0;
      assert cache.slots[0..] == cache.slots;
    } else {
      var j := EvictKeepsSuffix(setup, Remove(setup, cache, 0), now);
      k := j + 1;
      var rest := Without(cache.slots, 0);
      assert rest == cache.slots[1..];
      forall i | 0 <= i < k
        ensures !MayStay(setup, cache.slots[i..], now)
      {
        if i > 0 {
          assert cache.slots[i..] == rest[i - 1..];
        } else {
          assert cache.slots[0..] == cache.slots;
        }
      }
      assert cache.slots[k..] == rest[j..];
    }
  }

  lemma SuffixIsTableValid(setup: Setup, slots: seq<Slot>, used: set<Id>, now: Time, k: nat)
    requires TableValid(setup, slots, used, now) && k <= |slots|
    ensures TableValid(setup, slots[k..], used, now)
    ensures forall i :: k <= i < |slots| ==> slots[k].expires <= slots[i].expires
  {
  }

  /** A sorted table whose head may stay holds only live entries. */
  lemma LiveIsIndexed(setup: Setup, cache: Cache, now: Time)
    requires LiveIndexed(setup, cache, now) && SortedByExpiry(cache.slots) && MayStay(setup, cache.slots, now)
    ensures Bijective(setup, cache) && |cache.slots| <= setup.capacity
  {
    forall i | 0 <= i < |cache.slots|
      ensures Indexes(setup, cache, cache.slots[i])
    {
      assert cache.slots[0].expires <= cache.slots[i].expires;
    }
  }

  /** Evicting a sorted table leaves only live entries, each found through the index. */
  lemma EvictMakesValid(setup: Setup, cache: Cache, used: set<Id>, now: Time)
    requires TableValid(setup, cache.slots, used, now) && LiveIndexed(setup, cache, now)
    ensures Valid(setup, EvictFront(setup, cache, now), used, now)
  {
    var k := EvictKeepsSuffix(setup, cache, now);
    SuffixIsTableValid(setup, cache.slots, used, now, k);
    EvictKeepsLiveIndexed(setup, cache, now);
    LiveIsIndexed(setup, EvictFront(setup, cache, now), now);
  }

  lemma TouchIsTableValid(setup: Setup, slots: seq<Slot>, used: set<Id>, before: Time, i: nat, now: Time)
    requires TableValid(setup, slots, used, before) && before <= now && i < |slots|
    ensures TableValid(setup, Touch(setup, slots, i, now), used, now)
  {
  }

  lemma WithoutIsTableValid(setup: Setup, slots: seq<Slot>, used: set<Id>, before: Time, i: nat, now: Time)
    requires TableValid(setup, slots, used, before) && before <= now && i < |slots|
    ensures TableValid(setup, Without(slots, i), used, now)
  {
  }

  /** A slot of the table without position i is the table's slot at this position. */
  function Origin(i: nat, j: nat): nat {
    if j < i then j else j + 1
  }

  lemma TouchKeepsBijection(setup: Setup, cache: Cache, i: nat, now: Time)
    requires Bijective(setup, cache) && i < |cache.slots|
    ensures Bijective(setup, cache.(slots := Touch(setup, cache.slots, i, now)))
  {
    var touched, slot := cache.(slots := Touch(setup, cache.slots, i, now)), cache.slots[i];
    var last := touched.slots[|touched.slots| - 1];
    assert Indexes(setup, cache, slot) && Indexes(setup, touched, last) && last in touched.slots;
    forall j | 0 <= j < |touched.slots|
      ensures Indexes(setup, touched, touched.slots[j])
    {
      if j < |touched.slots| - 1 {
        assert touched.slots[j] == cache.slots[Origin(i, j)] && Indexes(setup, cache, cache.slots[Origin(i, j)]);
      }
    }
    forall key | key in touched.index
      ensures Names(setup, touched, key)
    {
      assert Names(setup, cache, key);
      var named :| named in cache.slots && named.id == cache.index[key] && setup.KeyOf(named) == key;
      if named != slot {
        InWithout(cache.slots, i, named);
        assert named in touched.slots;
      }
    }
  }

  lemma RemoveKeepsBijection(setup: Setup, cache: Cache, i: nat)
    requires Bijective(setup, cache) && DistinctSlotIds(cache.slots) && i < |cache.slots|
    ensures Bijective(setup, Remove(setup, cache, i))
  {
    var removed, gone := Remove(setup, cache, i), cache.slots[i];
    assert Indexes(setup, cache, gone);
    forall j | 0 <= j < |removed.slots|
      ensures Indexes(setup, removed, removed.slots[j])
    {
      assert removed.slots[j] == cache.slots[Origin(i, j)] && Indexes(setup, cache, cache.slots[Origin(i, j)]);
    }
    forall key | key in removed.index
      ensures Names(setup, removed, key)
    {
      assert Names(setup, cache, key);
      var slot :| slot in cache.slots && slot.id == cache.index[key] && setup.KeyOf(slot) == key;
      InWithout(cache.slots, i, slot);
    }
  }

  lemma AddedIndexesOld(setup: Setup, cache: Cache, obj: Obj, generation: Generation, newId: Id, now: Time, i: nat)
    requires i < |cache.slots| && Indexes(setup, cache, cache.slots[i]) && DistinctSlotIds(cache.slots)
    requires cache.slots[i].expires > now && IndexedLive(cache, (generation, setup.identity(obj)), now).None?
    ensures Indexes(setup, Added(setup, cache, obj, generation, newId, now), cache.slots[i])
  {
    PositionOf(cache.slots, i);
  }

  /** The table and index in the middle of a registration, before eviction. */
  lemma AddIsLiveIndexed(setup: Setup, cache: Cache, used: set<Id>, before: Time, obj: Obj, generation: Generation, newId: Id, now: Time)
    requires Valid(setup, cache, used, before) && before <= now && newId !in used
    requires IndexedLive(cache, (generation, setup.identity(obj)), now).None?
    ensures var added := Added(setup, cache, obj, generation, newId, now);
            LiveIndexed(setup, added, now) && TableValid(setup, added.slots, used + {newId}, now)
  {
    var added := Added(setup, cache, obj, generation, newId, now);
    forall i | 0 <= i < |added.slots| && added.slots[i].expires > now
      ensures Indexes(setup, added, added.slots[i])
    {
      if i < |cache.slots| {
        AddedIndexesOld(setup, cache, obj, generation, newId, now, i);
      }
    }
    forall k | k in added.index
      ensures Names(setup, added, k)
    {
      assert k in cache.index ==> Names(setup, cache, k);
      AddedNames(setup, cache, obj, generation, newId, now, k);
    }
  }

  lemma AddedNames(setup: Setup, cache: Cache, obj: Obj, generation: Generation, newId: Id, now: Time, k: Key)
    requires k in cache.index ==> Names(setup, cache, k)
    requires k in Added(setup, cache, obj, generation, newId, now).index
    ensures Names(setup, Added(setup, cache, obj, generation, newId, now), k)
  {
    var added := Added(setup, cache, obj, generation, newId, now);
    var slot := added.slots[|cache.slots|];
    if k == setup.KeyOf(slot) {
      assert slot in added.slots;
    } else {
      var named :| named in cache.slots && named.id == cache.index[k] && setup.KeyOf(named) == k;
      assert named in added.slots;
    }
  }

  lemma {:induction false} PositionOf(slots: seq<Slot>, i: nat)
    requires i < |slots| && DistinctSlotIds(slots)
    ensures Position(slots, slots[i].id) == Some(i)
  {
    if i == |slots| - 1 {
    } else {
      PositionOf(slots[..|slots| - 1], i);
    }
  }

  /** The ids in use after a call. */
  function UsedAfter(used: set<Id>, call: Call): set<Id> {
    if call.Registering? then used + {call.newId} else used
  }

  /** The registry with a new entry, before eviction. */
  function Added(setup: Setup, cache: Cache, obj: Obj, generation: Generation, newId: Id, now: Time): Cache {
    Cache(cache.slots + [Slot(newId, obj, generation, now + setup.ttl)], cache.index[(generation, setup.identity(obj)) := newId])
  }

  lemma RegisterKeepsValid(setup: Setup, cache: Cache, used: set<Id>, before: Time, obj: Obj, generation: Generation, newId: Id, now: Time)
    requires Valid(setup, cache, used, before) && before <= now && newId !in used
    ensures Valid(setup, RegisterIn(setup, cache, obj, generation, newId, now).0, used + {newId}, now)
  {
    var live := IndexedLive(cache, (generation, setup.identity(obj)), now);
    if live.Some? {
      TouchIsTableValid(setup, cache.slots, used, before, live.value, now);
      TouchKeepsBijection(setup, cache, live.value, now);
    } else {
      AddIsLiveIndexed(setup, cache, used, before, obj, generation, newId, now);
      EvictMakesValid(setup, Added(setup, cache, obj, generation, newId, now), used + {newId}, now);
    }
  }

  lemma TouchKeepsValid(setup: Setup, cache: Cache, used: set<Id>, before: Time, i: nat, now: Time)
    requires Valid(setup, cache, used, before) && before <= now && i < |cache.slots|
    ensures Valid(setup, cache.(slots := Touch(setup, cache.slots, i, now)), used, now)
  {
    TouchIsTableValid(setup, cache.slots, used, before, i, now);
    TouchKeepsBijection(setup, cache, i, now);
  }

  lemma RemoveKeepsValid(setup: Setup, cache: Cache, used: set<Id>, before: Time, i: nat, now: Time)
    requires Valid(setup, cache, used, before) && before <= now && i < |cache.slots|
    ensures Valid(setup, Remove(setup, cache, i), used, now)
  {
    WithoutIsTableValid(setup, cache.slots, used, before, i, now);
    RemoveKeepsBijection(setup, cache, i);
  }

  lemma ResolveKeepsValid(setup: Setup, cache: Cache, used: set<Id>, before: Time, id: Id, expected: Option<Generation>, defunct: set<Obj>, now: Time)
    requires Valid(setup, cache, used, before) && before <= now
    ensures Valid(setup, ResolveIn(setup, cache, id, expected, defunct, now).0, used, now)
  {
    var position := Position(cache.slots, id);
    if position.Some? {
      TouchKeepsValid(setup, cache, used, before, position.value, now);
      RemoveKeepsValid(setup, cache, used, before, position.value, now);
    }
  }

  lemma ApplyKeepsValid(setup: Setup, cache: Cache, used: set<Id>, before: Time, call: Call, now: Time)
    requires Valid(setup, cache, used, before) && before <= now
    requires call.Registering? ==> call.newId !in used
    ensures Valid(setup, Apply(setup, cache, call, now).0, UsedAfter(used, call), now)
  {
    match call
    case Registering(obj, generation, newId) =>
      RegisterKeepsValid(setup, cache, used, before, obj, generation, newId, now);
    case Resolving(id, expected, defunct) =>
      ResolveKeepsValid(setup, cache, used, before, id, expected, defunct, now);
    case Sizing =>
      assert forall i :: 0 <= i < |cache.slots| ==> Indexes(setup, cache, cache.slots[i]);
      EvictMakesValid(setup, cache, used, now);
    case Clearing =>
  }

  // ---------- the registry answers every run like the naive one ----------

  lemma IndexFindsWhatScanFinds(setup: Setup, cache: Cache, key: Key, now: Time)
    requires Bijective(setup, cache) && DistinctSlotIds(cache.slots)
    ensures IndexedLive(cache, key, now) == ScanLive(setup, cache.slots, key, now)
  {
    var scanned := ScanLive(setup, cache.slots, key, now);
    if scanned.Some? {
      assert Indexes(setup, cache, cache.slots[scanned.value]);
      PositionOf(cache.slots, scanned.value);
    } else if key in cache.index {
      assert Names(setup, cache, key);
      var slot :| slot in cache.slots && slot.id == cache.index[key] && setup.KeyOf(slot) == key;
      var i :| 0 <= i < |cache.slots| && cache.slots[i] == slot;
      PositionOf(cache.slots, i);
    }
  }

  lemma RegisteringIsNaive(setup: Setup, cache: Cache, used: set<Id>, before: Time, obj: Obj, generation: Generation, newId: Id, now: Time)
    requires Valid(setup, cache, used, before) && before <= now && newId !in used
    ensures var call := Registering(obj, generation, newId);
            var fast, slow := Apply(setup, cache, call, now), NaiveApply(setup, cache.slots, call, now);
            fast.0.slots == slow.0 && fast.1 == slow.1
  {
    var key := (generation, setup.identity(obj));
    IndexFindsWhatScanFinds(setup, cache, key, now);
    if IndexedLive(cache, key, now).None? {
      AddIsLiveIndexed(setup, cache, used, before, obj, generation, newId, now);
      EvictFrontIsTrim(setup, Added(setup, cache, obj, generation, newId, now), now);
    }
  }

  lemma ApplyIsNaive(setup: Setup, cache: Cache, used: set<Id>, before: Time, call: Call, now: Time)
    requires Valid(setup, cache, used, before) && before <= now
    requires call.Registering? ==> call.newId !in used
    ensures var fast, slow := Apply(setup, cache, call, now), NaiveApply(setup, cache.slots, call, now);
            fast.0.slots == slow.0 && fast.1 == slow.1
  {
    match call
    case Registering(obj, generation, newId) =>
      RegisteringIsNaive(setup, cache, used, before, obj, generation, newId, now);
    case Resolving(id, expected, defunct) =>
    case Sizing =>
      EvictFrontIsTrim(setup, cache, now);
    case Clearing =>
  }

  datatype Timed = Timed(call: Call, now: Time)

  /** Times never go back, and every new id is new. */
  ghost predicate Possible(calls: seq<Timed>, used: set<Id>, now: Time) {
    calls == [] ||
    (var first := calls[0];
     && now <= first.now
     && (first.call.Registering? ==> first.call.newId !in used)
     && Possible(calls[1..], UsedAfter(used, first.call), first.now))
  }

  function Run(setup: Setup, cache: Cache, calls: seq<Timed>): seq<Answer>
    decreases |calls|
  {
    if calls == [] then []
    else var r := Apply(setup, cache, calls[0].call, calls[0].now); [r.1] + Run(setup, r.0, calls[1..])
  }

  function NaiveRun(setup: Setup, slots: seq<Slot>, calls: seq<Timed>): seq<Answer>
    decreases |calls|
  {
    if calls == [] then []
    else var r := NaiveApply(setup, slots, calls[0].call, calls[0].now); [r.1] + NaiveRun(setup, r.0, calls[1..])
  }

  /** No caller can tell the indexed, front-evicting registry from the naive one. */
  lemma {:induction false} RunsLikeNaive(setup: Setup, cache: Cache, calls: seq<Timed>, used: set<Id>, now: Time)
    requires Valid(setup, cache, used, now) && Possible(calls, used, now)
    ensures Run(setup, cache, calls) == NaiveRun(setup, cache.slots, calls)
    decreases |calls|
  {
    if calls == [] {
    } else {
      var first := calls[0];
      ApplyIsNaive(setup, cache, used, now, first.call, first.now);
      ApplyKeepsValid(setup, cache, used, now, first.call, first.now);
      RunsLikeNaive(setup, Apply(setup, cache, first.call, first.now).0, calls[1..], UsedAfter(used, first.call), first.now);
    }
  }

  lemma EmptyIsValid(setup: Setup, now: Time)
    ensures Valid(setup, Cache([], map[]), {}, now)
  {
  }

  /** So from the empty registry on, whatever is called. */
  lemma EmptyRunsLikeNaive(setup: Setup, calls: seq<Timed>, now: Time)
    requires Possible(calls, {}, now)
    ensures Run(setup, Cache([], map[]), calls) == NaiveRun(setup, [], calls)
  {
    EmptyIsValid(setup, now);
    RunsLikeNaive(setup, Cache([], map[]), calls, {}, now);
  }

  // ---------- consequences for callers ----------

  /** While an object's entry lives, registering the object again gives the same id. */
  lemma LiveObjectKeepsId(setup: Setup, cache: Cache, used: set<Id>, before: Time, i: nat, obj: Obj, newId: Id, now: Time)
    requires Valid(setup, cache, used, before) && i < |cache.slots| && cache.slots[i].expires > now
    requires setup.identity(obj) == setup.identity(cache.slots[i].obj)
    ensures RegisterIn(setup, cache, obj, cache.slots[i].generation, newId, now).1 == cache.slots[i].id
  {
    assert Indexes(setup, cache, cache.slots[i]);
    PositionOf(cache.slots, i);
  }

  /** Resolving an id finds an object if and only if a live entry of the expected generation
      names it and it is not gone. */
  lemma ResolvedIffNamed(setup: Setup, cache: Cache, used: set<Id>, before: Time, id: Id, expected: Option<Generation>, defunct: set<Obj>, now: Time,
                         obj: Obj, generation: Generation)
    requires Valid(setup, cache, used, before)
    ensures ResolveIn(setup, cache, id, expected, defunct, now).1 == Found(obj, generation)
       <==> && (exists slot :: slot in cache.slots && slot.id == id && slot.obj == obj && slot.generation == generation && slot.expires > now)
            && (expected.Some? ==> expected.value == generation)
            && obj !in defunct
  {
    if slot :| slot in cache.slots && slot.id == id && slot.obj == obj && slot.generation == generation && slot.expires > now {
      var i :| 0 <= i < |cache.slots| && cache.slots[i] == slot;
      PositionOf(cache.slots, i);
    }
  }

  /** An object that is found has its lifetime begun again; an id that is not found names nothing. */
  lemma ResolvingRenews(setup: Setup, cache: Cache, used: set<Id>, before: Time, id: Id, expected: Option<Generation>, defunct: set<Obj>, now: Time)
    requires Valid(setup, cache, used, before)
    ensures var r := ResolveIn(setup, cache, id, expected, defunct, now);
            if r.1.Found? then
              exists slot :: slot in r.0.slots && slot.id == id && slot.obj == r.1.obj && slot.expires == now + setup.ttl
            else
              r.1 == Stale && forall slot :: slot in r.0.slots ==> slot.id != id
  {
    var r := ResolveIn(setup, cache, id, expected, defunct, now);
    if r.1.Found? {
      assert r.0.slots[|r.0.slots| - 1].id == id;
    } else {
      var position := Position(cache.slots, id);
      if position.Some? {
        forall j | 0 <= j < |r.0.slots|
          ensures r.0.slots[j].id != id
        {
          assert r.0.slots[j] == cache.slots[if j < position.value then j else j + 1];
        }
      }
    }
  }

  /** A registration leaves its own id resolvable exactly when there is a lifetime and room for one entry. */
  lemma RegisteredSurvivesIffRoom(setup: Setup, cache: Cache, used: set<Id>, before: Time, obj: Obj, generation: Generation, newId: Id, now: Time)
    requires Valid(setup, cache, used, before) && before <= now && newId !in used
    ensures var r := RegisterIn(setup, cache, obj, generation, newId, now);
            var position := Position(r.0.slots, r.1);
            position.Some? && r.0.slots[position.value].expires > now <==> setup.ttl > 0.0 && setup.capacity >= 1
  {
    var r := RegisterIn(setup, cache, obj, generation, newId, now);
    RegisterKeepsValid(setup, cache, used, before, obj, generation, newId, now);
    RegisteredComesLast(setup, cache, obj, generation, newId, now);
    if r.0.slots != [] {
      PositionOf(r.0.slots, |r.0.slots| - 1);
    }
  }

  lemma RegisteredComesLast(setup: Setup, cache: Cache, obj: Obj, generation: Generation, newId: Id, now: Time)
    ensures var r := RegisterIn(setup, cache, obj, generation, newId, now);
            var slots := r.0.slots;
            && (setup.ttl > 0.0 && setup.capacity >= 1 ==> slots != [])
            && (slots != [] ==> slots[|slots| - 1].id == r.1 && slots[|slots| - 1].expires == now + setup.ttl)
  {
    if IndexedLive(cache, (generation, setup.identity(obj)), now).None? {
      NewestSurvives(setup, Added(setup, cache, obj, generation, newId, now), now);
    }
  }

  /** Eviction spares the newest entry if it is live and there is room for one. */
  lemma NewestSurvives(setup: Setup, cache: Cache, now: Time)
    requires cache.slots != []
    ensures var kept := EvictFront(setup, cache, now).slots;
            && (kept != [] ==> kept[|kept| - 1] == cache.slots[|cache.slots| - 1])
            && (cache.slots[|cache.slots| - 1].expires > now && setup.capacity >= 1 ==> kept != [])
  {
    var k := EvictKeepsSuffix(setup, cache, now);
    if cache.slots[|cache.slots| - 1].expires > now && setup.capacity >= 1 {
      assert MayStay(setup, cache.slots[|cache.slots| - 1..], now);
    }
  }

  /** Every entry is what some registration put there under its id: `given` says for which
      generation and identity each id was handed out. */
  ghost predicate GivenOut(setup: Setup, slots: seq<Slot>, given: map<Id, Key>) {
    forall i :: 0 <= i < |slots| ==> slots[i].id in given && given[slots[i].id] == setup.KeyOf(slots[i])
  }

  function GivenAfter(setup: Setup, given: map<Id, Key>, call: Call, answer: Answer): map<Id, Key> {
    if call.Registering? && answer.Registered? && answer.id == call.newId
    then given[call.newId := (call.generation, setup.identity(call.obj))] else given
  }

  lemma TouchStaysGivenOut(setup: Setup, slots: seq<Slot>, given: map<Id, Key>, i: nat, now: Time)
    requires GivenOut(setup, slots, given) && i < |slots|
    ensures GivenOut(setup, Touch(setup, slots, i, now), given) && GivenOut(setup, Without(slots, i), given)
  {
  }

  lemma AddedIsGivenOut(setup: Setup, cache: Cache, given: map<Id, Key>, obj: Obj, generation: Generation, newId: Id, now: Time)
    requires GivenOut(setup, cache.slots, given) && newId !in given
    ensures GivenOut(setup, EvictFront(setup, Added(setup, cache, obj, generation, newId, now), now).slots,
                     given[newId := (generation, setup.identity(obj))])
  {
    var added := Added(setup, cache, obj, generation, newId, now);
    var k := EvictKeepsSuffix(setup, added, now);
  }

  /** The answer to a call agrees with what its id was handed out for. */
  ghost predicate Agrees(setup: Setup, given: map<Id, Key>, call: Call, answer: Answer) {
    && (call.Registering? ==>
          answer.Registered? && answer.id in given && given[answer.id] == (call.generation, setup.identity(call.obj)))
    && (call.Resolving? && answer.Found? ==>
          call.id in given && given[call.id] == (answer.generation, setup.identity(answer.obj)))
  }

  /** An id always means the generation and identity it was first handed out for: a
      registration that returns it is for them, and resolving it finds them. */
  ghost predicate Meant(setup: Setup, used: set<Id>, given: map<Id, Key>, call: Call, next: (Cache, Answer)) {
    var after := GivenAfter(setup, given, call, next.1);
    && GivenOut(setup, next.0.slots, after) && after.Keys <= UsedAfter(used, call)
    && (forall id :: id in given ==> id in after && after[id] == given[id])
    && Agrees(setup, after, call, next.1)
  }

  lemma RegisteringIsMeant(setup: Setup, cache: Cache, used: set<Id>, before: Time, given: map<Id, Key>,
                           obj: Obj, generation: Generation, newId: Id, now: Time)
    requires Valid(setup, cache, used, before) && before <= now && GivenOut(setup, cache.slots, given) && given.Keys <= used
    requires newId !in used
    ensures var call := Registering(obj, generation, newId); Meant(setup, used, given, call, Apply(setup, cache, call, now))
  {
    var key := (generation, setup.identity(obj));
    var live := IndexedLive(cache, key, now);
    IndexFindsWhatScanFinds(setup, cache, key, now);
    assert newId !in given;
    if live.Some? {
      TouchStaysGivenOut(setup, cache.slots, given, live.value, now);
    } else {
      AddedIsGivenOut(setup, cache, given, obj, generation, newId, now);
    }
  }

  lemma ResolvingIsMeant(setup: Setup, cache: Cache, used: set<Id>, given: map<Id, Key>,
                         id: Id, expected: Option<Generation>, defunct: set<Obj>, now: Time)
    requires GivenOut(setup, cache.slots, given) && given.Keys <= used
    ensures var call := Resolving(id, expected, defunct); Meant(setup, used, given, call, Apply(setup, cache, call, now))
  {
    var position := Position(cache.slots, id);
    if position.Some? {
      TouchStaysGivenOut(setup, cache.slots, given, position.value, now);
    }
  }

  lemma SizingIsMeant(setup: Setup, cache: Cache, used: set<Id>, given: map<Id, Key>, now: Time)
    requires GivenOut(setup, cache.slots, given) && given.Keys <= used
    ensures Meant(setup, used, given, Sizing, Apply(setup, cache, Sizing, now))
  {
    var k := EvictKeepsSuffix(setup, cache, now);
  }

  lemma AnswersAgreeWithGiven(setup: Setup, cache: Cache, used: set<Id>, before: Time, given: map<Id, Key>, call: Call, now: Time)
    requires Valid(setup, cache, used, before) && before <= now && GivenOut(setup, cache.slots, given) && given.Keys <= used
    requires call.Registering? ==> call.newId !in used
    ensures Meant(setup, used, given, call, Apply(setup, cache, call, now))
  {
    match call
    case Registering(obj, generation, newId) =>
      RegisteringIsMeant(setup, cache, used, before, given, obj, generation, newId, now);
    case Resolving(id, expected, defunct) =>
      ResolvingIsMeant(setup, cache, used, given, id, expected, defunct, now);
    case Sizing =>
      SizingIsMeant(setup, cache, used, given, now);
    case Clearing =>
  }
}
