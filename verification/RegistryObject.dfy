/** The registry as the object the bridge uses; each method is one critical section. */
module RegistryObject {
  import opened Common
  import opened Registry

  class ObjectRegistry {
    const setup: Setup
    // the ordered table of entries, and the reverse index
    var entries: seq<Slot>
    var byIdentity: map<Key, Id>

    ghost function State(): Cache
      reads this
    {
      Cache(entries, byIdentity)
    }

    constructor (setup: Setup)
      ensures this.setup == setup && State() == Cache([], map[])
    {
      this.setup, entries, byIdentity := setup, [], map[];
    }

    method RemoveEntry(i: nat)
      requires i < |entries|
      modifies this
      ensures State() == Remove(setup, old(State()), i)
    {
      var entry := entries[i];
      entries := Without(entries, i);
      var key := (entry.generation, setup.identity(entry.obj));
      if key in byIdentity && byIdentity[key] == entry.id {
        byIdentity := byIdentity - {key};
      }
    }

    method Evict(now: Time)
      modifies this
      ensures State() == EvictFront(setup, old(State()), now)
    {
      while entries != []
        invariant EvictFront(setup, State(), now) == EvictFront(setup, old(State()), now)
        decreases |entries|
      {
        if entries[0].expires > now && |entries| <= setup.capacity {
          break;
        }
        RemoveEntry(0);
      }
    }

    method Register(obj: Obj, generation: Generation, newId: Id, now: Time) returns (id: Id)
      modifies this
      ensures (State(), id) == RegisterIn(setup, old(State()), obj, generation, newId, now)
    {
      var key := (generation, setup.identity(obj));
      if key in byIdentity {
        var position := Position(entries, byIdentity[key]);
        if position.Some? && entries[position.value].expires > now {
          id := byIdentity[key];
          entries := Without(entries, position.value) + [entries[position.value].(expires := now + setup.ttl)];
          return;
        }
      }
      id := newId;
      entries := entries + [Slot(newId, obj, generation, now + setup.ttl)];
      byIdentity := byIdentity[key := newId];
      Evict(now);
    }

    method Resolve(id: Id, generation: Option<Generation>, defunct: set<Obj>, now: Time) returns (answer: Answer)
      modifies this
      ensures (State(), answer) == ResolveIn(setup, old(State()), id, generation, defunct, now)
    {
      var position := Position(entries, id);
      if position.None? {
        return Stale;
      }
      var entry := entries[position.value];
      if entry.expires <= now || (generation.Some? && entry.generation != generation.value) {
        RemoveEntry(position.value);
        return Stale;
      }
      if entry.obj in defunct {
        RemoveEntry(position.value);
        return Stale;
      }
      entries := Without(entries, position.value) + [entry.(expires := now + setup.ttl)];
      return Found(entry.obj, entry.generation);
    }

    method Clear()
      modifies this
      ensures State() == Cache([], map[])
    {
      entries, byIdentity := [], map[];
    }

    method Size(now: Time) returns (n: nat)
      modifies this
      ensures State() == EvictFront(setup, old(State()), now) && n == |entries|
    {
      Evict(now);
      n := |entries|;
    }
  }
}
