/** Storage of a fork: fetched slot by slot into an in-memory journal, and un-fetched by a revert. */
module ForkSlots {
  import opened Base
  import opened EngineObjects
  import opened BlockRefs
  import opened CacheStore
  import opened Eager

  type SlotMap = imap<SlotKey, SlotEntry>

  /** Every slot as loading it would find it: its value is its original value. */
  ghost function Starts(storage: map<StorageKey, Hash>, r: BlockRef, p: Provider): SlotMap {
    imap k: SlotKey | true :: SlotEntry(FetchedSlot(storage, r, p, k), FetchedSlot(storage, r, p, k))
  }

  ghost function Merged(sto: Ledger.Slots, loaded: set<SlotKey>, start: SlotMap): SlotMap
    requires forall k: SlotKey :: k in start
  {
    imap k: SlotKey | true :: if k in loaded then SlotOf(sto, k) else start[k]
  }

  ghost function MergedAll(stos: seq<Ledger.Slots>, loadeds: seq<set<SlotKey>>, start: SlotMap): (all: seq<SlotMap>)
    requires |stos| == |loadeds| && forall k: SlotKey :: k in start
    ensures |all| == |stos| && forall i :: 0 <= i < |stos| ==> all[i] == Merged(stos[i], loadeds[i], start)
  {
    if stos == [] then []
    else
      var n := |stos| - 1;
      MergedAll(stos[..n], loadeds[..n], start) + [Merged(stos[n], loadeds[n], start)]
  }

  /** Loaded slots are on record with their original value, the others are not on record at all. */
  ghost predicate Clean(sto: Ledger.Slots, loaded: set<SlotKey>) {
    && (forall k :: k in sto.data <==> k in loaded)
    && (forall k :: k in sto.original <==> k in loaded)
  }

  lemma FetchingIsStable(storage: map<StorageKey, Hash>, r: BlockRef, p: Provider, k: SlotKey)
    ensures Starts(storage[(k.0, k.1, CacheKey(r)) := FetchedSlot(storage, r, p, k)], r, p) == Starts(storage, r, p)
  {
    hide CacheKey;
    var cached := storage[(k.0, k.1, CacheKey(r)) := FetchedSlot(storage, r, p, k)];
    forall j: SlotKey ensures FetchedSlot(cached, r, p, j) == FetchedSlot(storage, r, p, j) {
      if (j.0, j.1) == (k.0, k.1) {
        assert j == k;
      }
    }
  }

  /** The cache gained entries under one key only. */
  ghost predicate CacheGrew(storage: map<StorageKey, Hash>, storage1: map<StorageKey, Hash>, key: string) {
    && (forall k :: k in storage ==> k in storage1 && storage1[k] == storage[k])
    && (forall k :: k in storage1 ==> k in storage || k.2 == key)
  }

  lemma CacheSame(storage: map<StorageKey, Hash>, key: string)
    ensures CacheGrew(storage, storage, key)
  {
  }

  lemma CacheGrewThrough(storage: map<StorageKey, Hash>, storage1: map<StorageKey, Hash>,
                         storage2: map<StorageKey, Hash>, key: string)
    requires CacheGrew(storage, storage1, key) && CacheGrew(storage1, storage2, key)
    ensures CacheGrew(storage, storage2, key)
  {
  }

  lemma StartsAt(storage: map<StorageKey, Hash>, r: BlockRef, p: Provider, k: SlotKey)
    ensures k in Starts(storage, r, p)
    ensures Starts(storage, r, p)[k] == SlotEntry(FetchedSlot(storage, r, p, k), FetchedSlot(storage, r, p, k))
  {
  }

  lemma MergedAt(sto: Ledger.Slots, loaded: set<SlotKey>, start: SlotMap, k: SlotKey)
    requires (forall j: SlotKey :: j in start) && k in loaded
    ensures k in Merged(sto, loaded, start) && Merged(sto, loaded, start)[k] == SlotOf(sto, k)
  {
  }

  /** Loading a slot is invisible. */
  lemma LoadingIsInvisible(sto: Ledger.Slots, loaded: set<SlotKey>, start: SlotMap, k: SlotKey, v: Hash)
    requires (forall j: SlotKey :: j in start) && start[k] == SlotEntry(v, v)
    requires Clean(sto, loaded) && k !in loaded
    ensures Clean(sto.Seed(k, v), loaded + {k})
    ensures Merged(sto.Seed(k, v), loaded + {k}, start) == Merged(sto, loaded, start)
  {
    var before, after := Merged(sto, loaded, start), Merged(sto.Seed(k, v), loaded + {k}, start);
    assert forall j: SlotKey :: after[j] == before[j];
    assert after == before;
  }

  /** A write to a loaded slot changes its value in the eager state, and leaves its original value. */
  lemma WritingIsEager(sto: Ledger.Slots, loaded: set<SlotKey>, start: SlotMap, k: SlotKey, v: Hash)
    requires (forall j: SlotKey :: j in start) && k in loaded && Clean(sto, loaded)
    ensures Clean(sto.Set(k, v), loaded)
    ensures var now := Merged(sto, loaded, start); Merged(sto.Set(k, v), loaded, start) == now[k := now[k].(value := v)]
  {
    var before, after := Merged(sto, loaded, start), Merged(sto.Set(k, v), loaded, start);
    assert forall j: SlotKey :: j != k ==> after[j] == before[j];
    assert after == before[k := before[k].(value := v)];
  }

  class ForkStorage {
    const provider: Provider
    const cache: MemoryStore
    const cacheRef: BlockRef
    const base: InMemoryStorage
    var loaded: set<SlotKey>
    var snapshots: seq<set<SlotKey>>

    /** Wrapper and base journal are in step about the same slots. */
    ghost predicate InStep()
      reads this, base
    {
      && |snapshots| == |base.snapshots|
      && Clean(base.View(), loaded)
      && forall i :: 0 <= i < |snapshots| ==> Clean(base.snapshots[i], snapshots[i])
    }

    ghost predicate Valid()
      reads this, cache, base
    {
      InStep() && cache.Valid()
    }

    ghost function Start(): (start: SlotMap)
      reads cache`storage
      ensures forall k: SlotKey :: k in start
    {
      Starts(cache.storage, cacheRef, provider)
    }

    ghost predicate Grew(storage: map<StorageKey, Hash>)
      reads cache`storage
    {
      CacheGrew(storage, cache.storage, CacheKey(cacheRef))
    }

    ghost function Now(): (now: SlotMap)
      reads this, cache`storage, base
      ensures forall k: SlotKey :: k in now
    {
      Merged(base.View(), loaded, Start())
    }

    ghost function Saved(): (saved: seq<SlotMap>)
      requires InStep()
      reads this, cache`storage, base
      ensures |saved| == |snapshots| && forall i, k: SlotKey :: 0 <= i < |saved| ==> k in saved[i]
    {
      MergedAll(base.snapshots, snapshots, Start())
    }

    constructor (provider: Provider, cache: MemoryStore, cacheRef: BlockRef)
      requires cache.Valid()
      ensures Valid() && fresh(this) && fresh(base)
      ensures this.provider == provider && this.cache == cache && this.cacheRef == cacheRef
      ensures loaded == {} && snapshots == [] && Now() == Start() && Saved() == []
    {
      this.provider, this.cache, this.cacheRef := provider, cache, cacheRef;
      base := new InMemoryStorage();
      loaded, snapshots := {}, [];
    }

    /** ensureLoaded */
    method EnsureLoaded(k: SlotKey)
      requires Valid()
      modifies this`loaded, base, cache`storage
      ensures Valid() && k in loaded && base.snapshots == old(base.snapshots)
      ensures Start() == old(Start()) && Grew(old(cache.storage)) && Now() == old(Now()) && Saved() == old(Saved())
    {
      hide Clean, Merged, MergedAll, Starts, CacheKey, Canonical;
      if k in loaded {
        return;
      }
      StartsAt(cache.storage, cacheRef, provider, k);
      FetchingIsStable(cache.storage, cacheRef, provider, k);
      ghost var sto, start := base.View(), Start();
      var cached := cache.View().GetStorage(k.0, k.1, cacheRef);
      var value;
      if cached.Some? {
        value := cached.value;
      } else {
        value := provider.storage(k);
        cache.PutStorage(k.0, k.1, cacheRef, value);
      }
      base.Seed(k, value);
      LoadingIsInvisible(sto, loaded, start, k, value);
      loaded := loaded + {k};
    }

    method Get(k: SlotKey) returns (value: Hash)
      requires Valid()
      modifies this`loaded, base, cache`storage
      ensures Valid() && Start() == old(Start()) && Grew(old(cache.storage)) && Now() == old(Now())
      ensures Saved() == old(Saved())
      ensures value == Now()[k].value
    {
      hide Clean, Merged, MergedAll, Starts;
      EnsureLoaded(k);
      MergedAt(base.View(), loaded, Start(), k);
      value := base.Get(k);
    }

    method Original(k: SlotKey) returns (value: Hash)
      requires Valid()
      modifies this`loaded, base, cache`storage
      ensures Valid() && Start() == old(Start()) && Grew(old(cache.storage)) && Now() == old(Now())
      ensures Saved() == old(Saved())
      ensures value == Now()[k].original
    {
      hide Clean, Merged, MergedAll, Starts;
      EnsureLoaded(k);
      MergedAt(base.View(), loaded, Start(), k);
      value := base.Original(k);
    }

    method Set(k: SlotKey, value: Hash)
      requires Valid()
      modifies this`loaded, base, cache`storage
      ensures Valid() && Start() == old(Start()) && Grew(old(cache.storage)) && Saved() == old(Saved())
      ensures Now() == old(Now())[k := old(Now())[k].(value := value)]
    {
      hide Clean, Merged, MergedAll, Starts;
      EnsureLoaded(k);
      WritingIsEager(base.View(), loaded, Start(), k, value);
      base.Set(k, value);
    }

    method Snapshot() returns (id: nat)
      requires Valid()
      modifies this`snapshots, base
      ensures Valid() && Start() == old(Start()) && Grew(old(cache.storage))
      ensures id == |old(Saved())| && Now() == old(Now()) && Saved() == old(Saved()) + [old(Now())]
    {
      hide Clean, Merged, Starts;
      id := base.Snapshot();
      // The two journals are in step, so an id that falls inside the wrapper's never comes up.
      assert id == |snapshots|;
      snapshots := snapshots + [loaded];
    }

    /** Un-loads whatever was loaded since the snapshot. */
    method RevertToSnapshot(id: int)
      requires Valid()
      modifies this`loaded, this`snapshots, base
      ensures Valid() && Start() == old(Start()) && Grew(old(cache.storage))
      ensures 0 <= id < |old(Saved())| ==> Now() == old(Saved())[id] && Saved() == old(Saved())[..id]
      ensures !(0 <= id < |old(Saved())|) ==> Now() == old(Now()) && Saved() == old(Saved())
    {
      hide Clean, Merged, Starts;
      base.RevertToSnapshot(id);
      if id < 0 || id >= |snapshots| {
        return;
      }
      loaded := snapshots[id];
      snapshots := snapshots[..id];
    }
  }
}
