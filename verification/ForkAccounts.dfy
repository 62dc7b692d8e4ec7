/** Account state of a fork: fetched account by account into an in-memory journal, and un-fetched by a revert. */
module ForkAccounts {
  import opened Base
  import opened Ledger
  import opened AccountState
  import opened BlockRefs
  import opened CacheStore
  import opened Eager

  type AccountMap = imap<Address, Entry>

  // ---------------------------------------------------------------- the eager state a partly loaded one stands for

  /** Every account as loading it would find it. */
  ghost function Starts(accounts: map<AccountKey, AccountSnapshot>, r: BlockRef, p: Provider, hash: Bytes -> Hash)
    : AccountMap
  {
    imap a: Address | true :: EntryFrom(Fetched(accounts, r, p, hash, a), hash)
  }

  /** Loaded accounts as the journal has them, the others as they start. */
  ghost function Merged(acc: Accounts, loaded: set<Address>, start: AccountMap): AccountMap
    requires forall a: Address :: a in start
  {
    imap a: Address | true :: if a in loaded then EntryOf(acc, a) else start[a]
  }

  ghost function MergedAll(accs: seq<Accounts>, loadeds: seq<set<Address>>, start: AccountMap): (all: seq<AccountMap>)
    requires |accs| == |loadeds| && forall a: Address :: a in start
    ensures |all| == |accs| && forall i :: 0 <= i < |accs| ==> all[i] == Merged(accs[i], loadeds[i], start)
  {
    if accs == [] then []
    else
      var n := |accs| - 1;
      MergedAll(accs[..n], loadeds[..n], start) + [Merged(accs[n], loadeds[n], start)]
  }

  /** What is not loaded has left no trace in the journal. */
  ghost predicate Clean(acc: Accounts, loaded: set<Address>) {
    forall a: Address :: a !in loaded ==> Untouched(acc, a)
  }

  /** Putting what was fetched into the cache changes nothing that will be fetched. */
  lemma FetchingIsStable(accounts: map<AccountKey, AccountSnapshot>, r: BlockRef, p: Provider, hash: Bytes -> Hash,
                         a: Address)
    ensures var cached := accounts[(a, CacheKey(r)) := Fetched(accounts, r, p, hash, a)];
      Starts(cached, r, p, hash) == Starts(accounts, r, p, hash)
  {
    hide CacheKey, EntryFrom;
  }

  /** Loading an account is invisible. */
  lemma LoadingIsInvisible(acc: Accounts, loaded: set<Address>, start: AccountMap, a: Address, s: AccountSnapshot,
                           hash: Bytes -> Hash)
    requires (forall b: Address :: b in start) && start[a] == EntryFrom(s, hash)
    requires Clean(acc, loaded) && a !in loaded
    ensures Clean(Seeded(acc, a, s, hash), loaded + {a})
    ensures Merged(Seeded(acc, a, s, hash), loaded + {a}, start) == Merged(acc, loaded, start)
  {
    hide Seeded, EntryFrom, Untouched, EntryOf;
    SeedingGives(acc, a, s, hash);
    var acc1 := Seeded(acc, a, s, hash);
    forall b: Address | b != a ensures SameAt(acc, acc1, b) {
      SeedingSpares(acc, a, s, hash, b);
    }
    forall b: Address | b !in loaded + {a} ensures Untouched(acc1, b) {
      assert SameAt(acc, acc1, b);
    }
    var before, after := Merged(acc, loaded, start), Merged(acc1, loaded + {a}, start);
    forall b: Address ensures after[b] == before[b] {
      assert b != a ==> SameAt(acc, acc1, b);
    }
    assert after == before;
  }

  /** A write to a loaded account is a write to that account of the eager state. */
  lemma WritingIsEager(acc: Accounts, acc1: Accounts, loaded: set<Address>, start: AccountMap, a: Address)
    requires (forall b: Address :: b in start) && a in loaded && Clean(acc, loaded)
    requires forall b: Address :: b != a ==> SameAt(acc, acc1, b)
    ensures Clean(acc1, loaded)
    ensures Merged(acc1, loaded, start) == Merged(acc, loaded, start)[a := EntryOf(acc1, a)]
  {
    hide Untouched, EntryOf;
    forall b: Address | b !in loaded ensures Untouched(acc1, b) {
      assert SameAt(acc, acc1, b);
    }
    var before, after := Merged(acc, loaded, start), Merged(acc1, loaded, start);
    forall b: Address | b != a ensures after[b] == before[b] {
      assert SameAt(acc, acc1, b);
    }
    assert after == before[a := EntryOf(acc1, a)];
  }

  /** The cache gained entries under one key only, and code only where that is what the account starts with. */
  ghost predicate CacheGrew(accounts: map<AccountKey, AccountSnapshot>, codes: map<AccountKey, Bytes>,
                            accounts1: map<AccountKey, AccountSnapshot>, codes1: map<AccountKey, Bytes>,
                            key: string, start: AccountMap)
    requires forall a: Address :: a in start
  {
    && (forall k :: k in accounts ==> k in accounts1 && accounts1[k] == accounts[k])
    && (forall k :: k in codes ==> k in codes1)
    && (forall k :: k in accounts1 ==> k in accounts || k.1 == key)
    && (forall k :: k in codes1 ==>
          (k in codes && codes1[k] == codes[k]) || (k.1 == key && codes1[k] == start[k.0].code))
  }

  lemma CacheSame(accounts: map<AccountKey, AccountSnapshot>, codes: map<AccountKey, Bytes>, key: string,
                  start: AccountMap)
    requires forall a: Address :: a in start
    ensures CacheGrew(accounts, codes, accounts, codes, key, start)
  {
  }

  lemma CacheGrewThrough(accounts: map<AccountKey, AccountSnapshot>, codes: map<AccountKey, Bytes>,
                         accounts1: map<AccountKey, AccountSnapshot>, codes1: map<AccountKey, Bytes>,
                         accounts2: map<AccountKey, AccountSnapshot>, codes2: map<AccountKey, Bytes>,
                         key: string, start: AccountMap)
    requires forall a: Address :: a in start
    requires CacheGrew(accounts, codes, accounts1, codes1, key, start)
    requires CacheGrew(accounts1, codes1, accounts2, codes2, key, start)
    ensures CacheGrew(accounts, codes, accounts2, codes2, key, start)
  {
  }

  lemma StartsAt(accounts: map<AccountKey, AccountSnapshot>, r: BlockRef, p: Provider, hash: Bytes -> Hash, a: Address)
    ensures a in Starts(accounts, r, p, hash)
    ensures Starts(accounts, r, p, hash)[a] == EntryFrom(Fetched(accounts, r, p, hash, a), hash)
  {
  }

  lemma MergedAt(acc: Accounts, loaded: set<Address>, start: AccountMap, a: Address)
    requires (forall b: Address :: b in start) && a in loaded
    ensures a in Merged(acc, loaded, start) && Merged(acc, loaded, start)[a] == EntryOf(acc, a)
  {
  }

  // ---------------------------------------------------------------- the wrapper

  class ForkAccountState {
    const provider: Provider
    const cache: MemoryStore
    const cacheRef: BlockRef
    const base: InMemoryAccountState
    var loaded: set<Address>
    var snapshots: seq<set<Address>>

    /** Wrapper and base journal are in step, and neither knows anything about accounts that are not loaded. */
    ghost predicate InStep()
      reads this, base, base.Repr
    {
      && base.Valid() && this !in base.Repr
      && |snapshots| == |base.snapshots|
      && Clean(base.View(), loaded)
      && forall i :: 0 <= i < |snapshots| ==> Clean(base.Saved()[i], snapshots[i])
    }

    ghost predicate Valid()
      reads this, cache, base, base.Repr
    {
      InStep() && cache.Valid() && cache !in base.Repr
    }

    ghost function Start(): (start: AccountMap)
      reads cache`accounts
      ensures forall a: Address :: a in start
    {
      Starts(cache.accounts, cacheRef, provider, base.hash)
    }

    ghost predicate Grew(accounts: map<AccountKey, AccountSnapshot>, codes: map<AccountKey, Bytes>)
      reads cache`accounts, cache`codes
    {
      CacheGrew(accounts, codes, cache.accounts, cache.codes, CacheKey(cacheRef), Start())
    }

    /** The eager state this one stands for, and its journal. */
    ghost function Now(): (now: AccountMap)
      requires InStep()
      reads this, cache`accounts, base, base.Repr
      ensures forall a: Address :: a in now
    {
      Merged(base.View(), loaded, Start())
    }

    ghost function Saved(): (saved: seq<AccountMap>)
      requires InStep()
      reads this, cache`accounts, base, base.Repr
      ensures |saved| == |snapshots| && forall i, a: Address :: 0 <= i < |saved| ==> a in saved[i]
    {
      MergedAll(base.Saved(), snapshots, Start())
    }

    constructor (provider: Provider, cache: MemoryStore, cacheRef: BlockRef, hash: Bytes -> Hash)
      requires cache.Valid()
      ensures Valid() && fresh(this) && fresh(base.Repr)
      ensures this.provider == provider && this.cache == cache && this.cacheRef == cacheRef && base.hash == hash
      ensures loaded == {} && snapshots == [] && Now() == Start() && Saved() == []
    {
      this.provider, this.cache, this.cacheRef := provider, cache, cacheRef;
      base := new InMemoryAccountState(hash);
      loaded, snapshots := {}, [];
    }

    /** The cached snapshot, or upstream's answers, which are then cached. */
    method FetchAccount(a: Address) returns (snapshot: AccountSnapshot)
      requires cache.Valid()
      modifies cache`accounts, cache`codes
      ensures cache.Valid() && Start() == old(Start()) && Grew(old(cache.accounts), old(cache.codes))
      ensures snapshot == Fetched(old(cache.accounts), cacheRef, provider, base.hash, a)
      ensures var key := (a, CacheKey(cacheRef));
        if key in old(cache.accounts) then snapshot == old(cache.accounts)[key]
        else
          && snapshot.balance == Some(provider.balance(a)) && snapshot.nonce == provider.nonce(a)
          && snapshot.code == provider.code(a) && snapshot.codeHash == base.hash(provider.code(a))
          && (snapshot.present <==> provider.balance(a) != 0 || provider.nonce(a) != 0 || provider.code(a) != [])
      ensures cache.accounts == old(cache.accounts)[(a, CacheKey(cacheRef)) := snapshot]
    {
      hide Starts, CacheKey, Canonical;
      FetchingIsStable(cache.accounts, cacheRef, provider, base.hash, a);
      StartsAt(cache.accounts, cacheRef, provider, base.hash, a);
      var cached := cache.View().GetAccount(a, cacheRef);
      if cached.Some? {
        return cached.value;
      }
      var balance, nonce, code := provider.balance(a), provider.nonce(a), provider.code(a);
      var known := balance != 0 || nonce != 0 || |code| != 0;
      snapshot := AccountSnapshot(Some(balance), nonce, code, base.hash(code), known);
      cache.PutAccount(a, cacheRef, snapshot);
      if |code| != 0 {
        cache.PutCode(a, cacheRef, code);
      }
    }

    /** seedAccount */
    static method Seed(base: InMemoryAccountState, a: Address, s: AccountSnapshot)
      requires base.Valid()
      modifies base.Repr
      ensures base.Valid() && fresh(base.Repr - old(base.Repr))
      ensures base.View() == Seeded(old(base.View()), a, s, base.hash) && base.Saved() == old(base.Saved())
    {
      hide InMemoryAccountState.Valid, InMemoryAccountState.View, InMemoryAccountState.Saved;
      if s.present {
        base.CreateAccount(a);
      }
      if s.balance.Some? {
        base.SetBalance(a, s.balance.value);
      }
      if s.nonce != 0 {
        base.SetNonce(a, s.nonce);
      }
      if |s.code| != 0 {
        base.SetCode(a, s.code);
      }
    }

    /** ensureLoaded */
    method EnsureLoaded(a: Address)
      requires Valid()
      modifies this`loaded, base.Repr, cache`accounts, cache`codes
      ensures Valid() && fresh(base.Repr - old(base.Repr)) && a in loaded
      ensures Start() == old(Start()) && Grew(old(cache.accounts), old(cache.codes)) && Now() == old(Now())
      ensures Saved() == old(Saved())
    {
      hide InMemoryAccountState.Valid, InMemoryAccountState.View, InMemoryAccountState.Saved, MemoryStore.Valid;
      hide CacheKey, Canonical;
      hide Seeded, Clean, Merged, MergedAll, Starts, EntryFrom;
      if a in loaded {
        return;
      }
      StartsAt(cache.accounts, cacheRef, provider, base.hash, a);
      ghost var acc, start := base.View(), Start();
      var snapshot := FetchAccount(a);
      Seed(base, a, snapshot);
      LoadingIsInvisible(acc, loaded, start, a, snapshot, base.hash);
      loaded := loaded + {a};
    }

    // ---------------------------------------------------------------- reads: load, then answer as the eager state

    method Balance(a: Address) returns (balance: int)
      requires Valid()
      modifies this`loaded, base.Repr, cache`accounts, cache`codes
      ensures Valid() && fresh(base.Repr - old(base.Repr)) && Start() == old(Start())
      ensures Grew(old(cache.accounts), old(cache.codes))
      ensures Now() == old(Now()) && Saved() == old(Saved()) && balance == Now()[a].balance
    {
      hide InMemoryAccountState.Valid, InMemoryAccountState.View, InMemoryAccountState.Saved, MemoryStore.Valid;
      hide CacheKey, Canonical;
      hide Clean, Merged, MergedAll, Starts;
      EnsureLoaded(a);
      MergedAt(base.View(), loaded, Start(), a);
      balance := base.Balance(a);
    }

    method Nonce(a: Address) returns (nonce: u64)
      requires Valid()
      modifies this`loaded, base.Repr, cache`accounts, cache`codes
      ensures Valid() && fresh(base.Repr - old(base.Repr)) && Start() == old(Start())
      ensures Grew(old(cache.accounts), old(cache.codes))
      ensures Now() == old(Now()) && Saved() == old(Saved()) && nonce == Now()[a].nonce
    {
      hide InMemoryAccountState.Valid, InMemoryAccountState.View, InMemoryAccountState.Saved, MemoryStore.Valid;
      hide CacheKey, Canonical;
      hide Clean, Merged, MergedAll, Starts;
      EnsureLoaded(a);
      MergedAt(base.View(), loaded, Start(), a);
      nonce := base.Nonce(a);
    }

    method Code(a: Address) returns (code: Bytes)
      requires Valid()
      modifies this`loaded, base.Repr, cache`accounts, cache`codes
      ensures Valid() && fresh(base.Repr - old(base.Repr)) && Start() == old(Start())
      ensures Grew(old(cache.accounts), old(cache.codes))
      ensures Now() == old(Now()) && Saved() == old(Saved()) && code == Now()[a].code
    {
      hide InMemoryAccountState.Valid, InMemoryAccountState.View, InMemoryAccountState.Saved, MemoryStore.Valid;
      hide CacheKey, Canonical;
      hide Clean, Merged, MergedAll, Starts;
      EnsureLoaded(a);
      MergedAt(base.View(), loaded, Start(), a);
      code := base.Code(a);
    }

    method CodeHash(a: Address) returns (hash: Hash)
      requires Valid()
      modifies this`loaded, base.Repr, cache`accounts, cache`codes
      ensures Valid() && fresh(base.Repr - old(base.Repr)) && Start() == old(Start())
      ensures Grew(old(cache.accounts), old(cache.codes))
      ensures Now() == old(Now()) && Saved() == old(Saved()) && hash == Now()[a].codeHash
    {
      hide InMemoryAccountState.Valid, InMemoryAccountState.View, InMemoryAccountState.Saved, MemoryStore.Valid;
      hide CacheKey, Canonical;
      hide Clean, Merged, MergedAll, Starts;
      EnsureLoaded(a);
      MergedAt(base.View(), loaded, Start(), a);
      hash := base.CodeHash(a);
    }

    method Exists(a: Address) returns (known: bool)
      requires Valid()
      modifies this`loaded, base.Repr, cache`accounts, cache`codes
      ensures Valid() && fresh(base.Repr - old(base.Repr)) && Start() == old(Start())
      ensures Grew(old(cache.accounts), old(cache.codes))
      ensures Now() == old(Now()) && Saved() == old(Saved()) && known == Now()[a].known
    {
      hide InMemoryAccountState.Valid, InMemoryAccountState.View, InMemoryAccountState.Saved, MemoryStore.Valid;
      hide CacheKey, Canonical;
      hide Clean, Merged, MergedAll, Starts;
      EnsureLoaded(a);
      MergedAt(base.View(), loaded, Start(), a);
      known := base.Exists(a);
    }

    method IsEmpty(a: Address) returns (empty: bool)
      requires Valid()
      modifies this`loaded, base.Repr, cache`accounts, cache`codes
      ensures Valid() && fresh(base.Repr - old(base.Repr)) && Start() == old(Start())
      ensures Grew(old(cache.accounts), old(cache.codes))
      ensures Now() == old(Now()) && Saved() == old(Saved())
      ensures empty == (Now()[a].balance == 0 && Now()[a].nonce == 0 && Now()[a].code == [])
    {
      hide InMemoryAccountState.Valid, InMemoryAccountState.View, InMemoryAccountState.Saved, MemoryStore.Valid;
      hide CacheKey, Canonical;
      hide Clean, Merged, MergedAll, Starts;
      EnsureLoaded(a);
      MergedAt(base.View(), loaded, Start(), a);
      empty := base.IsEmpty(a);
    }

    method HasCodeOrNonce(a: Address) returns (taken: bool)
      requires Valid()
      modifies this`loaded, base.Repr, cache`accounts, cache`codes
      ensures Valid() && fresh(base.Repr - old(base.Repr)) && Start() == old(Start())
      ensures Grew(old(cache.accounts), old(cache.codes))
      ensures Now() == old(Now()) && Saved() == old(Saved()) && taken == (Now()[a].nonce > 0 || Now()[a].code != [])
    {
      hide InMemoryAccountState.Valid, InMemoryAccountState.View, InMemoryAccountState.Saved, MemoryStore.Valid;
      hide CacheKey, Canonical;
      hide Clean, Merged, MergedAll, Starts;
      EnsureLoaded(a);
      MergedAt(base.View(), loaded, Start(), a);
      taken := base.HasCodeOrNonce(a);
    }

    method SelfDestructed(a: Address) returns (deleted: bool)
      requires Valid()
      modifies this`loaded, base.Repr, cache`accounts, cache`codes
      ensures Valid() && fresh(base.Repr - old(base.Repr)) && Start() == old(Start())
      ensures Grew(old(cache.accounts), old(cache.codes))
      ensures Now() == old(Now()) && Saved() == old(Saved()) && deleted == Now()[a].deleted
    {
      hide InMemoryAccountState.Valid, InMemoryAccountState.View, InMemoryAccountState.Saved, MemoryStore.Valid;
      hide CacheKey, Canonical;
      hide Clean, Merged, MergedAll, Starts;
      EnsureLoaded(a);
      MergedAt(base.View(), loaded, Start(), a);
      deleted := base.SelfDestructed(a);
    }

    // ---------------------------------------------------------------- writes: load, then write

    method SetBalance(a: Address, amount: int)
      requires Valid()
      modifies this`loaded, base.Repr, cache`accounts, cache`codes
      ensures Valid() && fresh(base.Repr - old(base.Repr)) && Start() == old(Start())
      ensures Grew(old(cache.accounts), old(cache.codes)) && Saved() == old(Saved())
      ensures a in loaded && Now() == old(Now())[a := old(Now())[a].(balance := amount, known := true)]
    {
      hide InMemoryAccountState.Valid, InMemoryAccountState.View, InMemoryAccountState.Saved, MemoryStore.Valid;
      hide CacheKey, Canonical;
      hide Clean, Merged, MergedAll, Starts;
      EnsureLoaded(a);
      ghost var acc := base.View();
      MergedAt(acc, loaded, Start(), a);
      base.SetBalance(a, amount);
      WritingIsEager(acc, base.View(), loaded, Start(), a);
    }

    method AddBalance(a: Address, amount: int)
      requires Valid()
      modifies this`loaded, base.Repr, cache`accounts, cache`codes
      ensures Valid() && fresh(base.Repr - old(base.Repr)) && Start() == old(Start())
      ensures Grew(old(cache.accounts), old(cache.codes)) && Saved() == old(Saved())
      ensures a in loaded
      ensures Now() == old(Now())[a := old(Now())[a].(balance := old(Now())[a].balance + amount, known := true)]
    {
      hide InMemoryAccountState.Valid, InMemoryAccountState.View, InMemoryAccountState.Saved, MemoryStore.Valid;
      hide CacheKey, Canonical;
      hide Clean, Merged, MergedAll, Starts;
      EnsureLoaded(a);
      ghost var acc := base.View();
      MergedAt(acc, loaded, Start(), a);
      base.AddBalance(a, amount);
      WritingIsEager(acc, base.View(), loaded, Start(), a);
    }

    method SubBalance(a: Address, amount: int)
      requires Valid()
      modifies this`loaded, base.Repr, cache`accounts, cache`codes
      ensures Valid() && fresh(base.Repr - old(base.Repr)) && Start() == old(Start())
      ensures Grew(old(cache.accounts), old(cache.codes)) && Saved() == old(Saved())
      ensures a in loaded
      ensures Now() == old(Now())[a := old(Now())[a].(balance := old(Now())[a].balance - amount, known := true)]
    {
      hide InMemoryAccountState.Valid, InMemoryAccountState.View, InMemoryAccountState.Saved, MemoryStore.Valid;
      hide CacheKey, Canonical;
      hide Clean, Merged, MergedAll, Starts;
      EnsureLoaded(a);
      ghost var acc := base.View();
      MergedAt(acc, loaded, Start(), a);
      base.SubBalance(a, amount);
      WritingIsEager(acc, base.View(), loaded, Start(), a);
    }

    method SetNonce(a: Address, nonce: u64)
      requires Valid()
      modifies this`loaded, base.Repr, cache`accounts, cache`codes
      ensures Valid() && fresh(base.Repr - old(base.Repr)) && Start() == old(Start())
      ensures Grew(old(cache.accounts), old(cache.codes)) && Saved() == old(Saved())
      ensures a in loaded && Now() == old(Now())[a := old(Now())[a].(nonce := nonce, known := true)]
    {
      hide InMemoryAccountState.Valid, InMemoryAccountState.View, InMemoryAccountState.Saved, MemoryStore.Valid;
      hide CacheKey, Canonical;
      hide Clean, Merged, MergedAll, Starts;
      EnsureLoaded(a);
      ghost var acc := base.View();
      MergedAt(acc, loaded, Start(), a);
      base.SetNonce(a, nonce);
      WritingIsEager(acc, base.View(), loaded, Start(), a);
    }

    method IncrementNonce(a: Address)
      requires Valid()
      modifies this`loaded, base.Repr, cache`accounts, cache`codes
      ensures Valid() && fresh(base.Repr - old(base.Repr)) && Start() == old(Start())
      ensures Grew(old(cache.accounts), old(cache.codes)) && Saved() == old(Saved())
      ensures a in loaded
      ensures Now() == old(Now())[a := old(Now())[a].(nonce := Add64(old(Now())[a].nonce, 1), known := true)]
    {
      hide InMemoryAccountState.Valid, InMemoryAccountState.View, InMemoryAccountState.Saved, MemoryStore.Valid;
      hide CacheKey, Canonical;
      hide Clean, Merged, MergedAll, Starts;
      EnsureLoaded(a);
      ghost var acc := base.View();
      MergedAt(acc, loaded, Start(), a);
      base.IncrementNonce(a);
      WritingIsEager(acc, base.View(), loaded, Start(), a);
    }

    method SetCode(a: Address, code: Bytes)
      requires Valid()
      modifies this`loaded, base.Repr, cache`accounts, cache`codes
      ensures Valid() && fresh(base.Repr - old(base.Repr)) && Start() == old(Start())
      ensures Grew(old(cache.accounts), old(cache.codes)) && Saved() == old(Saved())
      ensures a in loaded
      ensures Now() == old(Now())[a := old(Now())[a].(code := code, codeHash := base.hash(code), known := true)]
    {
      hide InMemoryAccountState.Valid, InMemoryAccountState.View, InMemoryAccountState.Saved, MemoryStore.Valid;
      hide CacheKey, Canonical;
      hide Clean, Merged, MergedAll, Starts;
      EnsureLoaded(a);
      ghost var acc := base.View();
      MergedAt(acc, loaded, Start(), a);
      base.SetCode(a, code);
      WritingIsEager(acc, base.View(), loaded, Start(), a);
    }

    method SelfDestruct(a: Address)
      requires Valid()
      modifies this`loaded, base.Repr, cache`accounts, cache`codes
      ensures Valid() && fresh(base.Repr - old(base.Repr)) && Start() == old(Start())
      ensures Grew(old(cache.accounts), old(cache.codes)) && Saved() == old(Saved())
      ensures a in loaded && Now() == old(Now())[a := old(Now())[a].(deleted := true)]
    {
      hide InMemoryAccountState.Valid, InMemoryAccountState.View, InMemoryAccountState.Saved, MemoryStore.Valid;
      hide CacheKey, Canonical;
      hide Clean, Merged, MergedAll, Starts;
      EnsureLoaded(a);
      ghost var acc := base.View();
      MergedAt(acc, loaded, Start(), a);
      base.SelfDestruct(a);
      WritingIsEager(acc, base.View(), loaded, Start(), a);
    }

    method CreateAccount(a: Address)
      requires Valid()
      modifies this`loaded, base.Repr, cache`accounts, cache`codes
      ensures Valid() && fresh(base.Repr - old(base.Repr)) && Start() == old(Start())
      ensures Grew(old(cache.accounts), old(cache.codes)) && Saved() == old(Saved())
      ensures a in loaded && Now() == old(Now())[a := old(Now())[a].(balance := 0, known := true)]
    {
      hide InMemoryAccountState.Valid, InMemoryAccountState.View, InMemoryAccountState.Saved, MemoryStore.Valid;
      hide CacheKey, Canonical;
      hide Clean, Merged, MergedAll, Starts;
      EnsureLoaded(a);
      ghost var acc := base.View();
      MergedAt(acc, loaded, Start(), a);
      base.CreateAccount(a);
      WritingIsEager(acc, base.View(), loaded, Start(), a);
    }

    // ---------------------------------------------------------------- the journal

    method Snapshot() returns (id: nat)
      requires Valid()
      modifies this`snapshots, base
      ensures Valid() && fresh(base.Repr - old(base.Repr)) && Start() == old(Start())
      ensures Grew(old(cache.accounts), old(cache.codes))
      ensures id == |old(Saved())| && Now() == old(Now()) && Saved() == old(Saved()) + [old(Now())]
    {
      hide InMemoryAccountState.Valid, InMemoryAccountState.View, InMemoryAccountState.Saved, MemoryStore.Valid;
      hide CacheKey, Canonical;
      hide Clean, Merged, Starts;
      id := base.Snapshot();
      // The two journals are in step, so an id that falls inside the wrapper's never comes up.
      assert id == |snapshots|;
      snapshots := snapshots + [loaded];
    }

    /** Un-loads whatever was loaded since the snapshot. */
    method RevertToSnapshot(id: int)
      requires Valid()
      modifies this`loaded, this`snapshots, base
      ensures Valid() && base.Repr == old(base.Repr) && Start() == old(Start())
      ensures Grew(old(cache.accounts), old(cache.codes))
      ensures 0 <= id < |old(Saved())| ==> Now() == old(Saved())[id] && Saved() == old(Saved())[..id]
      ensures !(0 <= id < |old(Saved())|) ==> Now() == old(Now()) && Saved() == old(Saved())
    {
      hide InMemoryAccountState.Valid, InMemoryAccountState.View, InMemoryAccountState.Saved, MemoryStore.Valid;
      hide CacheKey, Canonical;
      hide Clean, Merged, Starts;
      base.RevertToSnapshot(id);
      if id < 0 || id >= |snapshots| {
        return;
      }
      loaded := snapshots[id];
      snapshots := snapshots[..id];
    }
  }
}
