/** Accounts and storage of one prepared call: together they cannot be told from a fully loaded state. */
module ForkState {
  import opened Base
  import opened AccountState
  import opened BlockRefs
  import opened CacheStore
  import opened Eager
  import opened ForkAccounts
  import opened ForkSlots

  class ForkedState {
    const account: ForkAccountState
    const storage: ForkStorage
    const cache: MemoryStore

    ghost predicate Valid()
      reads this, account, account.base, account.base.Repr, storage, storage.base, cache
    {
      && account.cache == cache && storage.cache == cache
      && account.Valid() && storage.Valid()
      && storage !in account.base.Repr && storage.base !in account.base.Repr
    }

    /** The eager state the two stand for. */
    ghost function Now(): (now: EagerState)
      requires Valid()
      reads this, account, account.base, account.base.Repr, storage, storage.base, cache
      ensures now.Total()
    {
      EagerState(account.Now(), account.Saved(), storage.Now(), storage.Saved())
    }

    constructor (provider: Provider, cache: MemoryStore, cacheRef: BlockRef, hash: Bytes -> Hash)
      requires cache.Valid()
      ensures Valid() && fresh(this) && fresh(account) && fresh(account.base.Repr)
      ensures fresh(storage) && fresh(storage.base)
      ensures this.cache == cache && account.cacheRef == cacheRef && storage.cacheRef == cacheRef
      ensures account.provider == provider && storage.provider == provider && account.base.hash == hash
      ensures account.loaded == {} && storage.loaded == {}
      ensures Now() == EagerState(account.Start(), [], storage.Start(), [])
    {
      hide ForkAccountState.Now, ForkAccountState.Saved, ForkStorage.Now, ForkStorage.Saved;
      hide ForkAccountState.Start, ForkStorage.Start, MemoryStore.Valid, InMemoryAccountState.Valid;
      this.cache := cache;
      account := new ForkAccountState(provider, cache, cacheRef, hash);
      storage := new ForkStorage(provider, cache, cacheRef);
    }

    /** The caches grew as both parts allow. */
    ghost predicate Grew(accounts: map<AccountKey, AccountSnapshot>, codes: map<AccountKey, Bytes>,
                         slots: map<StorageKey, Hash>)
      reads account.cache, storage.cache
    {
      account.Grew(accounts, codes) && storage.Grew(slots)
    }

    /** One operation of the engine, answered as the eager state answers it. */
    method Perform(op: Op) returns (answer: Answer)
      requires Valid()
      modifies account, account.base.Repr, storage, storage.base, cache`accounts, cache`codes, cache`storage
      ensures Valid() && fresh(account.base.Repr - old(account.base.Repr))
      ensures (Now(), answer) == Eager.Perform(old(Now()), op, account.base.hash)
      ensures account.Start() == old(account.Start()) && storage.Start() == old(storage.Start())
      ensures Grew(old(cache.accounts), old(cache.codes), old(cache.storage))
    {
      hide ForkAccountState.InStep, ForkStorage.InStep, MemoryStore.Valid;
      hide ForkAccountState.Now, ForkAccountState.Saved, ForkStorage.Now, ForkStorage.Saved;
      hide ForkAccountState.Start, ForkStorage.Start, ForkAccounts.CacheGrew, ForkSlots.CacheGrew, CacheKey;
      hide PerformAccounts, PerformSlots, EagerState.Total;
      ForkAccounts.CacheSame(cache.accounts, cache.codes, CacheKey(account.cacheRef), account.Start());
      ForkSlots.CacheSame(cache.storage, CacheKey(storage.cacheRef));
      if OnStorage(op) {
        answer := PerformOnSlots(op);
      } else {
        answer := PerformOnAccounts(op);
      }
    }

    method PerformOnAccounts(op: Op) returns (answer: Answer)
      requires account.Valid() && !OnStorage(op)
      modifies account, account.base.Repr, account.cache`accounts, account.cache`codes
      ensures account.Valid() && fresh(account.base.Repr - old(account.base.Repr))
      ensures account.Start() == old(account.Start())
      ensures account.Grew(old(account.cache.accounts), old(account.cache.codes))
      ensures (account.Now(), account.Saved(), answer)
           == PerformAccounts(old(account.Now()), old(account.Saved()), op, account.base.hash)
    {
      hide ForkAccountState.Now, ForkAccountState.Saved, ForkAccountState.Start, ForkAccountState.Grew;
      if op.SnapshotAccounts? {
        var id := account.Snapshot();
        answer := Number(id);
      } else if op.RevertAccounts? {
        account.RevertToSnapshot(op.id);
        answer := Nothing;
      } else if IsRead(op) {
        answer := PerformRead(op);
        assert old(account.Now())[op.a := old(account.Now())[op.a]] == old(account.Now());
      } else {
        PerformWrite(op);
        answer := Nothing;
      }
    }

    static predicate IsRead(op: Op) {
      op.Balance? || op.Nonce? || op.Code? || op.CodeHash? || op.Exists? || op.IsEmpty? || op.HasCodeOrNonce?
      || op.SelfDestructed?
    }

    method PerformRead(op: Op) returns (answer: Answer)
      requires account.Valid() && IsRead(op)
      modifies account`loaded, account.base.Repr, account.cache`accounts, account.cache`codes
      ensures account.Valid() && fresh(account.base.Repr - old(account.base.Repr))
      ensures account.Start() == old(account.Start())
      ensures account.Grew(old(account.cache.accounts), old(account.cache.codes))
      ensures account.Now() == old(account.Now()) && account.Saved() == old(account.Saved())
      ensures answer == OnEntry(old(account.Now())[op.a], op, account.base.hash).1
    {
      hide ForkAccountState.Valid, ForkAccountState.Now;
      hide ForkAccountState.Saved, ForkAccountState.Start, ForkAccountState.Grew;
      match op
      case Balance(a) => var n := account.Balance(a); answer := Number(n);
      case Nonce(a) => var n := account.Nonce(a); answer := Number(n);
      case Code(a) => var code := account.Code(a); answer := Content(code);
      case CodeHash(a) => var hash := account.CodeHash(a); answer := Digest(hash);
      case Exists(a) => var b := account.Exists(a); answer := Flag(b);
      case IsEmpty(a) => var b := account.IsEmpty(a); answer := Flag(b);
      case HasCodeOrNonce(a) => var b := account.HasCodeOrNonce(a); answer := Flag(b);
      case SelfDestructed(a) => var b := account.SelfDestructed(a); answer := Flag(b);
    }

    method PerformWrite(op: Op)
      requires account.Valid() && OnAccount(op) && !IsRead(op)
      modifies account`loaded, account.base.Repr, account.cache`accounts, account.cache`codes
      ensures account.Valid() && fresh(account.base.Repr - old(account.base.Repr))
      ensures account.Start() == old(account.Start())
      ensures account.Grew(old(account.cache.accounts), old(account.cache.codes))
      ensures account.Saved() == old(account.Saved())
      ensures account.Now() == old(account.Now())[op.a := OnEntry(old(account.Now())[op.a], op, account.base.hash).0]
    {
      hide ForkAccountState.Valid, ForkAccountState.Now;
      hide ForkAccountState.Saved, ForkAccountState.Start, ForkAccountState.Grew;
      match op
      case SetBalance(a, amount) => account.SetBalance(a, amount);
      case AddBalance(a, amount) => account.AddBalance(a, amount);
      case SubBalance(a, amount) => account.SubBalance(a, amount);
      case SetNonce(a, nonce) => account.SetNonce(a, nonce);
      case IncrementNonce(a) => account.IncrementNonce(a);
      case SetCode(a, code) => account.SetCode(a, code);
      case SelfDestruct(a) => account.SelfDestruct(a);
      case CreateAccount(a) => account.CreateAccount(a);
    }

    method PerformOnSlots(op: Op) returns (answer: Answer)
      requires storage.Valid() && OnStorage(op)
      modifies storage, storage.base, storage.cache`storage
      ensures storage.Valid() && storage.Start() == old(storage.Start()) && storage.Grew(old(storage.cache.storage))
      ensures (storage.Now(), storage.Saved(), answer) == PerformSlots(old(storage.Now()), old(storage.Saved()), op)
    {
      hide ForkStorage.Now, ForkStorage.Saved, ForkStorage.Start, ForkStorage.Grew, MemoryStore.Valid;
      answer := Nothing;
      match op
      case Get(k) => var v := storage.Get(k); answer := Digest(v);
      case Original(k) => var v := storage.Original(k); answer := Digest(v);
      case Set(k, v) => storage.Set(k, v);
      case SnapshotStorage => var id := storage.Snapshot(); answer := Number(id);
      case RevertStorage(id) => storage.RevertToSnapshot(id);
    }

    /** Installs deployed code. */
    method Deploy(a: Address, code: Bytes)
      requires Valid()
      modifies account, account.base.Repr, cache`accounts, cache`codes
      ensures Valid() && fresh(account.base.Repr - old(account.base.Repr)) && a in account.loaded
      ensures Now() == Eager.Perform(old(Now()), Op.SetCode(a, code), account.base.hash).0
      ensures account.Start() == old(account.Start()) && storage.Start() == old(storage.Start())
      ensures Grew(old(cache.accounts), old(cache.codes), old(cache.storage))
    {
      hide ForkAccountState.InStep, ForkStorage.InStep, MemoryStore.Valid;
      hide ForkAccountState.Now, ForkAccountState.Saved, ForkStorage.Now, ForkStorage.Saved;
      hide ForkAccountState.Start, ForkStorage.Start, ForkAccounts.CacheGrew, ForkSlots.CacheGrew, CacheKey;
      hide EagerState.Total;
      ForkSlots.CacheSame(cache.storage, CacheKey(storage.cacheRef));
      account.SetCode(a, code);
    }

    /** A whole run: the same answers, and in the end the same state, as on the eager state. */
    method Play(s: Strategy, steps: nat) returns (answers: seq<Answer>)
      requires Valid()
      modifies account, account.base.Repr, storage, storage.base, cache`accounts, cache`codes, cache`storage
      ensures Valid() && fresh(account.base.Repr - old(account.base.Repr))
      ensures (Now(), answers) == Eager.Play(old(Now()), s, account.base.hash, [], steps)
      ensures account.Start() == old(account.Start()) && storage.Start() == old(storage.Start())
      ensures Grew(old(cache.accounts), old(cache.codes), old(cache.storage))
    {
      hide ForkAccountState.InStep, ForkStorage.InStep, MemoryStore.Valid;
      hide Now, Eager.Perform, EagerState.Total, CacheKey;
      hide ForkAccountState.Start, ForkStorage.Start, ForkAccounts.CacheGrew, ForkSlots.CacheGrew;
      ForkAccounts.CacheSame(cache.accounts, cache.codes, CacheKey(account.cacheRef), account.Start());
      ForkSlots.CacheSame(cache.storage, CacheKey(storage.cacheRef));
      answers := [];
      var left := steps;
      while left > 0
        invariant Valid() && fresh(account.base.Repr - old(account.base.Repr))
        invariant Eager.Play(old(Now()), s, account.base.hash, [], steps)
               == Eager.Play(Now(), s, account.base.hash, answers, left)
        invariant account.Start() == old(account.Start()) && storage.Start() == old(storage.Start())
        invariant Grew(old(cache.accounts), old(cache.codes), old(cache.storage))
      {
        var op := s(answers);
        if op.None? {
          return;
        }
        ghost var accounts, codes, slots := cache.accounts, cache.codes, cache.storage;
        var answer := Perform(op.value);
        ForkAccounts.CacheGrewThrough(old(cache.accounts), old(cache.codes), accounts, codes, cache.accounts,
                                      cache.codes, CacheKey(account.cacheRef), account.Start());
        ForkSlots.CacheGrewThrough(old(cache.storage), slots, cache.storage, CacheKey(storage.cacheRef));
        answers := answers + [answer];
        left := left - 1;
      }
    }
  }
}
