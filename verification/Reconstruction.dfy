/** Rebuilding the state before a transaction by replaying its predecessors through the cache. */
module Reconstruction {
  import opened Base
  import opened AccountState
  import opened BlockRefs
  import opened CacheStore
  import opened Eager
  import opened ForkState
  import opened WriteBack
  import Accts = ForkAccounts
  import Slts = ForkSlots

  /**
   * A transaction as the state sees it: given the code it runs, a strategy of state operations. A creation runs its own
   * init code; what it deploys, and where, follows from the answers it got.
   */
  datatype Transaction = Transaction(
    to: Option<Address>, init: Bytes, program: Bytes -> Strategy, steps: nat,
    deploys: seq<Answer> -> Option<(Address, Bytes)>)

  /** The run of one transaction on the eager state, up to what becomes of the code a creation returns. */
  ghost function Executed(e: EagerState, tx: Transaction, hash: Bytes -> Hash): (EagerState, seq<Answer>)
    requires e.Total()
    ensures Executed(e, tx, hash).0.Total()
  {
    var code := if tx.to.Some? then e.accounts[tx.to.value].code else tx.init;
    PlayTotal(e, tx.program(code), hash, [], tx.steps);
    Play(e, tx.program(code), hash, [], tx.steps)
  }

  /** One transaction on the eager state. */
  ghost function RunTx(e: EagerState, tx: Transaction, hash: Bytes -> Hash): (EagerState, seq<Answer>)
    requires e.Total()
    ensures RunTx(e, tx, hash).0.Total()
  {
    var (e1, answers) := Executed(e, tx, hash);
    var deployed := tx.deploys(answers);
    if deployed.None? then (e1, answers)
    else
      PerformTotal(e1, SetCode(deployed.value.0, deployed.value.1), hash);
      (Perform(e1, SetCode(deployed.value.0, deployed.value.1), hash).0, answers)
  }

  lemma {:induction false} PlayTotal(e: EagerState, s: Strategy, hash: Bytes -> Hash, answers: seq<Answer>, steps: nat)
    requires e.Total()
    ensures Play(e, s, hash, answers, steps).0.Total()
    decreases steps
  {
    hide Perform, EagerState.Total;
    var op := s(answers);
    if steps > 0 && op.Some? {
      PerformTotal(e, op.value, hash);
      var (e1, answer) := Perform(e, op.value, hash);
      PlayTotal(e1, s, hash, answers + [answer], steps - 1);
    }
  }

  /** Transactions one after the other on one eager state. */
  ghost function Chain(e: EagerState, txs: seq<Transaction>, hash: Bytes -> Hash): (next: EagerState)
    requires e.Total()
    ensures next.Total()
  {
    if txs == [] then e
    else Boundary(RunTx(Chain(e, txs[..|txs| - 1], hash), txs[|txs| - 1], hash).0, hash)
  }

  /** No run of the list takes away code; `CodeKept.JobKeepsCode` says this of every run of the engine. */
  ghost predicate NoCodeLost(e: EagerState, txs: seq<Transaction>, hash: Bytes -> Hash)
    requires e.Total()
  {
    forall i :: 0 <= i < |txs| ==>
      KeepsCode(Chain(e, txs[..i], hash).accounts, Executed(Chain(e, txs[..i], hash), txs[i], hash).0.accounts, None)
  }

  /** A transaction of the block: whether it could be prepared, and whether its replay matched its receipt. */
  datatype BlockTx = BlockTx(id: Hash, tx: Transaction, available: bool, matches: seq<Answer> -> bool)

  datatype ReplayState = ReplayState(stateRef: BlockRef, exact: bool, applied: seq<Hash>)

  /** How many transactions come before the target; all of them when it is not there. */
  function Prior(block: seq<BlockTx>, target: Hash): (n: nat)
    ensures n <= |block| && (n < |block| ==> block[n].id == target)
    ensures forall i :: 0 <= i < n ==> block[i].id != target
  {
    if block == [] || block[0].id == target then 0 else 1 + Prior(block[1..], target)
  }

  function Txs(block: seq<BlockTx>): (txs: seq<Transaction>)
    ensures |txs| == |block| && forall i :: 0 <= i < |txs| ==> txs[i] == block[i].tx
  {
    seq(|block|, i requires 0 <= i < |block| => block[i].tx)
  }

  function Ids(block: seq<BlockTx>): (ids: seq<Hash>)
    ensures |ids| == |block| && forall i :: 0 <= i < |ids| ==> ids[i] == block[i].id
  {
    seq(|block|, i requires 0 <= i < |block| => block[i].id)
  }

  /** Transaction `i` is available and, run on what its predecessors left, matches its receipt. */
  ghost predicate Matches(e: EagerState, block: seq<BlockTx>, i: nat, hash: Bytes -> Hash)
    requires e.Total() && i < |block|
  {
    block[i].available && block[i].matches(RunTx(Chain(e, Txs(block)[..i], hash), block[i].tx, hash).1)
  }

  lemma ChainEmpty(e: EagerState, hash: Bytes -> Hash)
    requires e.Total()
    ensures Chain(e, [], hash) == e
  {
  }

  lemma PriorReaches(block: seq<BlockTx>, target: Hash, i: nat)
    requires i <= Prior(block, target)
    ensures i < |block| ==> (i < Prior(block, target) <==> block[i].id != target)
    ensures i == |block| ==> Prior(block, target) == |block|
  {
  }

  lemma ChainLast(e: EagerState, txs: seq<Transaction>, hash: Bytes -> Hash)
    requires e.Total() && txs != []
    ensures Chain(e, txs, hash) == Boundary(RunTx(Chain(e, txs[..|txs| - 1], hash), txs[|txs| - 1], hash).0, hash)
  {
    hide RunTx, Boundary;
  }

  lemma CodeKeptAt(e: EagerState, txs: seq<Transaction>, i: nat, hash: Bytes -> Hash)
    requires e.Total() && NoCodeLost(e, txs, hash) && i < |txs|
    ensures var before := Chain(e, txs[..i], hash);
      KeepsCode(before.accounts, Executed(before, txs[i], hash).0.accounts, None)
  {
    hide Executed, Chain, KeepsCode, EagerState.Total;
  }

  /** What replaying transaction `i` on the chain so far decides, and adds. */
  lemma ChainStep(e: EagerState, block: seq<BlockTx>, n: nat, i: nat, hash: Bytes -> Hash)
    requires e.Total() && i < n <= |block| && NoCodeLost(e, Txs(block)[..n], hash)
    ensures var before := Chain(e, Txs(block)[..i], hash); var (end, answers) := RunTx(before, block[i].tx, hash);
      && KeepsCode(before.accounts, Executed(before, block[i].tx, hash).0.accounts, None)
      && Chain(e, Txs(block)[..i + 1], hash) == Boundary(end, hash)
      && (Matches(e, block, i, hash) <==> block[i].available && block[i].matches(answers))
  {
    hide Executed, RunTx, Boundary, KeepsCode, EagerState.Total, Txs, Chain, NoCodeLost;
    var txs := Txs(block);
    CodeKeptAt(e, txs[..n], i, hash);
    assert txs[..n][..i] == txs[..i] && txs[..n][i] == block[i].tx;
    assert txs[..i + 1][..i] == txs[..i] && txs[..i + 1][i] == block[i].tx;
    ChainLast(e, txs[..i + 1], hash);
  }

  /** Where a creation deployed. */
  function Target(deployed: Option<(Address, Bytes)>): Option<Address> {
    if deployed.Some? then Some(deployed.value.0) else None
  }

  /** Deploying takes code from no account but the one deployed to. */
  lemma DeployingSpares(start: imap<Address, Entry>, e: EagerState, deployed: Option<(Address, Bytes)>,
                        hash: Bytes -> Hash)
    requires e.Total() && KeepsCode(start, e.accounts, None)
    ensures var end := if deployed.None? then e else Perform(e, SetCode(deployed.value.0, deployed.value.1), hash).0;
      KeepsCode(start, end.accounts, Target(deployed))
  {
  }

  class ForkEngine {
    const provider: Provider
    const cache: MemoryStore
    const hash: Bytes -> Hash

    constructor (provider: Provider, cache: MemoryStore, hash: Bytes -> Hash)
      ensures this.provider == provider && this.cache == cache && this.hash == hash
    {
      this.provider, this.cache, this.hash := provider, cache, hash;
    }

    /** What a call prepared against cache key `r` starts from. */
    ghost function StartOf(r: BlockRef): (e: EagerState)
      reads cache`accounts, cache`storage
      ensures e.Total()
    {
      EagerState(Accts.Starts(cache.accounts, r, provider, hash), [], Slts.Starts(cache.storage, r, provider), [])
    }

    /** The cache under `r` can be replayed on: settled accounts, and code where the accounts have it. */
    ghost predicate Ready(r: BlockRef)
      reads cache`accounts, cache`codes
    {
      && Settled(Accts.Starts(cache.accounts, r, provider, hash), hash)
      && CodesAgree(cache.codes, r, provider, Accts.Starts(cache.accounts, r, provider, hash))
    }

    /** resolveCode */
    method ResolveCode(a: Address, r: BlockRef) returns (code: Bytes)
      requires cache.Valid()
      modifies cache`codes
      ensures cache.Valid() && code == FetchedCode(old(cache.codes), r, provider, a)
      ensures cache.codes == old(cache.codes)[(a, CacheKey(r)) := code]
    {
      hide CacheKey;
      var cached := cache.View().GetCode(a, r);
      if cached.Some? {
        return cached.value;
      }
      code := provider.code(a);
      cache.PutCode(a, r, code);
    }

    /** The account half of writeBackPreparedState. */
    method WriteBackAccounts(state: ForkedState)
      requires state.Valid() && state.cache == cache
      modifies cache`accounts, cache`codes
      ensures state.Valid()
      ensures AccountsWritten(old(cache.accounts), cache.accounts, state.account.base.View(), state.account.loaded,
                              CacheKey(state.account.cacheRef), state.account.base.hash)
      ensures CodesWritten(old(cache.codes), cache.codes, state.account.base.View(), state.account.loaded,
                           CacheKey(state.account.cacheRef))
    {
      hide CacheKey, MemoryStore.Valid;
      hide InMemoryAccountState.Valid, InMemoryAccountState.View, InMemoryAccountState.Saved;
      hide Accts.Clean, Slts.ForkStorage.InStep, AccountsWritten, CodesWritten;
      var account := state.account;
      var base, r := account.base, account.cacheRef;
      var left := account.loaded;
      NothingWritten(cache.accounts, cache.codes, base.View(), CacheKey(r), base.hash);
      assert account.loaded - left == {};
      while left != {}
        invariant left <= account.loaded && cache.Valid()
        invariant AccountsWritten(old(cache.accounts), cache.accounts, base.View(), account.loaded - left, CacheKey(r),
                                  base.hash)
        invariant CodesWritten(old(cache.codes), cache.codes, base.View(), account.loaded - left, CacheKey(r))
        decreases left
      {
        var a :| a in left;
        OneMoreAccount(old(cache.accounts), cache.accounts, base.View(), account.loaded - left, CacheKey(r), base.hash,
                       a);
        OneMoreCode(old(cache.codes), cache.codes, base.View(), account.loaded - left, CacheKey(r), a);
        assert account.loaded - left + {a} == account.loaded - (left - {a});
        var balance := base.Balance(a);
        var code := base.Code(a);
        var codeHash := if |code| > 0 then base.hash(code) else base.CodeHash(a);
        cache.PutAccount(a, r, AccountSnapshot(Some(balance), base.Nonce(a), code, codeHash, base.Exists(a)));
        if |code| > 0 {
          cache.PutCode(a, r, code);
        }
        left := left - {a};
      }
      assert account.loaded - left == account.loaded;
    }

    /** The storage half. */
    method WriteBackSlots(state: ForkedState)
      requires state.Valid() && state.cache == cache
      modifies cache`storage
      ensures state.Valid()
      ensures SlotsWritten(old(cache.storage), cache.storage, state.storage.base.View(), state.storage.loaded,
                           CacheKey(state.storage.cacheRef))
    {
      hide CacheKey, MemoryStore.Valid, Accts.ForkAccountState.InStep, Slts.ForkStorage.InStep, SlotsWritten;
      var storage := state.storage;
      var left := storage.loaded;
      NoSlotWritten(cache.storage, storage.base.View(), CacheKey(storage.cacheRef));
      assert storage.loaded - left == {};
      while left != {}
        invariant left <= storage.loaded && cache.Valid()
        invariant SlotsWritten(old(cache.storage), cache.storage, storage.base.View(), storage.loaded - left,
                               CacheKey(storage.cacheRef))
        decreases left
      {
        var k :| k in left;
        OneMoreSlot(old(cache.storage), cache.storage, storage.base.View(), storage.loaded - left,
                    CacheKey(storage.cacheRef), k);
        assert storage.loaded - left + {k} == storage.loaded - (left - {k});
        var value := storage.base.Get(k);
        cache.PutStorage(k.0, k.1, storage.cacheRef, value);
        left := left - {k};
      }
      assert storage.loaded - left == storage.loaded;
    }

    /** ExecutePreparedCall: the run, and for a creation the deployment. */
    method RunPrepared(state: ForkedState, tx: Transaction, code: Bytes)
      returns (answers: seq<Answer>, deployed: Option<(Address, Bytes)>)
      requires state.Valid() && state.cache == cache && state.account.base.hash == hash
      modifies state.account, state.account.base.Repr, state.storage, state.storage.base
      modifies cache`accounts, cache`codes, cache`storage
      ensures state.Valid() && fresh(state.account.base.Repr - old(state.account.base.Repr))
      ensures state.account.Start() == old(state.account.Start()) && state.storage.Start() == old(state.storage.Start())
      ensures state.Grew(old(cache.accounts), old(cache.codes), old(cache.storage))
      ensures var (e, given) := Play(old(state.Now()), tx.program(code), hash, [], tx.steps);
        && answers == given && deployed == tx.deploys(given) && e.Total()
        && state.Now() == if deployed.None? then e
                          else Perform(e, SetCode(deployed.value.0, deployed.value.1), hash).0
      ensures deployed.Some? ==> deployed.value.0 in state.account.loaded
    {
      hide CacheKey, Perform, EagerState.Total;
      hide Accts.ForkAccountState.InStep, Slts.ForkStorage.InStep, MemoryStore.Valid;
      hide Accts.ForkAccountState.Start, Slts.ForkStorage.Start, Accts.CacheGrew, Slts.CacheGrew, ForkedState.Now;
      PlayTotal(state.Now(), tx.program(code), hash, [], tx.steps);
      answers := state.Play(tx.program(code), tx.steps);
      deployed := tx.deploys(answers);
      if deployed.Some? {
        ghost var accounts, codes, slots := cache.accounts, cache.codes, cache.storage;
        state.Deploy(deployed.value.0, deployed.value.1);
        Accts.CacheGrewThrough(old(cache.accounts), old(cache.codes), accounts, codes, cache.accounts, cache.codes,
                               CacheKey(state.account.cacheRef), state.account.Start());
        Slts.CacheGrewThrough(old(cache.storage), slots, cache.storage, CacheKey(state.storage.cacheRef));
      }
    }

    /** The state diff of a successful creation, applied to the cache on top of what was written back. */
    method RecordCreation(r: BlockRef, a: Address, code: Bytes)
      requires cache.Valid()
      requires (a, CacheKey(r)) in cache.accounts
      requires cache.accounts[(a, CacheKey(r))].balance.Some? && cache.accounts[(a, CacheKey(r))].code == code
      modifies cache`accounts, cache`codes, cache`dirty
      ensures cache.Valid() && StartOf(r) == old(StartOf(r))
      ensures cache.codes == old(cache.codes)[(a, CacheKey(r)) := code]
      ensures Kept(old(cache.accounts), cache.accounts, CacheKey(r))
    {
      hide CacheKey, MemoryStore.Valid, Accts.Starts, Slts.Starts;
      RecordingIsSilent(cache.accounts, r, provider, hash, a, hash(code));
      cache.ApplyCode(a, r, code, hash(code));
      RecordingIsSilent(cache.accounts, r, provider, hash, a, hash(code));
      cache.MarkCreated(a, r);
    }

    /** writeBackPreparedState */
    method WriteBackPreparedState(state: ForkedState, ghost spared: Option<Address>)
      requires state.Valid() && state.cache == cache && state.account.base.hash == hash
      requires state.account.cacheRef == state.storage.cacheRef
      requires state.account.provider == provider && state.storage.provider == provider
      requires Settled(state.account.Start(), hash)
      modifies cache`accounts, cache`codes, cache`storage
      ensures cache.Valid() && StartOf(state.account.cacheRef) == Boundary(old(state.Now()), hash)
      ensures Settled(StartOf(state.account.cacheRef).accounts, hash)
      ensures
        old(Ready(state.account.cacheRef))
        && KeepsCode(old(state.account.Start()), old(state.Now()).accounts, spared) ==>
          CodesAgreeBut(cache.codes, state.account.cacheRef, provider, old(state.Now()).accounts, spared)
      ensures Kept(old(cache.accounts), cache.accounts, CacheKey(state.account.cacheRef))
      ensures Kept(old(cache.codes), cache.codes, CacheKey(state.account.cacheRef))
      ensures SlotsKept(old(cache.storage), cache.storage, CacheKey(state.account.cacheRef))
      ensures forall a: Address :: a in state.account.loaded ==>
        var k := (a, CacheKey(state.account.cacheRef));
        && k in cache.accounts && cache.accounts[k].balance.Some?
        && cache.accounts[k].code == old(state.Now()).accounts[a].code
    {
      hide CacheKey, MemoryStore.Valid, Accts.Starts, Slts.Starts;
      hide Accts.Merged, Slts.Merged, Boundary, KeepsCode, CodesAgree, CodesAgreeBut;
      hide AccountsWritten, CodesWritten, SlotsWritten, Kept, SlotsKept, Settled, Accts.Clean, Slts.Clean;
      hide InMemoryAccountState.Valid, InMemoryAccountState.View, InMemoryAccountState.Saved;
      var account := state.account;
      var r := account.cacheRef;
      ghost var accounts, codes, slots := cache.accounts, cache.codes, cache.storage;
      ghost var acc, sto, start := account.base.View(), state.storage.base.View(), account.Start();
      WriteBackAccounts(state);
      WriteBackSlots(state);
      NextIsBoundary(accounts, cache.accounts, slots, cache.storage, acc, account.loaded, sto, state.storage.loaded,
                     r, provider, hash, old(state.Now()));
      WritingKeeps(accounts, cache.accounts, codes, cache.codes, acc, account.loaded, CacheKey(r), hash);
      WritingSlotsKeeps(slots, cache.storage, sto, state.storage.loaded, CacheKey(r));
      if old(Ready(r)) {
        CodesGoOnAgreeing(codes, cache.codes, acc, account.loaded, start, r, provider, spared);
      }
      forall a: Address | a in account.loaded ensures
        var k := (a, CacheKey(r));
        && k in cache.accounts && cache.accounts[k].balance.Some?
        && cache.accounts[k].code == old(state.Now()).accounts[a].code
      {
        WrittenAt(accounts, cache.accounts, acc, account.loaded, start, CacheKey(r), hash, a);
      }
    }

    /** commitReplayReconstructionWrites */
    method CommitReplayReconstructionWrites(state: ForkedState, deployed: Option<(Address, Bytes)>)
      requires state.Valid() && state.cache == cache && state.account.base.hash == hash
      requires state.account.cacheRef == state.storage.cacheRef
      requires state.account.provider == provider && state.storage.provider == provider
      requires Settled(state.account.Start(), hash)
      requires deployed.Some? ==> deployed.value.0 in state.account.loaded
      requires deployed.Some? ==> state.Now().accounts[deployed.value.0].code == deployed.value.1
      modifies cache`accounts, cache`codes, cache`storage, cache`dirty
      ensures cache.Valid() && StartOf(state.account.cacheRef) == Boundary(old(state.Now()), hash)
      ensures Settled(StartOf(state.account.cacheRef).accounts, hash)
      ensures old(Ready(state.account.cacheRef))
              && KeepsCode(old(state.account.Start()), old(state.Now()).accounts, Target(deployed)) ==>
                Ready(state.account.cacheRef)
      ensures Kept(old(cache.accounts), cache.accounts, CacheKey(state.account.cacheRef))
      ensures Kept(old(cache.codes), cache.codes, CacheKey(state.account.cacheRef))
      ensures SlotsKept(old(cache.storage), cache.storage, CacheKey(state.account.cacheRef))
    {
      hide CacheKey, MemoryStore.Valid, Accts.Starts, Slts.Starts, KeepsCode, CodesAgree, Kept, SlotsKept, Settled;
      hide Accts.ForkAccountState.InStep, Slts.ForkStorage.InStep, CodesAgreeBut;
      hide Accts.ForkAccountState.Now, Slts.ForkStorage.Now, Boundary;
      var r := state.account.cacheRef;
      ghost var end, spared := state.Now(), Target(deployed);
      ghost var ready := Ready(r) && KeepsCode(state.account.Start(), state.Now().accounts, spared);
      WriteBackPreparedState(state, spared);
      ghost var accounts, codes := cache.accounts, cache.codes;
      if ready {
        AgreeAtBoundary(codes, r, provider, end, hash, spared);
      }
      if deployed.Some? {
        var (a, code) := deployed.value;
        RecordCreation(r, a, code);
        KeptThrough(old(cache.accounts), accounts, cache.accounts, CacheKey(r));
        KeptByUpdate(codes, a, CacheKey(r), code);
        KeptThrough(old(cache.codes), codes, cache.codes, CacheKey(r));
        if ready {
          CarriesCode(end, hash, a);
          AgreeOnceRecorded(codes, r, provider, Boundary(end, hash).accounts, a, code);
        }
      }
    }

    /** One prior transaction, from preparing it to committing its writes. */
    method ReplayPrior(tx: Transaction, r: BlockRef) returns (answers: seq<Answer>)
      requires cache.Valid() && Ready(r)
      modifies cache`accounts, cache`codes, cache`storage, cache`dirty
      ensures cache.Valid()
      ensures var (end, given) := RunTx(old(StartOf(r)), tx, hash);
        && answers == given
        && StartOf(r) == Boundary(end, hash)
        && (KeepsCode(old(StartOf(r)).accounts, Executed(old(StartOf(r)), tx, hash).0.accounts, None) ==> Ready(r))
      ensures Kept(old(cache.accounts), cache.accounts, CacheKey(r)) && Kept(old(cache.codes), cache.codes, CacheKey(r))
      ensures SlotsKept(old(cache.storage), cache.storage, CacheKey(r))
    {
      hide CacheKey, MemoryStore.Valid, Accts.Starts, Slts.Starts, KeepsCode, CodesAgree, Kept, SlotsKept, Settled;
      hide Accts.ForkAccountState.InStep, Slts.ForkStorage.InStep;
      hide Accts.ForkAccountState.Now, Slts.ForkStorage.Now, Boundary;
      hide Perform, Accts.CacheGrew, Slts.CacheGrew, FetchedCode;
      ghost var start := StartOf(r);
      var code := tx.init;
      if tx.to.Some? {
        AgreesAt(cache.codes, r, provider, start.accounts, tx.to.value);
        code := ResolveCode(tx.to.value, r);
        AgreeWithDeployed(old(cache.codes), r, provider, start.accounts, tx.to.value, code);
        KeptByUpdate(old(cache.codes), tx.to.value, CacheKey(r), code);
      } else {
        KeptSame(cache.codes, CacheKey(r));
      }
      ghost var accounts, codes, slots := cache.accounts, cache.codes, cache.storage;
      var state := new ForkedState(provider, cache, r, hash);
      var deployed;
      answers, deployed := RunPrepared(state, tx, code);
      AgreementGrows(codes, cache.codes, accounts, cache.accounts, start.accounts, r, provider);
      GrowingKeeps(accounts, codes, cache.accounts, cache.codes, slots, cache.storage, CacheKey(r), start.accounts);
      KeptThrough(old(cache.codes), codes, cache.codes, CacheKey(r));
      ghost var accounts1, codes1, slots1 := cache.accounts, cache.codes, cache.storage;
      ghost var played := Executed(start, tx, hash).0;
      if deployed.Some? {
        CodeAfterSetting(played, deployed.value.0, deployed.value.1, hash);
      }
      if KeepsCode(start.accounts, played.accounts, None) {
        DeployingSpares(start.accounts, played, deployed, hash);
      }
      CommitReplayReconstructionWrites(state, deployed);
      KeptThrough(old(cache.accounts), accounts1, cache.accounts, CacheKey(r));
      KeptThrough(old(cache.codes), codes1, cache.codes, CacheKey(r));
      SlotsKeptThrough(old(cache.storage), slots1, cache.storage, CacheKey(r));
    }

    /** What upstream alone gives: the state after the source block. */
    ghost function Upstream(): (e: EagerState)
      ensures e.Total()
    {
      EagerState(Accts.Starts(map[], LATEST, provider, hash), [], Slts.Starts(map[], LATEST, provider), [])
    }

    /** A key nothing is filed under yet. */
    ghost predicate Unused(r: BlockRef)
      reads cache`accounts, cache`codes, cache`storage
    {
      && (forall k :: k in cache.accounts ==> k.1 != CacheKey(r))
      && (forall k :: k in cache.codes ==> k.1 != CacheKey(r))
      && (forall k :: k in cache.storage ==> k.2 != CacheKey(r))
    }

    /** Such a key can be replayed on, and stands for upstream. */
    lemma UnusedIsReady(r: BlockRef)
      requires Unused(r)
      ensures Ready(r) && StartOf(r) == Upstream()
    {
      hide CacheKey;
      assert StartOf(r).accounts == Upstream().accounts;
      assert StartOf(r).slots == Upstream().slots;
    }

    /** An account's snapshot says what upstream says of it, and stands for an account that exists. */
    predicate EchoesAccount(s: AccountSnapshot, a: Address) {
      && (if s.balance.Some? then s.balance.value else 0) == provider.balance(a)
      && s.nonce == provider.nonce(a) && s.code == provider.code(a)
      && (s.present || s.balance.Some? || s.nonce != 0 || s.code != [])
    }

    /** Every entry filed under the key says what upstream says. */
    ghost predicate EchoesUpstream(r: BlockRef)
      reads cache`accounts, cache`storage
    {
      && (forall a: Address :: (a, CacheKey(r)) in cache.accounts ==>
            EchoesAccount(cache.accounts[(a, CacheKey(r))], a))
      && (forall k: SlotKey :: (k.0, k.1, CacheKey(r)) in cache.storage ==>
            cache.storage[(k.0, k.1, CacheKey(r))] == provider.storage(k))
    }

    lemma AccountEchoed(r: BlockRef, a: Address)
      ensures StartOf(r).accounts[a] == Upstream().accounts[a]
        <==> ((a, CacheKey(r)) in cache.accounts ==> EchoesAccount(cache.accounts[(a, CacheKey(r))], a))
    {
      hide CacheKey;
    }

    /** A replay under the key starts from upstream exactly when the key adds nothing to it. */
    lemma StartIsUpstreamIff(r: BlockRef)
      ensures StartOf(r) == Upstream() <==> EchoesUpstream(r)
    {
      hide CacheKey;
      if EchoesUpstream(r) {
        forall a: Address ensures StartOf(r).accounts[a] == Upstream().accounts[a] {
          AccountEchoed(r, a);
        }
        assert StartOf(r).accounts == Upstream().accounts;
        assert StartOf(r).slots == Upstream().slots;
      } else if StartOf(r) == Upstream() {
        forall a: Address | (a, CacheKey(r)) in cache.accounts
          ensures EchoesAccount(cache.accounts[(a, CacheKey(r))], a)
        {
          AccountEchoed(r, a);
          assert StartOf(r).accounts[a] == Upstream().accounts[a];
        }
        forall k: SlotKey | (k.0, k.1, CacheKey(r)) in cache.storage
          ensures cache.storage[(k.0, k.1, CacheKey(r))] == provider.storage(k)
        {
          assert StartOf(r).slots[k] == Upstream().slots[k];
        }
      }
    }

    /**
     * reconstructPriorTransactions: the answer is exact when the target is in the block and every transaction before
     * it matches, and then the synthetic key holds what those transactions, one after the other, leave of the state
     * the key stood for: upstream's, if the key is not in use, and in general see StartIsUpstreamIff.
     */
    method ReconstructPriorTransactions(block: seq<BlockTx>, target: Hash, source: BlockRef, synthetic: BlockRef)
      returns (replay: ReplayState)
      requires cache.Valid() && Ready(synthetic)
      requires NoCodeLost(StartOf(synthetic), Txs(block)[..Prior(block, target)], hash)
      modifies cache`accounts, cache`codes, cache`storage, cache`dirty
      ensures cache.Valid() && Ready(synthetic)
      ensures old(Unused(synthetic)) ==> old(StartOf(synthetic)) == Upstream()
      ensures var n, start := Prior(block, target), old(StartOf(synthetic));
        && (replay.exact <==> n < |block| && forall i :: 0 <= i < n ==> Matches(start, block, i, hash))
        && (replay.exact ==> replay == ReplayState(synthetic, true, Ids(block)[..n])
                             && StartOf(synthetic) == Chain(start, Txs(block)[..n], hash))
        && (!replay.exact ==> replay == ReplayState(source, false, []))
      ensures Kept(old(cache.accounts), cache.accounts, CacheKey(synthetic))
      ensures Kept(old(cache.codes), cache.codes, CacheKey(synthetic))
      ensures SlotsKept(old(cache.storage), cache.storage, CacheKey(synthetic))
    {
      hide CacheKey, MemoryStore.Valid, Ready, Kept, SlotsKept, KeepsCode, RunTx, Executed, Boundary, EagerState.Total;
      hide StartOf, Upstream, Unused, Matches, NoCodeLost, Chain, Prior;
      if Unused(synthetic) {
        UnusedIsReady(synthetic);
      }
      ghost var n, txs, start := Prior(block, target), Txs(block), StartOf(synthetic);
      assert Chain(start, [], hash) == start by { ChainEmpty(start, hash); }
      KeptSame(cache.accounts, CacheKey(synthetic));
      KeptSame(cache.codes, CacheKey(synthetic));
      SlotsKeptSame(cache.storage, CacheKey(synthetic));
      var applied: seq<Hash> := [];
      var i := 0;
      while i < |block| && block[i].id != target
        invariant i <= n && applied == Ids(block)[..i]
        invariant cache.Valid() && Ready(synthetic) && StartOf(synthetic) == Chain(start, txs[..i], hash)
        invariant forall j :: 0 <= j < i ==> Matches(start, block, j, hash)
        invariant Kept(old(cache.accounts), cache.accounts, CacheKey(synthetic))
        invariant Kept(old(cache.codes), cache.codes, CacheKey(synthetic))
        invariant SlotsKept(old(cache.storage), cache.storage, CacheKey(synthetic))
      {
        PriorReaches(block, target, i);
        ChainStep(start, block, n, i, hash);
        if !block[i].available {
          return ReplayState(source, false, []);
        }
        ghost var accounts, codes, slots := cache.accounts, cache.codes, cache.storage;
        var answers := ReplayPrior(block[i].tx, synthetic);
        KeptThrough(old(cache.accounts), accounts, cache.accounts, CacheKey(synthetic));
        KeptThrough(old(cache.codes), codes, cache.codes, CacheKey(synthetic));
        SlotsKeptThrough(old(cache.storage), slots, cache.storage, CacheKey(synthetic));
        if !block[i].matches(answers) {
          return ReplayState(source, false, []);
        }
        applied := applied + [block[i].id];
        i := i + 1;
      }
      PriorReaches(block, target, i);
      if i == |block| {
        return ReplayState(source, false, []);
      }
      replay := ReplayState(synthetic, true, applied);
    }
  }

  // ---------------------------------------------------------------- reconstructing twice

  /** A transaction that pays one wei to `a`. */
  function Pays(a: Address): Transaction {
    Transaction(Some(a), [], code => answers => if answers == [] then Some(AddBalance(a, 1)) else None, 1,
                answers => None)
  }

  /**
   * A second reconstruction under the same key replays on what the first one left. So a retry, or a key brought back by
   * an import, does every prior transaction twice: one that pays is paid twice.
   */
  lemma SecondReconstructionPaysTwice(e: EagerState, a: Address, hash: Bytes -> Hash)
    requires e.Total()
    ensures var once := Chain(e, [Pays(a)], hash); var twice := Chain(once, [Pays(a)], hash);
      && once.accounts[a].balance == e.accounts[a].balance + 1
      && twice.accounts[a].balance == e.accounts[a].balance + 2
      && twice != once
  {
    hide Chain, RunTx, Boundary;
    var once := Chain(e, [Pays(a)], hash);
    ChainOne(e, a, hash);
    ChainOne(once, a, hash);
  }

  lemma ChainOne(e: EagerState, a: Address, hash: Bytes -> Hash)
    requires e.Total()
    ensures Chain(e, [Pays(a)], hash).accounts[a].balance == e.accounts[a].balance + 1
  {
    hide Chain;
    var txs := [Pays(a)];
    assert txs[..0] == [];
    ChainEmpty(e, hash);
    ChainLast(e, txs, hash);
    var s := Pays(a).program(e.accounts[a].code);
    assert s([]) == Some(AddBalance(a, 1));
    PerformTotal(e, AddBalance(a, 1), hash);
    var e1 := Perform(e, AddBalance(a, 1), hash).0;
    assert Play(e1, s, hash, [Nothing], 0) == (e1, [Nothing]);
    assert [] + [Nothing] == [Nothing];
    assert Play(e, s, hash, [], 1) == (e1, [Nothing]);
  }
}
