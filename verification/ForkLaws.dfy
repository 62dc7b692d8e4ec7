/** What the fork reads: upstream's answers under the address asked for, the cache before them, and nothing else. */
module ForkLaws {
  import opened Base
  import opened Ledger
  import opened BlockRefs
  import opened CacheStore
  import opened Eager
  import opened WriteBack
  import Accts = ForkAccounts
  import Slts = ForkSlots
  import R = Reconstruction

  // ---------------------------------------------------------------- where a prepared call starts

  /** An account the cache does not have is upstream's account of that address. */
  lemma UncachedAccount(accounts: map<AccountKey, AccountSnapshot>, r: BlockRef, p: Provider, hash: Bytes -> Hash,
                        a: Address)
    requires (a, CacheKey(r)) !in accounts
    ensures var e := Accts.Starts(accounts, r, p, hash)[a];
      && e.balance == p.balance(a) && e.nonce == p.nonce(a) && e.code == p.code(a)
      && e.codeHash == (if p.code(a) != [] then hash(p.code(a)) else ZERO_WORD)
      && e.known && !e.deleted
  {
    hide CacheKey;
  }

  /** An account the cache has is the cached one; its code hash is computed again. */
  lemma CachedAccount(accounts: map<AccountKey, AccountSnapshot>, r: BlockRef, p: Provider, hash: Bytes -> Hash,
                      a: Address)
    requires (a, CacheKey(r)) in accounts
    ensures var s, e := accounts[(a, CacheKey(r))], Accts.Starts(accounts, r, p, hash)[a];
      && (s.balance.Some? ==> e.balance == s.balance.value) && (s.balance.None? ==> e.balance == 0)
      && e.nonce == s.nonce && e.code == s.code
      && e.codeHash == (if s.code != [] then hash(s.code) else ZERO_WORD)
      && (e.known <==> s.present || s.balance.Some? || s.nonce != 0 || s.code != []) && !e.deleted
  {
    hide CacheKey;
  }

  /** A slot starts with the cached value or upstream's, and that is its original value too. */
  lemma StartingSlot(storage: map<StorageKey, Hash>, r: BlockRef, p: Provider, k: SlotKey)
    ensures var e, key := Slts.Starts(storage, r, p)[k], (k.0, k.1, CacheKey(r));
      && e.value == (if key in storage then storage[key] else p.storage(k)) && e.original == e.value
  {
    hide CacheKey;
  }

  // ---------------------------------------------------------------- between two transactions

  /** The next transaction finds the balances, nonces, code and storage of this one's end, and no journal. */
  lemma NextFinds(e: EagerState, hash: Bytes -> Hash)
    requires e.Total()
    ensures var next := Boundary(e, hash);
      && (forall a: Address :: next.accounts[a].balance == e.accounts[a].balance
                               && next.accounts[a].nonce == e.accounts[a].nonce
                               && next.accounts[a].code == e.accounts[a].code
                               && next.accounts[a].known && !next.accounts[a].deleted)
      && (forall a: Address :: e.accounts[a].code != [] ==> next.accounts[a].codeHash == hash(e.accounts[a].code))
      && (forall k: SlotKey :: next.slots[k].value == e.slots[k].value && next.slots[k].original == e.slots[k].value)
      && next.savedAccounts == [] && next.savedSlots == []
  {
  }

  /** Of the state only the code of the account called decides what a transaction runs. */
  lemma RunsTargetsCode(e: EagerState, tx: R.Transaction, a: Address, program: Bytes -> Strategy, hash: Bytes -> Hash)
    requires e.Total() && tx.to == Some(a) && program(e.accounts[a].code) == tx.program(e.accounts[a].code)
    ensures R.Executed(e, tx.(program := program), hash) == R.Executed(e, tx, hash)
  {
  }

  /** A creation runs its own init code, whatever the accounts have. */
  lemma RunsInitCode(e: EagerState, tx: R.Transaction, program: Bytes -> Strategy, hash: Bytes -> Hash)
    requires e.Total() && tx.to.None? && program(tx.init) == tx.program(tx.init)
    ensures R.Executed(e, tx.(program := program), hash) == R.Executed(e, tx, hash)
  {
  }

  /** What a creation deploys is the code of the one account it names; everything else is as the run left it. */
  lemma CreationDeploys(e: EagerState, tx: R.Transaction, hash: Bytes -> Hash)
    requires e.Total()
    ensures var (run, answers) := R.Executed(e, tx, hash); var (end, given) := R.RunTx(e, tx, hash);
      && given == answers
      && match tx.deploys(answers)
         case None => end == run
         case Some((a, code)) =>
           && end == run.(accounts := end.accounts)
           && end.accounts[a] == run.accounts[a].(code := code, codeHash := hash(code), known := true)
           && forall b: Address :: b != a ==> end.accounts[b] == run.accounts[b]
  {
    hide R.Executed;
  }

  /** Transactions run in order: first these, then, on what they left, those; and one is its run and the boundary. */
  lemma {:induction false} ChainInOrder(e: EagerState, first: seq<R.Transaction>, next: seq<R.Transaction>,
                                        hash: Bytes -> Hash)
    requires e.Total()
    ensures R.Chain(e, first + next, hash) == R.Chain(R.Chain(e, first, hash), next, hash)
    ensures |next| == 1 ==> R.Chain(e, next, hash) == Boundary(R.RunTx(e, next[0], hash).0, hash)
  {
    hide R.RunTx, Boundary;
    if next == [] {
      assert first + next == first;
    } else {
      var init, last := next[..|next| - 1], next[|next| - 1];
      assert (first + next)[..|first + next| - 1] == first + init;
      ChainInOrder(e, first, init, hash);
      R.ChainLast(e, first + next, hash);
      R.ChainLast(R.Chain(e, first, hash), next, hash);
      if |next| == 1 {
        assert init == [];
        R.ChainEmpty(e, hash);
        R.ChainLast(e, next, hash);
      }
    }
  }

  // ---------------------------------------------------------------- the cache

  /** What was put under an address and a block is found there, and nothing else has changed. */
  lemma GetAfterPut(c: Contents, a: Address, r: BlockRef, s: AccountSnapshot, b: Address, q: BlockRef)
    ensures c.(accounts := c.accounts[(a, CacheKey(r)) := s]).GetAccount(b, q)
         == if b == a && CacheKey(q) == CacheKey(r) then Some(s) else c.GetAccount(b, q)
  {
    hide CacheKey;
  }

  lemma SlotAfterPut(c: Contents, a: Address, slot: Hash, r: BlockRef, v: Hash, b: Address, other: Hash, q: BlockRef)
    ensures c.(storage := c.storage[(a, slot, CacheKey(r)) := v]).GetStorage(b, other, q)
         == if b == a && other == slot && CacheKey(q) == CacheKey(r) then Some(v) else c.GetStorage(b, other, q)
  {
    hide CacheKey;
  }

  lemma CodeAfterPut(c: Contents, a: Address, r: BlockRef, code: Bytes, b: Address, q: BlockRef)
    ensures c.(codes := c.codes[(a, CacheKey(r)) := code]).GetCode(b, q)
         == if b == a && CacheKey(q) == CacheKey(r) then Some(code) else c.GetCode(b, q)
  {
    hide CacheKey;
  }
}
