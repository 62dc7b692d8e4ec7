/** What one transaction leaves in the cache for the next: loaded entries are written back, nothing else is. */
module WriteBack {
  import opened Base
  import opened Ledger
  import opened BlockRefs
  import opened CacheStore
  import opened Eager
  import Accts = ForkAccounts
  import Slts = ForkSlots

  // ---------------------------------------------------------------- the boundary between two transactions

  /** The snapshot written back for an account. */
  function Written(acc: Accounts, a: Address, hash: Bytes -> Hash): AccountSnapshot {
    var code := acc.Code(a);
    AccountSnapshot(Some(acc.Balance(a)), acc.Nonce(a), code, if code != [] then hash(code) else acc.CodeHash(a),
                    acc.Exists(a))
  }

  /** An account at the start of the next transaction: not deleted, known, no code hash without code. */
  function Carried(e: Entry, hash: Bytes -> Hash): Entry {
    Entry(e.balance, e.nonce, e.code, if e.code != [] then hash(e.code) else ZERO_WORD, true, false)
  }

  /** Balances, nonces, code and storage carry over; each slot's original value is what the last transaction left. */
  ghost function Boundary(e: EagerState, hash: Bytes -> Hash): (next: EagerState)
    requires e.Total()
    ensures next.Total()
  {
    EagerState(imap a: Address | true :: Carried(e.accounts[a], hash), [],
               imap k: SlotKey | true :: SlotEntry(e.slots[k].value, e.slots[k].value), [])
  }

  /** Nothing would change at the boundary. */
  ghost predicate Settled(accounts: imap<Address, Entry>, hash: Bytes -> Hash) {
    forall a: Address :: a in accounts && accounts[a] == Carried(accounts[a], hash)
  }

  // ---------------------------------------------------------------- the effect of writing back

  ghost predicate AccountsWritten(before: map<AccountKey, AccountSnapshot>, after: map<AccountKey, AccountSnapshot>,
                                  acc: Accounts, done: set<Address>, key: string, hash: Bytes -> Hash)
  {
    && (forall a: Address :: a in done ==> (a, key) in after && after[(a, key)] == Written(acc, a, hash))
    && (forall k: AccountKey :: !(k.1 == key && k.0 in done) ==>
          (k in after <==> k in before) && (k in after ==> after[k] == before[k]))
  }

  ghost predicate CodesWritten(before: map<AccountKey, Bytes>, after: map<AccountKey, Bytes>,
                               acc: Accounts, done: set<Address>, key: string)
  {
    && (forall a: Address :: a in done && acc.Code(a) != [] ==> (a, key) in after && after[(a, key)] == acc.Code(a))
    && (forall k: AccountKey :: !(k.1 == key && k.0 in done && acc.Code(k.0) != []) ==>
          (k in after <==> k in before) && (k in after ==> after[k] == before[k]))
  }

  ghost predicate SlotsWritten(before: map<StorageKey, Hash>, after: map<StorageKey, Hash>,
                               sto: Ledger.Slots, done: set<SlotKey>, key: string)
  {
    && (forall k: SlotKey :: k in done ==> (k.0, k.1, key) in after && after[(k.0, k.1, key)] == sto.Get(k))
    && (forall k: StorageKey :: !(k.2 == key && (k.0, k.1) in done) ==>
          (k in after <==> k in before) && (k in after ==> after[k] == before[k]))
  }

  /** Entries under other keys than this one are as they were. */
  ghost predicate Kept<V>(before: map<AccountKey, V>, after: map<AccountKey, V>, key: string) {
    forall k: AccountKey :: k.1 != key ==> Lookup(after, k) == Lookup(before, k)
  }

  ghost predicate SlotsKept(before: map<StorageKey, Hash>, after: map<StorageKey, Hash>, key: string) {
    forall k: StorageKey :: k.2 != key ==> Lookup(after, k) == Lookup(before, k)
  }

  lemma WritingKeeps(accounts: map<AccountKey, AccountSnapshot>, accounts1: map<AccountKey, AccountSnapshot>,
                     codes: map<AccountKey, Bytes>, codes1: map<AccountKey, Bytes>, acc: Accounts, done: set<Address>,
                     key: string, hash: Bytes -> Hash)
    requires AccountsWritten(accounts, accounts1, acc, done, key, hash) && CodesWritten(codes, codes1, acc, done, key)
    ensures Kept(accounts, accounts1, key) && Kept(codes, codes1, key)
  {
  }

  lemma WritingSlotsKeeps(before: map<StorageKey, Hash>, after: map<StorageKey, Hash>, sto: Ledger.Slots,
                          done: set<SlotKey>, key: string)
    requires SlotsWritten(before, after, sto, done, key)
    ensures SlotsKept(before, after, key)
  {
  }

  lemma GrowingKeeps(accounts: map<AccountKey, AccountSnapshot>, codes: map<AccountKey, Bytes>,
                     accounts1: map<AccountKey, AccountSnapshot>, codes1: map<AccountKey, Bytes>,
                     slots: map<StorageKey, Hash>, slots1: map<StorageKey, Hash>, key: string,
                     start: imap<Address, Entry>)
    requires (forall a: Address :: a in start) && Accts.CacheGrew(accounts, codes, accounts1, codes1, key, start)
    requires Slts.CacheGrew(slots, slots1, key)
    ensures Kept(accounts, accounts1, key) && Kept(codes, codes1, key) && SlotsKept(slots, slots1, key)
  {
  }

  lemma NothingWritten(accounts: map<AccountKey, AccountSnapshot>, codes: map<AccountKey, Bytes>, acc: Accounts,
                       key: string, hash: Bytes -> Hash)
    ensures AccountsWritten(accounts, accounts, acc, {}, key, hash) && CodesWritten(codes, codes, acc, {}, key)
  {
  }

  lemma OneMoreAccount(before: map<AccountKey, AccountSnapshot>, after: map<AccountKey, AccountSnapshot>, acc: Accounts,
                       done: set<Address>, key: string, hash: Bytes -> Hash, a: Address)
    requires AccountsWritten(before, after, acc, done, key, hash)
    ensures AccountsWritten(before, after[(a, key) := Written(acc, a, hash)], acc, done + {a}, key, hash)
  {
  }

  lemma OneMoreCode(before: map<AccountKey, Bytes>, after: map<AccountKey, Bytes>, acc: Accounts, done: set<Address>,
                    key: string, a: Address)
    requires CodesWritten(before, after, acc, done, key)
    ensures CodesWritten(before, if acc.Code(a) != [] then after[(a, key) := acc.Code(a)] else after, acc, done + {a},
                         key)
  {
  }

  lemma NoSlotWritten(storage: map<StorageKey, Hash>, sto: Ledger.Slots, key: string)
    ensures SlotsWritten(storage, storage, sto, {}, key)
  {
  }

  lemma OneMoreSlot(before: map<StorageKey, Hash>, after: map<StorageKey, Hash>, sto: Ledger.Slots, done: set<SlotKey>,
                    key: string, k: SlotKey)
    requires SlotsWritten(before, after, sto, done, key)
    ensures SlotsWritten(before, after[(k.0, k.1, key) := sto.Get(k)], sto, done + {k}, key)
  {
  }

  /** What the next transaction loads is what this one left, loaded or not. */
  lemma NextAccounts(before: map<AccountKey, AccountSnapshot>, after: map<AccountKey, AccountSnapshot>,
                     acc: Accounts, loaded: set<Address>, r: BlockRef, p: Provider, hash: Bytes -> Hash)
    requires AccountsWritten(before, after, acc, loaded, CacheKey(r), hash)
    requires Settled(Accts.Starts(before, r, p, hash), hash)
    ensures var now := Accts.Merged(acc, loaded, Accts.Starts(before, r, p, hash));
      Accts.Starts(after, r, p, hash) == imap a: Address | true :: Carried(now[a], hash)
    ensures Settled(Accts.Starts(after, r, p, hash), hash)
  {
    hide CacheKey, AccountsWritten, Fetched, EntryFrom, Carried, EntryOf;
    var start, next := Accts.Starts(before, r, p, hash), Accts.Starts(after, r, p, hash);
    var now := Accts.Merged(acc, loaded, start);
    forall a: Address ensures next[a] == Carried(now[a], hash) && next[a] == Carried(next[a], hash) {
      NextAccount(before, after, acc, loaded, r, p, hash, a);
      assert start[a] == Carried(start[a], hash);
      CarriedTwice(now[a], hash);
    }
  }

  lemma NextAccount(before: map<AccountKey, AccountSnapshot>, after: map<AccountKey, AccountSnapshot>,
                    acc: Accounts, loaded: set<Address>, r: BlockRef, p: Provider, hash: Bytes -> Hash, a: Address)
    requires AccountsWritten(before, after, acc, loaded, CacheKey(r), hash)
    ensures EntryFrom(Fetched(after, r, p, hash, a), hash)
         == if a in loaded then Carried(EntryOf(acc, a), hash) else EntryFrom(Fetched(before, r, p, hash, a), hash)
  {
    hide CacheKey;
  }

  lemma CarriedTwice(e: Entry, hash: Bytes -> Hash)
    ensures Carried(Carried(e, hash), hash) == Carried(e, hash)
  {
  }

  lemma NextSlots(before: map<StorageKey, Hash>, after: map<StorageKey, Hash>, sto: Ledger.Slots, loaded: set<SlotKey>,
                  r: BlockRef, p: Provider)
    requires SlotsWritten(before, after, sto, loaded, CacheKey(r))
    ensures var now := Slts.Merged(sto, loaded, Slts.Starts(before, r, p));
      Slts.Starts(after, r, p) == imap k: SlotKey | true :: SlotEntry(now[k].value, now[k].value)
  {
    hide CacheKey;
    var next, now := Slts.Starts(after, r, p), Slts.Merged(sto, loaded, Slts.Starts(before, r, p));
    forall k: SlotKey ensures next[k] == SlotEntry(now[k].value, now[k].value) {
      if k !in loaded {
        assert FetchedSlot(after, r, p, k) == FetchedSlot(before, r, p, k);
      }
    }
  }

  /** Together: the next transaction starts from the boundary of this one's end. */
  lemma NextIsBoundary(accounts: map<AccountKey, AccountSnapshot>, accounts1: map<AccountKey, AccountSnapshot>,
                       slots: map<StorageKey, Hash>, slots1: map<StorageKey, Hash>,
                       acc: Accounts, loaded: set<Address>, sto: Ledger.Slots, loadedSlots: set<SlotKey>,
                       r: BlockRef, p: Provider, hash: Bytes -> Hash, end: EagerState)
    requires AccountsWritten(accounts, accounts1, acc, loaded, CacheKey(r), hash)
    requires SlotsWritten(slots, slots1, sto, loadedSlots, CacheKey(r))
    requires Settled(Accts.Starts(accounts, r, p, hash), hash) && end.Total()
    requires end.accounts == Accts.Merged(acc, loaded, Accts.Starts(accounts, r, p, hash))
    requires end.slots == Slts.Merged(sto, loadedSlots, Slts.Starts(slots, r, p))
    ensures EagerState(Accts.Starts(accounts1, r, p, hash), [], Slts.Starts(slots1, r, p), []) == Boundary(end, hash)
    ensures Settled(Accts.Starts(accounts1, r, p, hash), hash)
  {
    hide CacheKey, Accts.Starts, Slts.Starts, Accts.Merged;
    hide Slts.Merged, AccountsWritten, SlotsWritten, Settled, Carried;
    NextAccounts(accounts, accounts1, acc, loaded, r, p, hash);
    NextSlots(slots, slots1, sto, loadedSlots, r, p);
    assert Accts.Starts(accounts1, r, p, hash) == Boundary(end, hash).accounts;
    assert Slts.Starts(slots1, r, p) == Boundary(end, hash).slots;
  }

  lemma WrittenAt(accounts: map<AccountKey, AccountSnapshot>, accounts1: map<AccountKey, AccountSnapshot>,
                  acc: Accounts, loaded: set<Address>, start: imap<Address, Entry>, key: string, hash: Bytes -> Hash,
                  a: Address)
    requires (forall b: Address :: b in start) && AccountsWritten(accounts, accounts1, acc, loaded, key, hash)
    requires a in loaded
    ensures (a, key) in accounts1 && accounts1[(a, key)].balance.Some?
    ensures accounts1[(a, key)].code == Accts.Merged(acc, loaded, start)[a].code
  {
  }

  /** Re-recording deployed code that was written back already changes nothing for the next transaction. */
  lemma RecordingIsSilent(accounts: map<AccountKey, AccountSnapshot>, r: BlockRef, p: Provider, hash: Bytes -> Hash,
                          a: Address, codeHash: Hash)
    requires (a, CacheKey(r)) in accounts && accounts[(a, CacheKey(r))].balance.Some?
    ensures var s := accounts[(a, CacheKey(r))];
      Accts.Starts(accounts[(a, CacheKey(r)) := s.(present := true, codeHash := codeHash)], r, p, hash)
      == Accts.Starts(accounts, r, p, hash)
  {
    hide CacheKey;
    var s := accounts[(a, CacheKey(r))];
    var recorded := accounts[(a, CacheKey(r)) := s.(present := true, codeHash := codeHash)];
    assert forall b: Address ::
      EntryFrom(Fetched(recorded, r, p, hash, b), hash) == EntryFrom(Fetched(accounts, r, p, hash, b), hash);
  }

  // ---------------------------------------------------------------- code looked up beside the accounts

  /** What resolveCode finds. */
  function FetchedCode(codes: map<AccountKey, Bytes>, r: BlockRef, p: Provider, a: Address): Bytes {
    if (a, CacheKey(r)) in codes then codes[(a, CacheKey(r))] else p.code(a)
  }

  /** The code cache agrees with the accounts. */
  ghost predicate CodesAgree(codes: map<AccountKey, Bytes>, r: BlockRef, p: Provider, accounts: imap<Address, Entry>) {
    forall a: Address :: a in accounts && FetchedCode(codes, r, p, a) == accounts[a].code
  }

  /**
   * Writing back skips empty code, so afterwards the looked-up code of an account is its code exactly when it did not
   * lose code it had before.
   */
  lemma ResolvedCodeIff(before: map<AccountKey, Bytes>, after: map<AccountKey, Bytes>, acc: Accounts,
                        loaded: set<Address>, start: imap<Address, Entry>, r: BlockRef, p: Provider, a: Address)
    requires CodesAgree(before, r, p, start) && CodesWritten(before, after, acc, loaded, CacheKey(r))
    ensures var now := Accts.Merged(acc, loaded, start);
      FetchedCode(after, r, p, a) == now[a].code <==> !(start[a].code != [] && now[a].code == [])
  {
    hide CacheKey;
    assert FetchedCode(before, r, p, a) == start[a].code;
  }

  /** No account that had code ends up without, but for the one spared. */
  ghost predicate KeepsCode(before: imap<Address, Entry>, after: imap<Address, Entry>, spared: Option<Address>) {
    forall a: Address :: a in before && a in after
                         && (spared != Some(a) && before[a].code != [] ==> after[a].code != [])
  }

  /** The code cache agrees with the accounts, but for the one spared. */
  ghost predicate CodesAgreeBut(codes: map<AccountKey, Bytes>, r: BlockRef, p: Provider, accounts: imap<Address, Entry>,
                                spared: Option<Address>)
  {
    forall a: Address :: a in accounts && (spared == Some(a) || FetchedCode(codes, r, p, a) == accounts[a].code)
  }

  /** So the code cache goes on agreeing when no code was lost. */
  lemma CodesGoOnAgreeing(before: map<AccountKey, Bytes>, after: map<AccountKey, Bytes>, acc: Accounts,
                          loaded: set<Address>, start: imap<Address, Entry>, r: BlockRef, p: Provider,
                          spared: Option<Address>)
    requires CodesAgree(before, r, p, start) && CodesWritten(before, after, acc, loaded, CacheKey(r))
    ensures var now := Accts.Merged(acc, loaded, start);
      KeepsCode(start, now, spared) ==> CodesAgreeBut(after, r, p, now, spared)
  {
    hide CodesWritten, FetchedCode, Accts.Merged;
    var now := Accts.Merged(acc, loaded, start);
    if KeepsCode(start, now, spared) {
      forall a: Address ensures a in now && (spared == Some(a) || FetchedCode(after, r, p, a) == now[a].code) {
        ResolvedCodeIff(before, after, acc, loaded, start, r, p, a);
        InMerged(acc, loaded, start, a);
      }
    }
  }

  lemma InMerged(acc: Accounts, loaded: set<Address>, start: imap<Address, Entry>, a: Address)
    requires forall b: Address :: b in start
    ensures a in Accts.Merged(acc, loaded, start)
  {
  }

  /** Fetching during a run keeps the agreement. */
  lemma AgreementGrows(codes: map<AccountKey, Bytes>, codes1: map<AccountKey, Bytes>,
                       accounts: map<AccountKey, AccountSnapshot>, accounts1: map<AccountKey, AccountSnapshot>,
                       start: imap<Address, Entry>, r: BlockRef, p: Provider)
    requires CodesAgree(codes, r, p, start) && Accts.CacheGrew(accounts, codes, accounts1, codes1, CacheKey(r), start)
    ensures CodesAgree(codes1, r, p, start)
  {
    hide CacheKey;
    forall a: Address ensures FetchedCode(codes1, r, p, a) == start[a].code {
      assert FetchedCode(codes, r, p, a) == start[a].code;
    }
  }

  lemma AgreeAtBoundary(codes: map<AccountKey, Bytes>, r: BlockRef, p: Provider, end: EagerState, hash: Bytes -> Hash,
                        spared: Option<Address>)
    requires end.Total() && CodesAgreeBut(codes, r, p, end.accounts, spared)
    ensures CodesAgreeBut(codes, r, p, Boundary(end, hash).accounts, spared)
    ensures spared.None? ==> CodesAgree(codes, r, p, Boundary(end, hash).accounts)
  {
    hide FetchedCode;
  }

  /** Recording the code of a deployment, empty or not, brings the spared account back in line. */
  lemma AgreeOnceRecorded(codes: map<AccountKey, Bytes>, r: BlockRef, p: Provider, accounts: imap<Address, Entry>,
                          a: Address, code: Bytes)
    requires CodesAgreeBut(codes, r, p, accounts, Some(a)) && a in accounts && accounts[a].code == code
    ensures CodesAgree(codes[(a, CacheKey(r)) := code], r, p, accounts)
  {
    hide CacheKey;
    var codes1 := codes[(a, CacheKey(r)) := code];
    forall b: Address ensures b in accounts && FetchedCode(codes1, r, p, b) == accounts[b].code {
      assert b == a || FetchedCode(codes, r, p, b) == accounts[b].code;
    }
  }

  lemma AgreeWithDeployed(codes: map<AccountKey, Bytes>, r: BlockRef, p: Provider, accounts: imap<Address, Entry>,
                          a: Address, code: Bytes)
    requires CodesAgree(codes, r, p, accounts) && a in accounts && accounts[a].code == code
    ensures CodesAgree(codes[(a, CacheKey(r)) := code], r, p, accounts)
  {
    hide CacheKey;
    var codes1 := codes[(a, CacheKey(r)) := code];
    forall b: Address ensures FetchedCode(codes1, r, p, b) == accounts[b].code {
      assert FetchedCode(codes, r, p, b) == accounts[b].code;
    }
  }

  lemma KeptThrough<V>(m: map<AccountKey, V>, m1: map<AccountKey, V>, m2: map<AccountKey, V>, key: string)
    requires Kept(m, m1, key) && Kept(m1, m2, key)
    ensures Kept(m, m2, key)
  {
  }

  lemma KeptByUpdate<V>(m: map<AccountKey, V>, a: Address, key: string, v: V)
    ensures Kept(m, m[(a, key) := v], key)
  {
  }

  lemma SlotsKeptThrough(m: map<StorageKey, Hash>, m1: map<StorageKey, Hash>, m2: map<StorageKey, Hash>, key: string)
    requires SlotsKept(m, m1, key) && SlotsKept(m1, m2, key)
    ensures SlotsKept(m, m2, key)
  {
  }

  lemma CarriesCode(end: EagerState, hash: Bytes -> Hash, a: Address)
    requires end.Total()
    ensures a in Boundary(end, hash).accounts && Boundary(end, hash).accounts[a].code == end.accounts[a].code
  {
  }

  lemma AgreesAt(codes: map<AccountKey, Bytes>, r: BlockRef, p: Provider, accounts: imap<Address, Entry>, a: Address)
    requires CodesAgree(codes, r, p, accounts)
    ensures a in accounts && FetchedCode(codes, r, p, a) == accounts[a].code
  {
  }

  lemma KeptSame<V>(m: map<AccountKey, V>, key: string)
    ensures Kept(m, m, key)
  {
  }

  lemma SlotsKeptSame(m: map<StorageKey, Hash>, key: string)
    ensures SlotsKept(m, m, key)
  {
  }
}
