/** The simple state a fork stands for: every account and slot of the source block there from the start. */
module Eager {
  import opened Base
  import opened Ledger
  import opened BlockRefs
  import opened CacheStore

  /** Upstream's answers at the source block. */
  datatype Provider = Provider(
    balance: Address -> int, nonce: Address -> u64, code: Address -> Bytes, storage: SlotKey -> Hash)

  datatype Entry = Entry(balance: int, nonce: u64, code: Bytes, codeHash: Hash, known: bool, deleted: bool)

  datatype SlotEntry = SlotEntry(value: Hash, original: Hash)

  /** One account of an account state. */
  function EntryOf(acc: Accounts, a: Address): Entry {
    Entry(acc.Balance(a), acc.Nonce(a), acc.Code(a), acc.CodeHash(a), acc.Exists(a), a in acc.deleted)
  }

  function SlotOf(sto: Slots, k: SlotKey): SlotEntry {
    SlotEntry(sto.Get(k), sto.Original(k))
  }

  /** Nothing at all is recorded for the account. */
  predicate Untouched(acc: Accounts, a: Address) {
    && a !in acc.balances && a !in acc.nonces && a !in acc.codes && a !in acc.codeHashes
    && a !in acc.present && a !in acc.deleted
  }

  // ---------------------------------------------------------------- loading

  /** What loading account `a` under cache key `r` finds: the cached snapshot, or else upstream's answers. */
  function Fetched(accounts: map<AccountKey, AccountSnapshot>, r: BlockRef, p: Provider, hash: Bytes -> Hash,
                   a: Address)
    : AccountSnapshot
  {
    var key := (a, CacheKey(r));
    if key in accounts then accounts[key]
    else
      var balance, nonce, code := p.balance(a), p.nonce(a), p.code(a);
      AccountSnapshot(Some(balance), nonce, code, hash(code), balance != 0 || nonce != 0 || code != [])
  }

  function FetchedSlot(storage: map<StorageKey, Hash>, r: BlockRef, p: Provider, k: SlotKey): Hash {
    var key := (k.0, k.1, CacheKey(r));
    if key in storage then storage[key] else p.storage(k)
  }

  /** seedAccount */
  function Seeded(acc: Accounts, a: Address, s: AccountSnapshot, hash: Bytes -> Hash): Accounts {
    var acc1 := if s.present then acc.CreateAccount(a) else acc;
    var acc2 := if s.balance.Some? then acc1.SetBalance(a, s.balance.value) else acc1;
    var acc3 := if s.nonce != 0 then acc2.SetNonce(a, s.nonce) else acc2;
    if s.code != [] then acc3.SetCode(a, s.code, hash(s.code)) else acc3
  }

  /** The entry a snapshot stands for; the cached code hash is not used. */
  function EntryFrom(s: AccountSnapshot, hash: Bytes -> Hash): Entry {
    Entry(if s.balance.Some? then s.balance.value else 0, s.nonce, s.code,
          if s.code != [] then hash(s.code) else ZERO_WORD,
          s.present || s.balance.Some? || s.nonce != 0 || s.code != [], false)
  }

  /** Seeding an untouched account makes it exactly what its snapshot stands for. */
  lemma SeedingGives(acc: Accounts, a: Address, s: AccountSnapshot, hash: Bytes -> Hash)
    requires Untouched(acc, a)
    ensures EntryOf(Seeded(acc, a, s, hash), a) == EntryFrom(s, hash)
  {
  }

  /** So an account that upstream calls empty comes to exist once loaded, although it was fetched as not existing. */
  lemma EmptyAccountComesToExist(acc: Accounts, accounts: map<AccountKey, AccountSnapshot>, r: BlockRef, p: Provider,
                                 hash: Bytes -> Hash, a: Address)
    requires Untouched(acc, a) && (a, CacheKey(r)) !in accounts
    requires p.balance(a) == 0 && p.nonce(a) == 0 && p.code(a) == []
    ensures var s := Fetched(accounts, r, p, hash, a); !s.present && Seeded(acc, a, s, hash).Exists(a)
  {
    hide CacheKey;
    SeedingGives(acc, a, Fetched(accounts, r, p, hash, a), hash);
  }

  /** The two states record the same for account `b`. */
  predicate SameAt(acc: Accounts, acc1: Accounts, b: Address) {
    EntryOf(acc1, b) == EntryOf(acc, b) && Untouched(acc1, b) == Untouched(acc, b)
  }

  lemma WritesSpare(acc: Accounts, a: Address, amount: int, nonce: u64, code: Bytes, hash: Hash, b: Address)
    requires b != a
    ensures SameAt(acc, acc.SetBalance(a, amount), b) && SameAt(acc, acc.SetNonce(a, nonce), b)
    ensures SameAt(acc, acc.SetCode(a, code, hash), b)
  {
  }

  /** And it touches no other account. */
  lemma SeedingSpares(acc: Accounts, a: Address, s: AccountSnapshot, hash: Bytes -> Hash, b: Address)
    requires b != a
    ensures SameAt(acc, Seeded(acc, a, s, hash), b)
  {
    hide SameAt, Accounts.SetBalance, Accounts.SetNonce, Accounts.SetCode;
    assert SameAt(acc, acc, b) by { Same(acc, b); }
    var balance := if s.balance.Some? then s.balance.value else 0;
    var h := hash(s.code);
    WritesSpare(acc, a, 0, s.nonce, s.code, h, b);
    var acc1 := if s.present then acc.CreateAccount(a) else acc;
    WritesSpare(acc1, a, balance, s.nonce, s.code, h, b);
    var acc2 := if s.balance.Some? then acc1.SetBalance(a, s.balance.value) else acc1;
    WritesSpare(acc2, a, balance, s.nonce, s.code, h, b);
    var acc3 := if s.nonce != 0 then acc2.SetNonce(a, s.nonce) else acc2;
    WritesSpare(acc3, a, balance, s.nonce, s.code, h, b);
    SameThrough(acc, acc1, acc2, b);
    SameThrough(acc, acc2, acc3, b);
    SameThrough(acc, acc3, Seeded(acc, a, s, hash), b);
  }

  lemma Same(acc: Accounts, b: Address)
    ensures SameAt(acc, acc, b)
  {
  }

  lemma SameThrough(acc: Accounts, acc1: Accounts, acc2: Accounts, b: Address)
    requires SameAt(acc, acc1, b) && (SameAt(acc1, acc2, b) || acc2 == acc1)
    ensures SameAt(acc, acc2, b)
  {
  }

  // ---------------------------------------------------------------- the eager state and its operations

  /** Every account and every slot, with the journals of both. */
  datatype EagerState = EagerState(
    accounts: imap<Address, Entry>, savedAccounts: seq<imap<Address, Entry>>,
    slots: imap<SlotKey, SlotEntry>, savedSlots: seq<imap<SlotKey, SlotEntry>>)
  {
    ghost predicate Total() {
      && (forall a: Address :: a in accounts)
      && (forall k: SlotKey :: k in slots)
      && (forall i, a: Address :: 0 <= i < |savedAccounts| ==> a in savedAccounts[i])
      && (forall i, k: SlotKey :: 0 <= i < |savedSlots| ==> k in savedSlots[i])
    }
  }

  datatype Op =
    | Balance(a: Address) | Nonce(a: Address) | Code(a: Address) | CodeHash(a: Address) | Exists(a: Address)
    | IsEmpty(a: Address) | HasCodeOrNonce(a: Address) | SelfDestructed(a: Address)
    | SetBalance(a: Address, amount: int) | AddBalance(a: Address, amount: int) | SubBalance(a: Address, amount: int)
    | SetNonce(a: Address, nonce: u64) | IncrementNonce(a: Address) | SetCode(a: Address, code: Bytes)
    | SelfDestruct(a: Address) | CreateAccount(a: Address) | SnapshotAccounts | RevertAccounts(id: int)
    | Get(k: SlotKey) | Original(k: SlotKey) | Set(k: SlotKey, value: Hash) | SnapshotStorage | RevertStorage(id: int)

  datatype Answer = Nothing | Number(n: int) | Content(bytes: Bytes) | Digest(hash: Hash) | Flag(b: bool)

  /** What an operation on one account leaves there and answers. */
  function OnEntry(e: Entry, op: Op, hash: Bytes -> Hash): (Entry, Answer) {
    match op
    case Balance(_) => (e, Number(e.balance))
    case Nonce(_) => (e, Number(e.nonce))
    case Code(_) => (e, Content(e.code))
    case CodeHash(_) => (e, Digest(e.codeHash))
    case Exists(_) => (e, Flag(e.known))
    case IsEmpty(_) => (e, Flag(e.balance == 0 && e.nonce == 0 && e.code == []))
    case HasCodeOrNonce(_) => (e, Flag(e.nonce > 0 || e.code != []))
    case SelfDestructed(_) => (e, Flag(e.deleted))
    case SetBalance(_, amount) => (e.(balance := amount, known := true), Nothing)
    case AddBalance(_, amount) => (e.(balance := e.balance + amount, known := true), Nothing)
    case SubBalance(_, amount) => (e.(balance := e.balance - amount, known := true), Nothing)
    case SetNonce(_, nonce) => (e.(nonce := nonce, known := true), Nothing)
    case IncrementNonce(_) => (e.(nonce := Add64(e.nonce, 1), known := true), Nothing)
    case SetCode(_, code) => (e.(code := code, codeHash := hash(code), known := true), Nothing)
    case SelfDestruct(_) => (e.(deleted := true), Nothing)
    case CreateAccount(_) => (e.(balance := 0, known := true), Nothing)
    case _ => (e, Nothing)
  }

  predicate OnAccount(op: Op) {
    !op.SnapshotAccounts? && !op.RevertAccounts? && !OnStorage(op)
  }

  predicate OnStorage(op: Op) {
    op.Get? || op.Original? || op.Set? || op.SnapshotStorage? || op.RevertStorage?
  }

  /** An operation on the accounts and their journal. */
  ghost function PerformAccounts(accounts: imap<Address, Entry>, saved: seq<imap<Address, Entry>>, op: Op,
                                 hash: Bytes -> Hash)
    : (imap<Address, Entry>, seq<imap<Address, Entry>>, Answer)
    requires (forall a: Address :: a in accounts) && !OnStorage(op)
  {
    if op.SnapshotAccounts? then (accounts, saved + [accounts], Number(|saved|))
    else if op.RevertAccounts? then
      if 0 <= op.id < |saved| then (saved[op.id], saved[..op.id], Nothing) else (accounts, saved, Nothing)
    else
      var (entry, answer) := OnEntry(accounts[op.a], op, hash);
      (accounts[op.a := entry], saved, answer)
  }

  /** An operation on the slots and their journal: a write never changes what a slot's original value is. */
  ghost function PerformSlots(slots: imap<SlotKey, SlotEntry>, saved: seq<imap<SlotKey, SlotEntry>>, op: Op)
    : (imap<SlotKey, SlotEntry>, seq<imap<SlotKey, SlotEntry>>, Answer)
    requires (forall k: SlotKey :: k in slots) && OnStorage(op)
  {
    match op
    case Get(k) => (slots, saved, Digest(slots[k].value))
    case Original(k) => (slots, saved, Digest(slots[k].original))
    case Set(k, v) => (slots[k := slots[k].(value := v)], saved, Nothing)
    case SnapshotStorage => (slots, saved + [slots], Number(|saved|))
    case RevertStorage(id) =>
      if 0 <= id < |saved| then (saved[id], saved[..id], Nothing) else (slots, saved, Nothing)
  }

  /** One operation on the eager state. */
  ghost function Perform(e: EagerState, op: Op, hash: Bytes -> Hash): (EagerState, Answer)
    requires e.Total()
  {
    if OnStorage(op) then
      var (slots, saved, answer) := PerformSlots(e.slots, e.savedSlots, op);
      (e.(slots := slots, savedSlots := saved), answer)
    else
      var (accounts, saved, answer) := PerformAccounts(e.accounts, e.savedAccounts, op, hash);
      (e.(accounts := accounts, savedAccounts := saved), answer)
  }

  lemma PerformTotal(e: EagerState, op: Op, hash: Bytes -> Hash)
    requires e.Total()
    ensures Perform(e, op, hash).0.Total()
  {
  }

  lemma CodeAfterSetting(e: EagerState, a: Address, code: Bytes, hash: Bytes -> Hash)
    requires e.Total()
    ensures var e1 := Perform(e, Op.SetCode(a, code), hash).0; a in e1.accounts && e1.accounts[a].code == code
  {
  }

  /** A caller that picks each operation from the answers so far; None when it is finished. */
  type Strategy = seq<Answer> -> Option<Op>

  /** At most `steps` operations of a strategy. */
  ghost function Play(e: EagerState, s: Strategy, hash: Bytes -> Hash, answers: seq<Answer>, steps: nat)
    : (EagerState, seq<Answer>)
    requires e.Total()
    decreases steps
  {
    var op := s(answers);
    if steps == 0 || op.None? then (e, answers)
    else
      PerformTotal(e, op.value, hash);
      var (e1, answer) := Perform(e, op.value, hash);
      Play(e1, s, hash, answers + [answer], steps - 1)
  }
}
