/** The in-memory cache of upstream state: five maps keyed by printed block references, exported and imported. */
module CacheStore {
  import opened Base
  import opened BlockRefs

  datatype AccountSnapshot =
    AccountSnapshot(balance: Option<int>, nonce: u64, code: Bytes, codeHash: Hash, present: bool)

  const NO_SNAPSHOT := AccountSnapshot(None, 0, [], ZERO_WORD, false)

  datatype Block = Block(
    number: Option<int>, hash: Hash, parentHash: Hash, timestamp: u64, gasLimit: u64, baseFee: Option<int>,
    blobBaseFee: Option<int>, coinbase: Address, prevRandao: Hash, chainId: Option<int>)

  datatype DirtyAccount =
    DirtyAccount(balance: bool, nonce: bool, code: bool, created: bool, selfDestructed: bool, slots: set<Hash>)

  const CLEAN := DirtyAccount(false, false, false, false, false, {})

  type AccountKey = (Address, string)
  type StorageKey = (Address, Hash, string)

  /** What a store holds. */
  datatype Contents = Contents(
    accounts: map<AccountKey, AccountSnapshot>, storage: map<StorageKey, Hash>, codes: map<AccountKey, Bytes>,
    blocks: map<string, Block>, dirty: map<string, map<Address, DirtyAccount>>)
  {
    function GetAccount(a: Address, r: BlockRef): Option<AccountSnapshot> {
      Lookup(accounts, (a, CacheKey(r)))
    }

    function GetStorage(a: Address, slot: Hash, r: BlockRef): Option<Hash> {
      Lookup(storage, (a, slot, CacheKey(r)))
    }

    function GetCode(a: Address, r: BlockRef): Option<Bytes> {
      Lookup(codes, (a, CacheKey(r)))
    }

    function GetBlock(r: BlockRef): Option<Block> {
      Lookup(blocks, CacheKey(r))
    }

    /** An unknown block is clean. */
    function DirtyState(r: BlockRef): map<Address, DirtyAccount> {
      DirtyAt(dirty, CacheKey(r))
    }
  }

  const EMPTY := Contents(map[], map[], map[], map[], map[])

  function Lookup<K, V>(m: map<K, V>, k: K): Option<V> {
    if k in m then Some(m[k]) else None
  }

  function DirtyAt(dirty: map<string, map<Address, DirtyAccount>>, key: string): map<Address, DirtyAccount> {
    if key in dirty then dirty[key] else map[]
  }

  /** Every entry is filed under the key of some block reference. */
  ghost predicate Keyed(c: Contents) {
    && (forall k :: k in c.accounts ==> Canonical(k.1))
    && (forall k :: k in c.storage ==> Canonical(k.2))
    && (forall k :: k in c.codes ==> Canonical(k.1))
    && (forall k :: k in c.blocks ==> Canonical(k))
    && (forall k :: k in c.dirty ==> Canonical(k))
  }

  /** No query tells the two apart. */
  ghost predicate SameAnswers(c: Contents, d: Contents) {
    && (forall a, r :: c.GetAccount(a, r) == d.GetAccount(a, r))
    && (forall a, slot, r :: c.GetStorage(a, slot, r) == d.GetStorage(a, slot, r))
    && (forall a, r :: c.GetCode(a, r) == d.GetCode(a, r))
    && (forall r :: c.GetBlock(r) == d.GetBlock(r))
    && (forall r :: c.DirtyState(r) == d.DirtyState(r))
  }

  // ---------------------------------------------------------------- the exported form

  datatype ExportedAccount = ExportedAccount(address: Address, block: BlockRef, snapshot: AccountSnapshot)
  datatype ExportedStorage = ExportedStorage(address: Address, slot: Hash, block: BlockRef, value: Hash)
  datatype ExportedCode = ExportedCode(address: Address, block: BlockRef, code: Bytes)
  datatype ExportedBlock = ExportedBlock(ref: BlockRef, block: Block)

  /** `flags` carries no slots; they are listed in `slots`. */
  datatype ExportedDirty = ExportedDirty(address: Address, block: BlockRef, flags: DirtyAccount, slots: seq<Hash>)

  datatype ExportedState = ExportedState(
    accounts: seq<ExportedAccount>, storage: seq<ExportedStorage>, codes: seq<ExportedCode>,
    blocks: seq<ExportedBlock>, dirty: seq<ExportedDirty>)

  function AccountEntry(e: ExportedAccount): (AccountKey, AccountSnapshot) {
    ((e.address, CacheKey(e.block)), e.snapshot)
  }

  function StorageEntry(e: ExportedStorage): (StorageKey, Hash) {
    ((e.address, e.slot, CacheKey(e.block)), e.value)
  }

  function CodeEntry(e: ExportedCode): (AccountKey, Bytes) {
    ((e.address, CacheKey(e.block)), e.code)
  }

  function BlockEntry(e: ExportedBlock): (string, Block) {
    (CacheKey(e.ref), e.block)
  }

  function Slots(e: ExportedDirty): set<Hash> {
    set h | h in e.slots
  }

  /** The map a list of entries builds, later entries winning. */
  function Collect<E, K, V>(entries: seq<E>, entry: E -> (K, V)): map<K, V> {
    if entries == [] then map[]
    else
      var (k, v) := entry(entries[|entries| - 1]);
      Collect(entries[..|entries| - 1], entry)[k := v]
  }

  /** What markAccountDirty makes of one exported entry: flags replaced, slots added. */
  function Mark(dirty: map<string, map<Address, DirtyAccount>>, e: ExportedDirty)
    : map<string, map<Address, DirtyAccount>>
  {
    var key := CacheKey(e.block);
    var accounts := DirtyAt(dirty, key);
    var was := if e.address in accounts then accounts[e.address] else CLEAN;
    dirty[key := accounts[e.address := e.flags.(slots := was.slots + Slots(e))]]
  }

  function CollectDirty(entries: seq<ExportedDirty>): map<string, map<Address, DirtyAccount>> {
    if entries == [] then map[] else Mark(CollectDirty(entries[..|entries| - 1]), entries[|entries| - 1])
  }

  /** ImportState's result. */
  function Imported(e: ExportedState): Contents {
    Contents(Collect(e.accounts, AccountEntry), Collect(e.storage, StorageEntry), Collect(e.codes, CodeEntry),
             Collect(e.blocks, BlockEntry), CollectDirty(e.dirty))
  }

  /** The list names every entry of the map and nothing else, in whatever order. */
  ghost predicate Names<E(!new), K(!new), V>(entries: seq<E>, entry: E -> (K, V), m: map<K, V>) {
    && (forall i :: 0 <= i < |entries| ==> entry(entries[i]).0 in m && m[entry(entries[i]).0] == entry(entries[i]).1)
    && (forall k :: k in m ==> exists i :: 0 <= i < |entries| && entry(entries[i]).0 == k)
  }

  ghost predicate NamesDirty(entries: seq<ExportedDirty>, dirty: map<string, map<Address, DirtyAccount>>) {
    && (forall i :: 0 <= i < |entries| ==> DirtyEntryOf(entries[i], dirty))
    && (forall key, a :: key in dirty && a in dirty[key] ==>
          exists i :: 0 <= i < |entries| && CacheKey(entries[i].block) == key && entries[i].address == a)
  }

  ghost predicate DirtyEntryOf(e: ExportedDirty, dirty: map<string, map<Address, DirtyAccount>>) {
    var key := CacheKey(e.block);
    key in dirty && e.address in dirty[key] && dirty[key][e.address] == e.flags.(slots := Slots(e))
  }

  /** ExportState's result, up to the order Go's maps are ranged over. */
  ghost predicate Exports(e: ExportedState, c: Contents) {
    && Names(e.accounts, AccountEntry, c.accounts)
    && Names(e.storage, StorageEntry, c.storage)
    && Names(e.codes, CodeEntry, c.codes)
    && Names(e.blocks, BlockEntry, c.blocks)
    && NamesDirty(e.dirty, c.dirty)
  }

  // ---------------------------------------------------------------- the round trip

  lemma {:induction false} CollectHits<E(!new), K(!new), V>(entries: seq<E>, entry: E -> (K, V), m: map<K, V>)
    requires forall i :: 0 <= i < |entries| ==>
               entry(entries[i]).0 in m && m[entry(entries[i]).0] == entry(entries[i]).1
    ensures forall k :: k in Collect(entries, entry) ==> k in m && Collect(entries, entry)[k] == m[k]
    ensures forall i :: 0 <= i < |entries| ==> entry(entries[i]).0 in Collect(entries, entry)
  {
    if entries != [] {
      var init, last := entries[..|entries| - 1], entries[|entries| - 1];
      assert entry(last).0 in m && m[entry(last).0] == entry(last).1;
      CollectHits(init, entry, m);
      forall i | 0 <= i < |entries| ensures entry(entries[i]).0 in Collect(entries, entry) {
        if i < |init| {
          assert entries[i] == init[i];
        }
      }
    }
  }

  lemma CollectNamed<E(!new), K(!new), V>(entries: seq<E>, entry: E -> (K, V), m: map<K, V>)
    requires Names(entries, entry, m)
    ensures Collect(entries, entry) == m
  {
    CollectHits(entries, entry, m);
    assert (Collect(entries, entry)).Keys == m.Keys;
  }

  /** Every entry of `c` is one of `dirty`. */
  ghost predicate Within(c: map<string, map<Address, DirtyAccount>>, dirty: map<string, map<Address, DirtyAccount>>) {
    && (forall key :: key in c ==> key in dirty)
    && (forall key, a :: key in c && a in c[key] ==> a in dirty[key] && c[key][a] == dirty[key][a])
  }

  predicate Has(c: map<string, map<Address, DirtyAccount>>, key: string, a: Address) {
    key in c && a in c[key]
  }

  lemma MarkStaysWithin(c: map<string, map<Address, DirtyAccount>>, e: ExportedDirty,
                        dirty: map<string, map<Address, DirtyAccount>>)
    requires Within(c, dirty) && DirtyEntryOf(e, dirty)
    ensures Within(Mark(c, e), dirty)
    ensures Has(Mark(c, e), CacheKey(e.block), e.address)
    ensures forall key, a :: Has(c, key, a) ==> Has(Mark(c, e), key, a)
  {
    hide CacheKey, Slots;
    var key := CacheKey(e.block);
    var accounts := DirtyAt(c, key);
    var was := if e.address in accounts then accounts[e.address] else CLEAN;
    assert was.slots <= Slots(e);
    assert was.slots + Slots(e) == Slots(e);
    assert Mark(c, e)[key] == accounts[e.address := e.flags.(slots := Slots(e))];
  }

  lemma {:induction false} CollectDirtyHits(entries: seq<ExportedDirty>, dirty: map<string, map<Address, DirtyAccount>>)
    requires forall i :: 0 <= i < |entries| ==> DirtyEntryOf(entries[i], dirty)
    ensures Within(CollectDirty(entries), dirty)
    ensures forall i :: 0 <= i < |entries| ==>
              Has(CollectDirty(entries), CacheKey(entries[i].block), entries[i].address)
  {
    hide CacheKey, Mark, DirtyEntryOf, Has;
    if entries != [] {
      var init, last := entries[..|entries| - 1], entries[|entries| - 1];
      hide Within;
      forall i | 0 <= i < |init| ensures DirtyEntryOf(init[i], dirty) {
        assert init[i] == entries[i];
      }
      CollectDirtyHits(init, dirty);
      MarkStaysWithin(CollectDirty(init), last, dirty);
      forall i | 0 <= i < |entries| ensures Has(CollectDirty(entries), CacheKey(entries[i].block), entries[i].address) {
        if i < |init| {
          assert entries[i] == init[i];
        }
      }
    }
  }

  /** A block whose dirty accounts are all gone is not exported, and answers the same as a block never seen. */
  lemma CollectDirtyNamed(entries: seq<ExportedDirty>, dirty: map<string, map<Address, DirtyAccount>>, key: string)
    requires NamesDirty(entries, dirty)
    ensures DirtyAt(CollectDirty(entries), key) == DirtyAt(dirty, key)
  {
    hide CacheKey, Slots, Mark;
    CollectDirtyHits(entries, dirty);
    var got, want := DirtyAt(CollectDirty(entries), key), DirtyAt(dirty, key);
    forall a | a in want ensures a in got {
      var i :| 0 <= i < |entries| && CacheKey(entries[i].block) == key && entries[i].address == a;
      assert Has(CollectDirty(entries), CacheKey(entries[i].block), entries[i].address);
    }
    assert got.Keys == want.Keys;
  }

  /** Importing what was exported answers every query as the original does, whatever order the maps were ranged over. */
  lemma ImportOfExport(e: ExportedState, c: Contents)
    requires Exports(e, c)
    ensures SameAnswers(Imported(e), c)
  {
    hide Collect, CollectDirty, Names, NamesDirty, CacheKey;
    CollectNamed(e.accounts, AccountEntry, c.accounts);
    CollectNamed(e.storage, StorageEntry, c.storage);
    CollectNamed(e.codes, CodeEntry, c.codes);
    CollectNamed(e.blocks, BlockEntry, c.blocks);
    forall key ensures DirtyAt(CollectDirty(e.dirty), key) == DirtyAt(c.dirty, key) {
      CollectDirtyNamed(e.dirty, c.dirty, key);
    }
  }

  // ---------------------------------------------------------------- importing any lists

  lemma {:induction false} LaterWins<E(!new), K(!new), V>(entries: seq<E>, entry: E -> (K, V), k: K)
    ensures k in Collect(entries, entry) <==> exists i :: 0 <= i < |entries| && entry(entries[i]).0 == k
    ensures forall i :: 0 <= i < |entries| && entry(entries[i]).0 == k
                        && (forall j :: i < j < |entries| ==> entry(entries[j]).0 != k) ==>
              k in Collect(entries, entry) && Collect(entries, entry)[k] == entry(entries[i]).1
  {
    if entries != [] {
      var init, last := entries[..|entries| - 1], entries[|entries| - 1];
      LaterWins(init, entry, k);
      assert forall i :: 0 <= i < |init| ==> entries[i] == init[i];
      assert entries[|init|] == last;
    }
  }

  /** Of the exported accounts under one address and one block the last is found after an import; without any, none. */
  lemma ImportedAccount(e: ExportedState, a: Address, r: BlockRef, i: nat)
    ensures (forall j :: 0 <= j < |e.accounts| ==>
               e.accounts[j].address != a || CacheKey(e.accounts[j].block) != CacheKey(r)) ==>
              Imported(e).GetAccount(a, r) == None
    ensures i < |e.accounts| && e.accounts[i].address == a && CacheKey(e.accounts[i].block) == CacheKey(r)
            && (forall j :: i < j < |e.accounts| ==>
                  e.accounts[j].address != a || CacheKey(e.accounts[j].block) != CacheKey(r)) ==>
              Imported(e).GetAccount(a, r) == Some(e.accounts[i].snapshot)
  {
    hide CacheKey, Collect, CollectDirty;
    LaterWins(e.accounts, AccountEntry, (a, CacheKey(r)));
  }

  /** The same of storage. */
  lemma ImportedSlot(e: ExportedState, a: Address, slot: Hash, r: BlockRef, i: nat)
    ensures (forall j :: 0 <= j < |e.storage| ==>
               e.storage[j].address != a || e.storage[j].slot != slot
               || CacheKey(e.storage[j].block) != CacheKey(r)) ==>
              Imported(e).GetStorage(a, slot, r) == None
    ensures i < |e.storage| && e.storage[i].address == a && e.storage[i].slot == slot
            && CacheKey(e.storage[i].block) == CacheKey(r)
            && (forall j :: i < j < |e.storage| ==>
                  e.storage[j].address != a || e.storage[j].slot != slot
                  || CacheKey(e.storage[j].block) != CacheKey(r)) ==>
              Imported(e).GetStorage(a, slot, r) == Some(e.storage[i].value)
  {
    hide CacheKey, Collect, CollectDirty;
    LaterWins(e.storage, StorageEntry, (a, slot, CacheKey(r)));
  }

  /** An account is dirty in the slots any of its entries lists, and otherwise as the last of them says. */
  lemma {:induction false} ImportedDirty(entries: seq<ExportedDirty>, a: Address, r: BlockRef)
    ensures var found := DirtyAt(CollectDirty(entries), CacheKey(r));
      && (a in found <==> exists i :: 0 <= i < |entries| && IsFor(entries[i], a, r))
      && (a in found ==> forall h :: h in found[a].slots <==>
            exists i :: 0 <= i < |entries| && IsFor(entries[i], a, r) && h in entries[i].slots)
      && (entries != [] && IsFor(entries[|entries| - 1], a, r) ==>
            a in found && found[a] == entries[|entries| - 1].flags.(slots := found[a].slots))
      && (entries != [] && !IsFor(entries[|entries| - 1], a, r) ==>
            var before := DirtyAt(CollectDirty(entries[..|entries| - 1]), CacheKey(r));
            Lookup(found, a) == Lookup(before, a))
  {
    hide CacheKey;
    if entries != [] {
      var init, last := entries[..|entries| - 1], entries[|entries| - 1];
      ImportedDirty(init, a, r);
      assert forall i :: 0 <= i < |init| ==> entries[i] == init[i];
      assert entries[|init|] == last;
      hide Mark, IsFor, DirtyAt;
      MarkedAt(CollectDirty(init), last, a, r);
    }
  }

  lemma MarkedAt(dirty: map<string, map<Address, DirtyAccount>>, e: ExportedDirty, a: Address, r: BlockRef)
    ensures var was, now := DirtyAt(dirty, CacheKey(r)), DirtyAt(Mark(dirty, e), CacheKey(r));
      if IsFor(e, a, r) then
        && a in now && now[a] == e.flags.(slots := now[a].slots)
        && forall h :: h in now[a].slots <==> (a in was && h in was[a].slots) || h in e.slots
      else
        (a in now <==> a in was) && (a in now ==> now[a] == was[a])
  {
    hide CacheKey;
  }

  predicate IsFor(e: ExportedDirty, a: Address, r: BlockRef) {
    e.address == a && CacheKey(e.block) == CacheKey(r)
  }

  // ---------------------------------------------------------------- listing one more entry

  lemma NamesOneMore<E(!new), K(!new), V>(list: seq<E>, entry: E -> (K, V), m: map<K, V>, left: set<K>, k: K, e: E)
    requires left <= m.Keys && k in left && Names(list, entry, m - left) && entry(e) == (k, m[k])
    ensures Names(list + [e], entry, m - (left - {k}))
  {
    var more, rest := list + [e], m - (left - {k});
    forall j | j in rest ensures exists i :: 0 <= i < |more| && entry(more[i]).0 == j {
      if j == k {
        assert more[|list|] == e;
      } else {
        assert j in m - left;
        var i :| 0 <= i < |list| && entry(list[i]).0 == j;
        assert more[i] == list[i];
      }
    }
  }

  lemma NoneNamed(dirty: map<string, map<Address, DirtyAccount>>, left: set<string>)
    requires left == dirty.Keys
    ensures NamesDirty([], dirty - left)
  {
  }

  lemma NamesBlockMore(list: seq<ExportedDirty>, dirty: map<string, map<Address, DirtyAccount>>, left: set<string>,
                       key: string, part: seq<ExportedDirty>)
    requires left <= dirty.Keys && key in left
    requires NamesDirty(list, dirty - left) && NamesDirty(part, map[key := dirty[key]])
    ensures NamesDirty(list + part, dirty - (left - {key}))
  {
    hide CacheKey, Slots;
    var more, rest := list + part, dirty - (left - {key});
    forall i | 0 <= i < |more| ensures DirtyEntryOf(more[i], rest) {
      if i < |list| {
        assert DirtyEntryOf(list[i], dirty - left);
      } else {
        assert DirtyEntryOf(part[i - |list|], map[key := dirty[key]]);
      }
    }
    forall j, a | j in rest && a in rest[j]
      ensures exists i :: 0 <= i < |more| && CacheKey(more[i].block) == j && more[i].address == a {
      if j == key {
        var one: map<string, map<Address, DirtyAccount>> := map[key := dirty[key]];
        assert key in one && a in one[key];
        var i :| 0 <= i < |part| && CacheKey(part[i].block) == j && part[i].address == a;
        assert more[|list| + i] == part[i];
      } else {
        assert j in dirty - left && a in (dirty - left)[j];
        var i :| 0 <= i < |list| && CacheKey(list[i].block) == j && list[i].address == a;
        assert more[i] == list[i];
      }
    }
  }

  lemma NamesAccountMore(list: seq<ExportedDirty>, key: string, accounts: map<Address, DirtyAccount>,
                         left: set<Address>, e: ExportedDirty)
    requires left <= accounts.Keys && e.address in left && CacheKey(e.block) == key
    requires e.flags.(slots := Slots(e)) == accounts[e.address]
    requires NamesDirty(list, map[key := accounts - left])
    ensures NamesDirty(list + [e], map[key := accounts - (left - {e.address})])
  {
    hide CacheKey, Slots;
    var more, rest := list + [e], map[key := accounts - (left - {e.address})];
    forall i | 0 <= i < |more| ensures DirtyEntryOf(more[i], rest) {
      if i < |list| {
        assert DirtyEntryOf(list[i], map[key := accounts - left]);
      }
    }
    forall j, a | j in rest && a in rest[j]
      ensures exists i :: 0 <= i < |more| && CacheKey(more[i].block) == j && more[i].address == a {
      if a == e.address {
        assert more[|list|] == e;
      } else {
        assert j in map[key := accounts - left] && a in (map[key := accounts - left])[j];
        var i :| 0 <= i < |list| && CacheKey(list[i].block) == j && list[i].address == a;
        assert more[i] == list[i];
      }
    }
  }

  // ---------------------------------------------------------------- the store

  class MemoryStore {
    var accounts: map<AccountKey, AccountSnapshot>
    var storage: map<StorageKey, Hash>
    var codes: map<AccountKey, Bytes>
    var blocks: map<string, Block>
    var dirty: map<string, map<Address, DirtyAccount>>

    function View(): Contents
      reads this
    {
      Contents(accounts, storage, codes, blocks, dirty)
    }

    ghost predicate Valid()
      reads this
    {
      Keyed(View())
    }

    constructor ()
      ensures Valid() && View() == EMPTY
    {
      accounts, storage, codes, blocks, dirty := map[], map[], map[], map[], map[];
    }

    method PutAccount(a: Address, r: BlockRef, snapshot: AccountSnapshot)
      requires Valid()
      modifies this`accounts
      ensures Valid() && accounts == old(accounts)[(a, CacheKey(r)) := snapshot]
    {
      CacheKeyCanonical(r);
      accounts := accounts[(a, CacheKey(r)) := snapshot];
    }

    method PutStorage(a: Address, slot: Hash, r: BlockRef, value: Hash)
      requires Valid()
      modifies this`storage
      ensures Valid() && storage == old(storage)[(a, slot, CacheKey(r)) := value]
    {
      CacheKeyCanonical(r);
      storage := storage[(a, slot, CacheKey(r)) := value];
    }

    method PutCode(a: Address, r: BlockRef, code: Bytes)
      requires Valid()
      modifies this`codes
      ensures Valid() && codes == old(codes)[(a, CacheKey(r)) := code]
    {
      CacheKeyCanonical(r);
      codes := codes[(a, CacheKey(r)) := code];
    }

    method PutBlock(r: BlockRef, block: Block)
      requires Valid()
      modifies this`blocks
      ensures Valid() && blocks == old(blocks)[CacheKey(r) := block]
    {
      CacheKeyCanonical(r);
      blocks := blocks[CacheKey(r) := block];
    }

    static method AddSlots(known: set<Hash>, list: seq<Hash>) returns (slots: set<Hash>)
      ensures slots == known + set h | h in list
    {
      slots := known;
      for i := 0 to |list|
        invariant slots == known + set h | h in list[..i]
      {
        slots := slots + {list[i]};
      }
      assert list[..|list|] == list;
    }

    /** markAccountDirtyLocked with the import's update. */
    method MarkAccountDirty(e: ExportedDirty)
      requires Valid()
      modifies this`dirty
      ensures Valid() && dirty == Mark(old(dirty), e)
    {
      CacheKeyCanonical(e.block);
      hide CacheKey, Canonical;
      var key := CacheKey(e.block);
      var accounts: map<Address, DirtyAccount> := if key in dirty then dirty[key] else map[];
      var account := if e.address in accounts then accounts[e.address] else CLEAN;
      var slots := AddSlots(account.slots, e.slots);
      dirty := dirty[key := accounts[e.address := e.flags.(slots := slots)]];
    }

    function DirtyAccountAt(a: Address, r: BlockRef): DirtyAccount
      reads this
    {
      var accounts := DirtyAt(dirty, CacheKey(r));
      if a in accounts then accounts[a] else CLEAN
    }

    /** markAccountDirtyLocked: one account's marks replaced. */
    method SetDirty(a: Address, r: BlockRef, marks: DirtyAccount)
      requires Valid()
      modifies this`dirty
      ensures Valid() && dirty == old(dirty)[CacheKey(r) := DirtyAt(old(dirty), CacheKey(r))[a := marks]]
    {
      CacheKeyCanonical(r);
      var accounts: map<Address, DirtyAccount> := DirtyAt(dirty, CacheKey(r));
      dirty := dirty[CacheKey(r) := accounts[a := marks]];
    }

    /** The snapshot a partial write starts from. */
    function SnapshotAt(a: Address, r: BlockRef): AccountSnapshot
      reads this
    {
      if (a, CacheKey(r)) in accounts then accounts[(a, CacheKey(r))] else NO_SNAPSHOT
    }

    /** applyCodeLocked */
    method ApplyCode(a: Address, r: BlockRef, code: Bytes, hash: Hash)
      requires Valid()
      modifies this`accounts, this`codes, this`dirty
      ensures Valid()
      ensures var snapshot := old(SnapshotAt(a, r)).(present := true, code := code, codeHash := hash);
        accounts == old(accounts)[(a, CacheKey(r)) := snapshot]
      ensures codes == old(codes)[(a, CacheKey(r)) := code]
    {
      hide CacheKey, Canonical;
      var marks := DirtyAccountAt(a, r).(code := true);
      PutAccount(a, r, SnapshotAt(a, r).(present := true, code := code, codeHash := hash));
      PutCode(a, r, code);
      SetDirty(a, r, marks);
    }

    /** markCreatedLocked */
    method MarkCreated(a: Address, r: BlockRef)
      requires Valid()
      modifies this`accounts, this`dirty
      ensures Valid() && accounts == old(accounts)[(a, CacheKey(r)) := old(SnapshotAt(a, r)).(present := true)]
    {
      hide CacheKey, Canonical;
      var marks := DirtyAccountAt(a, r).(created := true);
      PutAccount(a, r, SnapshotAt(a, r).(present := true));
      SetDirty(a, r, marks);
    }

    /** ImportState replaces everything the store held. */
    method ImportState(e: ExportedState)
      modifies this
      ensures Valid() && View() == Imported(e)
    {
      hide Collect, CollectDirty;
      accounts, storage, codes, blocks, dirty := map[], map[], map[], map[], map[];
      ImportAccounts(e.accounts);
      ImportStorage(e.storage);
      ImportCodes(e.codes);
      ImportBlocks(e.blocks);
      ImportDirty(e.dirty);
    }

    method ImportAccounts(list: seq<ExportedAccount>)
      requires Valid() && accounts == map[]
      modifies this`accounts
      ensures Valid() && accounts == Collect(list, AccountEntry)
    {
      hide CacheKey, Canonical, Mark;
      for i := 0 to |list|
        invariant Valid() && accounts == Collect(list[..i], AccountEntry)
      {
        assert list[..i + 1][..i] == list[..i];
        PutAccount(list[i].address, list[i].block, list[i].snapshot);
      }
      assert list[..|list|] == list;
    }

    method ImportStorage(list: seq<ExportedStorage>)
      requires Valid() && storage == map[]
      modifies this`storage
      ensures Valid() && storage == Collect(list, StorageEntry)
    {
      hide CacheKey, Canonical, Mark;
      for i := 0 to |list|
        invariant Valid() && storage == Collect(list[..i], StorageEntry)
      {
        assert list[..i + 1][..i] == list[..i];
        PutStorage(list[i].address, list[i].slot, list[i].block, list[i].value);
      }
      assert list[..|list|] == list;
    }

    method ImportCodes(list: seq<ExportedCode>)
      requires Valid() && codes == map[]
      modifies this`codes
      ensures Valid() && codes == Collect(list, CodeEntry)
    {
      hide CacheKey, Canonical, Mark;
      for i := 0 to |list|
        invariant Valid() && codes == Collect(list[..i], CodeEntry)
      {
        assert list[..i + 1][..i] == list[..i];
        PutCode(list[i].address, list[i].block, list[i].code);
      }
      assert list[..|list|] == list;
    }

    method ImportBlocks(list: seq<ExportedBlock>)
      requires Valid() && blocks == map[]
      modifies this`blocks
      ensures Valid() && blocks == Collect(list, BlockEntry)
    {
      hide CacheKey, Canonical, Mark;
      for i := 0 to |list|
        invariant Valid() && blocks == Collect(list[..i], BlockEntry)
      {
        assert list[..i + 1][..i] == list[..i];
        PutBlock(list[i].ref, list[i].block);
      }
      assert list[..|list|] == list;
    }

    method ImportDirty(list: seq<ExportedDirty>)
      requires Valid() && dirty == map[]
      modifies this`dirty
      ensures Valid() && dirty == CollectDirty(list)
    {
      hide CacheKey, Canonical, Mark;
      for i := 0 to |list|
        invariant Valid() && dirty == CollectDirty(list[..i])
      {
        assert list[..i + 1][..i] == list[..i];
        MarkAccountDirty(list[i]);
      }
      assert list[..|list|] == list;
    }

    /** ExportState: each map listed in an order nobody fixes. */
    method ExportState() returns (e: ExportedState)
      requires Valid()
      ensures Exports(e, View())
    {
      hide CacheKey, DecodeBlockKey, Names, NamesDirty;
      var accountList := ExportAccounts();
      var storageList := ExportStorage();
      var codeList := ExportCodes();
      var blockList := ExportBlocks();
      var dirtyList := ExportDirty();
      e := ExportedState(accountList, storageList, codeList, blockList, dirtyList);
    }

    method ExportAccounts() returns (list: seq<ExportedAccount>)
      requires Valid()
      ensures Names(list, AccountEntry, accounts)
    {
      hide CacheKey, DecodeBlockKey;
      list := [];
      var left := accounts.Keys;
      while left != {}
        invariant left <= accounts.Keys && Names(list, AccountEntry, accounts - left)
        decreases left
      {
        var k :| k in left;
        var e := ExportedAccount(k.0, DecodeBlockKey(k.1), accounts[k]);
        assert AccountEntry(e) == (k, accounts[k]);
        NamesOneMore(list, AccountEntry, accounts, left, k, e);
        list := list + [e];
        left := left - {k};
      }
      assert accounts - left == accounts;
    }

    method ExportStorage() returns (list: seq<ExportedStorage>)
      requires Valid()
      ensures Names(list, StorageEntry, storage)
    {
      hide CacheKey, DecodeBlockKey;
      list := [];
      var left := storage.Keys;
      while left != {}
        invariant left <= storage.Keys && Names(list, StorageEntry, storage - left)
        decreases left
      {
        var k :| k in left;
        var e := ExportedStorage(k.0, k.1, DecodeBlockKey(k.2), storage[k]);
        assert StorageEntry(e) == (k, storage[k]);
        NamesOneMore(list, StorageEntry, storage, left, k, e);
        list := list + [e];
        left := left - {k};
      }
      assert storage - left == storage;
    }

    method ExportCodes() returns (list: seq<ExportedCode>)
      requires Valid()
      ensures Names(list, CodeEntry, codes)
    {
      hide CacheKey, DecodeBlockKey;
      list := [];
      var left := codes.Keys;
      while left != {}
        invariant left <= codes.Keys && Names(list, CodeEntry, codes - left)
        decreases left
      {
        var k :| k in left;
        var e := ExportedCode(k.0, DecodeBlockKey(k.1), codes[k]);
        assert CodeEntry(e) == (k, codes[k]);
        NamesOneMore(list, CodeEntry, codes, left, k, e);
        list := list + [e];
        left := left - {k};
      }
      assert codes - left == codes;
    }

    method ExportBlocks() returns (list: seq<ExportedBlock>)
      requires Valid()
      ensures Names(list, BlockEntry, blocks)
    {
      hide CacheKey, DecodeBlockKey;
      list := [];
      var left := blocks.Keys;
      while left != {}
        invariant left <= blocks.Keys && Names(list, BlockEntry, blocks - left)
        decreases left
      {
        var k :| k in left;
        var e := ExportedBlock(DecodeBlockKey(k), blocks[k]);
        assert BlockEntry(e) == (k, blocks[k]);
        NamesOneMore(list, BlockEntry, blocks, left, k, e);
        list := list + [e];
        left := left - {k};
      }
      assert blocks - left == blocks;
    }

    method ExportDirty() returns (list: seq<ExportedDirty>)
      requires Valid()
      ensures NamesDirty(list, dirty)
    {
      hide CacheKey, DecodeBlockKey, Canonical, NamesDirty;
      list := [];
      var left := dirty.Keys;
      assert NamesDirty(list, dirty - left) by { NoneNamed(dirty, left); }
      while left != {}
        invariant left <= dirty.Keys && NamesDirty(list, dirty - left)
        decreases left
      {
        var key :| key in left;
        var part := ExportDirtyBlock(key);
        NamesBlockMore(list, dirty, left, key, part);
        list := list + part;
        left := left - {key};
      }
      assert dirty - left == dirty;
    }

    /** The inner loop: one block's dirty accounts. */
    method ExportDirtyBlock(key: string) returns (list: seq<ExportedDirty>)
      requires Valid() && key in dirty
      ensures NamesDirty(list, map[key := dirty[key]])
    {
      assert Canonical(key);
      hide CacheKey, DecodeBlockKey, Slots;
      list := [];
      var left := dirty[key].Keys;
      while left != {}
        invariant left <= dirty[key].Keys && NamesDirty(list, map[key := dirty[key] - left])
        decreases left
      {
        var a :| a in left;
        var slots := ListSlots(dirty[key][a].slots);
        var e := ExportedDirty(a, DecodeBlockKey(key), dirty[key][a].(slots := {}), slots);
        NamesAccountMore(list, key, dirty[key], left, e);
        list := list + [e];
        left := left - {a};
      }
      assert dirty[key] - left == dirty[key];
    }

    method ListSlots(slots: set<Hash>) returns (list: seq<Hash>)
      ensures (set h | h in list) == slots
    {
      list := [];
      var left := slots;
      while left != {}
        invariant left <= slots && forall h :: h in list <==> h in slots - left
        decreases left
      {
        var slot :| slot in left;
        left := left - {slot};
        list := list + [slot];
      }
    }
  }
}
