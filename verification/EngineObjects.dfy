/** The mutable objects a frame works with: gas meter, stack, memory, storage, and what all frames share. */
module EngineObjects {
  import opened Base
  import opened Ledger
  import opened StorageGas
  import opened Machine
  import opened AccountState
  import M = Memory

  class GasMeter {
    var gas: u64
    var refund: u64

    constructor (gas: u64)
      ensures this.gas == gas && refund == 0
    {
      this.gas := gas;
      refund := 0;
    }

    /** A charge that cannot be paid takes what there is. */
    method ConsumeGas(amount: u64) returns (ok: bool)
      modifies this`gas
      ensures ok == (old(gas) >= amount) && gas == if ok then old(gas) - amount else 0
    {
      if gas < amount {
        gas := 0;
        return false;
      }
      gas := gas - amount;
      ok := true;
    }

    method RefundGas(amount: u64)
      modifies this`refund
      ensures refund == Add64(old(refund), amount)
    {
      refund := Add64(refund, amount);
    }

    method DeductRefund(amount: u64)
      modifies this`refund
      ensures refund == StorageGas.DeductRefund(old(refund), amount)
    {
      if refund > amount {
        refund := refund - amount;
      } else {
        refund := 0;
      }
    }

    method ReturnGas(amount: u64)
      modifies this`gas
      ensures gas == Add64(old(gas), amount)
    {
      gas := Add64(gas, amount);
    }
  }

  /** The operand stack; a failed push or pop is the panic that ends the frame. */
  class EvmStack {
    var data: seq<Word>

    constructor ()
      ensures data == []
    {
      data := [];
    }

    method Push(word: Word) returns (ok: bool)
      modifies this
      ensures ok == (|old(data)| < 1024) && data == if ok then old(data) + [word] else old(data)
    {
      ok := |data| < 1024;
      if ok {
        data := data + [word];
      }
    }

    method Pop() returns (word: Option<Word>)
      modifies this
      ensures old(data) == [] ==> word.None? && data == []
      ensures old(data) != [] ==> word == Some(old(data)[|old(data)| - 1]) && data == old(data)[..|old(data)| - 1]
    {
      if |data| == 0 {
        return None;
      }
      word := Some(data[|data| - 1]);
      data := data[..|data| - 1];
    }

    method Swap(n: nat) returns (ok: bool)
      requires n >= 1
      modifies this
      ensures ok == (n < |old(data)|)
      ensures data == if ok then old(data)[|old(data)| - 1 := old(data)[|old(data)| - 1 - n]]
                                          [|old(data)| - 1 - n := old(data)[|old(data)| - 1]]
                      else old(data)
    {
      if n >= |data| {
        return false;
      }
      var top := |data| - 1;
      var target := top - n;
      data := data[top := data[target]][target := data[top]];
      ok := true;
    }

    /** None: pushed; otherwise the panic. */
    method Dup(n: nat) returns (fault: Option<Status>)
      requires n >= 1
      modifies this
      ensures fault == if n > |old(data)| then Some(StackUnderflow)
                       else if |old(data)| >= 1024 then Some(StackOverflow) else None
      ensures data == if fault.None? then old(data) + [old(data)[|old(data)| - n]] else old(data)
    {
      if n > |data| {
        return Some(StackUnderflow);
      }
      if |data| >= 1024 {
        return Some(StackOverflow);
      }
      data := data + [data[|data| - n]];
      fault := None;
    }
  }

  class EvmMemory {
    const limit: M.AllocLimit
    var store: M.Store

    constructor (limit: M.AllocLimit)
      ensures store == [] && this.limit == limit
    {
      this.limit := limit;
      store := [];
    }

    method Get(offset: u64, size: u64) returns (data: Option<Bytes>)
      ensures data == M.Get(store, offset, size, limit)
    {
      data := M.Get(store, offset, size, limit);
    }

    method Resize(size: u64) returns (ok: bool)
      modifies this
      ensures ok == M.Resize(old(store), size, limit).Some?
      ensures store == if ok then M.Resize(old(store), size, limit).value else old(store)
    {
      var rounded := M.Ceil32(size);
      ok := true;
      if |store| < rounded {
        if rounded > limit {
          return false;
        }
        store := store + Zeros(rounded - |store|);
      }
    }

    method Set(offset: u64, data: Bytes) returns (ok: bool)
      requires |data| < TWO64
      modifies this
      ensures ok == M.Set(old(store), offset, data, limit).Some?
      ensures ok ==> store == M.Set(old(store), offset, data, limit).value
    {
      if |data| == 0 {
        return true;
      }
      var end := Add64(offset, |data|);
      ok := true;
      if end > |store| {
        ok := Resize(end);
      }
      if !ok || offset > |store| {
        return false;
      }
      store := M.Overwrite(store, offset, data);
    }
  }

  class InMemoryStorage {
    var data: map<SlotKey, Hash>
    var original: map<SlotKey, Hash>
    var snapshots: seq<Slots>

    function View(): Slots
      reads this
    {
      Slots(data, original)
    }

    constructor ()
      ensures View() == NO_SLOTS && snapshots == []
    {
      data, original, snapshots := map[], map[], [];
    }

    method Snapshot() returns (id: nat)
      modifies this`snapshots
      ensures id == |old(snapshots)| && snapshots == old(snapshots) + [View()]
    {
      id := |snapshots|;
      snapshots := snapshots + [Slots(data, original)];
    }

    method RevertToSnapshot(id: int)
      modifies this
      ensures 0 <= id < |old(snapshots)| ==> View() == old(snapshots)[id] && snapshots == old(snapshots)[..id]
      ensures !(0 <= id < |old(snapshots)|) ==> View() == old(View()) && snapshots == old(snapshots)
    {
      if id < 0 || id >= |snapshots| {
        return;
      }
      data, original := snapshots[id].data, snapshots[id].original;
      snapshots := snapshots[..id];
    }

    method Get(k: SlotKey) returns (v: Hash)
      ensures v == View().Get(k)
    {
      v := if k in data then data[k] else ZERO_WORD;
    }

    method Original(k: SlotKey) returns (v: Hash)
      ensures v == View().Original(k)
    {
      v := if k in original then original[k] else ZERO_WORD;
    }

    method Set(k: SlotKey, v: Hash)
      modifies this`data, this`original
      ensures View() == old(View()).Set(k, v)
    {
      if k !in original {
        original := original[k := if k in data then data[k] else ZERO_WORD];
      }
      data := data[k := v];
    }

    method Seed(k: SlotKey, v: Hash)
      modifies this`data, this`original
      ensures View() == old(View()).Seed(k, v)
    {
      data := data[k := v];
      original := original[k := v];
    }
  }

  /** Accounts, storage and access list: one instance, reached from every frame. */
  class Shared {
    const account: InMemoryAccountState
    const storage: InMemoryStorage
    var transient: map<SlotKey, Hash>
    var warmAddrs: set<Address>
    var warmSlots: set<SlotKey>
    var seen: nat
    var pending: Option<Pause>
    var billed: seq<Access>
    var active: seq<Ctx>
    var trace: seq<Event>

    ghost predicate Valid()
      reads this, account, account.Repr
    {
      account.Valid() && this !in account.Repr && storage !in account.Repr
    }

    function View(): World
      requires Valid()
      reads this, storage, account, account.Repr
    {
      World(account.View(), account.Saved(), storage.View(), storage.snapshots, transient, warmAddrs, warmSlots,
            billed, active, trace, seen, pending)
    }

    constructor (account: InMemoryAccountState)
      requires account.Valid()
      ensures Valid() && fresh(this) && this.account == account && fresh(storage)
      ensures View() == World(account.View(), account.Saved(), NO_SLOTS, [], map[], {}, {}, [], [], [], 0, None)
    {
      this.account := account;
      storage := new InMemoryStorage();
      transient, warmAddrs, warmSlots := map[], {}, {};
      seen, pending := 0, None;
      billed, active, trace := [], [], [];
    }

    method SetSlot(k: SlotKey, v: Hash)
      requires Valid()
      modifies storage`data, storage`original
      ensures Valid() && View() == old(View()).(sto := old(View()).sto.Set(k, v))
    {
      storage.Set(k, v);
    }

    /** accessCostAddress */
    method TouchAddress(a: Address) returns (cost: u64)
      requires Valid()
      modifies this`warmAddrs, this`billed
      ensures Valid() && (cost, View()) == Machine.TouchAddress(old(View()), a)
    {
      if a in warmAddrs {
        return WARM_ACCESS;
      }
      warmAddrs := warmAddrs + {a};
      billed := billed + [ColdAddress(a)];
      cost := COLD_ACCOUNT;
    }

    /** accessCostStorage */
    method TouchSlot(k: SlotKey) returns (cost: u64)
      requires Valid()
      modifies this`warmSlots, this`billed
      ensures Valid() && (cost, View()) == Machine.TouchSlot(old(View()), k)
    {
      if k in warmSlots {
        return WARM_ACCESS;
      }
      warmSlots := warmSlots + {k};
      billed := billed + [ColdSlot(k)];
      cost := COLD_SLOAD;
    }
  }
}
