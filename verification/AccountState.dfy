/** The in-memory account state on the heap: balance cells updated in place, snapshots that must not see it. */
module AccountState {
  import opened Base
  import opened Ledger

  /** A big.Int: a mutable cell, shared by reference. */
  class BigInt {
    var v: int

    constructor (v: int)
      ensures this.v == v
    {
      this.v := v;
    }
  }

  lemma PutBack(m: map<Address, int>, keys: set<Address>, a: Address)
    requires a in keys && a in m
    ensures (m - keys)[a := m[a]] == m - (keys - {a})
  {
  }

  /** The six maps of an account state; every snapshot keeps another such set, with cells of its own. */
  class AccountMaps {
    var balances: map<Address, BigInt>
    var nonces: map<Address, u64>
    var codes: map<Address, Bytes>
    var codeHashes: map<Address, Hash>
    var present: set<Address>
    var deleted: set<Address>
    ghost var Cells: set<BigInt>

    /** Every cell is owned, and no two accounts share one. */
    ghost predicate Valid()
      reads this`balances, this`Cells
    {
      && (forall a :: a in balances ==> balances[a] in Cells)
      && (forall a, b :: a in balances && b in balances && a != b ==> balances[a] != balances[b])
    }

    function Amounts(): map<Address, int>
      requires Valid()
      reads this`balances, this`Cells, Cells
    {
      map a | a in balances :: balances[a].v
    }

    /** The contents, with every cell read. */
    function Contents(): Accounts
      requires Valid()
      reads this, Cells
    {
      Accounts(Amounts(), nonces, codes, codeHashes, present, deleted)
    }

    constructor ()
      ensures Valid() && Cells == {} && Contents() == NO_ACCOUNTS
    {
      balances, nonces, codes, codeHashes, present, deleted := map[], map[], map[], map[], {}, {};
      Cells := {};
    }

    /** Gives an account a cell of its own holding `amount`. */
    method Put(a: Address, amount: int)
      requires Valid()
      modifies this`balances, this`Cells
      ensures Valid() && fresh(Cells - old(Cells)) && old(Cells) <= Cells && a in balances
      ensures Amounts() == old(Amounts())[a := amount]
    {
      var cell := new BigInt(amount);
      balances := balances[a := cell];
      Cells := Cells + {cell};
    }

    /** Every balance copied into a cell of its own. */
    method CopyBalances() returns (copy: AccountMaps)
      requires Valid()
      ensures fresh(copy) && copy.Valid() && fresh(copy.Cells) && copy.Amounts() == Amounts()
    {
      hide Amounts;
      copy := new AccountMaps();
      var keys := balances.Keys;
      ghost var want := Amounts();
      AmountsKnown(this);
      AmountsKnown(copy);
      assert copy.Amounts() == want - keys;
      while keys != {}
        invariant keys <= balances.Keys && fresh(copy) && copy.Valid() && fresh(copy.Cells)
        invariant copy.Amounts() == want - keys
        decreases keys
      {
        var a :| a in keys;
        PutBack(want, keys, a);
        copy.Put(a, balances[a].v);
        keys := keys - {a};
      }
      assert want - keys == want;
    }

    /** Copies every map, and every balance into a cell of its own. */
    method Copy() returns (copy: AccountMaps)
      requires Valid()
      ensures fresh(copy) && copy.Valid() && fresh(copy.Cells) && copy.Contents() == Contents()
    {
      hide Amounts;
      copy := CopyBalances();
      copy.nonces := nonces;
      copy.codes := codes;
      copy.codeHashes := codeHashes;
      copy.present := present;
      copy.deleted := deleted;
    }

    method SetBalance(a: Address, amount: int)
      requires Valid()
      modifies this
      ensures Valid() && fresh(Cells - old(Cells)) && Contents() == old(Contents()).SetBalance(a, amount)
    {
      Put(a, amount);
      present := present + {a};
    }

    /** The cell is changed in place: whoever else held it would see the new amount. */
    method Bump(a: Address, delta: int)
      requires Valid() && a in balances
      modifies balances[a]
      ensures Valid() && Amounts() == old(Amounts())[a := old(Amounts())[a] + delta]
    {
      var cell := balances[a];
      cell.v := cell.v + delta;
    }

    method AddToCell(a: Address, delta: int)
      requires Valid()
      modifies this`balances, this`Cells, Cells
      ensures Valid() && fresh(Cells - old(Cells))
      ensures Amounts() == old(Amounts())[a := (if a in old(Amounts()) then old(Amounts())[a] else 0) + delta]
    {
      if a !in balances {
        Put(a, 0);
      }
      Bump(a, delta);
    }

    method ChangeBalance(a: Address, delta: int)
      requires Valid()
      modifies this, Cells
      ensures Valid() && fresh(Cells - old(Cells))
      ensures Contents() == old(Contents()).SetBalance(a, old(Contents()).Balance(a) + delta)
    {
      hide Amounts;
      AddToCell(a, delta);
      present := present + {a};
    }

    method SetNonce(a: Address, nonce: u64)
      requires Valid()
      modifies this`nonces, this`present
      ensures Contents() == old(Contents()).SetNonce(a, nonce)
    {
      nonces := nonces[a := nonce];
      present := present + {a};
    }

    method SetCode(a: Address, code: Bytes, hash: Hash)
      requires Valid()
      modifies this`codes, this`codeHashes, this`present
      ensures Contents() == old(Contents()).SetCode(a, code, hash)
    {
      codes := codes[a := code];
      codeHashes := codeHashes[a := hash];
      present := present + {a};
    }

    method SelfDestruct(a: Address)
      requires Valid()
      modifies this`deleted
      ensures Contents() == old(Contents()).SelfDestruct(a)
    {
      deleted := deleted + {a};
    }
  }

  lemma AmountsKnown(maps: AccountMaps)
    requires maps.Valid()
    ensures maps.Amounts().Keys == maps.balances.Keys
    ensures forall a :: a in maps.balances ==> maps.Amounts()[a] == maps.balances[a].v
  {
  }

  class InMemoryAccountState {
    const hash: Bytes -> Hash
    var live: AccountMaps
    var snapshots: seq<AccountMaps>
    ghost var Repr: set<object>

    /** Isolation: no map and no cell is shared between the live state and a snapshot, or between two snapshots. */
    ghost predicate Valid()
      reads this, Repr
      ensures Valid() ==> this in Repr
    {
      && this in Repr
      && live in Repr && live.Cells <= Repr && live.Valid()
      && (forall i :: 0 <= i < |snapshots| ==>
            snapshots[i] in Repr && snapshots[i].Cells <= Repr && snapshots[i].Valid()
            && snapshots[i] != live && snapshots[i].Cells !! live.Cells)
      && (forall i, j :: 0 <= i < j < |snapshots| ==>
            snapshots[i] != snapshots[j] && snapshots[i].Cells !! snapshots[j].Cells)
    }

    function View(): Accounts
      requires Valid()
      reads this, Repr
    {
      live.Contents()
    }

    function Saved(): (s: seq<Accounts>)
      requires Valid()
      reads this, Repr
      ensures |s| == |snapshots| && forall i :: 0 <= i < |s| ==> s[i] == snapshots[i].Contents()
    {
      SavedUpTo(|snapshots|)
    }

    function SavedUpTo(n: nat): (s: seq<Accounts>)
      requires Valid() && n <= |snapshots|
      reads this, Repr
      ensures |s| == n && forall i :: 0 <= i < n ==> s[i] == snapshots[i].Contents()
    {
      if n == 0 then [] else SavedUpTo(n - 1) + [snapshots[n - 1].Contents()]
    }

    constructor (hash: Bytes -> Hash)
      ensures Valid() && fresh(Repr) && this.hash == hash
      ensures View() == NO_ACCOUNTS && Saved() == []
    {
      this.hash := hash;
      var maps := new AccountMaps();
      live := maps;
      snapshots := [];
      Repr := {this, maps};
    }

    /** Snapshot copies every map, and every balance into a cell of its own. */
    method Snapshot() returns (id: nat)
      requires Valid()
      modifies this
      ensures Valid() && fresh(Repr - old(Repr))
      ensures id == |old(Saved())|
      ensures View() == old(View()) && Saved() == old(Saved()) + [old(View())]
    {
      hide AccountMaps.Contents, AccountMaps.Valid;
      var snap := live.Copy();
      id := |snapshots|;
      snapshots := snapshots + [snap];
      Repr := Repr + {snap} + snap.Cells;
    }

    /** RevertToSnapshot installs the saved maps themselves and forgets that snapshot and all later ones. */
    method RevertToSnapshot(id: int)
      requires Valid()
      modifies this
      ensures Valid() && Repr == old(Repr)
      ensures 0 <= id < |old(Saved())| ==> View() == old(Saved())[id] && Saved() == old(Saved())[..id]
      ensures !(0 <= id < |old(Saved())|) ==> View() == old(View()) && Saved() == old(Saved())
    {
      hide AccountMaps.Contents, AccountMaps.Valid;
      if id < 0 || id >= |snapshots| {
        return;
      }
      live := snapshots[id];
      snapshots := snapshots[..id];
    }

    method Balance(a: Address) returns (b: int)
      requires Valid()
      ensures b == View().Balance(a)
    {
      b := if a in live.balances then live.balances[a].v else 0;
    }

    function Nonce(a: Address): u64
      requires Valid()
      reads this, Repr
      ensures Nonce(a) == View().Nonce(a)
    {
      if a in live.nonces then live.nonces[a] else 0
    }

    function Code(a: Address): Bytes
      requires Valid()
      reads this, Repr
      ensures Code(a) == View().Code(a)
    {
      if a in live.codes then live.codes[a] else []
    }

    function CodeHash(a: Address): Hash
      requires Valid()
      reads this, Repr
      ensures CodeHash(a) == View().CodeHash(a)
    {
      if a in live.codeHashes then live.codeHashes[a] else ZERO_WORD
    }

    predicate SelfDestructed(a: Address)
      requires Valid()
      reads this, Repr
      ensures SelfDestructed(a) == (a in View().deleted)
    {
      a in live.deleted
    }

    predicate Exists(a: Address)
      requires Valid()
      reads this, Repr
      ensures Exists(a) == View().Exists(a)
    {
      a in live.present
    }

    predicate IsEmpty(a: Address)
      requires Valid()
      reads this, Repr
      ensures IsEmpty(a) == View().IsEmpty(a)
    {
      (if a in live.balances then live.balances[a].v else 0) == 0 && Nonce(a) == 0 && |Code(a)| == 0
    }

    predicate HasCodeOrNonce(a: Address)
      requires Valid()
      reads this, Repr
      ensures HasCodeOrNonce(a) == View().HasCodeOrNonce(a)
    {
      Nonce(a) > 0 || |Code(a)| > 0
    }

    method SetBalance(a: Address, amount: int)
      requires Valid()
      modifies Repr
      ensures Valid() && fresh(Repr - old(Repr))
      ensures View() == old(View()).SetBalance(a, amount) && Saved() == old(Saved())
    {
      hide AccountMaps.Contents, AccountMaps.Valid;
      live.SetBalance(a, amount);
      Repr := Repr + live.Cells;
      assert forall i :: 0 <= i < |snapshots| ==> snapshots[i].Contents() == old(snapshots[i].Contents());
    }

    method AddBalance(a: Address, amount: int)
      requires Valid()
      modifies Repr
      ensures Valid() && fresh(Repr - old(Repr))
      ensures View() == old(View()).AddBalance(a, amount) && Saved() == old(Saved())
    {
      hide AccountMaps.Contents, AccountMaps.Valid;
      live.ChangeBalance(a, amount);
      Repr := Repr + live.Cells;
      assert forall i :: 0 <= i < |snapshots| ==> snapshots[i].Contents() == old(snapshots[i].Contents());
    }

    method SubBalance(a: Address, amount: int)
      requires Valid()
      modifies Repr
      ensures Valid() && fresh(Repr - old(Repr))
      ensures View() == old(View()).SubBalance(a, amount) && Saved() == old(Saved())
    {
      AddBalance(a, -amount);
    }

    method SetNonce(a: Address, nonce: u64)
      requires Valid()
      modifies Repr
      ensures Valid() && Repr == old(Repr)
      ensures View() == old(View()).SetNonce(a, nonce) && Saved() == old(Saved())
    {
      hide AccountMaps.Contents, AccountMaps.Valid;
      live.SetNonce(a, nonce);
    }

    method IncrementNonce(a: Address)
      requires Valid()
      modifies Repr
      ensures Valid() && Repr == old(Repr)
      ensures View() == old(View()).IncrementNonce(a) && Saved() == old(Saved())
    {
      live.SetNonce(a, if a in live.nonces then Add64(live.nonces[a], 1) else 1);
    }

    method SetCode(a: Address, code: Bytes)
      requires Valid()
      modifies Repr
      ensures Valid() && Repr == old(Repr)
      ensures View() == old(View()).SetCode(a, code, hash(code)) && Saved() == old(Saved())
    {
      hide AccountMaps.Contents, AccountMaps.Valid;
      live.SetCode(a, code, hash(code));
    }

    method SelfDestruct(a: Address)
      requires Valid()
      modifies Repr
      ensures Valid() && Repr == old(Repr)
      ensures View() == old(View()).SelfDestruct(a) && Saved() == old(Saved())
    {
      hide AccountMaps.Contents, AccountMaps.Valid;
      live.SelfDestruct(a);
    }

    method CreateAccount(a: Address)
      requires Valid()
      modifies Repr
      ensures Valid() && fresh(Repr - old(Repr))
      ensures View() == old(View()).CreateAccount(a) && Saved() == old(Saved())
    {
      SetBalance(a, 0);
    }
  }
}
