/** Account and storage contents as values, with the operations the engine performs on them. */
module Ledger {
  import opened Base

  datatype Accounts = Accounts(
    balances: map<Address, int>,
    nonces: map<Address, u64>,
    codes: map<Address, Bytes>,
    codeHashes: map<Address, Hash>,
    present: set<Address>,
    deleted: set<Address>)
  {
    function Balance(a: Address): int {
      if a in balances then balances[a] else 0
    }

    function Nonce(a: Address): u64 {
      if a in nonces then nonces[a] else 0
    }

    function Code(a: Address): Bytes {
      if a in codes then codes[a] else []
    }

    function CodeHash(a: Address): Hash {
      if a in codeHashes then codeHashes[a] else ZERO_WORD
    }

    predicate Exists(a: Address) {
      a in present
    }

    predicate IsEmpty(a: Address) {
      Balance(a) == 0 && Nonce(a) == 0 && Code(a) == []
    }

    predicate HasCodeOrNonce(a: Address) {
      Nonce(a) > 0 || Code(a) != []
    }

    function SetBalance(a: Address, amount: int): Accounts {
      this.(balances := balances[a := amount], present := present + {a})
    }

    function AddBalance(a: Address, amount: int): Accounts {
      SetBalance(a, Balance(a) + amount)
    }

    function SubBalance(a: Address, amount: int): Accounts {
      SetBalance(a, Balance(a) - amount)
    }

    function SetNonce(a: Address, nonce: u64): Accounts {
      this.(nonces := nonces[a := nonce], present := present + {a})
    }

    function IncrementNonce(a: Address): Accounts {
      SetNonce(a, Add64(Nonce(a), 1))
    }

    function SetCode(a: Address, code: Bytes, hash: Hash): Accounts {
      this.(codes := codes[a := code], codeHashes := codeHashes[a := hash], present := present + {a})
    }

    function SelfDestruct(a: Address): Accounts {
      this.(deleted := deleted + {a})
    }

    /** CreateAccount resets the balance; nonce and code are left alone. */
    function CreateAccount(a: Address): Accounts {
      SetBalance(a, 0)
    }

    function Move(from: Address, to: Address, amount: int): Accounts {
      SubBalance(from, amount).AddBalance(to, amount)
    }
  }

  const NO_ACCOUNTS := Accounts(map[], map[], map[], map[], {}, {})

  datatype Slots = Slots(data: map<SlotKey, Hash>, original: map<SlotKey, Hash>) {
    function Get(k: SlotKey): Hash {
      if k in data then data[k] else ZERO_WORD
    }

    function Original(k: SlotKey): Hash {
      if k in original then original[k] else ZERO_WORD
    }

    /** The first write of a slot records the value it replaces. */
    function Set(k: SlotKey, v: Hash): Slots {
      Slots(data[k := v], if k in original then original else original[k := Get(k)])
    }

    function Seed(k: SlotKey, v: Hash): Slots {
      Slots(data[k := v], original[k := v])
    }
  }

  const NO_SLOTS := Slots(map[], map[])
}
