/** Shared vocabulary: bytes, words, addresses and the wrapping arithmetic of Go's uint64. */
module Base {
  datatype Option<+T> = None | Some(value: T)

  type byte = b: nat | b < 256
  type Bytes = seq<byte>

  /** `n` zero bytes: what Go's make([]byte, n) returns. */
  function Zeros(n: nat): (z: Bytes)
    ensures |z| == n
    ensures forall i :: 0 <= i < n ==> z[i] == 0
  {
    seq(n, _ => 0)
  }

  type Word = w: Bytes | |w| == 32 witness Zeros(32)
  type Hash = Word
  type Address = a: Bytes | |a| == 20 witness Zeros(20)
  type SlotKey = (Address, Hash)

  const TWO64: nat := 0x1_0000_0000_0000_0000
  const MAX64: nat := TWO64 - 1
  type u64 = n: nat | n < TWO64

  const ZERO_WORD: Word := Zeros(32)
  const ONE_WORD: Word := Zeros(31) + [1]

  function Add64(a: u64, b: u64): u64 {
    (a + b) % TWO64
  }

  function Sub64(a: u64, b: u64): u64 {
    (a - b) % TWO64
  }

  function Mul64(a: u64, b: u64): u64 {
    (a * b) % TWO64
  }

  function Min(a: nat, b: nat): nat {
    if a < b then a else b
  }

  /** The big-endian natural number a byte string denotes. */
  function ToNat(bs: Bytes): nat {
    if bs == [] then 0 else ToNat(bs[..|bs| - 1]) * 256 + bs[|bs| - 1]
  }

  /** wordToUint64: values that do not fit are capped, not truncated. */
  function ToU64(w: Word): u64 {
    var n := ToNat(w);
    if n < TWO64 then n else MAX64
  }

  function ToAddress(w: Word): Address {
    w[12..]
  }

  function AddressWord(a: Address): Word {
    Zeros(12) + a
  }
}
