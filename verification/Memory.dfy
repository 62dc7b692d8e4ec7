/** Byte-addressed memory of one call frame and the uint64 formula that prices its growth. */
module Memory {
  import opened Base

  /** The largest single allocation the host serves, below 128 GiB. A longer `make` panics and ends the frame. */
  type AllocLimit = n: nat | n < 0x20_0000_0000

  /** Every store stays within what the host can allocate. */
  type Store = s: Bytes | |s| < 0x20_0000_0000

  function Ceil32(size: u64): u64 {
    if size == 0 then 0 else Mul64(Add64(size, 31) / 32, 32)
  }

  /** MemoryGasCost: 3 gas a word plus words^2/512, computed in wrapping uint64 arithmetic. */
  function GasCost(size: u64): u64 {
    if size == 0 then 0 else
    var words := Add64(size, 31) / 32;
    Add64(Mul64(words, 3), Mul64(words, words) / 512)
  }

  function ExpansionGas(current: u64, next: u64): u64 {
    if next <= current then 0 else Sub64(GasCost(next), GasCost(current))
  }

  /** ExpandSize: the gas and the new length needed to touch `size` bytes at `offset`. */
  function ExpandSize(length: u64, offset: u64, size: u64): (u64, u64) {
    if size == 0 then (0, length)
    else if offset + size >= TWO64 then (MAX64, MAX64)
    else
      var end := Ceil32(offset + size);
      if end > length then (ExpansionGas(length, end), end) else (0, length)
  }

  /** Resize: None is the panic of an allocation the host refuses. */
  function Resize(store: Store, size: u64, limit: AllocLimit): Option<Store> {
    var rounded := Ceil32(size);
    if |store| >= rounded then Some(store)
    else if rounded > limit then None
    else Some(store + Zeros(rounded - |store|))
  }

  /** Get: reads past the end are zero; None is the panic of a refused allocation or a reversed slice. */
  function Get(store: Store, offset: u64, size: u64, limit: AllocLimit): (r: Option<Bytes>)
    ensures r.Some? ==> |r.value| == size
  {
    if size == 0 then Some([])
    else if offset >= |store| then
      if size > limit then None else Some(Zeros(size))
    else
      var end := Add64(offset, size);
      if end > |store| then
        if size > limit then None
        else
          var have := store[offset..];
          Some(if |have| >= size then have[..size] else have + Zeros(size - |have|))
      else if end < offset then None
      else Some(store[offset..end])
  }

  /** Set: grows the store when needed, then overwrites in place. */
  function Set(store: Store, offset: u64, data: Bytes, limit: AllocLimit): Option<Store>
    requires |data| < TWO64
  {
    if data == [] then Some(store)
    else
      var end := Add64(offset, |data|);
      var grown := if end > |store| then Resize(store, end, limit) else Some(store);
      if grown.None? || offset > |grown.value| then None
      else Some(Overwrite(grown.value, offset, data))
  }

  /** Go's copy(store[offset:], data). */
  function Overwrite(store: Store, offset: nat, data: Bytes): (r: Store)
    requires offset <= |store|
    ensures |r| == |store|
  {
    var n := Min(|store| - offset, |data|);
    store[..offset] + data[..n] + store[offset + n..]
  }

  lemma OverwriteGives(store: Store, offset: nat, data: Bytes, p: nat)
    requires offset + |data| <= |store| && p < |store|
    ensures Overwrite(store, offset, data)[p] == if offset <= p < offset + |data| then data[p - offset] else store[p]
  {
  }

  /** The byte at `i`; memory reads as zero beyond its end. */
  function ByteAt(store: Bytes, i: nat): byte {
    if i < |store| then store[i] else 0
  }

  /** The slice the copy opcodes take from calldata, code or return data, zero-padded to `size`. */
  function CopySlice(source: Bytes, offset: u64, size: u64, limit: AllocLimit): (r: Option<Bytes>)
    ensures r.Some? ==> |r.value| == size
  {
    if size > limit then None
    else if offset >= |source| then Some(Zeros(size))
    else
      var end := Min(Add64(offset, size), |source|);
      if end < offset then None
      else
        var have := source[offset..end];
        Some(if |have| >= size then have[..size] else have + Zeros(size - |have|))
  }
}
