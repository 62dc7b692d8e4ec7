/** What the memory operations do byte by byte; memory reads as zero beyond its end. */
module MemoryBytes {
  import opened Base
  import opened MemoryPricing
  import M = Memory

  /** A write that is served puts its data at its offset and changes no other byte. */
  lemma SetBytes(memory: M.Store, offset: u64, data: Bytes, limit: M.AllocLimit)
    requires |data| < TWO64 && (offset + |data| <= LAST_ROUNDED || |data| < 0x20_0000_0000)
    requires M.Set(memory, offset, data, limit).Some?
    ensures var r := M.Set(memory, offset, data, limit).value; var end := offset + |data|;
      && (data != [] ==> end < 0x20_0000_0000)
      && |r| == (if data == [] || end <= |memory| then |memory| else 32 * Words(end))
      && forall i: nat :: M.ByteAt(r, i) == if offset <= i < end then data[i - offset] else M.ByteAt(memory, i)
  {
    hide M.Overwrite, M.Ceil32;
    if data != [] {
      if |data| < 0x20_0000_0000 {
        ServedInRange(memory, offset, data, limit);
      }
      var end := offset + |data|;
      Ceil32ExactIff(end);
      WordsBelow(end);
      var grown := if end > |memory| then M.Resize(memory, end, limit).value else memory;
      assert forall i: nat :: M.ByteAt(grown, i) == M.ByteAt(memory, i);
      forall i: nat ensures M.ByteAt(M.Overwrite(grown, offset, data), i)
                         == if offset <= i < end then data[i - offset] else M.ByteAt(memory, i) {
        if i < |grown| {
          M.OverwriteGives(grown, offset, data, i);
        }
      }
    }
  }

  /** A buffer-sized write is served only where a buffer can reach. */
  lemma ServedInRange(memory: M.Store, offset: u64, data: M.Store, limit: M.AllocLimit)
    requires data != [] && M.Set(memory, offset, data, limit).Some?
    ensures offset + |data| < 0x20_0000_0000
  {
    hide M.Overwrite, M.Ceil32;
    if offset + |data| < TWO64 {
      Ceil32ExactIff(offset + |data|);
    }
  }

  /** A write is served exactly when it is empty, fits, or grows memory to no more than the host grants. */
  lemma SetServedIff(memory: M.Store, offset: u64, data: M.Store, limit: M.AllocLimit)
    ensures M.Set(memory, offset, data, limit).Some?
      <==> data == [] || offset + |data| <= |memory| || 32 * Words(offset + |data|) <= limit
  {
    hide M.Overwrite, M.Ceil32;
    var end := offset + |data|;
    assert end <= 32 * Words(end);
    if end < TWO64 {
      Ceil32ExactIff(end);
    }
  }

  /** Growing changes no byte. */
  lemma ResizeBytes(memory: M.Store, size: u64, limit: M.AllocLimit)
    requires M.Resize(memory, size, limit).Some?
    ensures forall i: nat :: M.ByteAt(M.Resize(memory, size, limit).value, i) == M.ByteAt(memory, i)
  {
    hide M.Ceil32;
  }

  /** A read that is served gives the bytes of its range. */
  lemma GetBytes(memory: M.Store, offset: u64, size: u64, limit: M.AllocLimit)
    requires M.Get(memory, offset, size, limit).Some?
    ensures var r := M.Get(memory, offset, size, limit).value;
      |r| == size && forall i :: 0 <= i < size ==> r[i] == M.ByteAt(memory, offset + i)
  {
  }

  /** So does a slice of calldata, code or return data. */
  lemma SliceBytes(source: Bytes, offset: u64, size: u64, limit: M.AllocLimit)
    requires M.CopySlice(source, offset, size, limit).Some?
    ensures var r := M.CopySlice(source, offset, size, limit).value;
      |r| == size && forall i :: 0 <= i < size ==> r[i] == M.ByteAt(source, offset + i)
  {
  }
}
