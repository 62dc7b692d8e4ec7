/** Compacting memory writes: the latest write at each offset, in offset order. */
module MemoryPatches {
  import opened Base
  import opened Compaction
  import opened MemoryPricing
  import M = Memory

  datatype MemoryWrite = MemoryWrite(offset: u64, data: Bytes) {
    function End(): nat {
      offset + |data|
    }

    predicate Covers(p: nat) {
      offset <= p < End()
    }
  }

  function Offset(w: MemoryWrite): u64 {
    w.offset
  }

  predicate Lower(a: u64, b: u64) {
    a < b
  }

  /** compactMemoryWrites */
  method CompactMemoryWrites(writes: seq<MemoryWrite>) returns (kept: seq<MemoryWrite>)
    ensures Compacts(writes, kept, Offset, Lower)
  {
    assert StrictOrder(Lower);
    kept := Compact(writes, Offset, Lower);
  }

  /** The host can serve the memory the write needs. */
  predicate InReach(w: MemoryWrite, limit: M.AllocLimit) {
    w.data == [] || 32 * Words(w.End()) <= limit
  }

  function Apply(store: M.Store, writes: seq<MemoryWrite>, limit: M.AllocLimit): Option<M.Store>
    requires forall i :: 0 <= i < |writes| ==> |writes[i].data| < TWO64
  {
    if writes == [] then Some(store)
    else
      var before := Apply(store, writes[..|writes| - 1], limit);
      var w := writes[|writes| - 1];
      if before.None? then None else M.Set(before.value, w.offset, w.data, limit)
  }

  // ---------------------------------------------------------------- what applying a list does

  function Grown(length: nat, end: nat): nat {
    if end > length then 32 * Words(end) else length
  }

  lemma SetInReach(store: M.Store, w: MemoryWrite, limit: M.AllocLimit, p: nat)
    requires InReach(w, limit) && |w.data| < TWO64
    ensures var r := M.Set(store, w.offset, w.data, limit);
      && r.Some?
      && |r.value| == (if w.data == [] then |store| else Grown(|store|, w.End()))
      && M.ByteAt(r.value, p) == if w.Covers(p) then w.data[p - w.offset] else M.ByteAt(store, p)
  {
    hide M.Overwrite;
    if w.data != [] {
      WordsBelow(w.End());
      Ceil32ExactIff(w.End());
      assert Add64(w.offset, |w.data|) == w.End();
      var grown := if w.End() > |store| then M.Resize(store, w.End(), limit) else Some(store);
      assert grown.Some? && |grown.value| == Grown(|store|, w.End()) && M.ByteAt(grown.value, p) == M.ByteAt(store, p);
      if p < |grown.value| {
        M.OverwriteGives(grown.value, w.offset, w.data, p);
      }
    }
  }

  /** The last write over `p`. */
  function LastOver(writes: seq<MemoryWrite>, p: nat): Option<MemoryWrite> {
    if writes == [] then None
    else if writes[|writes| - 1].Covers(p) then Some(writes[|writes| - 1])
    else LastOver(writes[..|writes| - 1], p)
  }

  /** The furthest end of a write that has data. */
  function MaxEnd(writes: seq<MemoryWrite>): nat {
    if writes == [] then 0
    else
      var rest, w := MaxEnd(writes[..|writes| - 1]), writes[|writes| - 1];
      if w.data != [] && w.End() > rest then w.End() else rest
  }

  ghost predicate AllInReach(writes: seq<MemoryWrite>, limit: M.AllocLimit) {
    forall i :: 0 <= i < |writes| ==> InReach(writes[i], limit) && |writes[i].data| < TWO64
  }

  lemma GrownTwice(length: nat, a: nat, b: nat)
    ensures Grown(Grown(length, a), b) == Grown(length, if b > a then b else a)
  {
  }

  /** Length and every byte after a list of writes. */
  lemma {:induction false} ApplyGives(store: M.Store, writes: seq<MemoryWrite>, limit: M.AllocLimit, p: nat)
    requires AllInReach(writes, limit)
    ensures var r, over := Apply(store, writes, limit), LastOver(writes, p);
      && r.Some?
      && |r.value| == Grown(|store|, MaxEnd(writes))
      && M.ByteAt(r.value, p) == if over.Some? && over.value.Covers(p) then over.value.data[p - over.value.offset]
                                 else M.ByteAt(store, p)
  {
    hide InReach, M.Set, Grown, M.ByteAt;
    if writes == [] {
      assert Grown(|store|, 0) == |store| by { GrownNone(|store|); }
    } else {
      var init, w := writes[..|writes| - 1], writes[|writes| - 1];
      ApplyGives(store, init, limit, p);
      SetInReach(Apply(store, init, limit).value, w, limit, p);
      GrownTwice(|store|, MaxEnd(init), w.End());
    }
  }

  lemma GrownNone(length: nat)
    ensures Grown(length, 0) == length
  {
  }

  lemma {:induction false} LastOverAt(writes: seq<MemoryWrite>, p: nat)
    ensures match LastOver(writes, p)
      case None => forall i :: 0 <= i < |writes| ==> !writes[i].Covers(p)
      case Some(w) => w.Covers(p) && exists i :: 0 <= i < |writes| && writes[i] == w
                                       && forall j :: i < j < |writes| ==> !writes[j].Covers(p)
  {
    if writes != [] && !writes[|writes| - 1].Covers(p) {
      var init := writes[..|writes| - 1];
      LastOverAt(init, p);
      if LastOver(init, p).Some? {
        var i :| 0 <= i < |init| && init[i] == LastOver(init, p).value
                 && forall j :: i < j < |init| ==> !init[j].Covers(p);
        assert writes[i] == init[i];
      } else {
        forall i | 0 <= i < |writes| ensures !writes[i].Covers(p) {
          if i < |init| {
            assert writes[i] == init[i];
          }
        }
      }
    }
  }

  lemma {:induction false} MaxEndBounds(writes: seq<MemoryWrite>)
    ensures forall i :: 0 <= i < |writes| && writes[i].data != [] ==> writes[i].End() <= MaxEnd(writes)
    ensures MaxEnd(writes) > 0 ==>
              exists i :: 0 <= i < |writes| && writes[i].data != [] && writes[i].End() == MaxEnd(writes)
  {
    if writes != [] {
      var init, w := writes[..|writes| - 1], writes[|writes| - 1];
      MaxEndBounds(init);
      forall i | 0 <= i < |writes| && writes[i].data != [] ensures writes[i].End() <= MaxEnd(writes) {
        if i < |init| {
          assert writes[i] == init[i];
        }
      }
      if MaxEnd(writes) == MaxEnd(init) > 0 {
        var i :| 0 <= i < |init| && init[i].data != [] && init[i].End() == MaxEnd(init);
        assert writes[i] == init[i];
      }
    }
  }

  // ---------------------------------------------------------------- when compaction keeps the meaning

  predicate Overlap(u: MemoryWrite, w: MemoryWrite) {
    u.offset < w.End() && w.offset < u.End() && u.data != [] && w.data != []
  }

  /** The latest write at an offset is the longest there, and of two overlapping writes the later starts no earlier. */
  ghost predicate Orderly(writes: seq<MemoryWrite>) {
    && (forall i :: 0 <= i < |writes| ==> LatestLength(writes, writes[i].offset) >= |writes[i].data|)
    && (forall i, j :: 0 <= i < j < |writes| && Overlap(writes[i], writes[j]) ==> writes[i].offset <= writes[j].offset)
  }

  function LatestLength(writes: seq<MemoryWrite>, offset: u64): nat {
    var w := Latest(writes, Offset, offset);
    if w.None? then 0 else |w.value.data|
  }

  lemma KeptIsThere(writes: seq<MemoryWrite>, kept: seq<MemoryWrite>, w: MemoryWrite)
    requires Compacts(writes, kept, Offset, Lower) && Latest(writes, Offset, w.offset) == Some(w)
    ensures w in kept
  {
    LatestAt(writes, Offset, w.offset);
    var i :| 0 <= i < |writes| && writes[i] == w;
    var j :| 0 <= j < |kept| && Offset(kept[j]) == Offset(writes[i]);
    assert kept[j] == w;
  }

  lemma KeptWasThere(writes: seq<MemoryWrite>, kept: seq<MemoryWrite>, i: nat)
    requires Compacts(writes, kept, Offset, Lower) && i < |kept|
    ensures kept[i] in writes && Latest(writes, Offset, kept[i].offset) == Some(kept[i])
  {
    LatestAt(writes, Offset, Offset(kept[i]));
  }

  /** The write that has the last word on a byte is the latest at its offset, and so is kept. */
  lemma LastWordIsKept(writes: seq<MemoryWrite>, kept: seq<MemoryWrite>, p: nat)
    requires Compacts(writes, kept, Offset, Lower) && Orderly(writes)
    requires LastOver(writes, p).Some?
    ensures LastOver(writes, p).value in kept
  {
    hide Compacts, LastOver, Latest;
    assert forall i :: 0 <= i < |writes| ==> LatestLength(writes, writes[i].offset) >= |writes[i].data|;
    hide Orderly;
    LastOverAt(writes, p);
    var w := LastOver(writes, p).value;
    var i :| 0 <= i < |writes| && writes[i] == w && forall j :: i < j < |writes| ==> !writes[j].Covers(p);
    LatestAt(writes, Offset, w.offset);
    var v := Latest(writes, Offset, w.offset).value;
    var j :| 0 <= j < |writes| && writes[j] == v && Offset(v) == w.offset
             && forall m :: j < m < |writes| ==> Offset(writes[m]) != w.offset;
    assert LatestLength(writes, writes[i].offset) >= |w.data|;
    assert v.Covers(p);
    KeptIsThere(writes, kept, v);
  }

  lemma SameLastWord(writes: seq<MemoryWrite>, kept: seq<MemoryWrite>, p: nat)
    requires Compacts(writes, kept, Offset, Lower) && Orderly(writes)
    ensures LastOver(kept, p) == LastOver(writes, p)
  {
    LastOverAt(writes, p);
    LastOverAt(kept, p);
    if LastOver(writes, p).Some? {
      LastWordIsKept(writes, kept, p);
      var w := LastOver(writes, p).value;
      var m :| 0 <= m < |kept| && kept[m] == w;
      var v := LastOver(kept, p).value;
      var n :| 0 <= n < |kept| && kept[n] == v && forall j :: n < j < |kept| ==> !kept[j].Covers(p);
      KeptWasThere(writes, kept, n);
      OverlapInOrder(writes, v, p);
      assert m != n ==> Lower(Offset(kept[m]), Offset(kept[n]));
    } else if LastOver(kept, p).Some? {
      var n :| 0 <= n < |kept| && kept[n] == LastOver(kept, p).value;
      KeptWasThere(writes, kept, n);
    }
  }

  lemma OverlapInOrder(writes: seq<MemoryWrite>, v: MemoryWrite, p: nat)
    requires Orderly(writes) && v in writes && v.Covers(p)
    ensures LastOver(writes, p).Some? && v.offset <= LastOver(writes, p).value.offset
  {
    LastOverAt(writes, p);
    var w := LastOver(writes, p).value;
    var i :| 0 <= i < |writes| && writes[i] == w && forall j :: i < j < |writes| ==> !writes[j].Covers(p);
    var k :| 0 <= k < |writes| && writes[k] == v;
    assert k <= i;
    assert Overlap(v, w);
  }

  lemma SameMaxEnd(writes: seq<MemoryWrite>, kept: seq<MemoryWrite>)
    requires Compacts(writes, kept, Offset, Lower)
    requires forall i :: 0 <= i < |writes| ==> LatestLength(writes, writes[i].offset) >= |writes[i].data|
    ensures MaxEnd(kept) == MaxEnd(writes)
  {
    MaxEndBounds(writes);
    MaxEndBounds(kept);
    if MaxEnd(kept) > 0 {
      var i :| 0 <= i < |kept| && kept[i].data != [] && kept[i].End() == MaxEnd(kept);
      KeptWasThere(writes, kept, i);
    }
    if MaxEnd(writes) > 0 {
      var i :| 0 <= i < |writes| && writes[i].data != [] && writes[i].End() == MaxEnd(writes);
      LatestAt(writes, Offset, writes[i].offset);
      var v := Latest(writes, Offset, writes[i].offset).value;
      KeptIsThere(writes, kept, v);
      assert LatestLength(writes, writes[i].offset) >= |writes[i].data|;
    }
  }

  /** Compacted or not, orderly writes leave the same memory: same length, same bytes, from any start. */
  lemma MemoryMeaningKept(writes: seq<MemoryWrite>, kept: seq<MemoryWrite>, store: M.Store, limit: M.AllocLimit)
    requires AllInReach(writes, limit) && Compacts(writes, kept, Offset, Lower) && Orderly(writes)
    ensures AllInReach(kept, limit) && Apply(store, kept, limit) == Apply(store, writes, limit)
  {
    hide Orderly, InReach, M.Set, Grown, Apply, LastOver, MaxEnd;
    KeptInReach(writes, kept, limit);
    SameMaxEnd(writes, kept) by { OrderlyLengths(writes); }
    ApplyGives(store, writes, limit, 0);
    ApplyGives(store, kept, limit, 0);
    var a, b := Apply(store, kept, limit).value, Apply(store, writes, limit).value;
    forall p | 0 <= p < |a| ensures a[p] == b[p] {
      ApplyGives(store, writes, limit, p);
      ApplyGives(store, kept, limit, p);
      SameLastWord(writes, kept, p);
      assert a[p] == M.ByteAt(a, p) && b[p] == M.ByteAt(b, p);
    }
    assert a == b;
  }

  lemma OrderlyLengths(writes: seq<MemoryWrite>)
    requires Orderly(writes)
    ensures forall i :: 0 <= i < |writes| ==> LatestLength(writes, writes[i].offset) >= |writes[i].data|
  {
  }

  lemma KeptInReach(writes: seq<MemoryWrite>, kept: seq<MemoryWrite>, limit: M.AllocLimit)
    requires AllInReach(writes, limit) && Compacts(writes, kept, Offset, Lower)
    ensures AllInReach(kept, limit)
  {
    forall i | 0 <= i < |kept| ensures InReach(kept[i], limit) && |kept[i].data| < TWO64 {
      KeptWasThere(writes, kept, i);
    }
  }

  // ---------------------------------------------------------------- equal or disjoint ranges

  ghost predicate EqualOrDisjoint(writes: seq<MemoryWrite>) {
    forall i, j :: 0 <= i < j < |writes| ==>
      (writes[i].offset == writes[j].offset && |writes[i].data| == |writes[j].data|) || !Overlap(writes[i], writes[j])
  }

  /** No write of data is shadowed by a later, empty write at the same offset. */
  ghost predicate NoneShadowed(writes: seq<MemoryWrite>) {
    forall i :: 0 <= i < |writes| && writes[i].data != [] ==> LatestLength(writes, writes[i].offset) > 0
  }

  lemma DisjointIsOrderly(writes: seq<MemoryWrite>)
    requires EqualOrDisjoint(writes) && NoneShadowed(writes)
    ensures Orderly(writes)
  {
    forall i | 0 <= i < |writes| ensures LatestLength(writes, writes[i].offset) >= |writes[i].data| {
      LatestAt(writes, Offset, writes[i].offset);
      var v := Latest(writes, Offset, writes[i].offset).value;
      var j :| 0 <= j < |writes| && writes[j] == v
               && forall m :: j < m < |writes| ==> Offset(writes[m]) != writes[i].offset;
      if writes[i].data != [] && i != j {
        assert Overlap(writes[i], writes[j]);
      }
    }
  }

  /**
   * Over pairwise equal or disjoint ranges compaction keeps the meaning exactly when no data is shadowed by a later
   * empty write at its offset: an empty range is disjoint from everything, yet replaces what is filed under its offset.
   */
  lemma DisjointKeptIff(writes: seq<MemoryWrite>, kept: seq<MemoryWrite>, limit: M.AllocLimit)
    requires AllInReach(writes, limit) && Compacts(writes, kept, Offset, Lower) && EqualOrDisjoint(writes)
    ensures AllInReach(kept, limit)
    ensures (forall store :: Apply(store, kept, limit) == Apply(store, writes, limit)) <==> NoneShadowed(writes)
  {
    hide InReach, M.Set;
    KeptInReach(writes, kept, limit);
    if NoneShadowed(writes) {
      DisjointIsOrderly(writes);
      forall store ensures Apply(store, kept, limit) == Apply(store, writes, limit) {
        MemoryMeaningKept(writes, kept, store, limit);
      }
    } else {
      var i :| 0 <= i < |writes| && writes[i].data != [] && LatestLength(writes, writes[i].offset) == 0;
      var p := writes[i].offset;
      ShadowedIsLost(writes, kept, i);
      var wrong: byte := if LastOver(writes, p).value.data[0] == 0 then 1 else 0;
      InReachFits(writes[i], limit);
      var store: M.Store := Zeros(p) + [wrong];
      ApplyGives(store, writes, limit, p);
      ApplyGives(store, kept, limit, p);
      assert M.ByteAt(store, p) == wrong;
    }
  }

  lemma InReachFits(w: MemoryWrite, limit: M.AllocLimit)
    requires InReach(w, limit) && w.data != []
    ensures w.offset + 1 <= limit
  {
  }

  lemma ShadowedIsLost(writes: seq<MemoryWrite>, kept: seq<MemoryWrite>, i: nat)
    requires Compacts(writes, kept, Offset, Lower) && EqualOrDisjoint(writes)
    requires i < |writes| && writes[i].data != [] && LatestLength(writes, writes[i].offset) == 0
    ensures var p := writes[i].offset;
      && LastOver(kept, p).None?
      && LastOver(writes, p).Some? && LastOver(writes, p).value.offset == p && LastOver(writes, p).value.data != []
  {
    var p := writes[i].offset;
    LastOverAt(writes, p);
    LastOverAt(kept, p);
    var u := LastOver(writes, p).value;
    SameRange(writes, u, i, p);
    if LastOver(kept, p).Some? {
      var v := LastOver(kept, p).value;
      var n :| 0 <= n < |kept| && kept[n] == v;
      KeptWasThere(writes, kept, n);
      SameRange(writes, v, i, p);
      assert false;
    }
  }

  lemma SameRange(writes: seq<MemoryWrite>, u: MemoryWrite, i: nat, p: nat)
    requires EqualOrDisjoint(writes) && u in writes && i < |writes| && u.Covers(p) && writes[i].Covers(p)
    ensures u.offset == writes[i].offset && |u.data| == |writes[i].data|
  {
    var k :| 0 <= k < |writes| && writes[k] == u;
    assert Overlap(u, writes[i]) && Overlap(writes[i], u);
  }
}
