/** State patches: compacting a session's storage and memory writes without changing what they do. */
module Patches {
  import opened Base
  import opened Ledger
  import opened Text
  import opened Compaction

  // ---------------------------------------------------------------- storage writes

  /** As the session keeps them: every field is text. */
  datatype StorageWrite = StorageWrite(address: string, scope: string, slot: string, value: string)

  /** The text a write is filed under. */
  function Spelling(w: StorageWrite): string {
    w.address + "|" + w.slot
  }

  lemma LessIsStrictOrder()
    ensures StrictOrder(Less)
  {
    forall a, b ensures !Less(a, a) && (a != b ==> Less(a, b) || Less(b, a)) {
      LessTotal(a, b);
    }
    forall a, b, c | Less(a, b) && Less(b, c) ensures Less(a, c) {
      LessTransitive(a, b, c);
    }
  }

  /** compactStorageWrites */
  method CompactStorageWrites(writes: seq<StorageWrite>) returns (kept: seq<StorageWrite>)
    ensures Compacts(writes, kept, Spelling, Less)
  {
    LessIsStrictOrder();
    kept := Compact(writes, Spelling, Less);
  }

  /** The slot a write goes to; None when a field does not parse, and the write is skipped. */
  function Target(w: StorageWrite): Option<SlotKey> {
    var a, slot := ParseAddress(w.address), DecodeHash(w.slot);
    if a.None? || slot.None? || DecodeHash(w.value).None? then None else Some((a.value, slot.value))
  }

  /** applyMutations on one storage entry. */
  function ApplyStorage(sto: Slots, w: StorageWrite): Slots {
    if Target(w).None? then sto else sto.Set(Target(w).value, DecodeHash(w.value).value)
  }

  function ApplyStorageWrites(sto: Slots, writes: seq<StorageWrite>): Slots {
    if writes == [] then sto else ApplyStorage(ApplyStorageWrites(sto, writes[..|writes| - 1]), writes[|writes| - 1])
  }

  /** A write whose fields parse and whose address and slot are spelled as the encoder spells them. */
  predicate Canonical(w: StorageWrite) {
    Target(w).Some? && w.address == EncodeHex(Target(w).value.0) && w.slot == EncodeHex(Target(w).value.1)
  }

  function CanonicalSpelling(k: SlotKey): string {
    EncodeHex(k.0) + "|" + EncodeHex(k.1)
  }

  /** A canonical write goes to slot `k` exactly when it is filed under the spelling of `k`. */
  lemma SpelledAsTarget(w: StorageWrite, k: SlotKey)
    requires Canonical(w)
    ensures Target(w) == Some(k) <==> Spelling(w) == CanonicalSpelling(k)
  {
    if Spelling(w) == CanonicalSpelling(k) {
      var t := Target(w).value;
      assert w.address == Spelling(w)[..42] == EncodeHex(k.0);
      assert w.slot == Spelling(w)[43..] == EncodeHex(k.1);
      DecodeEncoded(t.0);
      DecodeEncoded(k.0);
      DecodeEncoded(t.1);
      DecodeEncoded(k.1);
    }
  }

  /** What the list last stores in slot `k`. */
  function LastValue(writes: seq<StorageWrite>, k: SlotKey): Option<Hash> {
    if writes == [] then None
    else if Target(writes[|writes| - 1]) == Some(k) then DecodeHash(writes[|writes| - 1].value)
    else LastValue(writes[..|writes| - 1], k)
  }

  /** Applying a list: every slot gets what the list last stores there, and remembers what it held before. */
  lemma {:induction false} ApplyGives(sto: Slots, writes: seq<StorageWrite>, k: SlotKey)
    ensures var r, last := ApplyStorageWrites(sto, writes), LastValue(writes, k);
      && (k in r.data <==> k in sto.data || last.Some?)
      && (k in r.data ==> r.data[k] == if last.Some? then last.value else sto.data[k])
      && (k in r.original <==> k in sto.original || last.Some?)
      && (k in r.original ==> r.original[k] == if k in sto.original then sto.original[k] else sto.Get(k))
  {
    hide ParseAddress, DecodeHash;
    if writes != [] {
      ApplyGives(sto, writes[..|writes| - 1], k);
    }
  }

  /** The last write to a slot decides its value. */
  lemma {:induction false} LastValueIs(writes: seq<StorageWrite>, i: nat, k: SlotKey)
    requires i < |writes| && Target(writes[i]) == Some(k)
    requires forall j :: i < j < |writes| ==> Target(writes[j]) != Some(k)
    ensures LastValue(writes, k) == DecodeHash(writes[i].value)
  {
    hide Target, DecodeHash;
    if i < |writes| - 1 {
      LastValueIs(writes[..|writes| - 1], i, k);
    }
  }

  /** If any write goes to the slot, one is the last. */
  lemma {:induction false} LastWrite(writes: seq<StorageWrite>, k: SlotKey) returns (i: nat)
    requires exists j :: 0 <= j < |writes| && Target(writes[j]) == Some(k)
    ensures i < |writes| && Target(writes[i]) == Some(k)
    ensures forall j :: i < j < |writes| ==> Target(writes[j]) != Some(k)
  {
    hide Target;
    i := |writes| - 1;
    if Target(writes[i]) != Some(k) {
      var init := writes[..i];
      var j :| 0 <= j < |writes| && Target(writes[j]) == Some(k);
      assert init[j] == writes[j];
      i := LastWrite(init, k);
    }
  }

  lemma {:induction false} NotWritten(writes: seq<StorageWrite>, k: SlotKey)
    requires forall j :: 0 <= j < |writes| ==> Target(writes[j]) != Some(k)
    ensures LastValue(writes, k) == None
  {
    hide Target, DecodeHash;
    if writes != [] {
      NotWritten(writes[..|writes| - 1], k);
    }
  }

  // ---------------------------------------------------------------- spellings

  lemma {:induction false} HexOnly(s: string, i: nat)
    requires DecodeHex(s).Some? && i < |s|
    ensures HexValue(s[i]).Some?
  {
    if i >= 2 {
      HexOnly(s[2..], i - 2);
    }
  }

  lemma {:induction false} TrimKeeps(s: string, c: char)
    requires c in s && !IsSpace(c)
    ensures c in TrimSpace(s)
    decreases |s|
  {
    hide IsSpace;
    if IsSpace(s[0]) {
      assert c in s[1..];
      TrimKeeps(s[1..], c);
    } else if IsSpace(s[|s| - 1]) {
      assert c in s[..|s| - 1];
      TrimKeeps(s[..|s| - 1], c);
    }
  }

  /** What parses as an address holds no separator. */
  lemma NoBarInAddress(s: string)
    requires ParseAddress(s).Some?
    ensures '|' !in s
  {
    hide DecodeHex, TrimSpace;
    if '|' in s {
      assert !IsSpace('|');
      TrimKeeps(s, '|');
      var trimmed := TrimSpace(s);
      var digits := TrimHexPrefix(trimmed);
      assert '|' in digits by {
        var i :| 0 <= i < |trimmed| && trimmed[i] == '|';
        if digits != trimmed {
          assert digits[i - 2] == '|';
        }
      }
      var padded := if |digits| % 2 == 1 then "0" + digits else digits;
      assert DecodeBytes(s) == DecodeHex(padded);
      assert '|' in padded;
      var i :| 0 <= i < |padded| && padded[i] == '|';
      HexOnly(padded, i);
    }
  }

  /** So equal spellings are equal texts, and go to the same slot. */
  lemma EqualSpelling(u: StorageWrite, w: StorageWrite)
    requires Target(u).Some? && Target(w).Some? && Spelling(u) == Spelling(w)
    ensures u.address == w.address && u.slot == w.slot && Target(u) == Target(w)
  {
    hide ParseAddress, DecodeHash;
    NoBarInAddress(u.address);
    NoBarInAddress(w.address);
    FirstBar(u.address, u.slot);
    FirstBar(w.address, w.slot);
    var n := |u.address|;
    assert n == |w.address|;
    assert u.address == Spelling(u)[..n] == Spelling(w)[..n] == w.address;
    assert u.slot == Spelling(u)[n + 1..] == Spelling(w)[n + 1..] == w.slot;
  }

  lemma FirstBar(a: string, b: string)
    requires '|' !in a
    ensures (a + "|" + b)[|a|] == '|' && forall i :: 0 <= i < |a| ==> (a + "|" + b)[i] != '|'
  {
  }

  // ---------------------------------------------------------------- when compaction keeps what the writes do

  ghost predicate AllParse(writes: seq<StorageWrite>) {
    forall i :: 0 <= i < |writes| ==> Target(writes[i]).Some?
  }

  ghost predicate IsLatest(writes: seq<StorageWrite>, i: nat)
    requires i < |writes|
  {
    forall j :: i < j < |writes| ==> Spelling(writes[j]) != Spelling(writes[i])
  }

  /** A write that parses, the latest under its spelling, after which no such write to its slot sorts. */
  ghost predicate SurvivesLast(writes: seq<StorageWrite>, i: nat)
    requires i < |writes|
  {
    && Target(writes[i]).Some? && IsLatest(writes, i)
    && (forall j :: 0 <= j < |writes| && IsLatest(writes, j) && Target(writes[j]) == Target(writes[i]) ==>
          !Less(Spelling(writes[i]), Spelling(writes[j])))
  }

  /** For every slot written to there is a survivor, and it holds the value the list stored there last. */
  ghost predicate LastSurvives(writes: seq<StorageWrite>) {
    && (forall i :: 0 <= i < |writes| && SurvivesLast(writes, i) ==>
          DecodeHash(writes[i].value) == LastValue(writes, Target(writes[i]).value))
    && (forall i :: 0 <= i < |writes| && Target(writes[i]).Some? ==> HasSurvivor(writes, Target(writes[i]).value))
  }

  ghost predicate HasSurvivor(writes: seq<StorageWrite>, k: SlotKey) {
    exists i :: 0 <= i < |writes| && SurvivesLast(writes, i) && Target(writes[i]) == Some(k)
  }

  /** Where the latest write under a spelling stands, and that compaction keeps it. */
  lemma KeptAt(writes: seq<StorageWrite>, kept: seq<StorageWrite>, i: nat) returns (j: nat)
    requires Compacts(writes, kept, Spelling, Less) && i < |writes| && IsLatest(writes, i)
    ensures j < |kept| && kept[j] == writes[i]
  {
    hide Spelling, Less;
    j := KeyKept(writes, kept, Spelling, Less, i);
    LatestAt(writes, Spelling, Spelling(writes[i]));
  }

  lemma WrittenAt(writes: seq<StorageWrite>, kept: seq<StorageWrite>, j: nat) returns (i: nat)
    requires Compacts(writes, kept, Spelling, Less) && j < |kept|
    ensures i < |writes| && writes[i] == kept[j] && IsLatest(writes, i)
  {
    hide Spelling, Less;
    LatestAt(writes, Spelling, Spelling(kept[j]));
    i :| 0 <= i < |writes| && writes[i] == kept[j]
         && forall m :: i < m < |writes| ==> Spelling(writes[m]) != Spelling(kept[j]);
  }

  /** The compacted list ends, for a survivor's slot, with the survivor. */
  lemma SurvivorDecides(writes: seq<StorageWrite>, kept: seq<StorageWrite>, i: nat)
    requires Compacts(writes, kept, Spelling, Less)
    requires i < |writes| && SurvivesLast(writes, i)
    ensures LastValue(kept, Target(writes[i]).value) == DecodeHash(writes[i].value)
  {
    hide Spelling, Less, Target, DecodeHash;
    var k := Target(writes[i]).value;
    var j := KeptAt(writes, kept, i);
    forall m | j < m < |kept| ensures Target(kept[m]) != Some(k) {
      var n := WrittenAt(writes, kept, m);
      assert Less(Spelling(kept[j]), Spelling(kept[m]));
    }
    LastValueIs(kept, j, k);
  }

  /** The last write to a slot that compaction keeps is a survivor. */
  lemma LastKeptSurvives(writes: seq<StorageWrite>, kept: seq<StorageWrite>, k: SlotKey) returns (i: nat)
    requires Compacts(writes, kept, Spelling, Less)
    requires exists j :: 0 <= j < |kept| && Target(kept[j]) == Some(k)
    ensures i < |writes| && SurvivesLast(writes, i) && Target(writes[i]) == Some(k)
  {
    hide Spelling, Less, Target, IsLatest;
    LessIsStrictOrder();
    var j := LastWrite(kept, k);
    i := WrittenAt(writes, kept, j);
    forall m | 0 <= m < |writes| && IsLatest(writes, m) && Target(writes[m]) == Target(writes[i])
      ensures !Less(Spelling(writes[i]), Spelling(writes[m]))
    {
      var n := KeptAt(writes, kept, m);
      assert n <= j;
    }
  }

  /** When all writes parse, every slot written to has a survivor. */
  lemma SurvivorExists(writes: seq<StorageWrite>, kept: seq<StorageWrite>, k: SlotKey) returns (i: nat)
    requires AllParse(writes) && Compacts(writes, kept, Spelling, Less)
    requires exists j :: 0 <= j < |writes| && Target(writes[j]) == Some(k)
    ensures i < |writes| && SurvivesLast(writes, i) && Target(writes[i]) == Some(k)
  {
    hide Spelling, Less, Target, SurvivesLast;
    var any :| 0 <= any < |writes| && Target(writes[any]) == Some(k);
    var there := KeptUnder(writes, kept, any);
    i := LastKeptSurvives(writes, kept, k);
  }

  /** Compaction keeps some write under every spelling, to the same slot. */
  lemma KeptUnder(writes: seq<StorageWrite>, kept: seq<StorageWrite>, i: nat) returns (j: nat)
    requires AllParse(writes) && Compacts(writes, kept, Spelling, Less) && i < |writes|
    ensures j < |kept| && Spelling(kept[j]) == Spelling(writes[i]) && Target(kept[j]) == Target(writes[i])
  {
    hide Spelling, Less, Target;
    j := KeyKept(writes, kept, Spelling, Less, i);
    var n := WrittenAt(writes, kept, j);
    EqualSpelling(kept[j], writes[i]);
  }

  ghost predicate SameLastValues(a: seq<StorageWrite>, b: seq<StorageWrite>) {
    forall k: SlotKey :: LastValue(a, k) == LastValue(b, k)
  }

  /** Two lists do the same to a storage when they store the same last value in every slot, and only then. */
  lemma SameEffectIff(a: seq<StorageWrite>, b: seq<StorageWrite>, sto: Slots)
    requires forall k: SlotKey :: LastValue(a, k).Some? <==> LastValue(b, k).Some?
    ensures ApplyStorageWrites(sto, a) == ApplyStorageWrites(sto, b) <==> SameLastValues(a, b)
  {
    hide Target, DecodeHash;
    var r, s := ApplyStorageWrites(sto, a), ApplyStorageWrites(sto, b);
    forall k: SlotKey
      ensures (k in r.original <==> k in s.original) && (k in r.original ==> r.original[k] == s.original[k])
      ensures k in r.data <==> k in s.data
      ensures LastValue(a, k).Some? ==> k in r.data && r.data[k] == LastValue(a, k).value
      ensures LastValue(b, k).Some? ==> k in s.data && s.data[k] == LastValue(b, k).value
      ensures LastValue(a, k).None? && k in r.data ==> r.data[k] == s.data[k]
    {
      ApplyGives(sto, a, k);
      ApplyGives(sto, b, k);
    }
    assert r.original == s.original;
    if k: SlotKey :| LastValue(a, k) != LastValue(b, k) {
      assert LastValue(a, k).Some? && LastValue(b, k).Some?;
      assert r.data[k] != s.data[k];
    } else {
      forall k | k in r.data ensures r.data[k] == s.data[k] {
        assert LastValue(a, k) == LastValue(b, k);
      }
      assert r.data == s.data;
    }
  }

  /** Compaction of writes that parse loses no slot and adds none. */
  lemma SameSlots(writes: seq<StorageWrite>, kept: seq<StorageWrite>, k: SlotKey)
    requires AllParse(writes) && Compacts(writes, kept, Spelling, Less)
    ensures LastValue(kept, k).Some? <==> LastValue(writes, k).Some?
  {
    hide Spelling, Less, Target, DecodeHash, SurvivesLast, AllParse;
    NoSlotAdded(writes, kept, k);
    if LastValue(writes, k).Some? {
      var s := SurvivorExists(writes, kept, k);
      SurvivorDecides(writes, kept, s);
      ValueParses(writes[s]);
    }
  }

  lemma ValueParses(w: StorageWrite)
    requires Target(w).Some?
    ensures DecodeHash(w.value).Some?
  {
    hide ParseAddress, DecodeHash;
  }

  /** Compaction adds no slot. */
  lemma NoSlotAdded(writes: seq<StorageWrite>, kept: seq<StorageWrite>, k: SlotKey)
    requires Compacts(writes, kept, Spelling, Less)
    ensures LastValue(writes, k).Some? <==> exists j :: 0 <= j < |writes| && Target(writes[j]) == Some(k)
    ensures LastValue(kept, k).Some? <==> exists j :: 0 <= j < |kept| && Target(kept[j]) == Some(k)
    ensures LastValue(kept, k).Some? ==> LastValue(writes, k).Some?
  {
    hide Spelling, Less, Target, DecodeHash, IsLatest;
    WrittenIff(writes, k);
    WrittenIff(kept, k);
    if j :| 0 <= j < |kept| && Target(kept[j]) == Some(k) {
      var i := WrittenAt(writes, kept, j);
    }
  }

  lemma WrittenIff(writes: seq<StorageWrite>, k: SlotKey)
    ensures LastValue(writes, k).Some? <==> exists j :: 0 <= j < |writes| && Target(writes[j]) == Some(k)
  {
    hide Target, DecodeHash;
    if exists j :: 0 <= j < |writes| && Target(writes[j]) == Some(k) {
      var i := LastWrite(writes, k);
      LastValueIs(writes, i, k);
      ValueParses(writes[i]);
    } else {
      NotWritten(writes, k);
    }
  }

  /** A slot of which compaction keeps the last value is one the survivor of which holds it. */
  lemma SurvivorsDecideAll(writes: seq<StorageWrite>, kept: seq<StorageWrite>)
    requires Compacts(writes, kept, Spelling, Less)
    ensures SameLastValues(kept, writes) <==> LastSurvives(writes)
  {
    hide Spelling, Less, Target, DecodeHash, SurvivesLast, Compacts;
    forall i | 0 <= i < |writes| && SurvivesLast(writes, i)
      ensures Target(writes[i]).Some? && LastValue(kept, Target(writes[i]).value) == DecodeHash(writes[i].value)
    {
      SurvivorParses(writes, i);
      SurvivorDecides(writes, kept, i);
    }
    if SameLastValues(kept, writes) {
      forall i | 0 <= i < |writes| && Target(writes[i]).Some? ensures HasSurvivor(writes, Target(writes[i]).value) {
        NoSlotAdded(writes, kept, Target(writes[i]).value);
        assert LastValue(kept, Target(writes[i]).value) == LastValue(writes, Target(writes[i]).value);
        var s := LastKeptSurvives(writes, kept, Target(writes[i]).value);
      }
    }
    if LastSurvives(writes) {
      forall k: SlotKey ensures LastValue(kept, k) == LastValue(writes, k) {
        NoSlotAdded(writes, kept, k);
        if LastValue(writes, k).Some? {
          var any :| 0 <= any < |writes| && Target(writes[any]) == Some(k);
          assert HasSurvivor(writes, k);
          var i :| 0 <= i < |writes| && SurvivesLast(writes, i) && Target(writes[i]) == Some(k);
        }
      }
    }
  }

  lemma SurvivorParses(writes: seq<StorageWrite>, i: nat)
    requires i < |writes| && SurvivesLast(writes, i)
    ensures Target(writes[i]).Some?
  {
    hide Target, Less, Spelling;
  }

  ghost predicate SameEffect(a: seq<StorageWrite>, b: seq<StorageWrite>) {
    forall sto: Slots :: ApplyStorageWrites(sto, a) == ApplyStorageWrites(sto, b)
  }

  /**
   * The main result: for any writes at all, however spelled and whether they parse or not, the compacted list leaves
   * the same values and original values on every storage exactly when every slot written to has a survivor, and it
   * holds the value stored last.
   */
  lemma CompactionKeepsIff(writes: seq<StorageWrite>, kept: seq<StorageWrite>)
    requires Compacts(writes, kept, Spelling, Less)
    ensures SameEffect(kept, writes) <==> LastSurvives(writes)
  {
    hide Spelling, Less, Target, DecodeHash, LastSurvives, Compacts;
    SurvivorsDecideAll(writes, kept);
    if SameEffect(kept, writes) {
      forall k: SlotKey ensures LastValue(kept, k) == LastValue(writes, k) {
        assert ApplyStorageWrites(NO_SLOTS, kept) == ApplyStorageWrites(NO_SLOTS, writes);
        ApplyGives(NO_SLOTS, kept, k);
        ApplyGives(NO_SLOTS, writes, k);
      }
    }
    if LastSurvives(writes) {
      forall sto: Slots ensures ApplyStorageWrites(sto, kept) == ApplyStorageWrites(sto, writes) {
        SameEffectIff(kept, writes, sto);
      }
    }
  }

  /** When all writes parse, that is so on any one storage. */
  lemma StorageKeptIff(writes: seq<StorageWrite>, kept: seq<StorageWrite>, sto: Slots)
    requires AllParse(writes) && Compacts(writes, kept, Spelling, Less)
    ensures ApplyStorageWrites(sto, kept) == ApplyStorageWrites(sto, writes) <==> LastSurvives(writes)
  {
    hide Spelling, Less, Target, DecodeHash, LastSurvives, Compacts, AllParse;
    forall k: SlotKey ensures LastValue(kept, k).Some? <==> LastValue(writes, k).Some? {
      SameSlots(writes, kept, k);
    }
    SameEffectIff(kept, writes, sto);
    SurvivorsDecideAll(writes, kept);
  }

  /** Canonical writes have one spelling for each slot, so the last write to a slot is its survivor. */
  lemma CanonicalSurvives(writes: seq<StorageWrite>, kept: seq<StorageWrite>)
    requires forall i :: 0 <= i < |writes| ==> Canonical(writes[i])
    requires Compacts(writes, kept, Spelling, Less)
    ensures AllParse(writes) && LastSurvives(writes)
  {
    hide Spelling, CanonicalSpelling, Target, DecodeHash, Less, Compacts;
    forall i | 0 <= i < |writes| && SurvivesLast(writes, i)
      ensures DecodeHash(writes[i].value) == LastValue(writes, Target(writes[i]).value)
    {
      var k := Target(writes[i]).value;
      forall j | i < j < |writes| ensures Target(writes[j]) != Some(k) {
        SpelledAsTarget(writes[i], k);
        SpelledAsTarget(writes[j], k);
      }
      LastValueIs(writes, i, k);
    }
    forall i | 0 <= i < |writes| && Target(writes[i]).Some? ensures HasSurvivor(writes, Target(writes[i]).value) {
      var s := SurvivorExists(writes, kept, Target(writes[i]).value);
    }
  }

  /** Compaction changes nothing canonical writes do: same values, same original values, whatever the start. */
  lemma StorageMeaningKept(writes: seq<StorageWrite>, kept: seq<StorageWrite>, sto: Slots)
    requires forall i :: 0 <= i < |writes| ==> Canonical(writes[i])
    requires Compacts(writes, kept, Spelling, Less)
    ensures ApplyStorageWrites(sto, kept) == ApplyStorageWrites(sto, writes)
  {
    hide Spelling, Canonical, Target, DecodeHash, Less, Compacts, LastSurvives, AllParse;
    CanonicalSurvives(writes, kept);
    StorageKeptIff(writes, kept, sto);
  }

  // ---------------------------------------------------------------- one slot, two spellings

  /** Two spellings of one slot are both kept, in text order: right exactly when that is the order of writing. */
  lemma TwoSpellings(u: StorageWrite, w: StorageWrite, kept: seq<StorageWrite>, sto: Slots)
    requires Target(u).Some? && Target(w) == Target(u) && Spelling(u) != Spelling(w)
    requires Compacts([u, w], kept, Spelling, Less)
    ensures ApplyStorageWrites(sto, kept) == ApplyStorageWrites(sto, [u, w])
            <==> Less(Spelling(u), Spelling(w)) || DecodeHash(u.value) == DecodeHash(w.value)
  {
    hide Spelling, Target, DecodeHash, Less, Compacts;
    LessIsStrictOrder();
    var writes, k := [u, w], Target(u).value;
    assert writes[0] == u && writes[1] == w;
    StorageKeptIff(writes, kept, sto);
    LastValueIs(writes, 1, k);
    assert IsLatest(writes, 0) && IsLatest(writes, 1);
    assert SurvivesLast(writes, 0) <==> !Less(Spelling(u), Spelling(w));
    var s := SurvivorExists(writes, kept, k);
    assert HasSurvivor(writes, k);
  }

  lemma {:induction false} CaseDoesNotMatter(s: string, t: string)
    requires |s| == |t| && forall i :: 0 <= i < |s| ==> HexValue(s[i]) == HexValue(t[i])
    ensures DecodeHex(s) == DecodeHex(t)
  {
    if |s| > 1 {
      CaseDoesNotMatter(s[2..], t[2..]);
    }
  }

  /** Slot 11 in lower and in upper case, both of full length as the write handler leaves them. */
  const SLOT_LOWER: string := EncodeHex(Zeros(31) + [11])
  const SLOT_UPPER: string := SLOT_LOWER[..65] + "B"

  lemma SlotSpellings()
    ensures |SLOT_LOWER| == 66 && SLOT_LOWER == SLOT_LOWER[..65] + "b" && SLOT_UPPER == SLOT_LOWER[..65] + "B"
    ensures NormalizeHex32(SLOT_LOWER) == SLOT_LOWER && NormalizeHex32(SLOT_UPPER) == SLOT_UPPER
    ensures DecodeHash(SLOT_LOWER).Some? && DecodeHash(SLOT_UPPER) == DecodeHash(SLOT_LOWER)
  {
    hide Zeros, HexDigits, DecodeHash, NormalizeHex32, HexChar;
    var bytes := Zeros(31) + [11];
    LastDigits(bytes);
    assert HexChar(11) == 'b' by { Eleven(); }
    OtherCase(bytes);
    assert SLOT_UPPER == "0x" + (HexDigits(bytes)[..63] + "B");
  }

  lemma Eleven()
    ensures HexChar(11) == 'b'
  {
  }

  /** A full-length hash whose last digit is b reads the same with that digit in upper case. */
  lemma OtherCase(bytes: Bytes)
    requires |bytes| == 32 && HexDigits(bytes)[63] == 'b'
    ensures var lower, upper := "0x" + HexDigits(bytes), "0x" + (HexDigits(bytes)[..63] + "B");
      && NormalizeHex32(lower) == lower && NormalizeHex32(upper) == upper
      && DecodeHash(lower).Some? && DecodeHash(upper) == DecodeHash(lower)
  {
    hide DecodeHex, HexDigits, TrimSpace, DecodeBytes, NormalizeHex32;
    assert !IsSpace('B');
    hide IsSpace;
    NoSpaceInHex(bytes);
    DecodeHexDigits(bytes);
    var lower, upper := HexDigits(bytes), HexDigits(bytes)[..63] + "B";
    CaseDoesNotMatter(lower, upper);
    FullLengthHash(lower);
    FullLengthHash(upper);
  }

  lemma FullLengthHash(digits: string)
    requires |digits| == 64 && forall i :: 0 <= i < |digits| ==> !IsSpace(digits[i])
    ensures NormalizeHex32("0x" + digits) == "0x" + digits
    ensures DecodeBytes("0x" + digits) == DecodeHex(digits)
  {
    assert ("0x" + digits)[..2] == "0x" && ("0x" + digits)[2..] == digits;
    PrefixedDigits(digits);
  }

  lemma {:induction false} LastDigits(bytes: Bytes)
    requires bytes != []
    ensures HexDigits(bytes)[2 * |bytes| - 1] == HexChar(bytes[|bytes| - 1] % 16)
  {
    if |bytes| > 1 {
      LastDigits(bytes[1..]);
    }
  }

  /**
   * So the condition on spelling cannot be dropped: slot 11 written in lower case and then in upper case ends, after
   * compaction, with the value written first.
   */
  lemma UpperCaseIsReordered(a: Address, u: StorageWrite, w: StorageWrite, kept: seq<StorageWrite>, sto: Slots)
    requires u.address == EncodeHex(a) && u.slot == SLOT_LOWER && w.address == EncodeHex(a) && w.slot == SLOT_UPPER
    requires DecodeHash(u.value).Some? && DecodeHash(w.value).Some? && DecodeHash(u.value) != DecodeHash(w.value)
    requires Compacts([u, w], kept, Spelling, Less)
    ensures ApplyStorageWrites(sto, kept) != ApplyStorageWrites(sto, [u, w])
  {
    hide DecodeHash, ParseAddress, Spelling, Less, EncodeHex;
    SlotSpellings();
    AddressParses(a);
    SpelledInReverse(u, w, SLOT_LOWER[..65]);
    TwoSpellings(u, w, kept, sto);
  }

  lemma SpelledInReverse(u: StorageWrite, w: StorageWrite, digits: string)
    requires u.address == w.address && u.slot == digits + "b" && w.slot == digits + "B"
    ensures Spelling(u) != Spelling(w) && !Less(Spelling(u), Spelling(w))
  {
    var prefix := u.address + "|" + digits;
    assert Spelling(u) == prefix + "b" && Spelling(w) == prefix + "B";
    LessAfterPrefix(prefix, "b", "B");
    assert Spelling(u)[|prefix|] == 'b' && Spelling(w)[|prefix|] == 'B';
  }
}
