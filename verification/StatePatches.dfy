/** Exporting a session's storage edits as a patch and importing the patch: when the edits come back the same. */
module StatePatches {
  import opened Base
  import opened Ledger
  import opened Text
  import opened Compaction
  import opened Patches
  import opened Variables
  import Display = PauseDisplay
  import Mach = Machine

  /** The storage writes of a patch, by scope, as the session journals them: transient exactly under that scope text. */
  datatype StatePatch = StatePatch(storage: seq<StorageWrite>, transient: seq<StorageWrite>)

  // ---------------------------------------------------------------- what a journal does

  /** Both storages a journal writes to. */
  datatype Scoped = Scoped(sto: Slots, transient: Contents)

  /** applyMutations on one storage entry: the scope is compared as it stands. */
  function ApplyScoped(s: Scoped, w: StorageWrite): Scoped {
    if Target(w).None? then s
    else
      var k, v := Target(w).value, DecodeHash(w.value).value;
      if w.scope == TRANSIENT then s.(transient := s.transient[k := v]) else s.(sto := s.sto.Set(k, v))
  }

  /** Which is what the session journals for a request with these texts, applied; nothing if it would be refused. */
  lemma EntryIsEdit(s: Scoped, w: StorageWrite, step: nat, was: Mach.Patched, limit: nat)
    requires limit < 0x20_0000_0000 && was.sto == s.sto && was.transient == s.transient && was.ok
    ensures var m := Display.MutationOf(None, step, Display.Storage(w.address, w.scope, w.slot, w.value));
      if m.None? then ApplyScoped(s, w) == s
      else
        var now := Mach.ApplyMutation(m.value, limit, was);
        now.ok && now.memory == was.memory && ApplyScoped(s, w) == Scoped(now.sto, now.transient)
  {
    hide ParseAddress, DecodeHash;
  }

  function ApplyJournal(s: Scoped, journal: seq<StorageWrite>): Scoped {
    if journal == [] then s
    else ApplyScoped(ApplyJournal(s, journal[..|journal| - 1]), journal[|journal| - 1])
  }

  /** The entries of one scope, in order. */
  function InScope(journal: seq<StorageWrite>, transient: bool): seq<StorageWrite> {
    if journal == [] then []
    else
      var before, w := InScope(journal[..|journal| - 1], transient), journal[|journal| - 1];
      if (w.scope == TRANSIENT) == transient then before + [w] else before
  }

  /** A map as a storage that records nothing. */
  function Unrecorded(contents: Contents): Slots {
    Slots(contents, map[])
  }

  /** A journal does to each storage what the entries of its scope do. */
  lemma {:induction false} JournalByScope(s: Scoped, journal: seq<StorageWrite>)
    ensures ApplyJournal(s, journal).sto == ApplyStorageWrites(s.sto, InScope(journal, false))
    ensures ApplyJournal(s, journal).transient
         == ApplyStorageWrites(Unrecorded(s.transient), InScope(journal, true)).data
  {
    hide ApplyScoped, ApplyStorage;
    if journal != [] {
      var init, w := journal[..|journal| - 1], journal[|journal| - 1];
      JournalByScope(s, init);
      EntryByScope(ApplyJournal(s, init), ApplyStorageWrites(Unrecorded(s.transient), InScope(init, true)), w);
      AppliedLast(s.sto, InScope(init, false), w);
      AppliedLast(Unrecorded(s.transient), InScope(init, true), w);
    }
  }

  lemma EntryByScope(s: Scoped, y: Slots, w: StorageWrite)
    requires s.transient == y.data
    ensures ApplyScoped(s, w).sto == if w.scope == TRANSIENT then s.sto else ApplyStorage(s.sto, w)
    ensures ApplyScoped(s, w).transient == if w.scope == TRANSIENT then ApplyStorage(y, w).data else y.data
  {
    hide Target, DecodeHash;
  }

  lemma AppliedLast(sto: Slots, writes: seq<StorageWrite>, w: StorageWrite)
    ensures ApplyStorageWrites(sto, writes + [w]) == ApplyStorage(ApplyStorageWrites(sto, writes), w)
  {
    assert (writes + [w])[..|writes|] == writes;
  }

  // ---------------------------------------------------------------- export and import

  function Unscoped(w: StorageWrite): StorageWrite {
    w.(scope := "")
  }

  function Unscope(writes: seq<StorageWrite>): (r: seq<StorageWrite>)
    ensures |r| == |writes| && forall i :: 0 <= i < |r| ==> r[i] == Unscoped(writes[i])
  {
    seq(|writes|, i requires 0 <= i < |writes| => Unscoped(writes[i]))
  }

  /** What exporting everything files: each scope compacted, transient writes without their scope. */
  ghost predicate Exports(journal: seq<StorageWrite>, patch: StatePatch) {
    && Compacts(InScope(journal, false), patch.storage, Spelling, Less)
    && Compacts(Unscope(InScope(journal, true)), patch.transient, Spelling, Less)
  }

  /** exportStatePatch, for storage. */
  method ExportStatePatch(journal: seq<StorageWrite>) returns (patch: StatePatch)
    ensures Exports(journal, patch)
  {
    var storage, transient := [], [];
    for i := 0 to |journal|
      invariant storage == InScope(journal[..i], false) && transient == Unscope(InScope(journal[..i], true))
    {
      assert journal[..i + 1][..i] == journal[..i];
      if journal[i].scope == TRANSIENT {
        transient := transient + [Unscoped(journal[i])];
      } else {
        storage := storage + [journal[i]];
      }
    }
    assert journal[..|journal|] == journal;
    storage := CompactStorageWrites(storage);
    transient := CompactStorageWrites(transient);
    patch := StatePatch(storage, transient);
  }

  /** The scope a persistent write is journaled under again: trimmed, and named when it is blank. */
  function ImportedScope(scope: string): string {
    if TrimSpace(scope) == "" then "persistent" else TrimSpace(scope)
  }

  function ImportedStorage(writes: seq<StorageWrite>): (r: seq<StorageWrite>)
    ensures |r| == |writes| && forall i :: 0 <= i < |r| ==> r[i] == writes[i].(scope := ImportedScope(writes[i].scope))
  {
    seq(|writes|, i requires 0 <= i < |writes| => writes[i].(scope := ImportedScope(writes[i].scope)))
  }

  function ImportedTransient(writes: seq<StorageWrite>): (r: seq<StorageWrite>)
    ensures |r| == |writes| && forall i :: 0 <= i < |r| ==> r[i] == writes[i].(scope := TRANSIENT)
  {
    seq(|writes|, i requires 0 <= i < |writes| => writes[i].(scope := TRANSIENT))
  }

  function Imported(patch: StatePatch): seq<StorageWrite> {
    ImportedStorage(patch.storage) + ImportedTransient(patch.transient)
  }

  /** patchMutations, for storage. */
  method PatchMutations(patch: StatePatch) returns (journal: seq<StorageWrite>)
    ensures journal == Imported(patch)
  {
    journal := [];
    for i := 0 to |patch.storage|
      invariant journal == ImportedStorage(patch.storage)[..i]
    {
      var scope := TrimSpace(patch.storage[i].scope);
      if scope == "" {
        scope := "persistent";
      }
      journal := journal + [patch.storage[i].(scope := scope)];
    }
    for i := 0 to |patch.transient|
      invariant journal == ImportedStorage(patch.storage) + ImportedTransient(patch.transient)[..i]
    {
      journal := journal + [patch.transient[i].(scope := TRANSIENT)];
    }
  }

  // ---------------------------------------------------------------- scopes do not matter within a scope

  /** The same writes, scopes aside. */
  ghost predicate SameWrites(a: seq<StorageWrite>, b: seq<StorageWrite>) {
    |a| == |b| && forall i :: 0 <= i < |a| ==> b[i] == a[i].(scope := b[i].scope)
  }

  lemma {:induction false} SameLastValue(a: seq<StorageWrite>, b: seq<StorageWrite>, k: SlotKey)
    requires SameWrites(a, b)
    ensures LastValue(a, k) == LastValue(b, k)
  {
    hide ParseAddress, DecodeHash;
    if a != [] {
      SameLastValue(a[..|a| - 1], b[..|b| - 1], k);
    }
  }

  lemma {:induction false} AllInScope(journal: seq<StorageWrite>, transient: bool)
    requires forall i :: 0 <= i < |journal| ==> (journal[i].scope == TRANSIENT) == transient
    ensures InScope(journal, transient) == journal && InScope(journal, !transient) == []
  {
    if journal != [] {
      AllInScope(journal[..|journal| - 1], transient);
    }
  }

  lemma {:induction false} InScopeConcat(a: seq<StorageWrite>, b: seq<StorageWrite>, transient: bool)
    ensures InScope(a + b, transient) == InScope(a, transient) + InScope(b, transient)
  {
    if b == [] {
      assert a + b == a;
    } else {
      assert (a + b)[..|a + b| - 1] == a + b[..|b| - 1];
      InScopeConcat(a, b[..|b| - 1], transient);
    }
  }

  /** The scope text under which an exported persistent write comes back as a transient one. */
  predicate Strays(w: StorageWrite) {
    TrimSpace(w.scope) == TRANSIENT
  }

  /** What an import journals for each scope. */
  lemma ImportedByScope(patch: StatePatch)
    ensures InScope(Imported(patch), false) == InScope(ImportedStorage(patch.storage), false)
    ensures InScope(Imported(patch), true)
         == InScope(ImportedStorage(patch.storage), true) + ImportedTransient(patch.transient)
  {
    hide TrimSpace;
    InScopeConcat(ImportedStorage(patch.storage), ImportedTransient(patch.transient), false);
    InScopeConcat(ImportedStorage(patch.storage), ImportedTransient(patch.transient), true);
    AllInScope(ImportedTransient(patch.transient), true);
  }

  // ---------------------------------------------------------------- when an import brings back what was exported

  /** The imported journal does what the session's storage entries do, whatever the state they are applied to. */
  ghost predicate SameEdits(a: seq<StorageWrite>, b: seq<StorageWrite>) {
    forall s: Scoped :: ApplyJournal(s, a) == ApplyJournal(s, b)
  }

  /** Two journals make the same edits when, scope by scope, they store the same last values, and only then. */
  lemma SameEditsIff(a: seq<StorageWrite>, b: seq<StorageWrite>)
    ensures SameEdits(a, b) <==>
      SameLastValues(InScope(a, false), InScope(b, false)) && SameLastValues(InScope(a, true), InScope(b, true))
  {
    hide Target, DecodeHash, ApplyJournal, ApplyStorageWrites, InScope;
    var p, q, x, y := InScope(a, false), InScope(b, false), InScope(a, true), InScope(b, true);
    if SameEdits(a, b) {
      var none := Scoped(NO_SLOTS, map[]);
      assert ApplyJournal(none, a) == ApplyJournal(none, b);
      JournalByScope(none, a);
      JournalByScope(none, b);
      assert Unrecorded(map[]) == NO_SLOTS;
      DataDecides(p, q);
      DataDecides(x, y);
    }
    if SameLastValues(p, q) && SameLastValues(x, y) {
      forall s: Scoped ensures ApplyJournal(s, a) == ApplyJournal(s, b) {
        JournalByScope(s, a);
        JournalByScope(s, b);
        SameEffectIff(p, q, s.sto);
        SameEffectIff(x, y, Unrecorded(s.transient));
      }
    }
  }

  /** From the empty storage, equal contents mean equal last values. */
  lemma DataDecides(a: seq<StorageWrite>, b: seq<StorageWrite>)
    requires ApplyStorageWrites(NO_SLOTS, a).data == ApplyStorageWrites(NO_SLOTS, b).data
    ensures SameLastValues(a, b)
  {
    hide Target, DecodeHash;
    forall k: SlotKey ensures LastValue(a, k) == LastValue(b, k) {
      ApplyGives(NO_SLOTS, a, k);
      ApplyGives(NO_SLOTS, b, k);
    }
  }

  /** Dropping scopes changes neither the last values of a list nor which of its writes survive. */
  lemma UnscopedDecides(writes: seq<StorageWrite>, kept: seq<StorageWrite>)
    requires Compacts(Unscope(writes), kept, Spelling, Less)
    ensures SameLastValues(ImportedTransient(kept), writes) <==> LastSurvives(Unscope(writes))
  {
    hide Target, DecodeHash, Spelling, Less, LastSurvives, Compacts, LastValue;
    SurvivorsDecideAll(Unscope(writes), kept);
    forall k: SlotKey ensures LastValue(ImportedTransient(kept), k) == LastValue(kept, k)
                      ensures LastValue(Unscope(writes), k) == LastValue(writes, k) {
      SameLastValue(kept, ImportedTransient(kept), k);
      SameLastValue(writes, Unscope(writes), k);
    }
  }

  /**
   * When no exported write strays to the other scope, importing what was exported makes the edits of the session
   * exactly when compaction keeps what the writes of each scope do.
   */
  lemma ImportOfExportIff(journal: seq<StorageWrite>, patch: StatePatch)
    requires Exports(journal, patch) && forall i :: 0 <= i < |patch.storage| ==> !Strays(patch.storage[i])
    ensures SameEdits(Imported(patch), journal)
      <==> LastSurvives(InScope(journal, false)) && LastSurvives(Unscope(InScope(journal, true)))
  {
    hide Target, DecodeHash, Spelling, Less, LastSurvives, Compacts, LastValue, InScope, TrimSpace, Imported;
    ImportedByScope(patch);
    AllInScope(ImportedStorage(patch.storage), false);
    SameEditsIff(Imported(patch), journal);
    SurvivorsDecideAll(InScope(journal, false), patch.storage);
    forall k: SlotKey ensures LastValue(ImportedStorage(patch.storage), k) == LastValue(patch.storage, k) {
      SameLastValue(patch.storage, ImportedStorage(patch.storage), k);
    }
    assert [] + ImportedTransient(patch.transient) == ImportedTransient(patch.transient);
    UnscopedDecides(InScope(journal, true), patch.transient);
  }

  /**
   * For canonically spelled writes compaction is no obstacle, and the import makes the edits of the session exactly
   * when no exported write strays: scopes are compared as they stand when a write is applied or exported, but trimmed
   * when it is imported.
   */
  lemma CanonicalImportIff(journal: seq<StorageWrite>, patch: StatePatch)
    requires Exports(journal, patch) && forall i :: 0 <= i < |journal| ==> Canonical(journal[i])
    ensures SameEdits(Imported(patch), journal) <==> forall i :: 0 <= i < |patch.storage| ==> !Strays(patch.storage[i])
  {
    hide Target, DecodeHash, Spelling, Less, LastSurvives, Compacts, LastValue, InScope, TrimSpace, Imported, Canonical;
    InScopeCanonical(journal, false);
    InScopeCanonical(journal, true);
    var p, t := InScope(journal, false), Unscope(InScope(journal, true));
    forall i | 0 <= i < |t| ensures Canonical(t[i]) {
      CanonicalUnscoped(InScope(journal, true)[i]);
    }
    CanonicalSurvives(p, patch.storage);
    CanonicalSurvives(t, patch.transient);
    if i :| 0 <= i < |patch.storage| && Strays(patch.storage[i]) {
      StrayIsLost(journal, patch, i);
    } else {
      ImportOfExportIff(journal, patch);
    }
  }

  lemma {:induction false} InScopeCanonical(journal: seq<StorageWrite>, transient: bool)
    requires forall i :: 0 <= i < |journal| ==> Canonical(journal[i])
    ensures forall i :: 0 <= i < |InScope(journal, transient)| ==> Canonical(InScope(journal, transient)[i])
  {
    hide Canonical;
    if journal != [] {
      InScopeCanonical(journal[..|journal| - 1], transient);
    }
  }

  lemma CanonicalUnscoped(w: StorageWrite)
    requires Canonical(w)
    ensures Canonical(Unscoped(w))
  {
    hide ParseAddress, DecodeHash, EncodeHex;
  }

  /** A stray write's slot gets nothing from the import where the session stored something. */
  lemma StrayIsLost(journal: seq<StorageWrite>, patch: StatePatch, i: nat)
    requires Exports(journal, patch) && i < |patch.storage| && Strays(patch.storage[i])
    requires forall j :: 0 <= j < |InScope(journal, false)| ==> Canonical(InScope(journal, false)[j])
    ensures !SameEdits(Imported(patch), journal)
  {
    hide Target, DecodeHash, Spelling, Less, Compacts, LastValue, InScope, TrimSpace, Imported, Canonical;
    var p, back := InScope(journal, false), ImportedStorage(patch.storage);
    var n := WrittenAt(p, patch.storage, i);
    CanonicalParses(p[n]);
    var k := Target(p[n]).value;
    WrittenIff(p, k);
    forall j | 0 <= j < |back| && Target(back[j]) == Some(k) ensures back[j].scope == TRANSIENT {
      ScopeIsNotTarget(patch.storage[j], back[j].scope);
      var m := WrittenAt(p, patch.storage, j);
      OneSpelling(p, patch.storage, j, i, k);
    }
    NoneInScope(back, k);
    WrittenIff(InScope(back, false), k);
    ImportedByScope(patch);
    SameEditsIff(Imported(patch), journal);
    assert LastValue(InScope(Imported(patch), false), k) != LastValue(p, k);
  }

  lemma CanonicalParses(w: StorageWrite)
    requires Canonical(w)
    ensures Target(w).Some?
  {
    hide Target;
  }

  lemma ScopeIsNotTarget(w: StorageWrite, scope: string)
    ensures Target(w.(scope := scope)) == Target(w)
  {
  }

  /** Of canonical writes compaction keeps one for a slot. */
  lemma OneSpelling(writes: seq<StorageWrite>, kept: seq<StorageWrite>, i: nat, j: nat, k: SlotKey)
    requires i < |kept| && j < |kept| && Canonical(kept[i]) && Canonical(kept[j])
    requires Target(kept[i]) == Some(k) && Target(kept[j]) == Some(k)
    requires Compacts(writes, kept, Spelling, Less)
    ensures i == j
  {
    hide Target, Spelling, Less, Canonical;
    LessIsStrictOrder();
    SpelledAsTarget(kept[i], k);
    SpelledAsTarget(kept[j], k);
  }

  lemma {:induction false} NoneInScope(journal: seq<StorageWrite>, k: SlotKey)
    requires forall j :: 0 <= j < |journal| && Target(journal[j]) == Some(k) ==> journal[j].scope == TRANSIENT
    ensures forall j :: 0 <= j < |InScope(journal, false)| ==> Target(InScope(journal, false)[j]) != Some(k)
  {
    hide Target;
    if journal != [] {
      NoneInScope(journal[..|journal| - 1], k);
    }
  }

  /** So what a session wrote under the scope text " transient " was persistent and comes back as a transient write. */
  lemma PaddedScopeStrays(w: StorageWrite, patch: StatePatch)
    requires Canonical(w) && w.scope == " transient " && Exports([w], patch)
    ensures !SameEdits(Imported(patch), [w])
  {
    hide Canonical, Spelling, Less, SameEdits, Imported;
    assert InScope([w], false) == [w] by { AllInScope([w], false); }
    var j := KeyKept([w], patch.storage, Spelling, Less, 0);
    var n := WrittenAt([w], patch.storage, j);
    PaddedScope();
    CanonicalImportIff([w], patch);
  }

  lemma PaddedScope()
    ensures TrimSpace(" transient ") == TRANSIENT
  {
    var s := " transient ";
    assert s[1..] == "transient ";
    assert "transient "[..9] == "transient";
    assert TrimSpace("transient") == "transient";
    assert TrimSpace("transient ") == "transient";
  }
}
