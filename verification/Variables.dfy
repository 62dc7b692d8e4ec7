/** The variable lists of a pause: how they are captured, and what a storage write does to them. */
module Variables {
  import opened Base
  import opened Text

  /** Where the compiler put a variable. */
  datatype Mapping = Mapping(name: string, slot: string, typeLabel: string)

  /** The storage layout of a contract whose metadata is loaded. */
  datatype Bundle = Bundle(persistent: seq<Mapping>, transient: seq<Mapping>)

  /** One entry of a list; every field is text. */
  datatype Variable = Variable(scope: string, name: string, slot: string, value: string, typeLabel: string)

  /** The storage of one scope, every contract's. */
  type Contents = map<SlotKey, Hash>

  const PERSISTENT := "storage"
  const TRANSIENT := "transient"

  function ValueAt(contents: Contents, k: SlotKey): Hash {
    if k in contents then contents[k] else ZERO_WORD
  }

  function ReadVariable(m: Mapping, scope: string, slot: Hash, contract: Address, contents: Contents): Variable {
    Variable(scope, m.name, EncodeHex(slot), EncodeHex(ValueAt(contents, (contract, slot))), m.typeLabel)
  }

  /** In the order of the layout; a mapping whose slot does not parse is skipped. */
  function ReadAll(mappings: seq<Mapping>, scope: string, contract: Address, contents: Contents): seq<Variable> {
    if mappings == [] then []
    else
      var before, m := ReadAll(mappings[..|mappings| - 1], scope, contract, contents), mappings[|mappings| - 1];
      match DecodeHash(m.slot)
      case None => before
      case Some(slot) => before + [ReadVariable(m, scope, slot, contract, contents)]
  }

  function InsertByName(sorted: seq<Variable>, v: Variable): seq<Variable> {
    if sorted == [] then [v]
    else
      var last := sorted[|sorted| - 1];
      if Less(v.name, last.name) then InsertByName(sorted[..|sorted| - 1], v) + [last] else sorted + [v]
  }

  /** Sorted by name; variables of the same name stay in the order of the layout. */
  function ByName(list: seq<Variable>): seq<Variable> {
    if list == [] then [] else InsertByName(ByName(list[..|list| - 1]), list[|list| - 1])
  }

  function Captured(mappings: seq<Mapping>, scope: string, contract: Address, contents: Contents): seq<Variable> {
    ByName(ReadAll(mappings, scope, contract, contents))
  }

  /** variablesForScope */
  method VariablesForScope(mappings: seq<Mapping>, scope: string, contract: Address, contents: Contents)
    returns (values: seq<Variable>)
    ensures values == Captured(mappings, scope, contract, contents)
  {
    values := [];
    for i := 0 to |mappings|
      invariant values == ReadAll(mappings[..i], scope, contract, contents)
    {
      assert mappings[..i + 1][..i] == mappings[..i];
      var slot := DecodeHash(mappings[i].slot);
      if slot.Some? {
        values := values + [ReadVariable(mappings[i], scope, slot.value, contract, contents)];
      }
    }
    assert mappings[..|mappings|] == mappings;
    values := ByName(values);
  }

  ghost predicate SortedByName(list: seq<Variable>) {
    forall i, j :: 0 <= i < j < |list| ==> !Less(list[j].name, list[i].name)
  }

  /** Sorting orders the names and loses nothing. */
  lemma {:induction false} ByNameSorts(list: seq<Variable>)
    ensures SortedByName(ByName(list)) && multiset(ByName(list)) == multiset(list)
  {
    if list != [] {
      ByNameSorts(list[..|list| - 1]);
      InsertSorts(ByName(list[..|list| - 1]), list[|list| - 1]);
      assert list == list[..|list| - 1] + [list[|list| - 1]];
    }
  }

  lemma {:induction false} InsertSorts(sorted: seq<Variable>, v: Variable)
    requires SortedByName(sorted)
    ensures SortedByName(InsertByName(sorted, v))
    ensures multiset(InsertByName(sorted, v)) == multiset(sorted) + multiset{v}
  {
    hide Less;
    if sorted != [] {
      var init, last := sorted[..|sorted| - 1], sorted[|sorted| - 1];
      assert sorted == init + [last];
      if Less(v.name, last.name) {
        InsertSorts(init, v);
        forall i | 0 <= i < |init| ensures !Less(last.name, init[i].name) {
          assert init[i] == sorted[i];
        }
        AppendSorted(init, v, InsertByName(init, v), last);
      } else {
        forall i | 0 <= i < |init| ensures !Less(v.name, init[i].name) {
          if Less(v.name, init[i].name) {
            NotBetween(v.name, init[i].name, last.name);
          }
        }
      }
    }
  }

  /** After the inserted entry the last one still comes last. */
  lemma AppendSorted(init: seq<Variable>, v: Variable, inserted: seq<Variable>, last: Variable)
    requires SortedByName(inserted) && multiset(inserted) == multiset(init) + multiset{v} && Less(v.name, last.name)
    requires forall i :: 0 <= i < |init| ==> !Less(last.name, init[i].name)
    ensures SortedByName(inserted + [last])
  {
    hide Less;
    forall i | 0 <= i < |inserted| ensures !Less(last.name, inserted[i].name) {
      assert inserted[i] in multiset(inserted);
      if inserted[i] == v {
        LessTotal(v.name, v.name);
        if Less(last.name, v.name) {
          LessTransitive(v.name, last.name, v.name);
        }
      } else {
        assert inserted[i] in multiset(init);
      }
    }
  }

  lemma NotBetween(a: string, b: string, c: string)
    requires Less(a, b) && !Less(c, b)
    ensures Less(a, c)
  {
    LessTotal(b, c);
    if b != c {
      LessTransitive(a, b, c);
    }
  }

  // ---------------------------------------------------------------- reading again

  /** The same entries with their values read from other contents. */
  function Reread(list: seq<Variable>, contract: Address, contents: Contents): (r: seq<Variable>)
    ensures |r| == |list|
    ensures forall i :: 0 <= i < |list| ==> r[i] == RereadOne(list[i], contract, contents)
  {
    if list == [] then []
    else Reread(list[..|list| - 1], contract, contents) + [RereadOne(list[|list| - 1], contract, contents)]
  }

  function RereadOne(v: Variable, contract: Address, contents: Contents): Variable {
    match DecodeHash(v.slot)
    case None => v
    case Some(slot) => v.(value := EncodeHex(ValueAt(contents, (contract, slot))))
  }

  /** Every entry names a slot as the encoder spells it, and holds the value of that slot. */
  ghost predicate ReadFrom(list: seq<Variable>, contract: Address, contents: Contents) {
    forall i :: 0 <= i < |list| ==> Names(list[i]) && RereadOne(list[i], contract, contents) == list[i]
  }

  ghost predicate Names(v: Variable) {
    DecodeHash(v.slot).Some? && v.slot == EncodeHex(DecodeHash(v.slot).value)
  }

  lemma {:induction false} ReadAllReads(mappings: seq<Mapping>, scope: string, contract: Address, contents: Contents)
    ensures ReadFrom(ReadAll(mappings, scope, contract, contents), contract, contents)
  {
    hide DecodeHash, EncodeHex;
    if mappings != [] {
      ReadAllReads(mappings[..|mappings| - 1], scope, contract, contents);
      var slot := DecodeHash(mappings[|mappings| - 1].slot);
      if slot.Some? {
        HashParses(slot.value);
      }
    }
  }

  lemma {:induction false} ReadAllAgain(mappings: seq<Mapping>, scope: string, contract: Address,
                                        was: Contents, now: Contents)
    ensures ReadAll(mappings, scope, contract, now) == Reread(ReadAll(mappings, scope, contract, was), contract, now)
  {
    hide DecodeHash, EncodeHex;
    if mappings != [] {
      ReadAllAgain(mappings[..|mappings| - 1], scope, contract, was, now);
      var slot := DecodeHash(mappings[|mappings| - 1].slot);
      if slot.Some? {
        HashParses(slot.value);
      }
    }
  }

  lemma {:induction false} InsertAgain(sorted: seq<Variable>, v: Variable, contract: Address, now: Contents)
    ensures InsertByName(Reread(sorted, contract, now), RereadOne(v, contract, now))
         == Reread(InsertByName(sorted, v), contract, now)
  {
    hide DecodeHash, EncodeHex, Less;
    if sorted != [] {
      var init, last := sorted[..|sorted| - 1], sorted[|sorted| - 1];
      assert Reread(sorted, contract, now)[..|init|] == Reread(init, contract, now);
      if Less(v.name, last.name) {
        InsertAgain(init, v, contract, now);
      }
    }
  }

  lemma {:induction false} ByNameAgain(list: seq<Variable>, contract: Address, now: Contents)
    ensures ByName(Reread(list, contract, now)) == Reread(ByName(list), contract, now)
  {
    hide DecodeHash, EncodeHex, Less;
    if list != [] {
      var init := list[..|list| - 1];
      ByNameAgain(init, contract, now);
      InsertAgain(ByName(init), list[|list| - 1], contract, now);
      assert Reread(list, contract, now)[..|init|] == Reread(init, contract, now);
    }
  }

  /** A capture holds the values of its slots, and a later one is the same list with the values read again. */
  lemma CaptureReads(mappings: seq<Mapping>, scope: string, contract: Address, was: Contents, now: Contents)
    ensures ReadFrom(Captured(mappings, scope, contract, was), contract, was)
    ensures Captured(mappings, scope, contract, now) == Reread(Captured(mappings, scope, contract, was), contract, now)
  {
    hide Reread, RereadOne, ByName, Names;
    var list := ReadAll(mappings, scope, contract, was);
    ReadAllReads(mappings, scope, contract, was);
    ByNameSorts(list);
    forall i | 0 <= i < |ByName(list)|
      ensures Names(ByName(list)[i]) && RereadOne(ByName(list)[i], contract, was) == ByName(list)[i]
    {
      assert ByName(list)[i] in multiset(ByName(list));
      assert ByName(list)[i] in list;
    }
    ReadAllAgain(mappings, scope, contract, was, now);
    ByNameAgain(list, contract, now);
  }

  /** What an entry says of a variable of the layout: its name and type, its slot, and the value of the slot. */
  ghost predicate Lists(v: Variable, m: Mapping, scope: string, contract: Address, contents: Contents) {
    var slot := DecodeHash(m.slot);
    && slot.Some? && v.scope == scope && v.name == m.name && v.typeLabel == m.typeLabel
    && v.slot == EncodeHex(slot.value)
    && v.value == EncodeHex(if (contract, slot.value) in contents then contents[(contract, slot.value)] else Zeros(32))
  }

  /** A capture lists every variable of the layout whose slot parses, and nothing else. */
  lemma CapturedLists(mappings: seq<Mapping>, scope: string, contract: Address, contents: Contents)
    ensures forall v :: v in Captured(mappings, scope, contract, contents) ==>
              exists m :: m in mappings && Lists(v, m, scope, contract, contents)
    ensures forall m :: m in mappings && DecodeHash(m.slot).Some? ==>
              exists v :: v in Captured(mappings, scope, contract, contents) && Lists(v, m, scope, contract, contents)
  {
    hide Lists, DecodeHash, ByName;
    var list := ReadAll(mappings, scope, contract, contents);
    ReadAllLists(mappings, scope, contract, contents);
    ByNameSorts(list);
    assert forall v :: v in ByName(list) <==> v in multiset(ByName(list));
    assert forall v :: v in list <==> v in multiset(list);
  }

  lemma {:induction false} ReadAllLists(mappings: seq<Mapping>, scope: string, contract: Address, contents: Contents)
    ensures forall v :: v in ReadAll(mappings, scope, contract, contents) ==>
              exists m :: m in mappings && Lists(v, m, scope, contract, contents)
    ensures forall m :: m in mappings && DecodeHash(m.slot).Some? ==>
              exists v :: v in ReadAll(mappings, scope, contract, contents) && Lists(v, m, scope, contract, contents)
  {
    hide Lists, DecodeHash;
    if mappings != [] {
      var init, last := mappings[..|mappings| - 1], mappings[|mappings| - 1];
      ReadAllLists(init, scope, contract, contents);
      assert mappings == init + [last];
      if DecodeHash(last.slot).Some? {
        ReadVariableLists(last, scope, contract, contents);
        assert ReadAll(mappings, scope, contract, contents) == ReadAll(init, scope, contract, contents)
          + [ReadVariable(last, scope, DecodeHash(last.slot).value, contract, contents)];
      }
    }
  }

  lemma ReadVariableLists(m: Mapping, scope: string, contract: Address, contents: Contents)
    requires DecodeHash(m.slot).Some?
    ensures Lists(ReadVariable(m, scope, DecodeHash(m.slot).value, contract, contents), m, scope, contract, contents)
  {
  }

  // ---------------------------------------------------------------- a storage write on display

  /** The first entry filed under this text, or the length of the list. */
  function FirstAt(list: seq<Variable>, slot: string): (i: nat)
    ensures i <= |list| && (i < |list| ==> list[i].slot == slot)
    ensures forall j :: 0 <= j < i ==> list[j].slot != slot
  {
    if list == [] then 0
    else
      var i := FirstAt(list[..|list| - 1], slot);
      if i == |list| - 1 && list[|list| - 1].slot != slot then |list| else i
  }

  /** The first entry of that slot text gets the value text; if there is none, one is added. */
  function Put(list: seq<Variable>, scope: string, slot: string, value: string): seq<Variable> {
    var i := FirstAt(list, slot);
    if i < |list| then list[i := list[i].(value := value)] else list + [Variable(scope, slot, slot, value, "")]
  }

  /** The first entry under the slot text shows the value and nothing else changes; without one, an entry is added. */
  lemma PutLaw(list: seq<Variable>, scope: string, slot: string, value: string, i: nat)
    ensures var r := Put(list, scope, slot, value);
      && (i < |list| && list[i].slot == slot && (forall j :: 0 <= j < i ==> list[j].slot != slot) ==>
            |r| == |list| && r[i] == list[i].(value := value)
            && forall j :: 0 <= j < |list| && j != i ==> r[j] == list[j])
      && ((forall j :: 0 <= j < |list| ==> list[j].slot != slot) ==>
            |r| == |list| + 1 && r[..|list|] == list
            && r[|list|].scope == scope && r[|list|].name == slot && r[|list|].slot == slot
            && r[|list|].value == value && r[|list|].typeLabel == "")
  {
    hide FirstAt;
    FirstIsFirst(list, slot);
  }

  lemma {:induction false} FirstIsFirst(list: seq<Variable>, slot: string)
    ensures var n := FirstAt(list, slot); forall j :: 0 <= j < n ==> list[j].slot != slot
  {
    if list != [] && list[0].slot != slot {
      FirstIsFirst(list[1..], slot);
    }
  }

  /** applyStorageMutationToPause, on the list of its scope. */
  method PutVariable(list: seq<Variable>, scope: string, slot: string, value: string) returns (r: seq<Variable>)
    ensures r == Put(list, scope, slot, value)
  {
    for i := 0 to |list|
      invariant forall j :: 0 <= j < i ==> list[j].slot != slot
    {
      if list[i].slot == slot {
        return list[i := list[i].(value := value)];
      }
    }
    return list + [Variable(scope, slot, slot, value, "")];
  }

  /**
   * When the user's write of `value` to slot `k`, given as the text `slot`, leaves the first `n` entries right: written
   * to the paused contract, every variable in that slot is the first one filed under the text, or held the value
   * already; written elsewhere, no variable is filed under the text, or the first one shows that value already.
   */
  predicate ShownRight(list: seq<Variable>, n: nat, contract: Address, k: SlotKey, v: Hash, slot: string, value: string)
    requires n <= |list|
  {
    var first := FirstAt(list, slot);
    if k.0 == contract then
      forall j :: 0 <= j < n && list[j].slot == EncodeHex(k.1) ==>
        (if j == first then value else list[j].value) == EncodeHex(v)
    else
      first < n ==> value == list[first].value
  }

  /** A write leaves the captured variables as a fresh capture would find them exactly when `ShownRight` says so. */
  lemma VariablesExactIff(list: seq<Variable>, n: nat, contract: Address, contents: Contents, k: SlotKey, v: Hash,
                          scope: string, slot: string, value: string)
    requires n <= |list| && ReadFrom(list[..n], contract, contents) && DecodeHash(slot) == Some(k.1)
    ensures n <= |Put(list, scope, slot, value)|
    ensures Put(list, scope, slot, value)[..n] == Reread(list[..n], contract, contents[k := v])
            <==> ShownRight(list, n, contract, k, v, slot, value)
  {
    hide DecodeHash, EncodeHex, Reread;
    var after, reread := Put(list, scope, slot, value), Reread(list[..n], contract, contents[k := v]);
    var first := FirstAt(list, slot);
    forall j | 0 <= j < n
      ensures after[j] == if j == first then list[j].(value := value) else list[j]
      ensures reread[j] == if k.0 == contract && list[j].slot == EncodeHex(k.1)
                          then list[j].(value := EncodeHex(v)) else list[j]
    {
      assert list[..n][j] == list[j];
      RereadAfter(list[j], contract, contents, k, v);
    }
    if first < n {
      assert list[..n][first] == list[first];
    }
    if after[..n] == reread {
      forall j | 0 <= j < n && list[j].slot == EncodeHex(k.1) && k.0 == contract
        ensures (if j == first then value else list[j].value) == EncodeHex(v)
      {
        assert after[..n][j] == reread[j];
      }
      if first < n && k.0 != contract {
        assert after[..n][first] == reread[first];
      }
    } else {
      var j :| 0 <= j < n && after[j] != reread[j];
    }
  }

  /** One entry read again after a write to slot `k`. */
  lemma RereadAfter(entry: Variable, contract: Address, contents: Contents, k: SlotKey, v: Hash)
    requires Names(entry) && RereadOne(entry, contract, contents) == entry
    ensures RereadOne(entry, contract, contents[k := v])
         == if k.0 == contract && entry.slot == EncodeHex(k.1) then entry.(value := EncodeHex(v)) else entry
  {
    hide DecodeHash, EncodeHex;
    var s := DecodeHash(entry.slot).value;
    if entry.slot == EncodeHex(k.1) {
      HashParses(k.1);
      assert s == k.1;
    }
  }

  /** The whole list is that of a fresh capture exactly when moreover nothing had to be added. */
  lemma ListExactIff(list: seq<Variable>, contract: Address, contents: Contents, k: SlotKey, v: Hash,
                     scope: string, slot: string, value: string)
    requires ReadFrom(list, contract, contents) && DecodeHash(slot) == Some(k.1)
    ensures Put(list, scope, slot, value) == Reread(list, contract, contents[k := v])
            <==> FirstAt(list, slot) < |list| && ShownRight(list, |list|, contract, k, v, slot, value)
  {
    hide DecodeHash, EncodeHex, Reread, ShownRight;
    assert list[..|list|] == list;
    VariablesExactIff(list, |list|, contract, contents, k, v, scope, slot, value);
    var after := Put(list, scope, slot, value);
    if |after| == |list| {
      assert after[..|list|] == after;
    }
  }

  /** How many variables a capture lists: the mappings whose slot parses. */
  function VariableCount(mappings: seq<Mapping>): nat {
    if mappings == [] then 0
    else VariableCount(mappings[..|mappings| - 1]) + if DecodeHash(mappings[|mappings| - 1].slot).None? then 0 else 1
  }

  lemma {:induction false} CapturedCount(mappings: seq<Mapping>, scope: string, contract: Address, contents: Contents)
    ensures |Captured(mappings, scope, contract, contents)| == VariableCount(mappings)
  {
    var list := ReadAll(mappings, scope, contract, contents);
    ReadAllCount(mappings, scope, contract, contents);
    ByNameSorts(list);
    assert |multiset(ByName(list))| == |multiset(list)|;
  }

  lemma {:induction false} ReadAllCount(mappings: seq<Mapping>, scope: string, contract: Address, contents: Contents)
    ensures |ReadAll(mappings, scope, contract, contents)| == VariableCount(mappings)
  {
    hide DecodeHash, EncodeHex;
    if mappings != [] {
      ReadAllCount(mappings[..|mappings| - 1], scope, contract, contents);
    }
  }

  /** A write to another contract is shown as a value of the paused contract's variable in that slot. */
  lemma ForeignWriteIsShown(list: seq<Variable>, contract: Address, contents: Contents, k: SlotKey, v: Hash, i: nat)
    requires ReadFrom(list, contract, contents) && k.0 != contract
    requires i < |list| && list[i].slot == EncodeHex(k.1) && v != ValueAt(contents, (contract, k.1))
    ensures var j := FirstAt(list, EncodeHex(k.1));
      && j < |list| && Put(list, PERSISTENT, EncodeHex(k.1), EncodeHex(v))[j].value == EncodeHex(v)
      && Reread(list, contract, contents[k := v])[j].value == EncodeHex(ValueAt(contents, (contract, k.1)))
                                                           != EncodeHex(v)
  {
    hide DecodeHash, EncodeHex;
    HashParses(k.1);
    HashParses(v);
    HashParses(ValueAt(contents, (contract, k.1)));
    assert FirstAt(list, EncodeHex(k.1)) <= i;
  }

  /** Of two variables packed into one slot only the first shows a write to that slot. */
  lemma PackedVariableIsStale(list: seq<Variable>, contract: Address, contents: Contents, v: Hash, i: nat, j: nat)
    requires ReadFrom(list, contract, contents) && i < j < |list| && list[i].slot == list[j].slot
    requires v != ValueAt(contents, (contract, DecodeHash(list[j].slot).value))
    ensures var slot := DecodeHash(list[j].slot).value;
      && Reread(list, contract, contents[(contract, slot) := v])[j].value == EncodeHex(v)
      && Put(list, PERSISTENT, list[j].slot, EncodeHex(v))[j].value == EncodeHex(ValueAt(contents, (contract, slot)))
                                                                    != EncodeHex(v)
  {
    hide DecodeHash, EncodeHex;
    HashParses(v);
    HashParses(ValueAt(contents, (contract, DecodeHash(list[j].slot).value)));
    assert FirstAt(list, list[j].slot) <= i;
  }
}
