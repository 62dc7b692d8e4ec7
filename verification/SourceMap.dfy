/** Solidity source maps: one compressed entry per instruction, each field inherited until it is given again. */
module SourceMap {
  import opened Base
  import opened Text
  import opened Bytecode
  import opened Machine
  import opened Run
  import opened PcSoundness

  /** The running state of the decoder. */
  datatype Position = Position(start: int, length: int, fileId: int, jump: string, modifierDepth: int)

  const BEFORE_FIRST := Position(0, 0, -1, "-", 0)

  datatype Mapping = Mapping(index: nat, pc: nat, opcode: byte, pushBytes: nat, source: Position)

  // ---------------------------------------------------------------- one entry

  /** The text of the k-th field of an entry; a field that is not there reads as empty. */
  function Field(entry: string, k: nat): string {
    var parts := Split(entry, ':');
    if k < |parts| then parts[k] else ""
  }

  /** A numeric field: kept when empty, an error when it is not a number. */
  function Numeric(text: string, prev: int): Option<int> {
    if text == "" then Some(prev) else Atoi(text)
  }

  /** decodeSourceMapEntry */
  function DecodeEntry(entry: string, prev: Position): Option<Position> {
    var start, length := Numeric(Field(entry, 0), prev.start), Numeric(Field(entry, 1), prev.length);
    var fileId, depth := Numeric(Field(entry, 2), prev.fileId), Numeric(Field(entry, 4), prev.modifierDepth);
    var jump := if Field(entry, 3) == "" then prev.jump else Field(entry, 3);
    if start.None? || length.None? || fileId.None? || depth.None? then None
    else Some(Position(start.value, length.value, fileId.value, jump, depth.value))
  }

  // ---------------------------------------------------------------- all entries

  /** The decoder's state after the first `n` entries. */
  function PositionAfter(entries: seq<string>, n: nat): Option<Position>
    requires n <= |entries|
  {
    if n == 0 then Some(BEFORE_FIRST)
    else
      var prev := PositionAfter(entries, n - 1);
      if prev.None? then None else DecodeEntry(entries[n - 1], prev.value)
  }

  /** The k-th field as it was last given among the first `n` entries; empty if it never was. */
  function LastGiven(entries: seq<string>, n: nat, k: nat): string
    requires n <= |entries|
  {
    if n == 0 then ""
    else if Field(entries[n - 1], k) != "" then Field(entries[n - 1], k)
    else LastGiven(entries, n - 1, k)
  }

  predicate IsNumeric(k: nat) {
    k <= 2 || k == 4
  }

  /** Every number given among the first `n` entries can be read. */
  ghost predicate Readable(entries: seq<string>, n: nat)
    requires n <= |entries|
  {
    forall j, k :: 0 <= j < n && IsNumeric(k) && Field(entries[j], k) != "" ==> Atoi(Field(entries[j], k)).Some?
  }

  /** The value a compressed numeric field stands for. */
  function Given(text: string, initial: int): int {
    if text == "" then initial else if Atoi(text).Some? then Atoi(text).value else initial
  }

  /**
   * What compression means: after `n` entries every field has the value it was last given, or its initial one, and
   * decoding fails exactly when some number cannot be read.
   */
  lemma {:induction false} FieldsAreInherited(entries: seq<string>, n: nat)
    requires n <= |entries|
    ensures PositionAfter(entries, n).Some? <==> Readable(entries, n)
    ensures var p := PositionAfter(entries, n); p.Some? ==>
      && p.value.start == Given(LastGiven(entries, n, 0), 0)
      && p.value.length == Given(LastGiven(entries, n, 1), 0)
      && p.value.fileId == Given(LastGiven(entries, n, 2), -1)
      && p.value.jump == (if LastGiven(entries, n, 3) == "" then "-" else LastGiven(entries, n, 3))
      && p.value.modifierDepth == Given(LastGiven(entries, n, 4), 0)
  {
    hide Field, Atoi;
    if n > 0 {
      FieldsAreInherited(entries, n - 1);
      var entry := entries[n - 1];
      var readable := forall k :: IsNumeric(k) && Field(entry, k) != "" ==> Atoi(Field(entry, k)).Some?;
      assert Readable(entries, n) == (Readable(entries, n - 1) && readable);
      assert IsNumeric(0) && IsNumeric(1) && IsNumeric(2) && IsNumeric(4);
    }
  }

  // ---------------------------------------------------------------- the mappings of a program

  /** Trailing empty entries beyond the instruction count are dropped. */
  function Trimmed(entries: seq<string>, count: nat): seq<string> {
    if |entries| > count && entries[|entries| - 1] == "" then Trimmed(entries[..|entries| - 1], count) else entries
  }

  /** How many entries apply up to and including instruction `i`: the last entry covers the rest of the program. */
  function Applied(entries: seq<string>, i: nat): (n: nat)
    ensures n <= |entries|
  {
    Min(i + 1, |entries|)
  }

  function PushBytes(op: byte): nat {
    Width(op) - 1
  }

  /** One mapping an instruction, in code order. */
  ghost predicate Lists(code: Bytes, mappings: seq<Mapping>) {
    && (forall pc: nat :: IsInstruction(code, pc) <==> exists i :: 0 <= i < |mappings| && mappings[i].pc == pc)
    && (forall i, j :: 0 <= i < j < |mappings| ==> mappings[i].pc < mappings[j].pc)
    && (forall i :: 0 <= i < |mappings| ==> At(code, mappings[i], i))
  }

  ghost predicate At(code: Bytes, m: Mapping, i: nat) {
    m.index == i && m.pc < |code| && m.opcode == code[m.pc]
  }

  /** Each at the position the entries up to its own decode to. */
  ghost predicate Positioned(entries: seq<string>, m: Mapping, i: nat) {
    m.pushBytes == PushBytes(m.opcode) && Some(m.source) == PositionAfter(entries, Applied(entries, i))
  }

  /** ParseInstructionMappings; None is either of its errors. Without a source map nothing is positioned. */
  method ParseInstructionMappings(code: Bytes, sourceMap: string) returns (mappings: Option<seq<Mapping>>)
    ensures mappings.Some? ==> |mappings.value| == CountFrom(code, 0) && Lists(code, mappings.value)
    ensures sourceMap == "" ==> mappings.Some?
    ensures sourceMap == "" ==>
      forall i :: 0 <= i < |mappings.value| ==>
        mappings.value[i].pushBytes == 0 && mappings.value[i].source == BEFORE_FIRST
    ensures sourceMap != "" ==>
      var entries := Trimmed(Split(sourceMap, ';'), CountFrom(code, 0));
      && (mappings.None? <==> |entries| > CountFrom(code, 0) || PositionAfter(entries, |entries|).None?)
      && (mappings.Some? ==> forall i :: 0 <= i < |mappings.value| ==> Positioned(entries, mappings.value[i], i))
  {
    hide Split, DecodeEntry, IsInstruction;
    var pcs := DecodeInstructionPCs(code);
    if sourceMap == "" {
      var list := ListUnpositioned(code, pcs);
      return Some(list);
    }
    var entries := Split(sourceMap, ';');
    ghost var all := entries;
    while |entries| > |pcs| && entries[|entries| - 1] == ""
      invariant Trimmed(entries, |pcs|) == Trimmed(all, |pcs|)
    {
      entries := entries[..|entries| - 1];
    }
    if |entries| > |pcs| {
      return None;
    }
    mappings := DecodeAll(code, pcs, entries);
  }

  method ListUnpositioned(code: Bytes, pcs: seq<nat>) returns (list: seq<Mapping>)
    requires Increasing(pcs) && forall pc: nat :: pc in pcs <==> IsInstruction(code, pc)
    ensures |list| == |pcs| && Lists(code, list)
    ensures forall i :: 0 <= i < |list| ==> list[i].pushBytes == 0 && list[i].source == BEFORE_FIRST
  {
    hide IsInstruction;
    list := [];
    for i := 0 to |pcs|
      invariant |list| == i
      invariant forall j :: 0 <= j < i ==>
        list[j].pc == pcs[j] && At(code, list[j], j) && list[j].pushBytes == 0 && list[j].source == BEFORE_FIRST
    {
      InstructionInCode(code, pcs[i]);
      list := list + [Mapping(i, pcs[i], code[pcs[i]], 0, BEFORE_FIRST)];
    }
    ListsAll(code, pcs, list);
  }

  lemma InstructionInCode(code: Bytes, pc: nat)
    requires IsInstruction(code, pc)
    ensures pc < |code|
  {
  }

  /** The loop over the instructions. */
  method DecodeAll(code: Bytes, pcs: seq<nat>, entries: seq<string>) returns (mappings: Option<seq<Mapping>>)
    requires Increasing(pcs) && forall pc: nat :: pc in pcs <==> IsInstruction(code, pc)
    requires |entries| <= |pcs|
    ensures mappings.Some? ==> |mappings.value| == |pcs| && Lists(code, mappings.value)
    ensures mappings.Some? ==> forall i :: 0 <= i < |pcs| ==> Positioned(entries, mappings.value[i], i)
    ensures mappings.None? <==> PositionAfter(entries, |entries|).None?
  {
    hide DecodeEntry;
    var position := BEFORE_FIRST;
    var list: seq<Mapping> := [];
    for i := 0 to |pcs|
      invariant |list| == i && Some(position) == PositionAfter(entries, Min(i, |entries|))
      invariant forall j :: 0 <= j < i ==>
                  list[j].pc == pcs[j] && At(code, list[j], j) && Positioned(entries, list[j], j)
    {
      assert IsInstruction(code, pcs[i]);
      if i < |entries| {
        var next := DecodeEntry(entries[i], position);
        if next.None? {
          NoneStays(entries, i + 1, |entries|);
          return None;
        }
        position := next.value;
      }
      var op := code[pcs[i]];
      var pushBytes := 0;
      if 0x60 <= op <= 0x7F {
        pushBytes := op - 0x5F;
      }
      list := list + [Mapping(i, pcs[i], op, pushBytes, position)];
    }
    ListsAll(code, pcs, list);
    mappings := Some(list);
  }

  lemma ListsAll(code: Bytes, pcs: seq<nat>, list: seq<Mapping>)
    requires Increasing(pcs) && forall pc: nat :: pc in pcs <==> IsInstruction(code, pc)
    requires |list| == |pcs| && forall i :: 0 <= i < |pcs| ==> list[i].pc == pcs[i] && At(code, list[i], i)
    ensures Lists(code, list)
  {
    hide IsInstruction;
    forall pc: nat | IsInstruction(code, pc) ensures exists i :: 0 <= i < |list| && list[i].pc == pc {
      var i :| 0 <= i < |pcs| && pcs[i] == pc;
      assert list[i].pc == pc;
    }
    forall i | 0 <= i < |list| ensures IsInstruction(code, list[i].pc) {
      assert pcs[i] in pcs;
    }
  }

  lemma {:induction false} NoneStays(entries: seq<string>, m: nat, n: nat)
    requires m <= n <= |entries| && PositionAfter(entries, m).None?
    ensures PositionAfter(entries, n).None?
  {
    hide DecodeEntry;
    if m < n {
      NoneStays(entries, m, n - 1);
    }
  }

  // ---------------------------------------------------------------- looking an instruction up

  /** InstructionByPC */
  ghost predicate Indexes(index: map<nat, Mapping>, mappings: seq<Mapping>) {
    && (forall i :: 0 <= i < |mappings| ==> mappings[i].pc in index && index[mappings[i].pc] == mappings[i])
    && (forall pc :: pc in index ==> exists i :: 0 <= i < |mappings| && mappings[i].pc == pc)
  }

  method BuildIndex(mappings: seq<Mapping>) returns (index: map<nat, Mapping>)
    requires forall i, j :: 0 <= i < j < |mappings| ==> mappings[i].pc < mappings[j].pc
    ensures Indexes(index, mappings)
  {
    index := map[];
    for i := 0 to |mappings|
      invariant forall j :: 0 <= j < i ==> mappings[j].pc in index && index[mappings[j].pc] == mappings[j]
      invariant forall pc :: pc in index ==> exists j :: 0 <= j < i && mappings[j].pc == pc
    {
      index := index[mappings[i].pc := mappings[i]];
    }
  }

  /** The index answers for exactly the instructions of the code, with the byte that is there. */
  lemma IndexAnswers(code: Bytes, mappings: seq<Mapping>, index: map<nat, Mapping>, pc: nat)
    requires Lists(code, mappings) && Indexes(index, mappings)
    ensures pc in index <==> IsInstruction(code, pc)
    ensures pc in index ==> index[pc].pc == pc && index[pc].opcode == code[pc]
  {
    hide IsInstruction;
    if pc in index {
      var i :| 0 <= i < |mappings| && mappings[i].pc == pc;
      assert At(code, mappings[i], i);
    }
  }

  /** During a run every fetch from this code, in whatever frame, finds its mapping. */
  lemma LookupNeverMisses(env: Env, hook: Hook, w: World, f: Frame, code: Bytes,
                          mappings: seq<Mapping>, index: map<nat, Mapping>, i: nat)
    requires w.trace == [] && f.pc == 0
    requires Lists(code, mappings) && Indexes(index, mappings)
    requires i < |RunFrame(env, hook, w, f).w.trace|
    requires RunFrame(env, hook, w, f).w.trace[i].shown.frame.ctx.code == code
    ensures var fetched := RunFrame(env, hook, w, f).w.trace[i].shown.frame;
      fetched.pc in index && index[fetched.pc].pc == fetched.pc && index[fetched.pc].opcode == code[fetched.pc]
  {
    FrameFetchesSound(env, hook, w, f);
    IndexAnswers(code, mappings, index, RunFrame(env, hook, w, f).w.trace[i].shown.frame.pc);
  }
}
