/** Instruction boundaries of bytecode: PUSH operands are data, not instructions. */
module Bytecode {
  import opened Base

  const JUMPDEST: byte := 0x5B

  /** Bytes an instruction occupies: PUSHn carries n operand bytes. */
  function Width(op: byte): nat {
    if 0x60 <= op <= 0x7F then op - 0x5F + 1 else 1
  }

  /** `pc` is met when instructions are read one after the other starting at `from`. */
  predicate Reaches(code: Bytes, from: nat, pc: nat)
    decreases |code| - from
  {
    from == pc || (from < pc && from < |code| && Reaches(code, from + Width(code[from]), pc))
  }

  predicate IsInstruction(code: Bytes, pc: nat) {
    pc < |code| && Reaches(code, 0, pc)
  }

  /** Instructions read from `from` on. */
  function CountFrom(code: Bytes, from: nat): nat
    decreases |code| - from
  {
    if from >= |code| then 0 else 1 + CountFrom(code, from + Width(code[from]))
  }

  predicate IsJumpDest(code: Bytes, dest: nat) {
    IsInstruction(code, dest) && code[dest] == JUMPDEST
  }

  // ---------------------------------------------------------------- reading on from a boundary

  lemma {:induction false} ReachesNext(code: Bytes, from: nat, pc: nat)
    requires Reaches(code, from, pc) && pc < |code|
    ensures Reaches(code, from, pc + Width(code[pc]))
    decreases |code| - from
  {
    if from != pc {
      ReachesNext(code, from + Width(code[from]), pc);
    }
  }

  /** Between a boundary and the next there is none: operand bytes are never instructions. */
  lemma {:induction false} NoneBetween(code: Bytes, from: nat, pc: nat, inside: nat)
    requires Reaches(code, from, pc) && pc < |code| && pc < inside < pc + Width(code[pc])
    ensures !Reaches(code, from, inside)
    decreases |code| - from
  {
    if from != pc {
      NoneBetween(code, from + Width(code[from]), pc, inside);
    }
  }

  /** analyzeJumpdests: the bitmap holds exactly the JUMPDEST bytes that are instructions. */
  method AnalyzeJumpdests(code: Bytes) returns (dests: array<bool>)
    ensures fresh(dests) && dests.Length == |code|
    ensures forall d :: 0 <= d < |code| ==> (dests[d] <==> IsJumpDest(code, d))
  {
    dests := new bool[|code|](_ => false);
    var i := 0;
    while i < |code|
      invariant Reaches(code, 0, i)
      invariant forall d :: 0 <= d < |code| && d < i ==> (dests[d] <==> IsJumpDest(code, d))
      invariant forall d :: i <= d < |code| ==> !dests[d]
      decreases |code| - i
    {
      var op := code[i];
      ReachesNext(code, 0, i);
      forall d | i < d < i + Width(op) ensures !Reaches(code, 0, d) {
        NoneBetween(code, 0, i, d);
      }
      if op == 0x5B {
        dests[i] := true;
        i := i + 1;
      } else if 0x60 <= op <= 0x7F {
        i := i + (op - 0x60) + 2;
      } else {
        i := i + 1;
      }
    }
  }

  ghost predicate Increasing(pcs: seq<nat>) {
    forall i, j :: 0 <= i < j < |pcs| ==> pcs[i] < pcs[j]
  }

  /** decodeInstructionPCs: every boundary once, in order. */
  method DecodeInstructionPCs(code: Bytes) returns (pcs: seq<nat>)
    ensures forall pc: nat :: pc in pcs <==> IsInstruction(code, pc)
    ensures Increasing(pcs) && |pcs| == CountFrom(code, 0)
  {
    pcs := [];
    var pc := 0;
    while pc < |code|
      invariant Reaches(code, 0, pc)
      invariant forall p: nat :: p in pcs <==> p < |code| && p < pc && Reaches(code, 0, p)
      invariant Increasing(pcs) && forall i :: 0 <= i < |pcs| ==> pcs[i] < pc
      invariant |pcs| + CountFrom(code, pc) == CountFrom(code, 0)
      decreases |code| - pc
    {
      ReachesNext(code, 0, pc);
      forall d | pc < d < pc + Width(code[pc]) ensures !Reaches(code, 0, d) {
        NoneBetween(code, 0, pc, d);
      }
      ghost var before := pcs;
      pcs := pcs + [pc];
      assert forall p :: p in pcs <==> p in before || p == pc;
      var op := code[pc];
      pc := pc + 1;
      if 0x60 <= op <= 0x7F {
        pc := pc + (op - 0x5F);
      }
    }
  }
}
