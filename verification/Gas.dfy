/** Gas strictly falls from one instruction of a frame to the next, whatever a called frame hands back. */
module Gas {
  import opened Base
  import opened Machine
  import opened Execution
  import Bytecode
  import MemoryPricing
  import StorageGas
  import M = Memory

  /** Only the words, bytes and logs of the frame change, and if it goes on it goes on `width` bytes further. */
  ghost predicate MovesBy(f: Frame, l: Local, width: nat) {
    l.f.ctx == f.ctx && l.f.gas == f.gas && l.f.refund == f.refund && (l.Cont? ==> l.f.pc == f.pc + width)
  }

  /** The same, going on to the next byte or to a jump destination. */
  ghost predicate MayJump(f: Frame, l: Local) {
    l.f.ctx == f.ctx && l.f.gas == f.gas && l.f.refund == f.refund
    && (l.Cont? ==> l.f.pc == f.pc + 1 || Bytecode.IsJumpDest(f.ctx.code, l.f.pc))
  }

  lemma PushOpsMove(f: Frame, n: nat)
    ensures n <= 32 ==> MovesBy(f, OpPush(f, n), 1 + n)
    ensures 1 <= n ==> MovesBy(f, Dup(f, n), 1) && MovesBy(f, Swap(f, n), 1)
  {
    hide PushData;
  }

  lemma SlotOpsMove(w: World, f: Frame)
    ensures MovesBy(f, OpPop(f), 1) && MovesBy(f, OpSload(w, f), 1) && MovesBy(f, OpTload(w, f), 1)
  {
  }

  lemma ComputingMoves(env: Env, w: World, f: Frame, op: byte, n: nat)
    ensures MovesBy(f, Compute(env, w, f, op, n), 1)
  {
  }

  lemma LoggingMoves(env: Env, f: Frame, topics: nat)
    ensures MovesBy(f, EmitLog(env, f, topics), 1)
  {
    hide M.Get, ToNat, ToU64;
  }

  lemma MemoryOpsMove(env: Env, f: Frame)
    ensures MovesBy(f, OpKeccak(env, f), 1) && MovesBy(f, OpMload(env, f), 1) && MovesBy(f, OpMstore(env, f), 1)
    ensures MovesBy(f, OpMstore8(env, f), 1) && MovesBy(f, OpMcopy(env, f), 1)
  {
    hide M.Get, M.Set, M.Resize, ToNat, ToU64;
  }

  lemma CopyOpsMove(env: Env, w: World, f: Frame)
    ensures MovesBy(f, OpCopy(env, f, f.ctx.input), 1) && MovesBy(f, OpCopy(env, f, f.ctx.code), 1)
    ensures MovesBy(f, OpExtcodecopy(env, w, f), 1) && MovesBy(f, OpReturndatacopy(env, f), 1)
    ensures MovesBy(f, Leave(env, f, Success), 1) && MovesBy(f, Leave(env, f, Reverted), 1)
  {
    hide M.Get, M.Set, M.CopySlice, ToNat, ToU64, ToAddress;
  }

  lemma JumpOpsMove(f: Frame)
    ensures MayJump(f, OpJump(f)) && MayJump(f, OpJumpi(f))
  {
    hide ToNat, ToU64, Bytecode.IsJumpDest;
  }

  /** A frame-local handler changes neither the gas nor what the frame executes, and moves past its own instruction. */
  lemma LocalOpMoves(env: Env, w: World, f: Frame, op: byte)
    ensures var l := LocalOp(env, w, f, op);
      if op == 0x56 || op == 0x57 then MayJump(f, l) else MovesBy(f, l, Bytecode.Width(op))
  {
    hide Arity, OpPush, Dup, Swap, OpPop, OpSload, OpTload, Compute, EmitLog, OpKeccak, OpMload, OpMstore, OpMstore8;
    hide OpMcopy, OpCopy, OpExtcodecopy, OpReturndatacopy, Leave, OpJump, OpJumpi, Bytecode.IsJumpDest;
    if Arity(op).Some? {
      NoPushComputes(op);
      ComputingMoves(env, w, f, op, Arity(op).value);
    } else if 0x5F <= op <= 0x7F {
      PushOpsMove(f, op - 0x5F);
    } else if 0x80 <= op <= 0x8F {
      PushOpsMove(f, op - 0x7F);
    } else if 0x90 <= op <= 0x9F {
      PushOpsMove(f, op - 0x8F);
    } else if 0xA0 <= op <= 0xA4 {
      LoggingMoves(env, f, op - 0xA0);
    } else {
      SlotOpsMove(w, f);
      MemoryOpsMove(env, f);
      CopyOpsMove(env, w, f);
      JumpOpsMove(f);
    }
  }

  lemma NoPushComputes(op: byte)
    requires Arity(op).Some?
    ensures Bytecode.Width(op) == 1 && op != 0x56 && op != 0x57
  {
  }

  lemma LocalOpKeepsGas(env: Env, w: World, f: Frame, op: byte)
    ensures var l := LocalOp(env, w, f, op); l.f.ctx == f.ctx && l.f.gas == f.gas && l.f.refund == f.refund
  {
    hide LocalOp;
    LocalOpMoves(env, w, f, op);
  }

  /** Opcodes without a static price either pay for their access or do not go on. */
  lemma FreeOpsEnd(env: Env, w: World, f: Frame, op: byte, w0: World, f0: Frame)
    requires BaseGas(op) == 0 && DynamicGas(w0, f0, op).0 == 0 && f.stack == f0.stack
    ensures LocalOp(env, w, f, op).End?
  {
  }

  /** The two ways ExpandSize can ask for more memory. */
  lemma ExpandSizeCases(length: u64, offset: u64, size: u64)
    ensures var (g, next) := M.ExpandSize(length, offset, size);
      || (g == 0 && next == length)
      || (g == MAX64 && next == MAX64)
      || (length < next <= MemoryPricing.LAST_ROUNDED && next % 32 == 0 && g == M.ExpansionGas(length, next))
  {
    hide M.ExpansionGas, M.GasCost, M.Ceil32;
    if size > 0 && offset + size < TWO64 {
      MemoryPricing.Ceil32ExactIff(offset + size);
    }
  }

  lemma RoundedIsFixed(next: u64)
    requires next % 32 == 0 && next <= MemoryPricing.LAST_ROUNDED
    ensures M.Ceil32(next) == next
  {
    MemoryPricing.Ceil32ExactIff(next);
  }

  /** Growth a call was able to make costs little enough not to wrap its price, or is the overflow marker. */
  lemma GrowthPaid(store: M.Store, offset: u64, size: u64, limit: M.AllocLimit)
    requires M.Resize(store, M.ExpandSize(|store|, offset, size).1, limit).Some?
    ensures var g := M.ExpandSize(|store|, offset, size).0; g == MAX64 || g < 0x2000_0000_0000_0000
  {
    hide M.ExpandSize, M.ExpansionGas, M.Ceil32, MemoryPricing.Price;
    var (g, next) := M.ExpandSize(|store|, offset, size);
    ExpandSizeCases(|store|, offset, size);
    if g != 0 && g != MAX64 {
      RoundedIsFixed(next);
      assert next <= limit;
      MemoryPricing.ExpansionExact(|store|, next);
    }
  }

  lemma WrapsByOneAtMost(base: nat, g: u64)
    requires 1 <= base <= 36700 && (g == MAX64 || g < 0x2000_0000_0000_0000)
    ensures Add64(base, g) >= base - 1
  {
  }

  /** So the wrapped sum a call pays is at most one short of its own price. */
  lemma CallPaysItsPrice(base: nat, store: M.Store, inOffset: u64, inSize: u64, outOffset: u64, outSize: u64,
                         limit: M.AllocLimit)
    requires 1 <= base <= 36700
    requires M.Resize(store, CallGrowth(|store|, inOffset, inSize, outOffset, outSize).1, limit).Some?
    ensures Add64(base, CallGrowth(|store|, inOffset, inSize, outOffset, outSize).0) >= base - 1
  {
    hide M.ExpandSize, M.Resize;
    var growth := CallGrowth(|store|, inOffset, inSize, outOffset, outSize);
    if growth == M.ExpandSize(|store|, inOffset, inSize) {
      GrowthPaid(store, inOffset, inSize, limit);
    } else {
      GrowthPaid(store, outOffset, outSize, limit);
    }
    WrapsByOneAtMost(base, growth.0);
  }

  /** What a call costs its frame for good: its price less the stipend it may hand back. */
  lemma CallBasePrice(w: World, target: Address, kind: CallKind, value: nat)
    requires value > 0 ==> kind.Call? || kind.CallCode?
    ensures 100 <= CallBase(w, target, kind, value) <= 36700
    ensures value > 0 ==> CallBase(w, target, kind, value) >= 9100
  {
  }

  lemma ChargedWithinGas(available: u64, requested: u64)
    ensures ChildGas(available, requested) <= available
  {
  }

  lemma SendCallGas(env: Env, w: World, f: Frame, kind: CallKind, target: Address, value: nat, requested: u64,
                    input: Bytes, inOffset: u64, inSize: u64, outOffset: u64, outSize: u64)
    requires value > 0 ==> kind.Call? || kind.CallCode?
    ensures var growth := CallGrowth(|f.memory|, inOffset, inSize, outOffset, outSize);
      var s := SendCall(env, w, f, kind, target, value, requested, input, growth, outOffset, outSize);
      if s.Done? then s.flow.Stop? && s.flow.res.gasRemaining == 0
      else s.f.ctx == f.ctx && s.k.msg.depth == f.ctx.depth + 1 && s.f.gas + s.k.msg.gas < f.gas
  {
    hide M.ExpandSize, M.Resize, CallGrowth, CallBase, TouchAddress;
    var growth := CallGrowth(|f.memory|, inOffset, inSize, outOffset, outSize);
    if M.Resize(f.memory, growth.1, env.maxAlloc).Some? {
      var base := CallBase(w, target, kind, value);
      CallBasePrice(w, target, kind, value);
      CallPaysItsPrice(base, f.memory, inOffset, inSize, outOffset, outSize, env.maxAlloc);
      var extra := Add64(base, growth.0);
      if extra <= f.gas {
        ChargedWithinGas(f.gas - extra, requested);
        var charged := ChildGas(f.gas - extra, requested);
        assert Add64(charged, CALL_STIPEND) <= charged + CALL_STIPEND;
      }
    }
  }

  /** A frame that calls keeps less than it had even after adding all the gas it sent, stipend included. */
  lemma OpCallGas(env: Env, w: World, f: Frame, kind: CallKind)
    ensures var s := OpCall(env, w, f, kind);
      if s.Done? then s.flow.Stop? && s.flow.res.gasRemaining == 0
      else s.f.ctx == f.ctx && s.k.msg.depth == f.ctx.depth + 1 && s.f.gas + s.k.msg.gas < f.gas
  {
    hide M.Get, CallGrowth, SendCall, ToNat, ToU64, ToAddress;
    var n := CallOperands(kind);
    if |f.stack| >= n {
      var target, value := ToAddress(Arg(f, 1)), if n == 7 then ToNat(Arg(f, 2)) else 0;
      var inOffset, inSize := Arg64(f, n - 4), Arg64(f, n - 3);
      var input := M.Get(f.memory, inOffset, inSize, env.maxAlloc);
      if input.Some? {
        SendCallGas(env, w, Drop(f, n), kind, target, value, Arg64(f, 0), input.value, inOffset, inSize,
                    Arg64(f, n - 2), Arg64(f, n - 1));
      }
    }
  }

  /** A call either sends its message or ends its frame. */
  lemma CallSendsOrStops(env: Env, w: World, f: Frame, kind: CallKind)
    ensures var s := OpCall(env, w, f, kind); s.Done? ==> s.flow.Stop?
  {
    hide OpCall;
    OpCallGas(env, w, f, kind);
  }

  lemma OpCreateGas(env: Env, w: World, f: Frame, create2: bool)
    ensures match OpCreate(env, w, f, create2)
      case Done(Next(_, f1)) => f1.gas <= f.gas && f1.ctx == f.ctx
      case Done(Stop(_, res)) => res.gasRemaining == 0
      case Invoke(_, f1, k) => f1.ctx == f.ctx && k.msg.depth == f.ctx.depth + 1 && f1.gas + k.msg.gas <= f.gas
  {
    hide M.Get, CreateCost, ToNat, ToU64;
  }

  /** What one instruction may do to gas. */
  ghost predicate Spends(s: StepOut, f: Frame) {
    match s
    case Done(Next(_, f1)) => f1.gas < f.gas && f1.ctx == f.ctx
    case Done(Stop(_, res)) => res.gasRemaining <= f.gas
    case Invoke(_, f1, k) => f1.gas + k.msg.gas < f.gas && f1.ctx == f.ctx && k.msg.depth == f.ctx.depth + 1
  }

  lemma SharedOpsSpend(w: World, f: Frame, f0: Frame)
    requires f.ctx == f0.ctx && f.gas <= f0.gas
    ensures Spends(Done(OpSstore(w, f)), f0) && Spends(Done(OpSelfdestruct(w, f)), f0)
    ensures f.gas < f0.gas ==> Spends(Done(OpTstore(w, f)), f0)
  {
    hide StorageGas.RefundAfter, ToNat, ToU64, ToAddress;
  }

  lemma ExecuteSpends(env: Env, w: World, f: Frame, op: byte, w0: World, f0: Frame)
    requires f.ctx == f0.ctx && f.stack == f0.stack
    requires f.gas + DynamicGas(w0, f0, op).0 + BaseGas(op) == f0.gas
    ensures Spends(Execute(env, w, f, op), f0)
  {
    hide DynamicGas, LocalOp, OpSstore, OpTstore, OpSelfdestruct, OpCreate, OpCall;
    SharedOpsSpend(w, f, f0);
    if op == 0x55 || op == 0x5D || op == 0xFF {
    } else if op == 0xF0 || op == 0xF5 {
      OpCreateGas(env, w, f, op == 0xF5);
    } else if op == 0xF1 {
      OpCallGas(env, w, f, Call);
    } else if op == 0xF2 {
      OpCallGas(env, w, f, CallCode);
    } else if op == 0xF4 {
      OpCallGas(env, w, f, DelegateCall);
    } else if op == 0xFA {
      OpCallGas(env, w, f, StaticCall);
    } else {
      LocalOpKeepsGas(env, w, f, op);
      if BaseGas(op) == 0 && DynamicGas(w0, f0, op).0 == 0 {
        FreeOpsEnd(env, w, f, op, w0, f0);
      }
    }
  }

  lemma FireKeepsFrame(env: Env, hook: Hook, w: World, f: Frame)
    ensures var f1 := Fire(env, hook, w, f).f; f1 == f.(memory := f1.memory)
  {
    hide ApplyMutations;
  }

  lemma StepSpends(env: Env, hook: Hook, w: World, f: Frame)
    requires f.pc < |f.ctx.code|
    ensures Spends(Step(env, hook, w, f), f)
  {
    hide DynamicGas, BaseGas, Execute, MinFork, Fire, Record;
    var op := f.ctx.code[f.pc];
    var (dynamic, w1) := DynamicGas(w, f, op);
    if env.fork >= MinFork(op) && dynamic + BaseGas(op) <= f.gas {
      var f1 := f.(gas := f.gas - dynamic - BaseGas(op));
      var fired := Fire(env, hook, w1, f1);
      if fired.Proceed? {
        FireKeepsFrame(env, hook, w1, f1);
        ExecuteSpends(env, fired.w, fired.f, op, w, f);
      }
    }
  }

  /** Picking up after a sub-message never leaves more than was kept plus what came back. */
  lemma ResumeGas(env: Env, w: World, f: Frame, k: Pending, res: Result)
    requires f.gas + res.gasRemaining < TWO64
    ensures match Resume(env, w, f, k, res)
      case Next(_, f1) => f1.gas <= f.gas + res.gasRemaining && f1.ctx == f.ctx
      case Stop(_, r) => r.gasRemaining == 0
  {
  }
}
