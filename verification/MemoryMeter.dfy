/** What a frame pays for memory over a run, against the unbounded price of the length it ends with. */
module MemoryMeter {
  import opened Base
  import opened Machine
  import opened Execution
  import opened MemoryPricing
  import opened Run
  import Effects
  import Gas
  import M = Memory

  /** The least gas that no frame of interest has: 3 * 2^32. */
  const GAS_CEILING: nat := 0x3_0000_0000

  const PRICED: set<byte> := {0x20, 0x37, 0x39, 0x3C, 0x3E, 0x51, 0x52, 0x53, 0x5E}

  function Op(f: Frame): byte
    requires f.pc < |f.ctx.code|
  {
    f.ctx.code[f.pc]
  }

  /** Stack words the priced opcodes take. */
  function Takes(op: byte): nat {
    if op == 0x51 then 1 else if op in {0x20, 0x52, 0x53} then 2 else if op == 0x3C then 4 else 3
  }

  /** The range a priced opcode is charged for and touches. */
  function Touched(f: Frame): (u64, u64)
    requires f.pc < |f.ctx.code| && Op(f) in PRICED && |f.stack| >= Takes(Op(f))
  {
    var op := Op(f);
    if op == 0x51 || op == 0x52 then (Arg64(f, 0), 32)
    else if op == 0x53 then (Arg64(f, 0), 1)
    else if op == 0x20 then (Arg64(f, 0), Arg64(f, 1))
    else if op == 0x3C then (Arg64(f, 1), Arg64(f, 3))
    else (Arg64(f, 0), Arg64(f, 2))
  }

  /** The unbounded length after touching a range. */
  function Grown(length: nat, offset: nat, size: nat): nat {
    if size == 0 || 32 * Words(offset + size) <= length then length else 32 * Words(offset + size)
  }

  /** Expansion gas in the interpreter's charge for this instruction. */
  function ExpansionCharge(f: Frame): u64
    requires f.pc < |f.ctx.code|
  {
    if Op(f) in PRICED && |f.stack| >= Takes(Op(f)) then MemGas(f, Touched(f).0, Touched(f).1) else 0
  }

  // ---------------------------------------------------------------- one access

  lemma ExpandSizeExact(length: u64, offset: u64, size: u64)
    requires offset + size <= LAST_ROUNDED
    ensures M.ExpandSize(length, offset, size)
         == if Grown(length, offset, size) == length then (0, length)
            else (M.ExpansionGas(length, Grown(length, offset, size)), Grown(length, offset, size))
  {
    hide M.ExpansionGas;
    Ceil32ExactIff(offset + size);
  }

  lemma ResizeLength(store: M.Store, size: u64, limit: M.AllocLimit)
    requires size <= LAST_ROUNDED && |store| % 32 == 0
    ensures var r := M.Resize(store, size, limit); r.Some? ==> |r.value| == Grown(|store|, 0, size)
  {
    Ceil32ExactIff(size);
  }

  lemma SetLength(store: M.Store, offset: u64, data: Bytes, limit: M.AllocLimit)
    requires offset + |data| <= LAST_ROUNDED && |store| % 32 == 0
    ensures var r := M.Set(store, offset, data, limit); r.Some? ==> |r.value| == Grown(|store|, offset, |data|)
  {
    hide M.Resize;
    ResizeLength(store, offset + |data|, limit);
  }

  /** A frame with this much gas and memory was never given 3 * 2^32 gas. */
  ghost predicate WithinBudget(f: Frame) {
    |f.memory| % 32 == 0 && f.gas + Price(|f.memory| / 32) < GAS_CEILING
  }

  lemma LengthWords(length: nat)
    requires length % 32 == 0
    ensures Words(length) == length / 32
  {
  }

  /** A budgeted frame's memory is far below the point where the square wraps. */
  lemma BudgetBoundsLength(length: u64)
    requires length % 32 == 0 && Price(length / 32) < GAS_CEILING
    ensures length <= LAST_EXACT
  {
    if length > LAST_EXACT {
      PriceMonotonic(0x1_0000_0000, length / 32);
    }
  }

  /** What such a frame is charged is the exact difference when it can pay, and more than it has beyond 2^37 - 32. */
  lemma ChargeIsExact(f: Frame, offset: u64, size: u64)
    requires WithinBudget(f) && offset + size <= LAST_ROUNDED
    ensures var next := Grown(|f.memory|, offset, size);
      if next <= LAST_EXACT then MemGas(f, offset, size) == Price(next / 32) - Price(|f.memory| / 32)
      else MemGas(f, offset, size) > f.gas
  {
    hide M.ExpansionGas, M.ExpandSize, Price;
    var length, next := |f.memory|, Grown(|f.memory|, offset, size);
    ExpandSizeExact(length, offset, size);
    BudgetBoundsLength(length);
    LengthWords(length);
    assert next % 32 == 0;
    LengthWords(next);
    if next <= LAST_EXACT {
      if next > length {
        ExpansionExact(length, next);
      }
    } else {
      FarCharge(length, next);
    }
  }

  lemma FarCharge(length: u64, next: u64)
    requires length <= LAST_EXACT < next <= LAST_ROUNDED && Price(Words(length)) < GAS_CEILING
    ensures M.ExpansionGas(length, next) >= GAS_CEILING - Price(Words(length))
  {
    hide M.GasCost, Price;
    GasCostExact(length);
    GasCostFar(next);
    Sub64Exact(M.GasCost(next), M.GasCost(length));
  }

  /**
   * Where the uint64 price goes wrong: a range that ends within 32 bytes of 2^64 rounds to nothing and costs nothing.
   * Every other range is charged its growth, or more than the frame has.
   */
  lemma UnchargedIff(f: Frame, offset: u64, size: u64)
    requires WithinBudget(f) && size > 0 && Grown(|f.memory|, offset, size) > LAST_EXACT
    ensures MemGas(f, offset, size) > f.gas <==> offset + size <= LAST_ROUNDED || offset + size >= TWO64
    ensures LAST_ROUNDED < offset + size < TWO64 ==> MemGas(f, offset, size) == 0
  {
    hide M.ExpansionGas;
    if offset + size <= LAST_ROUNDED {
      ChargeIsExact(f, offset, size);
    } else if offset + size < TWO64 {
      Ceil32ExactIff(offset + size);
    }
  }

  // ---------------------------------------------------------------- one instruction

  /** Instructions whose memory use and memory charge agree, on ranges ceil32 can round. */
  ghost predicate Tame(f: Frame) {
    && f.pc < |f.ctx.code|
    && (Op(f) in PRICED && |f.stack| >= Takes(Op(f)) ==>
          Touched(f).0 + Touched(f).1 <= LAST_ROUNDED && (Op(f) == 0x20 ==> Touched(f).1 > 0))
    && !(0xA0 <= Op(f) <= 0xA4) && Op(f) != 0xF0 && Op(f) != 0xF5
  }

  /** The handlers grow memory to what was charged for. */
  ghost predicate GrowsAsCharged(l: Local, f: Frame)
    requires f.pc < |f.ctx.code|
  {
    l.Cont? ==>
      if Op(f) !in PRICED then |l.f.memory| == |f.memory|
      else |f.stack| >= Takes(Op(f)) && |l.f.memory| == Grown(|f.memory|, Touched(f).0, Touched(f).1)
  }

  lemma LoadGrows(env: Env, w: World, f: Frame)
    requires Tame(f) && |f.memory| % 32 == 0 && Op(f) in {0x20, 0x51}
    ensures GrowsAsCharged(LocalOp(env, w, f, Op(f)), f)
  {
    hide M.Get, M.Resize, ToNat, ToU64, ToAddress, Words;
    hide Compute, OpPush, Dup, Swap, EmitLog, OpPop, OpSload, OpTload, OpJump, OpJumpi, Leave;
    hide OpMstore, OpMstore8;
    hide OpCopy, OpExtcodecopy, OpReturndatacopy, OpMcopy;
    if |f.stack| >= Takes(Op(f)) {
      var (offset, size) := Touched(f);
      assert Add64(offset, size) == offset + size;
      ResizeLength(f.memory, offset + size, env.maxAlloc);
    }
  }

  lemma CopyGrows(env: Env, f: Frame, g: Frame, offset: u64, data: Option<Bytes>, size: u64)
    requires |f.memory| % 32 == 0 && g.memory == f.memory && offset + size <= LAST_ROUNDED
    requires data.Some? ==> |data.value| == size
    ensures var l := CopyToMemory(env, g, offset, data);
      l.Cont? ==> |l.f.memory| == Grown(|f.memory|, offset, size)
  {
    hide M.Set, Words;
    if data.Some? {
      SetLength(f.memory, offset, data.value, env.maxAlloc);
    }
  }

  lemma StoreGrows(env: Env, w: World, f: Frame)
    requires Tame(f) && |f.memory| % 32 == 0 && Op(f) in {0x52, 0x53}
    ensures GrowsAsCharged(LocalOp(env, w, f, Op(f)), f)
  {
    hide CopyToMemory, ToU64, Grown;
    hide Compute, OpPush, Dup, Swap, EmitLog, OpPop, OpSload, OpTload, OpJump, OpJumpi, Leave;
    hide OpKeccak, OpMload;
    hide OpCopy, OpExtcodecopy, OpReturndatacopy, OpMcopy;
    if |f.stack| >= 2 {
      var data := if Op(f) == 0x52 then Arg(f, 1) else [Arg(f, 1)[31]];
      CopyGrows(env, f, Drop(f, 2), Arg64(f, 0), Some(data), |data|);
    }
  }

  lemma CopyOpGrows(env: Env, w: World, f: Frame)
    requires Tame(f) && |f.memory| % 32 == 0 && Op(f) in {0x37, 0x39, 0x3C, 0x3E, 0x5E}
    ensures GrowsAsCharged(LocalOp(env, w, f, Op(f)), f)
  {
    hide M.Get, M.CopySlice, CopyToMemory, ToU64, ToAddress, Grown;
    hide Compute, OpPush, Dup, Swap, EmitLog, OpPop, OpSload, OpTload, OpJump, OpJumpi, Leave;
    hide OpKeccak, OpMload;
    hide OpMstore, OpMstore8;
    var op := Op(f);
    if |f.stack| >= Takes(op) {
      var g := Drop(f, Takes(op));
      var (offset, size) := Touched(f);
      var limit := env.maxAlloc;
      CopyGrows(env, f, g, offset, M.CopySlice(
        if op == 0x37 then f.ctx.input else if op == 0x39 then f.ctx.code
        else if op == 0x3E then f.returnData else w.acc.Code(ToAddress(Arg(f, 0))),
        if op == 0x3C then Arg64(f, 2) else Arg64(f, 1), size, limit), size);
      CopyGrows(env, f, g, offset, if size > limit then None else M.Get(f.memory, Arg64(f, 1), size, limit), size);
    }
  }

  lemma HandlerGrows(env: Env, w: World, f: Frame)
    requires Tame(f) && |f.memory| % 32 == 0
    ensures GrowsAsCharged(LocalOp(env, w, f, Op(f)), f)
  {
    hide M.Get, M.Resize, ToNat, ToU64, ToAddress, PushData, Words, CopyToMemory;
    if Op(f) in {0x20, 0x51} {
      LoadGrows(env, w, f);
    } else if Op(f) in {0x52, 0x53} {
      StoreGrows(env, w, f);
    } else if Op(f) in PRICED {
      CopyOpGrows(env, w, f);
    }
  }

  /** The charge is part of the dynamic gas. */
  lemma ChargeIsPaid(w: World, f: Frame)
    requires f.pc < |f.ctx.code|
    ensures DynamicGas(w, f, Op(f)).0 >= ExpansionCharge(f)
  {
    hide MemGas, ToU64, ToAddress, ByteLength;
  }

  ghost predicate KeepsMemory(s: StepOut, f: Frame) {
    match s
    case Done(Next(_, f1)) => f1.memory == f.memory && f1.gas <= f.gas
    case _ => true
  }

  lemma OthersKeepMemory(env: Env, w: World, f: Frame, op: byte)
    requires op in {0x55, 0x5D, 0xFF, 0xF1, 0xF2, 0xF4, 0xFA}
    ensures KeepsMemory(Execute(env, w, f, op), f)
  {
    hide OpCall;
    Gas.OpCallGas(env, w, f, Call);
    Gas.OpCallGas(env, w, f, CallCode);
    Gas.OpCallGas(env, w, f, DelegateCall);
    Gas.OpCallGas(env, w, f, StaticCall);
  }

  /** One tame instruction that goes on: its charge is the exact price of its growth, and the budget holds. */
  lemma StepPaysGrowth(env: Env, w: World, f: Frame)
    requires Tame(f) && WithinBudget(f)
    ensures match Step(env, NO_HOOK, w, f)
      case Done(Next(_, f1)) =>
        && WithinBudget(f1)
        && ExpansionCharge(f) == Price(|f1.memory| / 32) - Price(|f.memory| / 32)
      case _ => true
  {
    hide DynamicGas, Execute, MinFork, BaseGas, Price, ExpansionCharge, Touched, ApplyMutations, LocalOp;
    var op := Op(f);
    if Step(env, NO_HOOK, w, f).Done? && Step(env, NO_HOOK, w, f).flow.Next? {
      var f1 := Step(env, NO_HOOK, w, f).flow.f;
      var (dynamic, w1) := DynamicGas(w, f, op);
      ChargeIsPaid(w, f);
      var paid := f.(gas := f.gas - dynamic - BaseGas(op));
      Effects.FireEffect(env, NO_HOOK, w1, paid);
      var fired := Fire(env, NO_HOOK, w1, paid);
      assert fired.Proceed? && fired.f == paid;
      ExecutePaysGrowth(env, fired.w, f, paid);
    }
  }

  /** The same for the handler alone; `paid` is `f` after the charge. */
  lemma ExecutePaysGrowth(env: Env, w: World, f: Frame, paid: Frame)
    requires Tame(f) && WithinBudget(f) && paid == f.(gas := paid.gas) && paid.gas + ExpansionCharge(f) <= f.gas
    ensures match Execute(env, w, paid, Op(f))
      case Done(Next(_, f1)) =>
        && WithinBudget(f1)
        && ExpansionCharge(f) == Price(|f1.memory| / 32) - Price(|f.memory| / 32)
      case _ => true
  {
    hide LocalOp, Price, MemGas, OpSstore, OpTstore, OpSelfdestruct, OpCall, OpCreate;
    var op := Op(f);
    if op in {0x55, 0x5D, 0xFF, 0xF1, 0xF2, 0xF4, 0xFA} {
      OthersKeepMemory(env, w, paid, op);
    } else {
      HandlerGrows(env, w, paid);
      Gas.LocalOpKeepsGas(env, w, paid, op);
      if op in PRICED && |f.stack| >= Takes(op) {
        assert Touched(paid) == Touched(f);
        ChargeIsExact(f, Touched(f).0, Touched(f).1);
      }
    }
  }

  /** An access past 2^37 - 32 bytes runs out of gas although the squared word count may wrap. */
  lemma FarAccessRunsOut(env: Env, w: World, f: Frame)
    requires f.pc < |f.ctx.code| && Op(f) in PRICED && |f.stack| >= Takes(Op(f)) && WithinBudget(f)
    requires Touched(f).1 > 0 && Touched(f).0 + Touched(f).1 > LAST_EXACT
    requires Touched(f).0 + Touched(f).1 <= LAST_ROUNDED || Touched(f).0 + Touched(f).1 >= TWO64
    requires env.fork >= MinFork(Op(f))
    ensures var s := Step(env, NO_HOOK, w, f); s.Done? && s.flow.Stop? && s.flow.res.status.OutOfGas?
  {
    hide DynamicGas, Execute, BaseGas, Fire, Price;
    var (offset, size) := Touched(f);
    ChargeIsPaid(w, f);
    if offset + size <= LAST_ROUNDED {
      WordsBelow(offset + size);
    }
    assert Grown(|f.memory|, offset, size) > LAST_EXACT by { BudgetBoundsLength(|f.memory|); }
    UnchargedIff(f, offset, size);
  }

  // ---------------------------------------------------------------- calls

  /** The kind of the four call opcodes. */
  function KindOf(op: byte): Option<CallKind> {
    if op == 0xF1 then Some(Call) else if op == 0xF2 then Some(CallCode)
    else if op == 0xF4 then Some(DelegateCall) else if op == 0xFA then Some(StaticCall) else None
  }

  /** A call with its operands in place. */
  predicate AtCall(f: Frame) {
    f.pc < |f.ctx.code| && KindOf(Op(f)).Some? && |f.stack| >= CallOperands(KindOf(Op(f)).value)
  }

  /** Where a call takes its input from, and where it wants its answer. */
  function Ranges(f: Frame): (u64, u64, u64, u64)
    requires AtCall(f)
  {
    var n := CallOperands(KindOf(Op(f)).value);
    (Arg64(f, n - 4), Arg64(f, n - 3), Arg64(f, n - 2), Arg64(f, n - 1))
  }

  /** The unbounded length after touching both ranges. */
  function CallGrown(f: Frame): nat
    requires AtCall(f)
  {
    var (a, m, b, n) := Ranges(f);
    var into, out := Grown(|f.memory|, a, m), Grown(|f.memory|, b, n);
    if into > out then into else out
  }

  /** The growth a call is charged for. */
  function GrowthOf(f: Frame): (u64, u64)
    requires AtCall(f)
  {
    var (a, m, b, n) := Ranges(f);
    CallGrowth(|f.memory|, a, m, b, n)
  }

  /** Both ranges are ones ceil32 can round. */
  ghost predicate TameCall(f: Frame) {
    AtCall(f) ==> Ranges(f).0 + Ranges(f).1 <= LAST_ROUNDED && Ranges(f).2 + Ranges(f).3 <= LAST_ROUNDED
  }

  lemma CallGrowthExact(f: Frame)
    requires AtCall(f) && TameCall(f) && |f.memory| % 32 == 0
    ensures GrowthOf(f) == (if CallGrown(f) == |f.memory| then 0 else M.ExpansionGas(|f.memory|, CallGrown(f)),
                            CallGrown(f))
    ensures |f.memory| <= CallGrown(f) <= LAST_ROUNDED && CallGrown(f) % 32 == 0
    ensures Ranges(f).3 > 0 ==> Ranges(f).2 + Ranges(f).3 <= CallGrown(f)
  {
    hide M.ExpandSize, M.ExpansionGas, ToU64;
    var (a, m, b, n) := Ranges(f);
    ExpandSizeExact(|f.memory|, a, m);
    ExpandSizeExact(|f.memory|, b, n);
    GrownBounds(|f.memory|, a, m);
    GrownBounds(|f.memory|, b, n);
  }

  lemma GrownBounds(length: nat, offset: nat, size: nat)
    requires offset + size <= LAST_ROUNDED && length % 32 == 0 && length <= LAST_ROUNDED
    ensures length <= Grown(length, offset, size) <= LAST_ROUNDED && Grown(length, offset, size) % 32 == 0
    ensures size > 0 ==> offset + size <= Grown(length, offset, size)
  {
    WordsBelow(offset + size);
  }

  /** A call that is sent has grown memory to `growth.1`, and paid `growth.0` on top of what it keeps and sends. */
  lemma SentGrows(env: Env, w: World, f: Frame, kind: CallKind, target: Address, value: nat, requested: u64,
                  input: Bytes, growth: (u64, u64), outOffset: u64, outSize: u64)
    requires (value > 0 ==> kind.Call? || kind.CallCode?) && growth.0 < 0x2000_0000_0000_0000
    requires |f.memory| <= growth.1 <= LAST_ROUNDED && growth.1 % 32 == 0
    ensures var s := SendCall(env, w, f, kind, target, value, requested, input, growth, outOffset, outSize);
      s.Invoke? ==>
        && |s.f.memory| == growth.1 && s.f.gas + s.k.msg.gas + growth.0 < f.gas
        && s.k.PendingCall? && s.k.outOffset == outOffset && s.k.outSize == outSize
  {
    hide M.Resize, CallBase, TouchAddress, ChildGas, Add64;
    var base := CallBase(w, target, kind, value);
    Gas.CallBasePrice(w, target, kind, value);
    if M.Resize(f.memory, growth.1, env.maxAlloc).Some? {
      ResizedTo(f.memory, growth.1, env.maxAlloc);
      if Add64(base, growth.0) <= f.gas {
        KeptAndSent(f.gas, base, growth.0, value, requested);
      }
    }
  }

  /** A price that does not wrap is paid on top of all the gas sent, stipend included. */
  lemma KeptAndSent(gas: u64, base: u64, growth: u64, value: nat, requested: u64)
    requires 100 <= base <= 36700 && (value > 0 ==> base >= 9100) && growth < 0x2000_0000_0000_0000
    requires Add64(base, growth) <= gas
    ensures var charged := ChildGas(gas - Add64(base, growth), requested);
      && charged <= gas - Add64(base, growth)
      && gas - Add64(base, growth) - charged + growth
         + (if value > 0 then Add64(charged, CALL_STIPEND) else charged) < gas
  {
    hide ChildGas;
    assert Add64(base, growth) == base + growth;
    Gas.ChargedWithinGas(gas - Add64(base, growth), requested);
    var charged := ChildGas(gas - Add64(base, growth), requested);
    assert Add64(charged, CALL_STIPEND) <= charged + CALL_STIPEND;
  }

  lemma ResizedTo(store: M.Store, size: u64, limit: M.AllocLimit)
    requires |store| <= size <= LAST_ROUNDED && size % 32 == 0 && M.Resize(store, size, limit).Some?
    ensures |M.Resize(store, size, limit).value| == size
  {
    Ceil32ExactIff(size);
  }

  /** Growth the host will not serve never gets as far as a message. */
  lemma SentIsServed(env: Env, w: World, f: Frame, kind: CallKind, target: Address, value: nat, requested: u64,
                     input: Bytes, growth: (u64, u64), outOffset: u64, outSize: u64)
    requires |f.memory| <= growth.1 <= LAST_ROUNDED && growth.1 % 32 == 0
    requires SendCall(env, w, f, kind, target, value, requested, input, growth, outOffset, outSize).Invoke?
    ensures growth.1 <= LAST_EXACT
  {
    hide CallBase, TouchAddress, ChildGas;
    Ceil32ExactIff(growth.1);
  }

  /** What a call does to its own frame before the message runs. */
  lemma CallGrows(env: Env, w: World, f: Frame, budget: Frame)
    requires AtCall(f) && TameCall(f) && WithinBudget(budget) && f == budget.(gas := f.gas) && f.gas <= budget.gas
    ensures var s := OpCall(env, w, f, KindOf(Op(f)).value);
      s.Invoke? ==>
        && |s.f.memory| == CallGrown(f) <= LAST_EXACT && CallGrown(f) % 32 == 0
        && GrowthOf(f).0 == Price(CallGrown(f) / 32) - Price(|f.memory| / 32)
        && s.f.gas + s.k.msg.gas + GrowthOf(f).0 < f.gas
        && s.k.PendingCall? && (s.k.outSize > 0 ==> s.k.outOffset + s.k.outSize <= CallGrown(f))
  {
    hide M.Get, M.ExpandSize, M.ExpansionGas, M.Resize, SendCall, ToNat, ToU64, ToAddress, Price;
    var kind := KindOf(Op(f)).value;
    var n := CallOperands(kind);
    CallGrowthExact(f);
    var input := M.Get(f.memory, Ranges(f).0, Ranges(f).1, env.maxAlloc);
    if OpCall(env, w, f, kind).Invoke? {
      var target, value := ToAddress(Arg(f, 1)), if n == 7 then ToNat(Arg(f, 2)) else 0;
      SentIsServed(env, w, Drop(f, n), kind, target, value, Arg64(f, 0), input.value, GrowthOf(f), Ranges(f).2,
                   Ranges(f).3);
      PricedExactly(f);
      SentGrows(env, w, Drop(f, n), kind, target, value, Arg64(f, 0), input.value, GrowthOf(f), Ranges(f).2,
                Ranges(f).3);
    }
  }

  lemma PricedExactly(f: Frame)
    requires AtCall(f) && TameCall(f) && |f.memory| % 32 == 0 && CallGrown(f) <= LAST_EXACT
    ensures GrowthOf(f).0 == Price(CallGrown(f) / 32) - Price(|f.memory| / 32)
    ensures GrowthOf(f).0 < 0x2000_0000_0000_0000
  {
    hide M.ExpansionGas, Price;
    CallGrowthExact(f);
    LengthWords(|f.memory|);
    LengthWords(CallGrown(f));
    if CallGrown(f) > |f.memory| {
      ExpansionExact(|f.memory|, CallGrown(f));
    }
    PriceBelow(CallGrown(f) / 32);
  }

  lemma PriceBelow(words: nat)
    requires words <= 0x1_0000_0000
    ensures Price(words) < 0x2000_0000_0000_0000
  {
    PriceMonotonic(words, 0x1_0000_0000);
  }

  /** The answer fits into memory that was grown for it. */
  lemma AnswerFits(env: Env, w: World, f: Frame, k: Pending, res: Result)
    requires k.PendingCall? && (k.outSize > 0 ==> k.outOffset + k.outSize <= |f.memory|)
    requires |f.memory| % 32 == 0 && |f.memory| <= LAST_EXACT
    ensures var r := Resume(env, w, f, k, res); r.Next? ==> |r.f.memory| == |f.memory|
  {
    hide M.Set, M.Resize;
    var data := res.returnData[..Min(k.outSize, |res.returnData|)];
    if data == [] {
      SetNothing(f.memory, k.outOffset, env.maxAlloc);
    } else {
      SetLength(f.memory, k.outOffset, data, env.maxAlloc);
      WordsWithin(k.outOffset + |data|, |f.memory|);
    }
  }

  lemma SetNothing(memory: M.Store, offset: u64, limit: M.AllocLimit)
    ensures M.Set(memory, offset, [], limit) == Some(memory)
  {
  }

  lemma WordsWithin(size: nat, length: nat)
    requires size <= length && length % 32 == 0
    ensures 32 * Words(size) <= length
  {
  }

  /** Expansion gas one turn of the loop is charged. */
  function TurnCharge(f: Frame): u64
    requires f.pc < |f.ctx.code|
  {
    if AtCall(f) then GrowthOf(f).0 else ExpansionCharge(f)
  }

  /** A call, with the message it sends run to its end: charged exactly for the growth, and the budget holds. */
  lemma CallPaysGrowth(env: Env, w: World, f: Frame)
    requires AtCall(f) && TameCall(f) && WithinBudget(f)
    ensures match Turn(env, NO_HOOK, w, f)
      case Next(_, f1) =>
        && WithinBudget(f1)
        && TurnCharge(f) == Price(|f1.memory| / 32) - Price(|f.memory| / 32)
      case _ => true
  {
    hide DynamicGas, OpCall, MinFork, BaseGas, Price, Fire, Resume, ExecuteMessage, CallGrown, GrowthOf, ToU64;
    var op, kind := Op(f), KindOf(Op(f)).value;
    var (dynamic, w1) := DynamicGas(w, f, op);
    if env.fork >= MinFork(op) && dynamic + BaseGas(op) <= f.gas {
      var paid := f.(gas := f.gas - dynamic - BaseGas(op));
      Effects.FireEffect(env, NO_HOOK, w1, paid);
      var fired := Fire(env, NO_HOOK, w1, paid);
      SameGrowth(f, paid);
      CallGrows(env, fired.w, paid, f);
      Gas.CallSendsOrStops(env, fired.w, paid, kind);
      var s := OpCall(env, fired.w, paid, kind);
      if fired.Proceed? && s.Invoke? {
        var o := ExecuteMessage(env, NO_HOOK, s.w, s.k.msg, s.f.ctx);
        Gas.ResumeGas(env, o.w, s.f, s.k, o.res);
        AnswerFits(env, o.w, s.f, s.k, o.res);
      }
    }
  }

  lemma SameGrowth(f: Frame, paid: Frame)
    requires AtCall(f) && TameCall(f) && paid == f.(gas := paid.gas)
    ensures AtCall(paid) && TameCall(paid) && GrowthOf(paid) == GrowthOf(f) && CallGrown(paid) == CallGrown(f)
  {
    hide CallGrowth, ToU64;
  }

  // ---------------------------------------------------------------- a run

  /** Consecutive states of one frame, every instruction tame, every message it sends run to its end. */
  ghost predicate Chain(env: Env, ws: seq<World>, fs: seq<Frame>) {
    && |ws| == |fs| > 0
    && forall i {:trigger fs[i]} :: 0 <= i < |fs| - 1 ==>
         Tame(fs[i]) && TameCall(fs[i]) && Turn(env, NO_HOOK, ws[i], fs[i]) == Next(ws[i + 1], fs[i + 1])
  }

  /** Expansion gas charged on the way to the last state. */
  ghost function Charged(fs: seq<Frame>): nat
    requires forall i :: 0 <= i < |fs| - 1 ==> fs[i].pc < |fs[i].ctx.code|
  {
    if |fs| <= 1 then 0 else Charged(fs[..|fs| - 1]) + TurnCharge(fs[|fs| - 2])
  }

  /** One tame turn. */
  lemma TurnPaysGrowth(env: Env, w: World, f: Frame)
    requires Tame(f) && TameCall(f) && WithinBudget(f)
    ensures match Turn(env, NO_HOOK, w, f)
      case Next(_, f1) =>
        && WithinBudget(f1)
        && TurnCharge(f) == Price(|f1.memory| / 32) - Price(|f.memory| / 32)
      case _ => true
  {
    hide Step, WithinBudget, Price, ExpansionCharge, GrowthOf, Resume, ExecuteMessage;
    if AtCall(f) {
      CallPaysGrowth(env, w, f);
    } else {
      StepPaysGrowth(env, w, f);
      OnlyCallsSend(env, w, f);
    }
  }

  /** No other tame instruction sends a message. */
  lemma OnlyCallsSend(env: Env, w: World, f: Frame)
    requires Tame(f) && !AtCall(f)
    ensures Step(env, NO_HOOK, w, f).Done?
  {
    hide DynamicGas, LocalOp, OpSstore, OpTstore, OpSelfdestruct, OpCreate, OpCall, MinFork, BaseGas, Fire, Touched;
    var op := Op(f);
    var (dynamic, w1) := DynamicGas(w, f, op);
    if env.fork >= MinFork(op) && dynamic + BaseGas(op) <= f.gas {
      var paid := f.(gas := f.gas - dynamic - BaseGas(op));
      Effects.FireEffect(env, NO_HOOK, w1, paid);
      var fired := Fire(env, NO_HOOK, w1, paid);
      if KindOf(op).Some? {
        ShortCallStops(env, fired.w, paid, KindOf(op).value);
      }
    }
  }

  lemma ShortCallStops(env: Env, w: World, f: Frame, kind: CallKind)
    requires |f.stack| < CallOperands(kind)
    ensures OpCall(env, w, f, kind).Done?
  {
  }

  /** The main result: after any number of tame instructions the total charged is the price of the memory grown. */
  lemma {:induction false} TotalIsExact(env: Env, ws: seq<World>, fs: seq<Frame>)
    requires Chain(env, ws, fs) && WithinBudget(fs[0])
    ensures WithinBudget(fs[|fs| - 1])
    ensures Charged(fs) + Price(|fs[0].memory| / 32) == Price(|fs[|fs| - 1].memory| / 32)
  {
    hide Turn, Tame, TameCall, WithinBudget, Price, TurnCharge;
    var n := |fs|;
    if n > 1 {
      assert fs[..n - 1][n - 2] == fs[n - 2];
      TotalIsExact(env, ws[..n - 1], fs[..n - 1]);
      TurnPaysGrowth(env, ws[n - 2], fs[n - 2]);
    }
  }

  /** From a fresh frame given less than 3 * 2^32 gas: exactly the Yellow Paper's price of the current length. */
  lemma FreshFrameTotal(env: Env, ws: seq<World>, fs: seq<Frame>)
    requires Chain(env, ws, fs) && fs[0].memory == [] && fs[0].gas < GAS_CEILING
    ensures Charged(fs) == 3 * (|fs[|fs| - 1].memory| / 32)
                         + (|fs[|fs| - 1].memory| / 32) * (|fs[|fs| - 1].memory| / 32) / 512
  {
    hide Turn, Tame, TameCall, TurnCharge;
    TotalIsExact(env, ws, fs);
  }
}
