/** Net metering over the instructions of a running frame: the telescoping of StorageTelescope, read off the steps. */
module StorageRun {
  import opened Base
  import opened Ledger
  import opened StorageGas
  import opened Machine
  import opened Effects
  import opened Sums
  import opened StorageTelescope
  import Gas

  /** Consecutive states of one frame, between messages. */
  ghost predicate Chain(env: Env, ws: seq<World>, fs: seq<Frame>) {
    && |ws| == |fs| > 0
    && forall i {:trigger fs[i]} :: 0 <= i < |fs| - 1 ==>
         fs[i].pc < |fs[i].ctx.code| && Step(env, NO_HOOK, ws[i], fs[i]) == Done(Next(ws[i + 1], fs[i + 1]))
  }

  /** The frame is about to execute SSTORE with its operands in place. */
  predicate AtStore(f: Frame) {
    f.pc < |f.ctx.code| && f.ctx.code[f.pc] == 0x55 && |f.stack| >= 2
  }

  function StoreKey(f: Frame): SlotKey
    requires AtStore(f)
  {
    (f.ctx.address, Arg(f, 0))
  }

  /** How many of the instructions were stores. */
  function Stores(fs: seq<Frame>): nat {
    if |fs| <= 1 then 0 else Stores(fs[..|fs| - 1]) + if AtStore(fs[|fs| - 2]) then 1 else 0
  }

  /** How many of the stores were the first access to their slot. */
  function ColdStores(ws: seq<World>, fs: seq<Frame>): nat
    requires |ws| == |fs|
  {
    if |fs| <= 1 then 0
    else
      var w, f := ws[|fs| - 2], fs[|fs| - 2];
      ColdStores(ws[..|fs| - 1], fs[..|fs| - 1]) + if AtStore(f) && StoreKey(f) !in w.warmSlots then 1 else 0
  }

  /** The gas the stores took. */
  function StoreGasSpent(fs: seq<Frame>): int {
    if |fs| <= 1 then 0
    else
      StoreGasSpent(fs[..|fs| - 1])
      + if AtStore(fs[|fs| - 2]) then fs[|fs| - 2].gas - fs[|fs| - 1].gas else 0
  }

  lemma StoreStepEffect(env: Env, w: World, f: Frame, w1: World, f1: Frame)
    requires f.pc < |f.ctx.code| && f.ctx.code[f.pc] == 0x55 && Step(env, NO_HOOK, w, f) == Done(Next(w1, f1))
    ensures AtStore(f)
    ensures var k, v := StoreKey(f), Arg(f, 1);
      && w1.sto == w.sto.Set(k, v)
      && f1.refund == RefundAfter(f.refund, w.sto.Original(k), w.sto.Get(k), v)
      && f.gas - f1.gas == StoreGas(k !in w.warmSlots, w.sto.Original(k), w.sto.Get(k), v)
  {
    hide StoreGas, RefundAfter, LocalOp, OpCall, OpCreate, OpTstore, OpSelfdestruct, MemGas, CopyGas, TouchAddress;
    hide ToNat, ToU64, ToAddress, ByteLength, MinFork, ApplyMutation;
  }

  lemma CreateKeepsRefund(env: Env, w: World, f: Frame, create2: bool)
    ensures var s := OpCreate(env, w, f, create2);
      s.Done? && s.flow.Next? ==> s.flow.f.refund == f.refund && s.flow.w.sto == w.sto
  {
    hide Machine.M.Get, CreateCost, MaxCallGas, ToNat, ToU64, Finish;
  }

  lemma TransientKeepsRefund(w: World, f: Frame)
    ensures var s := OpTstore(w, f); s.Next? ==> s.f.refund == f.refund && s.w.sto == w.sto
    ensures var s := OpSelfdestruct(w, f); s.Next? ==> s.f.refund == f.refund && s.w.sto == w.sto
  {
    hide DestructCost, ToAddress;
  }

  lemma OtherExecuteKeeps(env: Env, w: World, f: Frame, op: byte)
    requires op != 0x55
    ensures var s := Execute(env, w, f, op);
      s.Done? && s.flow.Next? ==> s.flow.f.refund == f.refund && s.flow.w.sto == w.sto
  {
    hide LocalOp, OpTstore, OpSelfdestruct, OpCreate, OpCall;
    Gas.LocalOpKeepsGas(env, w, f, op);
    CreateKeepsRefund(env, w, f, op == 0xF5);
    TransientKeepsRefund(w, f);
    Gas.CallSendsOrStops(env, w, f, Call);
    Gas.CallSendsOrStops(env, w, f, CallCode);
    Gas.CallSendsOrStops(env, w, f, DelegateCall);
    Gas.CallSendsOrStops(env, w, f, StaticCall);
  }

  /** Any other instruction that goes on leaves persistent storage and the refund counter alone. */
  lemma OtherStepEffect(env: Env, w: World, f: Frame, w1: World, f1: Frame)
    requires f.pc < |f.ctx.code| && f.ctx.code[f.pc] != 0x55 && Step(env, NO_HOOK, w, f) == Done(Next(w1, f1))
    ensures !AtStore(f) && w1.sto == w.sto && f1.refund == f.refund
  {
    hide DynamicGas, Execute, BaseGas, MinFork, Fire;
    var op := f.ctx.code[f.pc];
    DynamicGasEffect(w, f, op);
    var (dynamic, w0) := DynamicGas(w, f, op);
    var paid := f.(gas := f.gas - dynamic - BaseGas(op));
    FireEffect(env, NO_HOOK, w0, paid);
    var fired := Fire(env, NO_HOOK, w0, paid);
    OtherExecuteKeeps(env, fired.w, fired.f, op);
  }

  /** `w` and `f` after `n` stores, `cold` of them cold, that took `spent` gas, from a settled `sto` and `refund`. */
  ghost predicate Balanced(sto: Slots, refund: nat, w: World, f: Frame, n: nat, cold: nat, spent: int,
                           keys: set<SlotKey>)
  {
    && Recorded(w.sto)
    && (forall k :: w.sto.Original(k) == sto.Original(k))
    && f.refund <= refund + 30000 * n
    && Sum(Owed(w.sto, keys)) <= f.refund
    && spent - (f.refund - refund) == 100 * n + 2100 * cold + Sum(Terms(w.sto, keys))
  }

  lemma BalancedStore(sto: Slots, refund: nat, w: World, f: Frame, n: nat, cold: nat, spent: int, keys: set<SlotKey>,
                      w1: World, f1: Frame)
    requires Balanced(sto, refund, w, f, n, cold, spent, keys) && refund + 30000 * (n + 1) < TWO64
    requires AtStore(f) && StoreKey(f) in keys
    requires var k, v := StoreKey(f), Arg(f, 1);
      && w1.sto == w.sto.Set(k, v)
      && f1.refund == RefundAfter(f.refund, w.sto.Original(k), w.sto.Get(k), v)
      && f.gas - f1.gas == StoreGas(k !in w.warmSlots, w.sto.Original(k), w.sto.Get(k), v)
    ensures Balanced(sto, refund, w1, f1, n + 1, cold + if StoreKey(f) !in w.warmSlots then 1 else 0,
                     spent + (f.gas - f1.gas), keys)
  {
    hide StoreGas, RefundAfter, RefundDelta, Term, Terms, Owed;
    var k, v := StoreKey(f), Arg(f, 1);
    var original, current := w.sto.Original(k), w.sto.Get(k);
    forall j ensures w1.sto.Original(j) == w.sto.Original(j) {
      SetKeepsOriginal(w.sto, k, v, j);
    }
    SetKeepsOriginal(w.sto, k, v, k);
    SumsMove(w.sto, keys, k, v);
    OwedMoves(original, current, v);
    RefundExactIff(f.refund, original, current, v);
    NetPrice(k !in w.warmSlots, original, current, v);
  }

  lemma StartsBalanced(w: World, f: Frame, keys: set<SlotKey>)
    requires Recorded(w.sto) && Settled(w.sto, keys)
    ensures Balanced(w.sto, f.refund, w, f, 0, 0, 0, keys)
  {
    ZeroTerms(Terms(w.sto, keys));
    assert forall k :: k in Owed(w.sto, keys) ==> Owed(w.sto, keys)[k] == 0;
    ZeroTerms(Owed(w.sto, keys));
  }

  lemma StaysBalanced(sto: Slots, refund: nat, w: World, f: Frame, n: nat, cold: nat, spent: int, keys: set<SlotKey>,
                      w1: World, f1: Frame)
    requires Balanced(sto, refund, w, f, n, cold, spent, keys) && w1.sto == w.sto && f1.refund == f.refund
    ensures Balanced(sto, refund, w1, f1, n, cold, spent, keys)
  {
  }

  /** One instruction, store or not. */
  lemma StepBalanced(env: Env, sto: Slots, refund: nat, w: World, f: Frame, n: nat, cold: nat, spent: int,
                     keys: set<SlotKey>, w1: World, f1: Frame)
    requires Balanced(sto, refund, w, f, n, cold, spent, keys) && refund + 30000 * (n + 1) < TWO64
    requires f.pc < |f.ctx.code| && Step(env, NO_HOOK, w, f) == Done(Next(w1, f1))
    requires AtStore(f) ==> StoreKey(f) in keys
    ensures Balanced(sto, refund, w1, f1, n + if AtStore(f) then 1 else 0,
                     cold + if AtStore(f) && StoreKey(f) !in w.warmSlots then 1 else 0,
                     spent + if AtStore(f) then f.gas - f1.gas else 0, keys)
  {
    hide Step, Balanced, StoreGas, RefundAfter;
    if f.ctx.code[f.pc] == 0x55 {
      StoreStepEffect(env, w, f, w1, f1);
      BalancedStore(sto, refund, w, f, n, cold, spent, keys, w1, f1);
    } else {
      OtherStepEffect(env, w, f, w1, f1);
      StaysBalanced(sto, refund, w, f, n, cold, spent, keys, w1, f1);
    }
  }

  lemma {:induction false} RunBalanced(env: Env, ws: seq<World>, fs: seq<Frame>, keys: set<SlotKey>)
    requires Chain(env, ws, fs) && Recorded(ws[0].sto) && Settled(ws[0].sto, keys)
    requires forall i :: 0 <= i < |fs| && AtStore(fs[i]) ==> StoreKey(fs[i]) in keys
    requires fs[0].refund + 30000 * |fs| < TWO64
    ensures Stores(fs) < |fs|
    ensures Balanced(ws[0].sto, fs[0].refund, ws[|fs| - 1], fs[|fs| - 1], Stores(fs), ColdStores(ws, fs),
                     StoreGasSpent(fs), keys)
  {
    hide Step, Recorded, AtStore, StoreKey, Balanced, Settled;
    var n := |fs|;
    if n == 1 {
      StartsBalanced(ws[0], fs[0], keys);
    } else {
      var ws0, fs0 := ws[..n - 1], fs[..n - 1];
      assert fs0[n - 2] == fs[n - 2] && ws0[n - 2] == ws[n - 2];
      RunBalanced(env, ws0, fs0, keys);
      StepBalanced(env, ws[0].sto, fs[0].refund, ws[n - 2], fs[n - 2], Stores(fs0), ColdStores(ws0, fs0),
                   StoreGasSpent(fs0), keys, ws[n - 1], fs[n - 1]);
    }
  }

  /**
   * The main result, on the machine: over any instructions of a frame between two messages, whatever else runs in
   * between, the gas its stores took, less the refund gained, is 100 a store, 2100 a cold store, and a term of each
   * slot's original and final value only.
   */
  lemma RunTelescopes(env: Env, ws: seq<World>, fs: seq<Frame>, keys: set<SlotKey>)
    requires Chain(env, ws, fs) && Recorded(ws[0].sto) && Settled(ws[0].sto, keys)
    requires forall i :: 0 <= i < |fs| && AtStore(fs[i]) ==> StoreKey(fs[i]) in keys
    requires fs[0].refund + 30000 * |fs| < TWO64
    ensures StoreGasSpent(fs) - (fs[|fs| - 1].refund - fs[0].refund)
         == 100 * Stores(fs) + 2100 * ColdStores(ws, fs) + Sum(Terms(ws[|fs| - 1].sto, keys))
    ensures forall k :: ws[|fs| - 1].sto.Original(k) == ws[0].sto.Original(k)
  {
    hide Step, Terms, Owed, Recorded, AtStore, Settled;
    RunBalanced(env, ws, fs, keys);
  }
}
