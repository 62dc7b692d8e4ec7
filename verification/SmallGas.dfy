/** Too little gas to store: the 2300-gas sentry of SSTORE against what two operands cost (EIP-2200). */
module SmallGas {
  import opened Base
  import opened Ledger
  import opened StorageGas
  import opened Machine
  import opened Execution
  import opened Run
  import opened Effects
  import Bytecode
  import Gas
  import Rollback
  import M = Memory

  /** Two operands at the least price, on top of the sentry. */
  const TOO_LITTLE: nat := CALL_STIPEND + 4

  /** Every word on the stack has cost at least 2 gas, so what is left cannot pass the sentry with two of them there. */
  ghost predicate CannotStore(f: Frame) {
    f.gas + 2 * |f.stack| <= TOO_LITTLE
  }

  /** How far one handler may raise the stack. */
  ghost predicate RaisesBy(f: Frame, l: Local, n: nat) {
    l.Cont? ==> |l.f.stack| <= |f.stack| + n
  }

  lemma PushesRaise(env: Env, w: World, f: Frame, op: byte, n: nat)
    ensures n <= 32 ==> RaisesBy(f, OpPush(f, n), 1)
    ensures 1 <= n ==> RaisesBy(f, Dup(f, n), 1) && RaisesBy(f, Swap(f, n), 0)
    ensures RaisesBy(f, Compute(env, w, f, op, n), if n == 0 then 1 else 0)
  {
    hide PushData;
  }

  lemma SlotOpsRaise(env: Env, w: World, f: Frame, topics: nat)
    ensures RaisesBy(f, OpPop(f), 0) && RaisesBy(f, OpSload(w, f), 0) && RaisesBy(f, OpTload(w, f), 0)
    ensures RaisesBy(f, EmitLog(env, f, topics), 0) && RaisesBy(f, Leave(env, f, Success), 0)
    ensures RaisesBy(f, Leave(env, f, Reverted), 0)
  {
    hide M.Get, ToNat, ToU64;
  }

  lemma MemoryOpsRaise(env: Env, f: Frame)
    ensures RaisesBy(f, OpKeccak(env, f), 0) && RaisesBy(f, OpMload(env, f), 0) && RaisesBy(f, OpMstore(env, f), 0)
    ensures RaisesBy(f, OpMstore8(env, f), 0) && RaisesBy(f, OpMcopy(env, f), 0)
  {
    hide M.Get, M.Set, M.Resize, ToNat, ToU64;
  }

  lemma CopyOpsRaise(env: Env, w: World, f: Frame)
    ensures RaisesBy(f, OpCopy(env, f, f.ctx.input), 0) && RaisesBy(f, OpCopy(env, f, f.ctx.code), 0)
    ensures RaisesBy(f, OpExtcodecopy(env, w, f), 0) && RaisesBy(f, OpReturndatacopy(env, f), 0)
    ensures RaisesBy(f, OpJump(f), 0) && RaisesBy(f, OpJumpi(f), 0)
  {
    hide M.Get, M.Set, M.CopySlice, ToNat, ToU64, ToAddress, Bytecode.IsJumpDest;
  }

  lemma PushersArePriced(op: byte)
    requires Arity(op) == Some(0) || 0x5F <= op <= 0x8F
    ensures BaseGas(op) >= 2
  {
  }

  /** What raises the stack costs 2 gas at least. */
  lemma LocalOpRaises(env: Env, w: World, f: Frame, op: byte)
    ensures RaisesBy(f, LocalOp(env, w, f, op), if BaseGas(op) >= 2 then 1 else 0)
  {
    hide Arity, OpPush, Dup, Swap, OpPop, OpSload, OpTload, Compute, EmitLog, OpKeccak, OpMload, OpMstore, OpMstore8;
    hide OpMcopy, OpCopy, OpExtcodecopy, OpReturndatacopy, Leave, OpJump, OpJumpi, BaseGas;
    if Arity(op).Some? {
      PushesRaise(env, w, f, op, Arity(op).value);
      if Arity(op).value == 0 {
        PushersArePriced(op);
      }
    } else if 0x5F <= op <= 0x7F {
      PushersArePriced(op);
      PushesRaise(env, w, f, op, op - 0x5F);
    } else if 0x80 <= op <= 0x8F {
      PushersArePriced(op);
      PushesRaise(env, w, f, op, op - 0x7F);
    } else if 0x90 <= op <= 0x9F {
      PushesRaise(env, w, f, op, op - 0x8F);
    } else {
      SlotOpsRaise(env, w, f, if op >= 0xA0 then op - 0xA0 else 0);
      MemoryOpsRaise(env, f);
      CopyOpsRaise(env, w, f);
    }
  }

  /** What a handler that is not frame-local leaves of the stack, with one word to come if it sent a message. */
  ghost predicate Lowers(f: Frame, s: StepOut) {
    match s
    case Done(Next(_, f1)) => |f1.stack| <= |f.stack| && f1.gas <= f.gas
    case Done(Stop(_, _)) => true
    case Invoke(_, f1, _) => |f1.stack| + 1 <= |f.stack|
  }

  lemma SharedOpsLower(w: World, f: Frame)
    ensures Lowers(f, Done(OpTstore(w, f))) && OpTstore(w, f).w.sto == w.sto
    ensures Lowers(f, Done(OpSelfdestruct(w, f))) && OpSelfdestruct(w, f).w.sto == w.sto
    ensures CannotStore(f) ==> OpSstore(w, f).Stop? && OpSstore(w, f).w.sto == w.sto
  {
    hide StoreGas, RefundAfter, DestructCost, ToAddress;
  }

  lemma CreateLowers(env: Env, w: World, f: Frame, create2: bool)
    ensures Lowers(f, OpCreate(env, w, f, create2)) && WorldOf(OpCreate(env, w, f, create2)).sto == w.sto
  {
    hide M.Get, CreateCost, MaxCallGas, ToNat, ToU64, Finish, Accounts.HasCodeOrNonce, Accounts.IncrementNonce;
  }

  lemma CallLowers(env: Env, w: World, f: Frame, kind: CallKind)
    ensures Lowers(f, OpCall(env, w, f, kind)) && WorldOf(OpCall(env, w, f, kind)).sto == w.sto
  {
    hide M.Get, M.Resize, CallGrowth, CallBase, ChildGas, ToNat, ToU64, ToAddress, Add64, Finish;
  }

  /** No handler of a frame that cannot store stores, and the frame still cannot afterwards. */
  lemma ExecuteStoresNothing(env: Env, w: World, f: Frame, op: byte)
    requires CannotStore(f)
    ensures var s := Execute(env, w, f, op);
      && WorldOf(s).sto == w.sto
      && match s
         case Done(Next(_, f1)) => f1.gas <= f.gas && |f1.stack| <= |f.stack| + if BaseGas(op) >= 2 then 1 else 0
         case Done(Stop(_, _)) => true
         case Invoke(_, f1, _) => |f1.stack| + 1 <= |f.stack|
  {
    hide LocalOp, OpSstore, OpTstore, OpSelfdestruct, OpCreate, OpCall, BaseGas, CannotStore;
    LocalOpRaises(env, w, f, op);
    Gas.LocalOpKeepsGas(env, w, f, op);
    SharedOpsLower(w, f);
    CreateLowers(env, w, f, op == 0xF5);
    CallLowers(env, w, f, Call);
    CallLowers(env, w, f, CallCode);
    CallLowers(env, w, f, DelegateCall);
    CallLowers(env, w, f, StaticCall);
  }

  lemma StepStoresNothing(env: Env, w: World, f: Frame)
    requires f.pc < |f.ctx.code| && CannotStore(f)
    ensures var s := Step(env, NO_HOOK, w, f);
      && WorldOf(s).sto == w.sto
      && match s
         case Done(Next(_, f1)) => CannotStore(f1)
         case Done(Stop(_, _)) => true
         case Invoke(_, f1, k) => f1.gas + k.msg.gas + 2 * (|f1.stack| + 1) <= TOO_LITTLE
  {
    hide DynamicGas, Execute, BaseGas, MinFork, Fire;
    var op := f.ctx.code[f.pc];
    Gas.StepSpends(env, NO_HOOK, w, f);
    DynamicGasEffect(w, f, op);
    var (dynamic, w1) := DynamicGas(w, f, op);
    if env.fork >= MinFork(op) && dynamic + BaseGas(op) <= f.gas {
      var paid := f.(gas := f.gas - dynamic - BaseGas(op));
      FireEffect(env, NO_HOOK, w1, paid);
      var fired := Fire(env, NO_HOOK, w1, paid);
      ExecuteStoresNothing(env, fired.w, fired.f, op);
    }
  }

  lemma ResumeRaises(env: Env, w: World, f: Frame, k: Pending, res: Result)
    ensures var r := Resume(env, w, f, k, res); r.w.sto == w.sto && (r.Next? ==> |r.f.stack| <= |f.stack| + 1)
  {
    hide M.Set;
  }

  /** The main result, over a whole nested run: nothing is stored, by this frame or below it. */
  lemma {:induction false} FrameStoresNothing(env: Env, w: World, f: Frame)
    requires CannotStore(f)
    ensures RunFrame(env, NO_HOOK, w, f).w.sto == w.sto
    decreases FrameRank(f.ctx.depth), f.gas
  {
    hide Step, Resume, Enter, Exit;
    if f.pc < |f.ctx.code| {
      Gas.StepSpends(env, NO_HOOK, w, f);
      StepStoresNothing(env, w, f);
      match Step(env, NO_HOOK, w, f)
      case Done(Next(w1, f1)) => FrameStoresNothing(env, w1, f1);
      case Done(Stop(_, _)) =>
      case Invoke(w1, f1, k) =>
        var o := ExecuteMessage(env, NO_HOOK, w1, k.msg, f1.ctx);
        MessageStoresNothing(env, w1, k.msg, f1.ctx);
        Gas.ResumeGas(env, o.w, f1, k, o.res);
        ResumeRaises(env, o.w, f1, k, o.res);
        var r := Resume(env, o.w, f1, k, o.res);
        if r.Next? {
          FrameStoresNothing(env, r.w, r.f);
        }
    }
  }

  lemma {:induction false} MessageStoresNothing(env: Env, w: World, msg: Message, parent: Ctx)
    requires msg.gas <= TOO_LITTLE
    ensures ExecuteMessage(env, NO_HOOK, w, msg, parent).w.sto == w.sto
    decreases MessageRank(msg.depth), 0
  {
    hide Funded, RunPrecompile, Revert;
    Rollback.MessageIsAtomic(env, NO_HOOK, w, msg, parent);
    match Enter(env, w, msg, parent)
    case Refused(_) =>
    case Ran(_, _) =>
    case Entered(w1, f) => FrameStoresNothing(env, w1, f);
  }
}
