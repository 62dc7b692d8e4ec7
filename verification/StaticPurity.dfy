/** A static frame and everything under it writes nothing (EIP-214). */
module StaticPurity {
  import opened Base
  import opened Machine
  import opened Execution
  import opened Run
  import opened Effects
  import Gas
  import Rollback
  import M = Memory

  /** Balances, nonces, code, self-destruct set, persistent and transient storage. */
  ghost predicate Untouched(w: World, w1: World) {
    w1.acc == w.acc && w1.sto == w.sto && w1.transient == w.transient
  }

  /** A static frame can only send static value-free calls; no CREATE leaves it. */
  ghost predicate Harmless(k: Pending) {
    k.PendingCall? && k.msg.isStatic && k.msg.value == 0 && !k.msg.isCreate
  }

  lemma OpCallFromStatic(env: Env, w: World, f: Frame, kind: CallKind)
    ensures var s := OpCall(env, w, f, kind);
      s.Invoke? && (f.ctx.isStatic || kind.StaticCall?) ==> Harmless(s.k)
  {
    hide M.Get, M.Resize, CallGrowth, CallBase, ChildGas, ToNat, ToU64, ToAddress, Add64, Finish;
  }

  lemma StepFromStatic(env: Env, hook: Hook, w: World, f: Frame)
    requires f.pc < |f.ctx.code| && f.ctx.isStatic && hook.journal == []
    ensures var s := Step(env, hook, w, f); Untouched(w, WorldOf(s)) && (s.Invoke? ==> Harmless(s.k))
  {
    hide DynamicGas, Fire, BaseGas, MinFork, LocalOp, OpSstore, OpTstore, OpSelfdestruct, OpCall;
    var op := f.ctx.code[f.pc];
    DynamicGasEffect(w, f, op);
    var (dynamic, w1) := DynamicGas(w, f, op);
    if env.fork >= MinFork(op) && dynamic + BaseGas(op) <= f.gas {
      var paid := f.(gas := f.gas - dynamic - BaseGas(op));
      FireEffect(env, hook, w1, paid);
      var fired := Fire(env, hook, w1, paid);
      ExecuteEffect(env, fired.w, fired.f, op);
      OpCallFromStatic(env, fired.w, fired.f, Call);
      OpCallFromStatic(env, fired.w, fired.f, CallCode);
      OpCallFromStatic(env, fired.w, fired.f, DelegateCall);
      OpCallFromStatic(env, fired.w, fired.f, StaticCall);
    }
  }

  /** A frame marked static leaves the whole state untouched on every outcome. */
  lemma {:induction false} StaticFrameIsPure(env: Env, hook: Hook, w: World, f: Frame)
    requires f.ctx.isStatic && hook.journal == []
    ensures Untouched(w, RunFrame(env, hook, w, f).w)
    decreases FrameRank(f.ctx.depth), f.gas
  {
    hide Step, Enter, Exit;
    if f.pc < |f.ctx.code| {
      Gas.StepSpends(env, hook, w, f);
      StepFromStatic(env, hook, w, f);
      match Step(env, hook, w, f)
      case Done(Next(w1, f1)) => StaticFrameIsPure(env, hook, w1, f1);
      case Done(Stop(_, _)) =>
      case Invoke(w1, f1, k) =>
        var o := ExecuteMessage(env, hook, w1, k.msg, f1.ctx);
        StaticMessageIsPure(env, hook, w1, k.msg, f1.ctx);
        Gas.ResumeGas(env, o.w, f1, k, o.res);
        match Resume(env, o.w, f1, k, o.res)
        case Next(w2, f2) => StaticFrameIsPure(env, hook, w2, f2);
        case Stop(_, _) =>
    }
  }

  /** The main result: STATICCALL is pure through any mix of nested call kinds, however it ends. */
  lemma {:induction false} StaticMessageIsPure(env: Env, hook: Hook, w: World, msg: Message, parent: Ctx)
    requires msg.isStatic && !msg.isCreate && hook.journal == []
    ensures Untouched(w, ExecuteMessage(env, hook, w, msg, parent).w)
    decreases MessageRank(msg.depth), 0
  {
    Rollback.MessageIsAtomic(env, hook, w, msg, parent);
    match Enter(env, w, msg, parent)
    case Refused(_) =>
    case Ran(_, _) =>
    case Entered(w1, f) => StaticFrameIsPure(env, hook, w1, f);
  }

  /** Which messages that covers: every STATICCALL, and every call out of a static frame. */
  lemma StaticCallIsPure(env: Env, hook: Hook, w: World, f: Frame, kind: CallKind, parent: Ctx)
    requires hook.journal == [] && OpCall(env, w, f, kind).Invoke?
    requires kind.StaticCall? || f.ctx.isStatic
    ensures var s := OpCall(env, w, f, kind); Untouched(w, ExecuteMessage(env, hook, s.w, s.k.msg, parent).w)
  {
    hide OpCall, Enter, Exit;
    OpCallFromStatic(env, w, f, kind);
    OpCallEffect(env, w, f, kind);
    StaticMessageIsPure(env, hook, OpCall(env, w, f, kind).w, OpCall(env, w, f, kind).k.msg, parent);
  }
}
