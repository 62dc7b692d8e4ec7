/** No run of the engine takes code away: a deployment only ever fills an address that had none. */
module CodeKept {
  import opened Base
  import opened Ledger
  import opened Machine
  import opened Execution
  import opened Run
  import opened Effects
  import opened TopLevel
  import opened Jobs
  import Gas
  import Rollback
  import M = Memory

  /** Every account that has code still has that code. */
  ghost predicate CodeKept(acc: Accounts, acc1: Accounts) {
    forall a: Address :: acc.Code(a) != [] ==> acc1.Code(a) == acc.Code(a)
  }

  lemma KeptThrough(acc: Accounts, acc1: Accounts, acc2: Accounts)
    requires CodeKept(acc, acc1) && CodeKept(acc1, acc2)
    ensures CodeKept(acc, acc2)
  {
  }

  lemma SentToEmpty(w: World, f: Frame, target: Address, value: nat, init: Bytes)
    ensures var s := SendCreate(w, f, target, value, init);
      && WorldOf(s).acc.codes == w.acc.codes
      && (s.Invoke? && s.k.PendingCreate? ==> s.w.acc.Code(s.k.msg.callee) == [])
  {
    hide MaxCallGas, Finish;
  }

  /** A create goes only to an address without code. */
  lemma CreateTargetIsEmpty(env: Env, w: World, f: Frame, create2: bool)
    ensures var s := OpCreate(env, w, f, create2);
      && WorldOf(s).acc.codes == w.acc.codes
      && (s.Invoke? && s.k.PendingCreate? ==> s.w.acc.Code(s.k.msg.callee) == [])
  {
    hide M.Get, CreateCost, ToNat, ToU64, Finish, SendCreate, Accounts.Code;
    forall f1, target, value, init
      ensures var s := SendCreate(w, f1, target, value, init);
        && WorldOf(s).acc.codes == w.acc.codes
        && (s.Invoke? && s.k.PendingCreate? ==> s.w.acc.Code(s.k.msg.callee) == [])
    {
      SentToEmpty(w, f1, target, value, init);
    }
  }

  lemma CallSendsNoCreate(env: Env, w: World, f: Frame, kind: CallKind)
    ensures var s := OpCall(env, w, f, kind); s.Invoke? ==> s.k.PendingCall?
  {
    hide M.Get, M.Resize, CallGrowth, CallBase, ChildGas, ToNat, ToU64, ToAddress, Add64, Finish;
  }

  lemma DestructKeepsCode(w: World, f: Frame)
    ensures OpSelfdestruct(w, f).w.acc.codes == w.acc.codes
  {
    hide ToAddress, DestructCost;
  }

  lemma ExecuteKeepsCode(env: Env, w: World, f: Frame, op: byte)
    ensures var s := Execute(env, w, f, op);
      && WorldOf(s).acc.codes == w.acc.codes
      && (s.Invoke? && s.k.PendingCreate? ==> s.w.acc.Code(s.k.msg.callee) == [])
  {
    hide LocalOp, OpSstore, OpTstore, OpSelfdestruct, OpCall, OpCreate, Accounts.Code;
    OpSstoreEffect(w, f);
    OpTstoreEffect(w, f);
    DestructKeepsCode(w, f);
    CreateTargetIsEmpty(env, w, f, op == 0xF5);
    OpCallEffect(env, w, f, Call);
    OpCallEffect(env, w, f, CallCode);
    OpCallEffect(env, w, f, DelegateCall);
    OpCallEffect(env, w, f, StaticCall);
    CallSendsNoCreate(env, w, f, Call);
    CallSendsNoCreate(env, w, f, CallCode);
    CallSendsNoCreate(env, w, f, DelegateCall);
    CallSendsNoCreate(env, w, f, StaticCall);
  }

  lemma StepKeepsCode(env: Env, hook: Hook, w: World, f: Frame)
    requires f.pc < |f.ctx.code|
    ensures var s := Step(env, hook, w, f);
      && WorldOf(s).acc.codes == w.acc.codes
      && (s.Invoke? && s.k.PendingCreate? ==> s.w.acc.Code(s.k.msg.callee) == [])
  {
    hide DynamicGas, Fire, Execute, BaseGas, MinFork, Accounts.Code;
    var op := f.ctx.code[f.pc];
    DynamicGasEffect(w, f, op);
    var (dynamic, w1) := DynamicGas(w, f, op);
    if env.fork >= MinFork(op) && dynamic + BaseGas(op) <= f.gas {
      var paid := f.(gas := f.gas - dynamic - BaseGas(op));
      FireEffect(env, hook, w1, paid);
      var fired := Fire(env, hook, w1, paid);
      ExecuteKeepsCode(env, fired.w, fired.f, op);
    }
  }

  /** Picking up after a sub-message changes code only where a create deployed. */
  lemma ResumeKeepsCode(env: Env, w: World, f: Frame, k: Pending, res: Result)
    ensures var acc := Resume(env, w, f, k, res).w.acc;
      forall a: Address :: k.PendingCall? || a != k.msg.callee ==> acc.Code(a) == w.acc.Code(a)
  {
    hide M.Set;
  }

  /** Over a whole nested run. */
  lemma {:induction false} FrameKeepsCode(env: Env, hook: Hook, w: World, f: Frame)
    ensures CodeKept(w.acc, RunFrame(env, hook, w, f).w.acc)
    decreases FrameRank(f.ctx.depth), f.gas
  {
    hide Step, Resume, Enter, Exit;
    if f.pc < |f.ctx.code| {
      Gas.StepSpends(env, hook, w, f);
      StepKeepsCode(env, hook, w, f);
      match Step(env, hook, w, f)
      case Done(Next(w1, f1)) => FrameKeepsCode(env, hook, w1, f1);
      case Done(Stop(_, _)) =>
      case Invoke(w1, f1, k) =>
        var o := ExecuteMessage(env, hook, w1, k.msg, f1.ctx);
        MessageKeepsCode(env, hook, w1, k.msg, f1.ctx);
        Gas.ResumeGas(env, o.w, f1, k, o.res);
        ResumeKeepsCode(env, o.w, f1, k, o.res);
        var r := Resume(env, o.w, f1, k, o.res);
        assert CodeKept(w1.acc, r.w.acc);
        if r.Next? {
          FrameKeepsCode(env, hook, r.w, r.f);
        }
    }
  }

  lemma FundingKeepsCode(acc: Accounts, msg: Message)
    ensures Funded(acc, msg).codes == acc.codes
  {
  }

  lemma {:induction false} MessageKeepsCode(env: Env, hook: Hook, w: World, msg: Message, parent: Ctx)
    ensures CodeKept(w.acc, ExecuteMessage(env, hook, w, msg, parent).w.acc)
    decreases MessageRank(msg.depth), 0
  {
    hide Funded, RunPrecompile, Revert;
    Rollback.MessageIsAtomic(env, hook, w, msg, parent);
    FundingKeepsCode(w.acc, msg);
    match Enter(env, w, msg, parent)
    case Refused(_) =>
    case Ran(_, _) =>
    case Entered(w1, f) => FrameKeepsCode(env, hook, w1, f);
  }

  lemma SameCodes(acc: Accounts, acc1: Accounts)
    requires acc1.codes == acc.codes
    ensures CodeKept(acc, acc1)
  {
  }

  lemma BurningKeepsCode(cfg: Config, w: World, burn: nat)
    ensures BurnFrom(cfg, w, burn).acc.codes == w.acc.codes && WithValue(cfg, w).acc.codes == w.acc.codes
  {
  }

  lemma CallKeepsCode(env: Env, hook: Hook, w: World, cfg: Config)
    requires cfg.gasLimit > 0 && !Unaffordable(cfg, w)
    ensures CodeKept(w.acc, RunCall(env, hook, w, cfg).w.acc)
  {
    hide RunFrame, InitiallyWarm, Burn, CodeKept, WithValue, BurnFrom, Revert;
    var w0, f := Warmed(env, cfg, w), FreshFrame(RootCtx(cfg), cfg.gasLimit);
    var o := RunFrame(env, hook, WithValue(cfg, w0), f);
    var w1 := if MovesValue(cfg) && !o.res.status.Success? then Revert(o.w, |w0.accSnaps|, |w0.stoSnaps|) else o.w;
    FrameKeepsCode(env, hook, WithValue(cfg, w0), f);
    BurningKeepsCode(cfg, w0, 0);
    SameCodes(w.acc, WithValue(cfg, w0).acc);
    KeptThrough(w.acc, WithValue(cfg, w0).acc, o.w.acc);
    if MovesValue(cfg) {
      FailureUndone(env, hook, cfg, w0);
      SameCodes(w.acc, w0.acc);
    }
    assert CodeKept(w.acc, w1.acc);
    var burn := Burn(cfg, o.res);
    BurningKeepsCode(cfg, w1, burn);
    SameCodes(w1.acc, BurnFrom(cfg, w1, burn).acc);
    KeptThrough(w.acc, w1.acc, BurnFrom(cfg, w1, burn).acc);
  }

  /** The main result: a replayed transaction, call or creation, leaves every account that has code with its code. */
  lemma JobKeepsCode(env: Env, hook: Hook, w: World, job: Job)
    ensures CodeKept(w.acc, RunJob(env, hook, w, job).w.acc)
  {
    hide RunFrame, ExecuteMessage, InitiallyWarm, Burn, Enter;
    if job.CreateJob? {
      var w0 := Warmed(env, job.cfg, w);
      MessageKeepsCode(env, hook, w0, CreationMessage(job.cfg, job.target), RootCtx(job.cfg));
    } else if job.cfg.gasLimit > 0 && !Unaffordable(job.cfg, w) {
      CallKeepsCode(env, hook, w, job.cfg);
    }
  }
}
