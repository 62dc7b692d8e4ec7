/** Every pc the interpreter fetches from is an instruction boundary, in every frame of every run. */
module PcSoundness {
  import opened Base
  import opened Ledger
  import opened StorageGas
  import opened Machine
  import opened Execution
  import opened Run
  import opened Effects
  import opened Bytecode
  import Gas
  import M = Memory

  /** The pc of a frame about to fetch, or past its code. */
  ghost predicate OnBoundary(f: Frame) {
    Reaches(f.ctx.code, 0, f.pc)
  }

  /** Every fetch recorded so far was from an instruction of the code of the frame that made it. */
  ghost predicate FetchesSound(trace: seq<Event>) {
    forall i :: 0 <= i < |trace| ==> IsInstruction(trace[i].shown.frame.ctx.code, trace[i].shown.frame.pc)
  }

  lemma LocalOpPc(env: Env, w: World, f: Frame, op: byte)
    requires OnBoundary(f) && f.pc < |f.ctx.code| && op == f.ctx.code[f.pc]
    ensures var l := LocalOp(env, w, f, op); l.Cont? ==> OnBoundary(l.f) && l.f.ctx == f.ctx
  {
    hide Reaches, LocalOp;
    Gas.LocalOpMoves(env, w, f, op);
    ReachesNext(f.ctx.code, 0, f.pc);
  }

  /** The handlers that are not frame-local move on by one, or call and stay. */
  lemma SharedOpsMove(env: Env, w: World, f: Frame)
    ensures OpSstore(w, f).Next? ==> OpSstore(w, f).f.pc == f.pc + 1 && OpSstore(w, f).f.ctx == f.ctx
    ensures OpTstore(w, f).Next? ==> OpTstore(w, f).f.pc == f.pc + 1 && OpTstore(w, f).f.ctx == f.ctx
    ensures OpSelfdestruct(w, f).Next? ==> OpSelfdestruct(w, f).f.pc == f.pc + 1 && OpSelfdestruct(w, f).f.ctx == f.ctx
  {
    hide StoreGas, RefundAfter, DestructCost, ToAddress;
  }

  /** What a call or create does to its frame before the message is run. */
  ghost predicate Waits(f: Frame, s: StepOut) {
    match s
    case Done(Next(_, f1)) => f1.pc == f.pc + 1 && f1.ctx == f.ctx
    case Done(Stop(_, _)) => true
    case Invoke(_, f1, _) => f1.pc == f.pc && f1.ctx == f.ctx
  }

  lemma CreateWaits(env: Env, w: World, f: Frame, create2: bool)
    ensures Waits(f, OpCreate(env, w, f, create2))
  {
    hide M.Get, CreateCost, MaxCallGas, ToNat, ToU64, Finish, Accounts.HasCodeOrNonce, Accounts.IncrementNonce;
  }

  lemma CallWaits(env: Env, w: World, f: Frame, kind: CallKind)
    ensures Waits(f, OpCall(env, w, f, kind))
  {
    hide M.Get, M.Resize, CallGrowth, CallBase, ChildGas, ToNat, ToU64, ToAddress, Add64, Finish;
  }

  /** Handlers that are not frame-local belong to one-byte instructions and move on by one. */
  lemma ExecutePc(env: Env, w: World, f: Frame, op: byte)
    requires OnBoundary(f) && f.pc < |f.ctx.code| && op == f.ctx.code[f.pc]
    ensures match Execute(env, w, f, op)
      case Done(Next(_, f1)) => OnBoundary(f1) && f1.ctx == f.ctx
      case Done(Stop(_, _)) => true
      case Invoke(_, f1, _) => f1.ctx == f.ctx && f1.pc == f.pc && Width(op) == 1
  {
    hide Reaches, LocalOp, OpSstore, OpTstore, OpSelfdestruct, OpCreate, OpCall;
    ReachesNext(f.ctx.code, 0, f.pc);
    LocalOpPc(env, w, f, op);
    SharedOpsMove(env, w, f);
    CreateWaits(env, w, f, op == 0xF5);
    CallWaits(env, w, f, Call);
    CallWaits(env, w, f, CallCode);
    CallWaits(env, w, f, DelegateCall);
    CallWaits(env, w, f, StaticCall);
  }

  lemma StepPc(env: Env, hook: Hook, w: World, f: Frame)
    requires OnBoundary(f) && f.pc < |f.ctx.code| && FetchesSound(w.trace)
    ensures FetchesSound(WorldOf(Step(env, hook, w, f)).trace)
    ensures match Step(env, hook, w, f)
      case Done(Next(_, f1)) => OnBoundary(f1)
      case Done(Stop(_, _)) => true
      case Invoke(_, f1, k) =>
        f1.ctx == f.ctx && f1.pc == f.pc && Width(f.ctx.code[f.pc]) == 1
  {
    hide DynamicGas, Execute, BaseGas, MinFork, ApplyMutations;
    var op := f.ctx.code[f.pc];
    DynamicGasEffect(w, f, op);
    var (dynamic, w1) := DynamicGas(w, f, op);
    if env.fork >= MinFork(op) && dynamic + BaseGas(op) <= f.gas {
      var fired := Fire(env, hook, w1, f.(gas := f.gas - dynamic - BaseGas(op)));
      ExecuteEffect(env, fired.w, fired.f, op);
      ExecutePc(env, fired.w, fired.f, op);
    }
  }

  lemma ResumePc(env: Env, w: World, f: Frame, k: Pending, res: Result)
    requires OnBoundary(f) && f.pc < |f.ctx.code| && Width(f.ctx.code[f.pc]) == 1
    ensures var r := Resume(env, w, f, k, res);
      r.w.trace == w.trace && (r.Next? ==> OnBoundary(r.f))
  {
    hide M.Set;
    ReachesNext(f.ctx.code, 0, f.pc);
  }

  /** The main result: soundness of the fetches survives a whole nested run. */
  lemma {:induction false} FrameFetchesSound(env: Env, hook: Hook, w: World, f: Frame)
    requires OnBoundary(f) && FetchesSound(w.trace)
    ensures FetchesSound(RunFrame(env, hook, w, f).w.trace)
    decreases FrameRank(f.ctx.depth), f.gas
  {
    hide Step, Resume, Enter, Exit, FetchesSound, OnBoundary;
    if f.pc < |f.ctx.code| {
      Gas.StepSpends(env, hook, w, f);
      StepPc(env, hook, w, f);
      match Step(env, hook, w, f)
      case Done(Next(w1, f1)) => FrameFetchesSound(env, hook, w1, f1);
      case Done(Stop(_, _)) =>
      case Invoke(w1, f1, k) =>
        assert OnBoundary(f1) by { SameBoundary(f, f1); }
        var o := ExecuteMessage(env, hook, w1, k.msg, f1.ctx);
        MessageFetchesSound(env, hook, w1, k.msg, f1.ctx);
        Gas.ResumeGas(env, o.w, f1, k, o.res);
        ResumePc(env, o.w, f1, k, o.res);
        match Resume(env, o.w, f1, k, o.res)
        case Next(w2, f2) => FrameFetchesSound(env, hook, w2, f2);
        case Stop(_, _) =>
    }
  }

  lemma SameBoundary(f: Frame, f1: Frame)
    requires OnBoundary(f) && f1.ctx == f.ctx && f1.pc == f.pc
    ensures OnBoundary(f1)
  {
  }

  lemma {:induction false} MessageFetchesSound(env: Env, hook: Hook, w: World, msg: Message, parent: Ctx)
    requires FetchesSound(w.trace)
    ensures FetchesSound(ExecuteMessage(env, hook, w, msg, parent).w.trace)
    decreases MessageRank(msg.depth), 0
  {
    match Enter(env, w, msg, parent)
    case Refused(_) =>
    case Ran(_, _) =>
    case Entered(w1, f) => FrameFetchesSound(env, hook, w1, f);
  }
}
