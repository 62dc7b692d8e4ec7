/** A message that fails leaves accounts and persistent storage as they were, whatever ran inside it. */
module Rollback {
  import opened Machine
  import opened Execution
  import opened Run
  import opened Effects
  import Gas

  /** Every snapshot id valid in `w` is still valid in `w1` and names the same contents. */
  ghost predicate SnapshotsKept(w: World, w1: World) {
    w.accSnaps <= w1.accSnaps && w.stoSnaps <= w1.stoSnaps
  }

  lemma StepTakesNoSnapshot(env: Env, hook: Hook, w: World, f: Frame)
    requires f.pc < |f.ctx.code|
    ensures var w1 := WorldOf(Step(env, hook, w, f)); w1.accSnaps == w.accSnaps && w1.stoSnaps == w.stoSnaps
  {
    hide DynamicGas, Fire, Execute, BaseGas, MinFork;
    var op := f.ctx.code[f.pc];
    DynamicGasEffect(w, f, op);
    var (dynamic, w1) := DynamicGas(w, f, op);
    if env.fork >= MinFork(op) && dynamic + BaseGas(op) <= f.gas {
      var paid := f.(gas := f.gas - dynamic - BaseGas(op));
      FireEffect(env, hook, w1, paid);
      var fired := Fire(env, hook, w1, paid);
      ExecuteEffect(env, fired.w, fired.f, op);
    }
  }

  lemma ResumeTakesNoSnapshot(env: Env, w: World, f: Frame, k: Pending, res: Result)
    ensures var w1 := Resume(env, w, f, k, res).w; w1.accSnaps == w.accSnaps && w1.stoSnaps == w.stoSnaps
  {
  }

  /** Running a frame keeps every snapshot an enclosing frame may still revert to. */
  lemma {:induction false} FrameKeepsSnapshots(env: Env, hook: Hook, w: World, f: Frame)
    ensures SnapshotsKept(w, RunFrame(env, hook, w, f).w)
    decreases FrameRank(f.ctx.depth), f.gas
  {
    hide Step, Resume, Enter, Exit;
    if f.pc < |f.ctx.code| {
      Gas.StepSpends(env, hook, w, f);
      StepTakesNoSnapshot(env, hook, w, f);
      match Step(env, hook, w, f)
      case Done(Next(w1, f1)) => FrameKeepsSnapshots(env, hook, w1, f1);
      case Done(Stop(_, _)) =>
      case Invoke(w1, f1, k) =>
        var o := ExecuteMessage(env, hook, w1, k.msg, f1.ctx);
        MessageIsAtomic(env, hook, w1, k.msg, f1.ctx);
        Gas.ResumeGas(env, o.w, f1, k, o.res);
        ResumeTakesNoSnapshot(env, o.w, f1, k, o.res);
        match Resume(env, o.w, f1, k, o.res)
        case Next(w2, f2) => FrameKeepsSnapshots(env, hook, w2, f2);
        case Stop(_, _) =>
    }
  }

  /**
   * The main result: on any status but success, accounts, persistent storage (current and original values) and both
   * snapshot stacks are exactly those at entry; on success, earlier snapshots survive.
   */
  lemma {:induction false} MessageIsAtomic(env: Env, hook: Hook, w: World, msg: Message, parent: Ctx)
    ensures var o := ExecuteMessage(env, hook, w, msg, parent);
      && SnapshotsKept(w, o.w)
      && (!o.res.status.Success? ==>
            o.w.acc == w.acc && o.w.sto == w.sto && o.w.accSnaps == w.accSnaps && o.w.stoSnaps == w.stoSnaps)
    decreases MessageRank(msg.depth), 0
  {
    match Enter(env, w, msg, parent)
    case Refused(_) =>
    case Ran(w1, _) =>
      assert w1.accSnaps[|w.accSnaps|] == w.acc && w1.accSnaps[..|w.accSnaps|] == w.accSnaps;
      assert w1.stoSnaps[|w.stoSnaps|] == w.sto && w1.stoSnaps[..|w.stoSnaps|] == w.stoSnaps;
    case Entered(w1, f) =>
      FrameKeepsSnapshots(env, hook, w1, f);
      var w2 := RunFrame(env, hook, w1, f).w;
      assert w2.accSnaps[|w.accSnaps|] == w.acc && w2.accSnaps[..|w.accSnaps|] == w.accSnaps;
      assert w2.stoSnaps[|w.stoSnaps|] == w.sto && w2.stoSnaps[..|w.stoSnaps|] == w.stoSnaps;
  }
}
