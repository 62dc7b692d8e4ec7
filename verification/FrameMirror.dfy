/** After every step of any run, the debugger's call-frame list is the engine's real call stack. */
module FrameMirror {
  import opened Base
  import opened Machine
  import opened Execution
  import opened Run
  import opened Effects
  import opened CallFrames
  import opened TopLevel
  import opened Jobs
  import Gas

  /** At every step event so far the list described the frames open at that event. */
  ghost predicate AlwaysMirrored(trace: seq<Event>) {
    forall i {:trigger trace[i]} :: 0 <= i < |trace| && trace[i].step.Some? ==>
      Describes(Mirror(trace[..i + 1]), trace[i].active)
  }

  /** The list is up to date with the frame now running. */
  ghost predicate UpToDate(w: World) {
    AlwaysMirrored(w.trace) && Describes(Mirror(w.trace), w.active)
  }

  /**
   * What the list may lag behind by between events: nothing seen yet at the root, frames closed since the last
   * event (however many), or one frame opened since.
   */
  ghost predicate Lags(w: World, last: seq<Ctx>) {
    && AlwaysMirrored(w.trace)
    && Describes(Mirror(w.trace), last)
    && w.active != []
    && (w.active <= last || w.active[..|w.active| - 1] == last)
  }

  ghost predicate Behind(w: World) {
    exists last :: Lags(w, last)
  }

  /** The frame is the innermost open one. */
  ghost predicate Innermost(w: World, f: Frame) {
    w.active != [] && w.active[|w.active| - 1] == f.ctx && f.ctx.depth == |w.active| - 1
  }

  /** Only the newest event is to be checked when one is added. */
  lemma AlwaysMirroredExtends(trace: seq<Event>, e: Event)
    requires AlwaysMirrored(trace) && (e.step.Some? ==> Describes(Mirror(trace + [e]), e.active))
    ensures AlwaysMirrored(trace + [e])
  {
    hide Describes, Mirror;
    var longer := trace + [e];
    forall i | 0 <= i < |longer| && longer[i].step.Some? ensures Describes(Mirror(longer[..i + 1]), longer[i].active) {
      if i < |trace| {
        assert longer[..i + 1] == trace[..i + 1] && longer[i] == trace[i];
      } else {
        assert longer[..i + 1] == longer;
      }
    }
  }

  lemma MirrorExtends(trace: seq<Event>, e: Event)
    ensures var f := e.shown.frame;
      Mirror(trace + [e]) == if e.step.None? || f.pc >= |f.ctx.code| then Mirror(trace)
                             else Update(Mirror(trace), f.ctx, f.ctx.code[f.pc])
  {
    assert (trace + [e])[..|trace|] == trace;
  }

  lemma RecordSilent(w: World, f: Frame, last: seq<Ctx>)
    requires Lags(w, last)
    ensures Lags(Record(w, f, None), last)
  {
    hide Describes, Mirror, AlwaysMirrored;
    var e := Event(w.active, Show(w, f), None);
    MirrorExtends(w.trace, e);
    AlwaysMirroredExtends(w.trace, e);
  }

  lemma RecordStep(w: World, f: Frame, last: seq<Ctx>, k: nat)
    requires Lags(w, last) && Innermost(w, f) && f.pc < |f.ctx.code|
    ensures UpToDate(Record(w, f, Some(k)))
  {
    hide Describes, Mirror, AlwaysMirrored, Update;
    var e := Event(w.active, Show(w, f), Some(k));
    MirrorExtends(w.trace, e);
    UpdateFollows(Mirror(w.trace), last, w.active, f.ctx.code[f.pc]);
    AlwaysMirroredExtends(w.trace, e);
  }

  lemma UpToDateIsBehind(w: World)
    requires UpToDate(w) && w.active != []
    ensures Behind(w)
  {
    assert Lags(w, w.active);
  }

  lemma BehindDependsOn(w: World, w1: World)
    requires Behind(w) && w1.trace == w.trace && w1.active == w.active
    ensures Behind(w1)
  {
    var last :| Lags(w, last);
    assert Lags(w1, last);
  }

  /** An instruction that goes on, or calls, has brought the list up to date; one that stops may not have. */
  lemma StepMirrors(env: Env, hook: Hook, w: World, f: Frame)
    requires Behind(w) && Innermost(w, f) && f.pc < |f.ctx.code|
    ensures var w1 := WorldOf(Step(env, hook, w, f));
      && w1.active == w.active
      && Behind(w1)
      && (Step(env, hook, w, f).Invoke? || Step(env, hook, w, f).flow.Next? ==> UpToDate(w1))
  {
    hide DynamicGas, Execute, BaseGas, MinFork, ApplyMutations, Describes, AlwaysMirrored, Mirror;
    var last :| Lags(w, last);
    var op := f.ctx.code[f.pc];
    DynamicGasEffect(w, f, op);
    var (dynamic, w1) := DynamicGas(w, f, op);
    if env.fork < MinFork(op) {
      RecordSilent(w, f, last);
    } else if dynamic + BaseGas(op) > f.gas {
      assert Lags(w1, last);
      RecordSilent(w1, f, last);
    } else {
      var paid := f.(gas := f.gas - dynamic - BaseGas(op));
      var fired := Fire(env, hook, w1, paid);
      var p := ApplyMutations(hook.journal, w1.seen, env.maxAlloc,
                              Patched(w1.sto, w1.transient, paid.memory, true));
      var shown := paid.(memory := p.memory);
      var counted := w1.(sto := p.sto, transient := p.transient, seen := w1.seen + 1);
      assert Lags(counted, last);
      if p.ok {
        RecordStep(counted, shown, last, w1.seen);
        UpToDateIsBehind(Record(counted, shown, Some(w1.seen)));
        assert UpToDate(fired.w);
        UpToDateIsBehind(fired.w);
      } else {
        RecordSilent(counted, paid, last);
      }
      ExecuteEffect(env, fired.w, fired.f, op);
      if fired.Proceed? {
        BehindDependsOn(fired.w, WorldOf(Execute(env, fired.w, fired.f, op)));
      }
    }
  }

  lemma ResumeSame(env: Env, w: World, f: Frame, k: Pending, res: Result)
    ensures var w1 := Resume(env, w, f, k, res).w; w1.trace == w.trace && w1.active == w.active
  {
    hide Machine.M.Set;
  }

  /** The main result, over a whole nested run. */
  lemma {:induction false} FrameMirrored(env: Env, hook: Hook, w: World, f: Frame)
    requires Behind(w) && Innermost(w, f)
    ensures var w1 := RunFrame(env, hook, w, f).w; Behind(w1) && w1.active == w.active
    decreases FrameRank(f.ctx.depth), f.gas
  {
    hide Step, Resume, Enter, Exit, Behind, UpToDate;
    if f.pc < |f.ctx.code| {
      Gas.StepSpends(env, hook, w, f);
      StepMirrors(env, hook, w, f);
      match Step(env, hook, w, f)
      case Done(Next(w1, f1)) => FrameMirrored(env, hook, w1, f1);
      case Done(Stop(_, _)) =>
      case Invoke(w1, f1, k) =>
        var o := ExecuteMessage(env, hook, w1, k.msg, f1.ctx);
        MessageMirrored(env, hook, w1, k.msg, f1.ctx);
        Gas.ResumeGas(env, o.w, f1, k, o.res);
        ResumeSame(env, o.w, f1, k, o.res);
        var r := Resume(env, o.w, f1, k, o.res);
        BehindDependsOn(o.w, r.w);
        if r.Next? {
          FrameMirrored(env, hook, r.w, r.f);
        }
    }
  }

  /** Entering opens one frame; leaving closes it and whatever was still listed above it. */
  lemma {:induction false} MessageMirrored(env: Env, hook: Hook, w: World, msg: Message, parent: Ctx)
    requires UpToDate(w) && w.active != [] && msg.depth == |w.active|
    ensures var w1 := ExecuteMessage(env, hook, w, msg, parent).w; Behind(w1) && w1.active == w.active
    decreases MessageRank(msg.depth), 0
  {
    hide Describes, AlwaysMirrored, Mirror, Funded, RunPrecompile, Exit;
    var end := ExecuteMessage(env, hook, w, msg, parent).w;
    match Enter(env, w, msg, parent)
    case Refused(_) => UpToDateIsBehind(w);
    case Ran(w1, res) =>
      ExitObserves(w1, |w.accSnaps|, |w.stoSnaps|, res);
      UpToDateIsBehind(w);
      BehindDependsOn(w, end);
    case Entered(w1, f) =>
      assert w1.active[..|w.active|] == w.active;
      assert Lags(w1, w.active);
      FrameMirrored(env, hook, w1, f);
      var w2 := RunFrame(env, hook, w1, f).w;
      ExitObserves(w2.(active := w.active), |w.accSnaps|, |w.stoSnaps|, RunFrame(env, hook, w1, f).res);
      var last :| Lags(w2, last);
      assert w.active <= last;
      assert Lags(end, last);
  }

  /** From a root frame: nothing recorded, one frame open at depth 0. */
  lemma RunMirrored(env: Env, hook: Hook, w: World, f: Frame)
    requires w.trace == [] && w.active == [f.ctx] && f.ctx.depth == 0
    ensures AlwaysMirrored(RunFrame(env, hook, w, f).w.trace)
  {
    assert Lags(w, []);
    FrameMirrored(env, hook, w, f);
  }

  /** From a root message, which opens the first frame itself. */
  lemma RootMessageMirrored(env: Env, hook: Hook, w: World, msg: Message, parent: Ctx)
    requires w.trace == [] && w.active == [] && msg.depth == 0
    ensures AlwaysMirrored(ExecuteMessage(env, hook, w, msg, parent).w.trace)
  {
    hide RunFrame, Funded, RunPrecompile, Exit;
    match Enter(env, w, msg, parent)
    case Refused(_) =>
    case Ran(w1, res) => ExitObserves(w1, |w.accSnaps|, |w.stoSnaps|, res);
    case Entered(w1, f) =>
      RunMirrored(env, hook, w1, f);
      var o := RunFrame(env, hook, w1, f);
      ExitObserves(o.w.(active := w.active), |w.accSnaps|, |w.stoSnaps|, o.res);
  }

  /** The main result for whatever a session replays, a call or a creation. */
  lemma JobMirrored(env: Env, hook: Hook, w: World, job: Job)
    requires w.trace == [] && job.cfg.depth == 0
    requires w.active == if job.CallJob? then [RootCtx(job.cfg)] else []
    ensures AlwaysMirrored(RunJob(env, hook, w, job).w.trace)
  {
    hide RunFrame, ExecuteMessage, InitiallyWarm, Burn, Enter;
    var w0 := Warmed(env, job.cfg, w);
    match job
    case CallJob(cfg) =>
      RunMirrored(env, hook, WithValue(cfg, w0), FreshFrame(RootCtx(cfg), cfg.gasLimit));
    case CreateJob(cfg, target) =>
      RootMessageMirrored(env, hook, w0, CreationMessage(cfg, target), RootCtx(cfg));
  }
}
