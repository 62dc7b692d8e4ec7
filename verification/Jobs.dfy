/** What a session runs again on every request: a prepared call, or a prepared contract creation. */
module Jobs {
  import opened Base
  import opened Machine
  import opened Execution
  import opened Run
  import opened Replay
  import opened TopLevel

  /** PreparedCall: a call goes through the simple engine, a creation is one message to the new address. */
  datatype Job = CallJob(cfg: Config) | CreateJob(cfg: Config, target: Address)

  /** Where a run ended, and whether the engine handed back an error. */
  datatype JobEnd = JobEnd(w: World, failed: bool)

  function CreationMessage(cfg: Config, target: Address): Message {
    Message(cfg.caller, target, cfg.value, cfg.gasLimit, cfg.input, cfg.code, target, false, cfg.depth, Call, true)
  }

  predicate Unaffordable(cfg: Config, w: World) {
    MovesValue(cfg) && w.acc.Balance(cfg.caller) < cfg.value
  }

  /** Code that does not end in success is an error; a value the caller cannot pay is a result. */
  function RunCall(env: Env, hook: Hook, w: World, cfg: Config): JobEnd {
    match RunTransaction(env, hook, cfg, w)
    case None => JobEnd(w, true)
    case Some(r) => JobEnd(r.w, !r.res.status.Success? && !Unaffordable(cfg, w))
  }

  /** The same for the message of a creation; what becomes of the code it returns is decided after the run. */
  function RunCreation(env: Env, hook: Hook, w: World, cfg: Config, target: Address): JobEnd {
    var w0, msg := Warmed(env, cfg, w), CreationMessage(cfg, target);
    var o := ExecuteMessage(env, hook, w0, msg, RootCtx(cfg));
    JobEnd(o.w, !o.res.status.Success? && !Enter(env, w0, msg, RootCtx(cfg)).Refused?)
  }

  /** ExecutePreparedCall */
  function RunJob(env: Env, hook: Hook, w: World, job: Job): JobEnd {
    match job
    case CallJob(cfg) => RunCall(env, hook, w, cfg)
    case CreateJob(cfg, target) => RunCreation(env, hook, w, cfg, target)
  }

  function JobEnds(a: JobEnd, b: JobEnd): Ends {
    Ends(a.w, b.w, a == b)
  }

  lemma JobLater(env: Env, hook: Hook, w: World, job: Job)
    ensures Later(w, RunJob(env, hook, w, job).w, hook)
  {
    hide Later, RunFrame, ExecuteMessage, Burn, InitiallyWarm, Enter;
    var end := RunJob(env, hook, w, job).w;
    var w0 := Warmed(env, job.cfg, w);
    SameObserversLater(w, w, hook);
    SameObserversLater(w, w0, hook);
    if job.CreateJob? {
      MessageLater(env, hook, w0, CreationMessage(job.cfg, job.target), RootCtx(job.cfg));
      LaterTransitive(w, w0, end, hook);
    } else if job.cfg.gasLimit > 0 && !Unaffordable(job.cfg, w) {
      var w1, f := WithValue(job.cfg, w0), FreshFrame(RootCtx(job.cfg), job.cfg.gasLimit);
      FrameLater(env, hook, w1, f);
      SameObserversLater(w, w1, hook);
      SameObserversLater(RunFrame(env, hook, w1, f).w, end, hook);
      LaterTransitive(w, w1, RunFrame(env, hook, w1, f).w, hook);
      LaterTransitive(w, RunFrame(env, hook, w1, f).w, end, hook);
    }
  }

  /** Two runs of one job either never reach step `k`, and are one, or part exactly there. */
  lemma JobsPart(env: Env, h1: Hook, h2: Hook, k: nat, w: World, job: Job)
    requires AgreeExcept(h1, h2, k) && w.seen <= k
    ensures PartAt(env, h1, h2, k, w, JobEnds(RunJob(env, h1, w, job), RunJob(env, h2, w, job)))
  {
    match job
    case CallJob(cfg) => CallsPart(env, h1, h2, k, w, cfg);
    case CreateJob(cfg, target) => CreationsPart(env, h1, h2, k, w, cfg, target);
  }

  lemma CreationsPart(env: Env, h1: Hook, h2: Hook, k: nat, w: World, cfg: Config, target: Address)
    requires AgreeExcept(h1, h2, k) && w.seen <= k
    ensures PartAt(env, h1, h2, k, w,
                   JobEnds(RunCreation(env, h1, w, cfg, target), RunCreation(env, h2, w, cfg, target)))
  {
    hide Later, SplitAt, ExecuteMessage, InitiallyWarm, AgreeExcept, Enter;
    var w0, msg := Warmed(env, cfg, w), CreationMessage(cfg, target);
    var a, b := ExecuteMessage(env, h1, w0, msg, RootCtx(cfg)), ExecuteMessage(env, h2, w0, msg, RootCtx(cfg));
    SameObserversLater(w, w0, h1);
    SameObserversLater(w, w0, h2);
    MessagesPart(env, h1, h2, k, w0, msg, RootCtx(cfg));
    PartEarlier(env, h1, h2, k, w, w0, EndsOf(a, b));
    PartObserved(env, h1, h2, k, w, EndsOf(a, b),
                 JobEnds(RunCreation(env, h1, w, cfg, target), RunCreation(env, h2, w, cfg, target)));
  }

  lemma CallsPart(env: Env, h1: Hook, h2: Hook, k: nat, w: World, cfg: Config)
    requires AgreeExcept(h1, h2, k) && w.seen <= k
    ensures PartAt(env, h1, h2, k, w, JobEnds(RunCall(env, h1, w, cfg), RunCall(env, h2, w, cfg)))
  {
    hide Later, SplitAt, RunFrame, Burn, InitiallyWarm, AgreeExcept;
    var w0 := Warmed(env, cfg, w);
    SameObserversLater(w, w, h1);
    SameObserversLater(w, w, h2);
    SameObserversLater(w, w0, h1);
    SameObserversLater(w, w0, h2);
    if cfg.gasLimit > 0 && !Unaffordable(cfg, w) {
      var w1, f := WithValue(cfg, w0), FreshFrame(RootCtx(cfg), cfg.gasLimit);
      var a, b := RunFrame(env, h1, w1, f), RunFrame(env, h2, w1, f);
      SameObserversLater(w, w1, h1);
      SameObserversLater(w, w1, h2);
      FramesPart(env, h1, h2, k, w1, f);
      PartEarlier(env, h1, h2, k, w, w1, EndsOf(a, b));
      PartObserved(env, h1, h2, k, w, EndsOf(a, b), JobEnds(RunCall(env, h1, w, cfg), RunCall(env, h2, w, cfg)));
    }
  }
}
