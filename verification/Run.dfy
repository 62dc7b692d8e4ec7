/** The mutually recursive heart of the engine: a frame's loop and the messages it sends. */
module Run {
  import opened Machine
  import opened Execution
  import Gas

  /** Depth first, then gas: messages nest at most 1024 deep and every instruction costs something. */
  function FrameRank(depth: nat): nat {
    if depth < 1024 then 2 * (1024 - depth) - 1 else 1
  }

  function MessageRank(depth: nat): nat {
    if depth < 1024 then 2 * (1024 - depth) else 0
  }

  /** Runs frame `f` to its end: implicit STOP past the code, a halting instruction, or a failure. */
  function RunFrame(env: Env, hook: Hook, w: World, f: Frame): (o: Outcome)
    ensures o.res.gasRemaining <= f.gas
    decreases FrameRank(f.ctx.depth), f.gas
  {
    if f.pc >= |f.ctx.code| then Outcome(w, Finish(f, Success))
    else
      Gas.StepSpends(env, hook, w, f);
      match Step(env, hook, w, f)
      case Done(Next(w1, f1)) => RunFrame(env, hook, w1, f1)
      case Done(Stop(w1, res)) => Outcome(w1, res)
      case Invoke(w1, f1, k) =>
        var o := ExecuteMessage(env, hook, w1, k.msg, f1.ctx);
        Gas.ResumeGas(env, o.w, f1, k, o.res);
        match Resume(env, o.w, f1, k, o.res)
        case Next(w2, f2) => RunFrame(env, hook, w2, f2)
        case Stop(w2, res) => Outcome(w2, res)
  }

  /** Runs one message: snapshot, value transfer, precompile or code, and rollback of every failure. */
  function ExecuteMessage(env: Env, hook: Hook, w: World, msg: Message, parent: Ctx): (o: Outcome)
    ensures o.res.gasRemaining <= msg.gas
    decreases MessageRank(msg.depth), 0
  {
    match Enter(env, w, msg, parent)
    case Refused(res) => Outcome(w, res)
    case Ran(w1, res) => Exit(w1, |w.accSnaps|, |w.stoSnaps|, res)
    case Entered(w1, f) =>
      var o := RunFrame(env, hook, w1, f);
      Exit(o.w.(active := w.active), |w.accSnaps|, |w.stoSnaps|, o.res)
  }

  /** Runs the message an instruction sent, if any, and lets its frame pick up the answer. */
  function Settle(env: Env, hook: Hook, s: StepOut): Flow {
    match s
    case Done(flow) => flow
    case Invoke(w, f, k) => Deliver(env, hook, w, f, k)
  }

  function Deliver(env: Env, hook: Hook, w: World, f: Frame, k: Pending): Flow {
    var o := ExecuteMessage(env, hook, w, k.msg, f.ctx);
    Resume(env, o.w, f, k, o.res)
  }

  /** One turn of the loop, with any message it sends run to its end. */
  function Turn(env: Env, hook: Hook, w: World, f: Frame): Flow
    requires f.pc < |f.ctx.code|
  {
    Settle(env, hook, Step(env, hook, w, f))
  }

  lemma RunFrameByTurns(env: Env, hook: Hook, w: World, f: Frame)
    requires f.pc < |f.ctx.code|
    ensures match Turn(env, hook, w, f)
      case Next(w1, f1) => f1.gas < f.gas && f1.ctx == f.ctx && RunFrame(env, hook, w, f) == RunFrame(env, hook, w1, f1)
      case Stop(w1, res) => RunFrame(env, hook, w, f) == Outcome(w1, res)
  {
    hide Step, Resume;
    Gas.StepSpends(env, hook, w, f);
    match Step(env, hook, w, f)
    case Done(_) =>
    case Invoke(w1, f1, k) =>
      var o := ExecuteMessage(env, hook, w1, k.msg, f1.ctx);
      Gas.ResumeGas(env, o.w, f1, k, o.res);
  }
}
