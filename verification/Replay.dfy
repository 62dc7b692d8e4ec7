/** Stepping by running again from the start shows what a debugger editing a live run would show. */
module Replay {
  import opened Base
  import opened Machine
  import opened Execution
  import opened Run
  import opened Effects
  import Gas
  import M = Memory

  // ---------------------------------------------------------------- numbering

  /** Step numbers in a trace grow and stay below the hook's counter. */
  ghost predicate Numbered(w: World) {
    && (forall i :: 0 <= i < |w.trace| && w.trace[i].step.Some? ==> w.trace[i].step.value < w.seen)
    && (forall i, j :: 0 <= i < j < |w.trace| && w.trace[i].step.Some? && w.trace[j].step.Some? ==>
          w.trace[i].step.value < w.trace[j].step.value)
  }

  /** At step `k` of this trace the debugger would show `shown`. */
  ghost predicate Shows(trace: seq<Event>, k: nat, shown: Shown) {
    exists i :: 0 <= i < |trace| && trace[i].step == Some(k) && trace[i].shown == shown
  }

  ghost predicate HasStep(trace: seq<Event>, k: nat) {
    exists i :: 0 <= i < |trace| && trace[i].step == Some(k)
  }

  /** The hook never forgets: later worlds extend the trace and count on, and only a pause sets `pending`. */
  ghost predicate Later(w: World, w1: World, hook: Hook) {
    && w.trace <= w1.trace && w.seen <= w1.seen
    && (Numbered(w) ==> Numbered(w1))
    && (hook.pauseAt.None? || w.seen > hook.pauseAt.value || w1.seen <= hook.pauseAt.value ==> w1.pending == w.pending)
    && (forall k: nat :: k < w.seen && HasStep(w1.trace, k) ==> HasStep(w.trace, k))
  }

  lemma LaterTransitive(w: World, w1: World, w2: World, hook: Hook)
    requires Later(w, w1, hook) && Later(w1, w2, hook)
    ensures Later(w, w2, hook)
  {
  }

  lemma SameObserversLater(w: World, w1: World, hook: Hook)
    requires SameObservers(w, w1)
    ensures Later(w, w1, hook)
  {
  }

  lemma RecordLater(w: World, w1: World, f: Frame, step: Option<nat>, hook: Hook)
    requires w1.trace == w.trace && w1.seen >= w.seen && (step.Some? ==> step.value == w.seen < w1.seen)
    requires hook.pauseAt.None? || w.seen > hook.pauseAt.value || w1.seen <= hook.pauseAt.value ==>
               w1.pending == w.pending
    ensures Later(w, Record(w1, f, step), hook)
  {
    var trace := Record(w1, f, step).trace;
    forall k: nat | k < w.seen && HasStep(trace, k) ensures HasStep(w.trace, k) {
      var i :| 0 <= i < |trace| && trace[i].step == Some(k);
      assert i < |w.trace| && w.trace[i] == trace[i];
    }
  }

  lemma FireLater(env: Env, hook: Hook, w: World, f: Frame)
    ensures Later(w, Fire(env, hook, w, f).w, hook)
  {
    hide ApplyMutations, Later;
    var p := ApplyMutations(hook.journal, w.seen, env.maxAlloc, Patched(w.sto, w.transient, f.memory, true));
    var w1 := w.(sto := p.sto, transient := p.transient, seen := w.seen + 1);
    var f1 := f.(memory := p.memory);
    if !p.ok {
      RecordLater(w, w1, f, None, hook);
    } else if hook.pauseAt == Some(w.seen) {
      PausedLater(w, w1, f1, hook);
    } else {
      RecordLater(w, w1, f1, Some(w.seen), hook);
    }
  }

  lemma PausedLater(w: World, w1: World, f: Frame, hook: Hook)
    requires w1.trace == w.trace && w1.seen == w.seen + 1 && hook.pauseAt == Some(w.seen)
    ensures Later(w, Record(w1, f, Some(w.seen)).(pending := Some(Pause(w.seen, Show(w1, f)))), hook)
  {
    RecordLater(w, w1.(pending := Some(Pause(w.seen, Show(w1, f)))), f, Some(w.seen), hook);
  }

  lemma StepLater(env: Env, hook: Hook, w: World, f: Frame)
    requires f.pc < |f.ctx.code|
    ensures Later(w, WorldOf(Step(env, hook, w, f)), hook)
  {
    hide DynamicGas, Fire, Execute, BaseGas, MinFork, Later;
    var op := f.ctx.code[f.pc];
    DynamicGasEffect(w, f, op);
    var (dynamic, w1) := DynamicGas(w, f, op);
    if env.fork < MinFork(op) {
      RecordLater(w, w, f, None, hook);
    } else if dynamic + BaseGas(op) > f.gas {
      RecordLater(w, w1, f, None, hook);
    } else {
      var paid := f.(gas := f.gas - dynamic - BaseGas(op));
      SameObserversLater(w, w1, hook);
      FireLater(env, hook, w1, paid);
      var fired := Fire(env, hook, w1, paid);
      LaterTransitive(w, w1, fired.w, hook);
      if fired.Proceed? {
        ExecuteEffect(env, fired.w, fired.f, op);
        SameObserversLater(fired.w, WorldOf(Execute(env, fired.w, fired.f, op)), hook);
        LaterTransitive(w, fired.w, WorldOf(Execute(env, fired.w, fired.f, op)), hook);
      }
    }
  }

  lemma ResumeSameObservers(env: Env, w: World, f: Frame, k: Pending, res: Result)
    ensures SameObservers(w, Resume(env, w, f, k, res).w)
  {
    hide M.Set;
  }

  lemma {:induction false} FrameLater(env: Env, hook: Hook, w: World, f: Frame)
    ensures Later(w, RunFrame(env, hook, w, f).w, hook)
    decreases FrameRank(f.ctx.depth), f.gas
  {
    hide Step, Resume, Enter, Exit, Later;
    SameObserversLater(w, w, hook);
    if f.pc < |f.ctx.code| {
      Gas.StepSpends(env, hook, w, f);
      StepLater(env, hook, w, f);
      var end := RunFrame(env, hook, w, f).w;
      match Step(env, hook, w, f)
      case Done(Next(w1, f1)) =>
        FrameLater(env, hook, w1, f1);
        LaterTransitive(w, w1, end, hook);
      case Done(Stop(_, _)) =>
      case Invoke(w1, f1, k) =>
        var o := ExecuteMessage(env, hook, w1, k.msg, f1.ctx);
        MessageLater(env, hook, w1, k.msg, f1.ctx);
        LaterTransitive(w, w1, o.w, hook);
        Gas.ResumeGas(env, o.w, f1, k, o.res);
        ResumeSameObservers(env, o.w, f1, k, o.res);
        var r := Resume(env, o.w, f1, k, o.res);
        SameObserversLater(o.w, r.w, hook);
        LaterTransitive(w, o.w, r.w, hook);
        if r.Next? {
          FrameLater(env, hook, r.w, r.f);
          LaterTransitive(w, r.w, end, hook);
        }
    }
  }

  lemma {:induction false} MessageLater(env: Env, hook: Hook, w: World, msg: Message, parent: Ctx)
    ensures Later(w, ExecuteMessage(env, hook, w, msg, parent).w, hook)
    decreases MessageRank(msg.depth), 0
  {
    hide Later;
    var o := ExecuteMessage(env, hook, w, msg, parent);
    match Enter(env, w, msg, parent)
    case Refused(_) => SameObserversLater(w, w, hook);
    case Ran(_, _) => SameObserversLater(w, o.w, hook);
    case Entered(w1, f) =>
      FrameLater(env, hook, w1, f);
      SameObserversLater(w, w1, hook);
      LaterTransitive(w, w1, RunFrame(env, hook, w1, f).w, hook);
      SameObserversLater(RunFrame(env, hook, w1, f).w, o.w, hook);
      LaterTransitive(w, RunFrame(env, hook, w1, f).w, o.w, hook);
  }

  // ---------------------------------------------------------------- two runs that differ at one step

  /** The two hooks do the same at every step but `k`. */
  ghost predicate AgreeExcept(h1: Hook, h2: Hook, k: nat) {
    && (forall n: nat, limit: M.AllocLimit, p: Patched {:trigger ApplyMutations(h1.journal, n, limit, p)} :: n != k ==>
          ApplyMutations(h1.journal, n, limit, p) == ApplyMutations(h2.journal, n, limit, p))
    && (forall n: nat {:trigger Some(n)} :: n != k ==> (h1.pauseAt == Some(n) <==> h2.pauseAt == Some(n)))
  }

  /** Where a fetch reaches the hook: the access charged and the gas paid. */
  function HookPoint(env: Env, w: World, f: Frame): Option<(World, Frame)>
    requires f.pc < |f.ctx.code|
  {
    var op := f.ctx.code[f.pc];
    var (dynamic, w1) := DynamicGas(w, f, op);
    if env.fork < MinFork(op) || dynamic + BaseGas(op) > f.gas then None
    else Some((w1, f.(gas := f.gas - dynamic - BaseGas(op))))
  }

  /** How two runs ended: where, and whether in the same way, results included. */
  datatype Ends = Ends(a: World, b: World, same: bool)

  function EndsOf(a: Outcome, b: Outcome): Ends {
    Ends(a.w, b.w, a == b)
  }

  /**
   * Firing number `k` happened at `wk`, `fk` in both runs, which ended where the two hooks led them, and in the same
   * way if the hooks did the same there.
   */
  ghost predicate SplitAt(env: Env, h1: Hook, h2: Hook, k: nat, w: World, ends: Ends, wk: World, fk: Frame) {
    && wk.seen == k && Later(w, wk, h1) && Later(w, wk, h2)
    && Later(Fire(env, h1, wk, fk).w, ends.a, h1) && Later(Fire(env, h2, wk, fk).w, ends.b, h2)
    && (Fire(env, h1, wk, fk) == Fire(env, h2, wk, fk) ==> ends.same)
  }

  /** Either step `k` was never reached and the runs are one, or they part exactly there. */
  ghost predicate PartAt(env: Env, h1: Hook, h2: Hook, k: nat, w: World, ends: Ends) {
    || (ends.same && ends.a == ends.b && ends.b.seen <= k && Later(w, ends.b, h1) && Later(w, ends.b, h2))
    || exists wk, fk :: SplitAt(env, h1, h2, k, w, ends, wk, fk)
  }

  lemma FireAgrees(env: Env, h1: Hook, h2: Hook, k: nat, w: World, f: Frame)
    requires AgreeExcept(h1, h2, k) && w.seen != k
    ensures Fire(env, h1, w, f) == Fire(env, h2, w, f)
  {
    hide ApplyMutations;
    var p := Patched(w.sto, w.transient, f.memory, true);
    assert ApplyMutations(h1.journal, w.seen, env.maxAlloc, p) == ApplyMutations(h2.journal, w.seen, env.maxAlloc, p);
    assert h1.pauseAt == Some(w.seen) <==> h2.pauseAt == Some(w.seen);
  }

  /** The fetch reaches the hook, and the two hooks do the same there. */
  predicate FiresAlike(env: Env, h1: Hook, h2: Hook, w: World, f: Frame) {
    && f.pc < |f.ctx.code| && HookPoint(env, w, f).Some?
    && var (w1, paid) := HookPoint(env, w, f).value; Fire(env, h1, w1, paid) == Fire(env, h2, w1, paid)
  }

  lemma StepAgrees(env: Env, h1: Hook, h2: Hook, k: nat, w: World, f: Frame)
    requires AgreeExcept(h1, h2, k) && f.pc < |f.ctx.code|
    requires w.seen != k || HookPoint(env, w, f).None? || FiresAlike(env, h1, h2, w, f)
    ensures Step(env, h1, w, f) == Step(env, h2, w, f)
    ensures HookPoint(env, w, f).None? ==> Step(env, h1, w, f).Done? && Step(env, h1, w, f).flow.Stop?
    ensures HookPoint(env, w, f).None? ==> WorldOf(Step(env, h1, w, f)).seen == w.seen
    ensures HookPoint(env, w, f).Some? ==> WorldOf(Step(env, h1, w, f)).seen == w.seen + 1
  {
    hide DynamicGas, Fire, Execute, BaseGas, MinFork;
    var op := f.ctx.code[f.pc];
    DynamicGasEffect(w, f, op);
    if HookPoint(env, w, f).Some? {
      var (w1, paid) := HookPoint(env, w, f).value;
      if w.seen != k {
        FireAgrees(env, h1, h2, k, w1, paid);
      }
      FireCounts(env, h1, w1, paid);
      var fired := Fire(env, h1, w1, paid);
      ExecuteEffect(env, fired.w, fired.f, op);
    }
  }

  lemma FireCounts(env: Env, hook: Hook, w: World, f: Frame)
    ensures Fire(env, hook, w, f).w.seen == w.seen + 1
  {
    hide ApplyMutations;
  }

  /** Past step `k` the two hooks are indistinguishable; so they are at `k` if they do the same there. */
  lemma {:induction false} FrameAgrees(env: Env, h1: Hook, h2: Hook, k: nat, w: World, f: Frame)
    requires AgreeExcept(h1, h2, k)
    requires w.seen > k || (w.seen == k && FiresAlike(env, h1, h2, w, f))
    ensures RunFrame(env, h1, w, f) == RunFrame(env, h2, w, f)
    decreases FrameRank(f.ctx.depth), f.gas
  {
    hide Step, Resume, Enter, Exit, Later, AgreeExcept, HookPoint, FiresAlike;
    if f.pc < |f.ctx.code| {
      Gas.StepSpends(env, h1, w, f);
      StepAgrees(env, h1, h2, k, w, f);
      FiringCounted(env, h1, h2, w, f);
      match Step(env, h1, w, f)
      case Done(Next(w1, f1)) => FrameAgrees(env, h1, h2, k, w1, f1);
      case Done(Stop(_, _)) =>
      case Invoke(w1, f1, call) =>
        var o := ExecuteMessage(env, h1, w1, call.msg, f1.ctx);
        MessageAgrees(env, h1, h2, k, w1, call.msg, f1.ctx);
        Gas.ResumeGas(env, o.w, f1, call, o.res);
        ResumeSameObservers(env, o.w, f1, call, o.res);
        var r := Resume(env, o.w, f1, call, o.res);
        if r.Next? {
          FrameAgrees(env, h1, h2, k, r.w, r.f);
        }
    }
  }

  lemma FiringCounted(env: Env, h1: Hook, h2: Hook, w: World, f: Frame)
    requires f.pc < |f.ctx.code|
    ensures FiresAlike(env, h1, h2, w, f) ==> HookPoint(env, w, f).Some?
  {
    hide HookPoint, Fire;
  }

  lemma {:induction false} MessageAgrees(env: Env, h1: Hook, h2: Hook, k: nat, w: World, msg: Message, parent: Ctx)
    requires AgreeExcept(h1, h2, k) && w.seen > k
    ensures ExecuteMessage(env, h1, w, msg, parent) == ExecuteMessage(env, h2, w, msg, parent)
    ensures ExecuteMessage(env, h1, w, msg, parent).w.seen > k
    decreases MessageRank(msg.depth), 0
  {
    hide AgreeExcept;
    MessageLater(env, h1, w, msg, parent);
    match Enter(env, w, msg, parent)
    case Refused(_) =>
    case Ran(_, _) =>
    case Entered(w1, f) => FrameAgrees(env, h1, h2, k, w1, f);
  }

  /** What follows a firing in its own frame, and everything after, only extends what the hook recorded. */
  lemma AfterFire(env: Env, hook: Hook, w: World, f: Frame)
    requires f.pc < |f.ctx.code| && HookPoint(env, w, f).Some?
    ensures var (w1, paid) := HookPoint(env, w, f).value;
      Later(Fire(env, hook, w1, paid).w, RunFrame(env, hook, w, f).w, hook)
  {
    hide DynamicGas, Fire, Execute, BaseGas, MinFork, Later, Resume;
    var (w1, paid) := HookPoint(env, w, f).value;
    var fired := Fire(env, hook, w1, paid);
    var op := f.ctx.code[f.pc];
    Gas.StepSpends(env, hook, w, f);
    ExecuteEffect(env, fired.w, fired.f, op);
    SameObserversLater(fired.w, fired.w, hook);
    SameObserversLater(fired.w, WorldOf(Execute(env, fired.w, fired.f, op)), hook);
    var end := RunFrame(env, hook, w, f).w;
    match Step(env, hook, w, f)
    case Done(Next(w2, f2)) =>
      FrameLater(env, hook, w2, f2);
      LaterTransitive(fired.w, w2, end, hook);
    case Done(Stop(_, _)) =>
    case Invoke(w2, f2, call) =>
      AfterMessage(env, hook, w2, f2, call);
      LaterTransitive(fired.w, w2, end, hook);
  }

  lemma AfterMessage(env: Env, hook: Hook, w: World, f: Frame, call: Pending)
    requires f.gas + call.msg.gas < TWO64
    ensures var o := ExecuteMessage(env, hook, w, call.msg, f.ctx);
      var r := Resume(env, o.w, f, call, o.res);
      Later(w, if r.Next? then RunFrame(env, hook, r.w, r.f).w else r.w, hook)
  {
    hide Later, Resume;
    var o := ExecuteMessage(env, hook, w, call.msg, f.ctx);
    var r := Resume(env, o.w, f, call, o.res);
    MessageLater(env, hook, w, call.msg, f.ctx);
    ResumeSameObservers(env, o.w, f, call, o.res);
    SameObserversLater(o.w, r.w, hook);
    LaterTransitive(w, o.w, r.w, hook);
    if r.Next? {
      FrameLater(env, hook, r.w, r.f);
      LaterTransitive(w, r.w, RunFrame(env, hook, r.w, r.f).w, hook);
    }
  }

  /** Steps before the parting are steps of both runs. */
  lemma PartEarlier(env: Env, h1: Hook, h2: Hook, k: nat, w: World, w1: World, ends: Ends)
    requires Later(w, w1, h1) && Later(w, w1, h2) && PartAt(env, h1, h2, k, w1, ends)
    ensures PartAt(env, h1, h2, k, w, ends)
  {
    hide Later, Fire;
    if ends.same && ends.a == ends.b && ends.b.seen <= k && Later(w1, ends.b, h1) && Later(w1, ends.b, h2) {
      LaterTransitive(w, w1, ends.b, h1);
      LaterTransitive(w, w1, ends.b, h2);
    } else {
      var wk, fk :| SplitAt(env, h1, h2, k, w1, ends, wk, fk);
      LaterTransitive(w, w1, wk, h1);
      LaterTransitive(w, w1, wk, h2);
      assert SplitAt(env, h1, h2, k, w, ends, wk, fk);
    }
  }

  /** Whatever happens after the parting happens after the parting. */
  lemma PartLater(env: Env, h1: Hook, h2: Hook, k: nat, w: World, ends: Ends, ends1: Ends, wk: World, fk: Frame)
    requires SplitAt(env, h1, h2, k, w, ends, wk, fk)
    requires Later(ends.a, ends1.a, h1) && Later(ends.b, ends1.b, h2) && (ends.same ==> ends1.same)
    ensures PartAt(env, h1, h2, k, w, ends1)
  {
    hide Later, Fire;
    LaterTransitive(Fire(env, h1, wk, fk).w, ends.a, ends1.a, h1);
    LaterTransitive(Fire(env, h2, wk, fk).w, ends.b, ends1.b, h2);
    assert SplitAt(env, h1, h2, k, w, ends1, wk, fk);
  }

  lemma SplitIsPast(env: Env, h1: Hook, h2: Hook, k: nat, w: World, ends: Ends, wk: World, fk: Frame)
    requires SplitAt(env, h1, h2, k, w, ends, wk, fk)
    ensures ends.a.seen > k && ends.b.seen > k
  {
    FireCounts(env, h1, wk, fk);
    FireCounts(env, h2, wk, fk);
  }

  lemma {:induction false} FramesPart(env: Env, h1: Hook, h2: Hook, k: nat, w: World, f: Frame)
    requires AgreeExcept(h1, h2, k) && w.seen <= k
    ensures PartAt(env, h1, h2, k, w, EndsOf(RunFrame(env, h1, w, f), RunFrame(env, h2, w, f)))
    decreases FrameRank(f.ctx.depth), f.gas, 0
  {
    hide Step, Resume, Enter, Exit, Later, AgreeExcept, HookPoint, SplitAt;
    var a, b := RunFrame(env, h1, w, f), RunFrame(env, h2, w, f);
    SameObserversLater(w, w, h1);
    SameObserversLater(w, w, h2);
    if f.pc < |f.ctx.code| {
      Gas.StepSpends(env, h1, w, f);
      if HookPoint(env, w, f).Some? && w.seen == k {
        FramePartsHere(env, h1, h2, k, w, f);
      } else {
        StepAgrees(env, h1, h2, k, w, f);
        StepLater(env, h1, w, f);
        StepLater(env, h2, w, f);
        match Step(env, h1, w, f)
        case Done(Next(w1, f1)) =>
          FramesPart(env, h1, h2, k, w1, f1);
          PartEarlier(env, h1, h2, k, w, w1, EndsOf(a, b));
        case Done(Stop(_, _)) =>
        case Invoke(w1, f1, call) =>
          CallPart(env, h1, h2, k, w1, f1, call);
          PartEarlier(env, h1, h2, k, w, w1, EndsOf(a, b));
      }
    }
  }

  lemma FramePartsHere(env: Env, h1: Hook, h2: Hook, k: nat, w: World, f: Frame)
    requires AgreeExcept(h1, h2, k) && w.seen == k
    requires f.pc < |f.ctx.code| && HookPoint(env, w, f).Some?
    ensures PartAt(env, h1, h2, k, w, EndsOf(RunFrame(env, h1, w, f), RunFrame(env, h2, w, f)))
  {
    hide DynamicGas, Fire, BaseGas, MinFork, Later, Step, AgreeExcept;
    var (w1, paid) := HookPoint(env, w, f).value;
    DynamicGasEffect(w, f, f.ctx.code[f.pc]);
    SameObserversLater(w, w1, h1);
    SameObserversLater(w, w1, h2);
    AfterFire(env, h1, w, f);
    AfterFire(env, h2, w, f);
    if FiresAlike(env, h1, h2, w, f) {
      FrameAgrees(env, h1, h2, k, w, f);
    }
    assert SplitAt(env, h1, h2, k, w, EndsOf(RunFrame(env, h1, w, f), RunFrame(env, h2, w, f)), w1, paid);
  }

  /** The rest of a frame that has just sent a message. */
  function Continue(env: Env, hook: Hook, w: World, f: Frame, call: Pending): Outcome
    requires f.gas + call.msg.gas < TWO64
  {
    var o := ExecuteMessage(env, hook, w, call.msg, f.ctx);
    match Resume(env, o.w, f, call, o.res)
    case Next(w1, f1) => RunFrame(env, hook, w1, f1)
    case Stop(w1, res) => Outcome(w1, res)
  }

  lemma {:induction false} CallPart(env: Env, h1: Hook, h2: Hook, k: nat, w: World, f: Frame, call: Pending)
    requires AgreeExcept(h1, h2, k) && w.seen <= k
    requires f.gas + call.msg.gas < TWO64 && call.msg.depth == f.ctx.depth + 1
    ensures PartAt(env, h1, h2, k, w, EndsOf(Continue(env, h1, w, f, call), Continue(env, h2, w, f, call)))
    decreases FrameRank(f.ctx.depth), f.gas + call.msg.gas, 1
  {
    hide Resume, Enter, Exit, Later, AgreeExcept, SplitAt;
    var m1 := ExecuteMessage(env, h1, w, call.msg, f.ctx);
    var m2 := ExecuteMessage(env, h2, w, call.msg, f.ctx);
    var ends := EndsOf(Continue(env, h1, w, f, call), Continue(env, h2, w, f, call));
    MessagesPart(env, h1, h2, k, w, call.msg, f.ctx);
    if wk, fk :| SplitAt(env, h1, h2, k, w, EndsOf(m1, m2), wk, fk) {
      AfterAnswer(env, h1, m1.w, f, call, m1.res);
      AfterAnswer(env, h2, m2.w, f, call, m2.res);
      SplitIsPast(env, h1, h2, k, w, EndsOf(m1, m2), wk, fk);
      if m1 == m2 {
        AnswersAgree(env, h1, h2, k, m1.w, f, call, m1.res);
      }
      PartLater(env, h1, h2, k, w, EndsOf(m1, m2), ends, wk, fk);
    } else {
      Gas.ResumeGas(env, m1.w, f, call, m1.res);
      ResumeSameObservers(env, m1.w, f, call, m1.res);
      var r := Resume(env, m1.w, f, call, m1.res);
      SameObserversLater(m1.w, r.w, h1);
      SameObserversLater(m1.w, r.w, h2);
      LaterTransitive(w, m1.w, r.w, h1);
      LaterTransitive(w, m1.w, r.w, h2);
      if r.Next? {
        FramesPart(env, h1, h2, k, r.w, r.f);
        PartEarlier(env, h1, h2, k, w, r.w, ends);
      }
    }
  }

  /** Past step `k` a frame goes on the same way after the same answer. */
  lemma AnswersAgree(env: Env, h1: Hook, h2: Hook, k: nat, w: World, f: Frame, call: Pending, res: Result)
    requires AgreeExcept(h1, h2, k) && w.seen > k
    ensures var r := Resume(env, w, f, call, res);
      r.Next? ==> RunFrame(env, h1, r.w, r.f) == RunFrame(env, h2, r.w, r.f)
  {
    hide Resume, AgreeExcept;
    var r := Resume(env, w, f, call, res);
    ResumeSameObservers(env, w, f, call, res);
    if r.Next? {
      FrameAgrees(env, h1, h2, k, r.w, r.f);
    }
  }

  lemma AfterAnswer(env: Env, hook: Hook, w: World, f: Frame, call: Pending, res: Result)
    ensures var r := Resume(env, w, f, call, res);
      Later(w, if r.Next? then RunFrame(env, hook, r.w, r.f).w else r.w, hook)
  {
    hide Later, Resume;
    var r := Resume(env, w, f, call, res);
    ResumeSameObservers(env, w, f, call, res);
    SameObserversLater(w, r.w, hook);
    if r.Next? {
      FrameLater(env, hook, r.w, r.f);
      LaterTransitive(w, r.w, RunFrame(env, hook, r.w, r.f).w, hook);
    }
  }

  lemma {:induction false} MessagesPart(env: Env, h1: Hook, h2: Hook, k: nat, w: World, msg: Message, parent: Ctx)
    requires AgreeExcept(h1, h2, k) && w.seen <= k
    ensures PartAt(env, h1, h2, k, w,
                   EndsOf(ExecuteMessage(env, h1, w, msg, parent), ExecuteMessage(env, h2, w, msg, parent)))
    decreases MessageRank(msg.depth), 0, 0
  {
    hide Later, AgreeExcept, SplitAt, Funded, RunPrecompile, Exit;
    var a, b := ExecuteMessage(env, h1, w, msg, parent), ExecuteMessage(env, h2, w, msg, parent);
    match Enter(env, w, msg, parent)
    case Refused(_) =>
      SameObserversLater(w, a.w, h1);
      SameObserversLater(w, a.w, h2);
    case Ran(w1, res) =>
      ExitObserves(w1, |w.accSnaps|, |w.stoSnaps|, res);
      SameObserversLater(w, a.w, h1);
      SameObserversLater(w, a.w, h2);
    case Entered(w1, f) =>
      var a1, b1 := RunFrame(env, h1, w1, f), RunFrame(env, h2, w1, f);
      ExitObserves(a1.w.(active := w.active), |w.accSnaps|, |w.stoSnaps|, a1.res);
      ExitObserves(b1.w.(active := w.active), |w.accSnaps|, |w.stoSnaps|, b1.res);
      SameObserversLater(w, w1, h1);
      SameObserversLater(w, w1, h2);
      FramesPart(env, h1, h2, k, w1, f);
      PartEarlier(env, h1, h2, k, w, w1, EndsOf(a1, b1));
      PartObserved(env, h1, h2, k, w, EndsOf(a1, b1), EndsOf(a, b));
  }

  /** What happens to the runs' ends without the hook noticing does not matter. */
  lemma PartObserved(env: Env, h1: Hook, h2: Hook, k: nat, w: World, ends: Ends, ends1: Ends)
    requires PartAt(env, h1, h2, k, w, ends)
    requires SameObservers(ends.a, ends1.a) && SameObservers(ends.b, ends1.b)
    requires ends.same ==> ends1.same && ends1.a == ends1.b
    ensures PartAt(env, h1, h2, k, w, ends1)
  {
    hide Later, SplitAt;
    SameObserversLater(ends.a, ends1.a, h1);
    SameObserversLater(ends.b, ends1.b, h1);
    SameObserversLater(ends.b, ends1.b, h2);
    if wk, fk :| SplitAt(env, h1, h2, k, w, ends, wk, fk) {
      PartLater(env, h1, h2, k, w, ends, ends1, wk, fk);
    } else {
      LaterTransitive(w, ends.b, ends1.b, h1);
      LaterTransitive(w, ends.b, ends1.b, h2);
    }
  }
}
