/** What becomes of a message: refused, answered by a precompile, or run; and what it hands back. */
module MessageLaws {
  import opened Base
  import opened Ledger
  import opened Machine
  import opened Execution
  import opened Run

  /** The messages that are turned away before anything is touched, and the gas they leave. */
  lemma Refusals(env: Env, hook: Hook, w: World, msg: Message, parent: Ctx)
    ensures var o := ExecuteMessage(env, hook, w, msg, parent);
      && (msg.depth >= 1024 ==>
            o.w == w && o.res.status == CallDepthExceeded && o.res.gasRemaining == msg.gas)
      && (msg.depth < 1024 && msg.isStatic && msg.value > 0 ==>
            o.w == w && o.res.status == Halted && o.res.gasRemaining == 0)
      && (msg.depth < 1024 && !msg.isStatic && msg.value > 0 && w.acc.Balance(msg.caller) < msg.value ==>
            o.w == w && o.res.status == InsufficientBalance && o.res.gasRemaining == msg.gas)
    ensures msg.depth < 1024 && !(msg.isStatic && msg.value > 0)
            && (msg.value > 0 ==> w.acc.Balance(msg.caller) >= msg.value)
            <==> !Enter(env, w, msg, parent).Refused?
  {
    hide Funded, RunPrecompile, RunFrame, ChildCtx, FreshFrame;
  }

  /** The value is the caller's loss and the callee's gain before any code runs. */
  lemma ValueMoves(env: Env, w: World, msg: Message, parent: Ctx)
    requires !Enter(env, w, msg, parent).Refused? && !msg.isCreate
    ensures var acc := Enter(env, w, msg, parent).w.acc;
      && (msg.caller != msg.callee ==>
            && acc.Balance(msg.caller) == w.acc.Balance(msg.caller) - msg.value
            && acc.Balance(msg.callee) == w.acc.Balance(msg.callee) + msg.value)
      && (forall a: Address :: msg.caller == msg.callee || (a != msg.caller && a != msg.callee) ==>
            acc.Balance(a) == w.acc.Balance(a))
      && (forall a: Address :: acc.Nonce(a) == w.acc.Nonce(a) && acc.Code(a) == w.acc.Code(a))
      && Enter(env, w, msg, parent).w.sto == w.sto
  {
  }

  /** A created account starts with nonce 1 unless it had a nonce or code, and with the value beside what it had. */
  lemma CreatedStarts(env: Env, w: World, msg: Message, parent: Ctx)
    requires !Enter(env, w, msg, parent).Refused? && msg.isCreate && msg.caller != msg.callee
    ensures var acc, created := Enter(env, w, msg, parent).w.acc, msg.callee;
      && acc.Exists(created) && acc.Code(created) == w.acc.Code(created)
      && acc.Nonce(created)
         == (if w.acc.Nonce(created) == 0 && w.acc.Code(created) == [] then 1 else w.acc.Nonce(created))
      && acc.Balance(created) == msg.value + (if w.acc.Exists(created) then w.acc.Balance(created) else 0)
      && acc.Balance(msg.caller) == w.acc.Balance(msg.caller) - msg.value
      && (forall a: Address :: a != created && a != msg.caller ==> acc.Balance(a) == w.acc.Balance(a))
      && (forall a: Address :: a != created ==> acc.Nonce(a) == w.acc.Nonce(a) && acc.Code(a) == w.acc.Code(a))
  {
    hide InitCreated;
    CreatedAlone(w.acc, msg.callee);
  }

  /** The creation before the value arrives. */
  lemma CreatedAlone(was: Accounts, a: Address)
    ensures var acc := InitCreated(was, a);
      && acc.Exists(a) && acc.Code(a) == was.Code(a)
      && acc.Nonce(a) == (if was.Nonce(a) == 0 && was.Code(a) == [] then 1 else was.Nonce(a))
      && acc.Balance(a) == (if was.Exists(a) then was.Balance(a) else 0)
      && forall b: Address :: b != a ==>
           acc.Balance(b) == was.Balance(b) && acc.Nonce(b) == was.Nonce(b) && acc.Code(b) == was.Code(b)
  {
  }

  /** A message that runs code ends as its frame ends; only success and REVERT keep the gas that is left. */
  lemma RunsToTheEnd(env: Env, hook: Hook, w: World, msg: Message, parent: Ctx)
    requires Enter(env, w, msg, parent).Entered?
    ensures var o := ExecuteMessage(env, hook, w, msg, parent);
      var run := RunFrame(env, hook, Enter(env, w, msg, parent).w, Enter(env, w, msg, parent).f);
      && o.res.status == run.res.status && o.res.returnData == run.res.returnData
      && o.res.gasRefund == run.res.gasRefund && o.res.logs == run.res.logs
      && o.res.gasRemaining
         == (if run.res.status == Success || run.res.status == Reverted then run.res.gasRemaining else 0)
      && (run.res.status == Success ==> o.w == run.w.(active := w.active))
  {
    hide Enter, RunFrame, Revert;
  }

  /** A precompile answers for its address, if the gas it asks for is there. */
  lemma PrecompileAnswers(env: Env, hook: Hook, w: World, msg: Message, parent: Ctx)
    requires !Enter(env, w, msg, parent).Refused? && msg.codeAddr in env.precompiles
    ensures var p, o := env.precompiles[msg.codeAddr], ExecuteMessage(env, hook, w, msg, parent);
      var gas, output := p.gas(msg.input), p.run(msg.input);
      && (o.res.status == Success <==> gas.Some? && gas.value <= msg.gas && output.Some?)
      && (o.res.status == Success ==>
            o.res.gasRemaining == msg.gas - gas.value && o.res.returnData == output.value && o.res.gasRefund == 0)
      && (o.res.status != Success ==> o.res.gasRemaining == 0)
      && (o.res.status == OutOfGas <==> gas.Some? && gas.value > msg.gas)
  {
    hide Funded, Revert;
  }
}
