/** Ether is neither made nor lost by any tree of messages, and no balance turns negative. */
module Conservation {
  import opened Base
  import opened Ledger
  import opened Machine
  import opened Execution
  import opened Run
  import opened Effects
  import opened Sums
  import Gas
  import Rollback

  lemma SupplyUpdated(acc: Accounts, a: Address, amount: int)
    ensures Sum(acc.SetBalance(a, amount).balances) == Sum(acc.balances) - acc.Balance(a) + amount
  {
    SumUpdated(acc.balances, a, amount);
  }

  ghost function Supply(acc: Accounts): int {
    Sum(acc.balances)
  }

  /** No debts, and nothing held by accounts that do not exist (CreateAccount would destroy it). */
  ghost predicate Sound(acc: Accounts) {
    forall a {:trigger acc.Balance(a)} :: acc.Balance(a) >= 0 && (!acc.Exists(a) ==> acc.Balance(a) == 0)
  }

  /** Setting a balance that is not negative keeps the books sound and shifts the supply by the difference. */
  lemma SetKeepsSound(acc: Accounts, a: Address, amount: nat)
    requires Sound(acc)
    ensures Sound(acc.SetBalance(a, amount))
    ensures Supply(acc.SetBalance(a, amount)) == Supply(acc) - acc.Balance(a) + amount
    ensures forall b {:trigger acc.SetBalance(a, amount).Balance(b)} ::
      acc.SetBalance(a, amount).Balance(b) == if b == a then amount else acc.Balance(b)
  {
    SupplyUpdated(acc, a, amount);
    var after := acc.SetBalance(a, amount);
    forall b ensures after.Balance(b) >= 0 && (!after.Exists(b) ==> after.Balance(b) == 0) {
      assert acc.Balance(b) >= 0 && after.Balance(b) == if b == a then amount else acc.Balance(b);
    }
  }

  /** Changes that leave the balances alone and only add accounts. */
  lemma SameBalances(acc: Accounts, acc1: Accounts)
    requires Sound(acc) && acc1.balances == acc.balances && acc.present <= acc1.present
    ensures Sound(acc1) && Supply(acc1) == Supply(acc)
  {
    forall a ensures acc1.Balance(a) >= 0 && (!acc1.Exists(a) ==> acc1.Balance(a) == 0) {
      assert acc1.Balance(a) == acc.Balance(a);
    }
  }

  lemma MoveConserves(acc: Accounts, from: Address, to: Address, amount: nat)
    requires Sound(acc) && amount <= acc.Balance(from)
    ensures Sound(acc.Move(from, to, amount)) && Supply(acc.Move(from, to, amount)) == Supply(acc)
  {
    SetKeepsSound(acc, from, acc.Balance(from) - amount);
    var mid := acc.SubBalance(from, amount);
    assert mid.Balance(to) >= 0;
    SetKeepsSound(mid, to, mid.Balance(to) + amount);
  }

  /** Creating the target keeps the supply because an account that does not exist holds nothing. */
  lemma InitConserves(acc: Accounts, a: Address)
    requires Sound(acc)
    ensures var acc1 := InitCreated(acc, a);
      && Sound(acc1) && Supply(acc1) == Supply(acc)
      && forall b {:trigger acc1.Balance(b)} :: acc1.Balance(b) == acc.Balance(b)
  {
    assert acc.Balance(a) >= 0;
    SetKeepsSound(acc, a, 0);
    var made := if acc.Exists(a) then acc else acc.CreateAccount(a);
    assert Sound(made) && Supply(made) == Supply(acc);
    var acc1 := InitCreated(acc, a);
    SameBalances(made, acc1);
    forall b ensures acc1.Balance(b) == acc.Balance(b) {
      assert acc1.Balance(b) == made.Balance(b);
    }
  }

  lemma FundingConserves(acc: Accounts, msg: Message)
    requires Sound(acc) && (msg.value > 0 ==> msg.value <= acc.Balance(msg.caller))
    ensures Sound(Funded(acc, msg)) && Supply(Funded(acc, msg)) == Supply(acc)
  {
    InitConserves(acc, msg.callee);
    var acc1 := if msg.isCreate then InitCreated(acc, msg.callee) else acc;
    assert acc1.Balance(msg.caller) == acc.Balance(msg.caller);
    if msg.value > 0 {
      MoveConserves(acc1, msg.caller, msg.callee, msg.value);
    }
  }

  /** Everything an inheritance moves comes out of the destroyed contract's own balance. */
  lemma SelfdestructConserves(w: World, f: Frame)
    requires Sound(w.acc)
    ensures var acc := OpSelfdestruct(w, f).w.acc; Sound(acc) && Supply(acc) == Supply(w.acc)
  {
    if |f.stack| >= 1 {
      InheritanceConserves(w.acc, ToAddress(Arg(f, 0)), f.ctx.address);
    }
  }

  lemma InheritanceConserves(acc: Accounts, heir: Address, self: Address)
    requires Sound(acc)
    ensures Sound(Inherited(acc, heir, self)) && Supply(Inherited(acc, heir, self)) == Supply(acc)
  {
    var balance := acc.Balance(self);
    assert acc.Balance(heir) >= 0;
    var moved := if heir != self && balance > 0 then acc.AddBalance(heir, balance).SetBalance(self, 0) else acc;
    if heir != self && balance > 0 {
      SetKeepsSound(acc, heir, acc.Balance(heir) + balance);
      SetKeepsSound(acc.AddBalance(heir, balance), self, 0);
    }
    SameBalances(moved, moved.SelfDestruct(self));
  }

  lemma StepConserves(env: Env, hook: Hook, w: World, f: Frame)
    requires f.pc < |f.ctx.code| && Sound(w.acc)
    ensures var acc := WorldOf(Step(env, hook, w, f)).acc; Sound(acc) && Supply(acc) == Supply(w.acc)
  {
    hide DynamicGas, Fire, BaseGas, MinFork, LocalOp, OpSstore, OpTstore, OpSelfdestruct, OpCall, OpCreate;
    var op := f.ctx.code[f.pc];
    DynamicGasEffect(w, f, op);
    var (dynamic, w1) := DynamicGas(w, f, op);
    if env.fork >= MinFork(op) && dynamic + BaseGas(op) <= f.gas {
      var paid := f.(gas := f.gas - dynamic - BaseGas(op));
      FireEffect(env, hook, w1, paid);
      var fired := Fire(env, hook, w1, paid);
      OpSstoreEffect(fired.w, fired.f);
      OpTstoreEffect(fired.w, fired.f);
      SelfdestructConserves(fired.w, fired.f);
      OpCreateEffect(env, fired.w, fired.f, op == 0xF5);
      OpCallEffect(env, fired.w, fired.f, Call);
      OpCallEffect(env, fired.w, fired.f, CallCode);
      OpCallEffect(env, fired.w, fired.f, DelegateCall);
      OpCallEffect(env, fired.w, fired.f, StaticCall);
      NonceConserves(w.acc, f.ctx.address);
    }
  }

  lemma NonceConserves(acc: Accounts, a: Address)
    requires Sound(acc)
    ensures Sound(acc.IncrementNonce(a)) && Supply(acc.IncrementNonce(a)) == Supply(acc)
  {
    SameBalances(acc, acc.IncrementNonce(a));
  }

  lemma ResumeConserves(env: Env, w: World, f: Frame, k: Pending, res: Result)
    requires Sound(w.acc)
    ensures var acc := Resume(env, w, f, k, res).w.acc; Sound(acc) && Supply(acc) == Supply(w.acc)
  {
    var acc := Resume(env, w, f, k, res).w.acc;
    SameBalances(w.acc, acc);
  }

  lemma {:induction false} FrameConserves(env: Env, hook: Hook, w: World, f: Frame)
    requires Sound(w.acc)
    ensures var acc := RunFrame(env, hook, w, f).w.acc; Sound(acc) && Supply(acc) == Supply(w.acc)
    decreases FrameRank(f.ctx.depth), f.gas
  {
    hide Step, Resume, Enter, Exit, Sound, Supply;
    if f.pc < |f.ctx.code| {
      Gas.StepSpends(env, hook, w, f);
      StepConserves(env, hook, w, f);
      match Step(env, hook, w, f)
      case Done(Next(w1, f1)) => FrameConserves(env, hook, w1, f1);
      case Done(Stop(_, _)) =>
      case Invoke(w1, f1, k) =>
        var o := ExecuteMessage(env, hook, w1, k.msg, f1.ctx);
        MessageConserves(env, hook, w1, k.msg, f1.ctx);
        Gas.ResumeGas(env, o.w, f1, k, o.res);
        ResumeConserves(env, o.w, f1, k, o.res);
        match Resume(env, o.w, f1, k, o.res)
        case Next(w2, f2) => FrameConserves(env, hook, w2, f2);
        case Stop(_, _) =>
    }
  }

  /** The main result, for every outcome of every message. */
  lemma {:induction false} MessageConserves(env: Env, hook: Hook, w: World, msg: Message, parent: Ctx)
    requires Sound(w.acc)
    ensures var acc := ExecuteMessage(env, hook, w, msg, parent).w.acc; Sound(acc) && Supply(acc) == Supply(w.acc)
    decreases MessageRank(msg.depth), 0
  {
    Rollback.MessageIsAtomic(env, hook, w, msg, parent);
    match Enter(env, w, msg, parent)
    case Refused(_) =>
    case Ran(_, _) => FundingConserves(w.acc, msg);
    case Entered(w1, f) =>
      FundingConserves(w.acc, msg);
      FrameConserves(env, hook, w1, f);
  }
}
