/** One shared access list bills each address and slot at the cold price at most once (EIP-2929). */
module ColdAccess {
  import opened Base
  import opened Ledger
  import opened StorageGas
  import opened Machine
  import opened Execution
  import opened Run
  import opened Effects
  import Gas
  import M = Memory

  predicate IsWarm(w: World, x: Access) {
    match x
    case ColdAddress(a) => a in w.warmAddrs
    case ColdSlot(k) => k in w.warmSlots
  }

  /**
   * From `w0` to `w` the list only grew, and every cold charge made in between was for something cold in `w0`,
   * is for something warm in `w`, and was made once.
   */
  ghost predicate BilledOnce(w0: World, w: World) {
    && w0.warmAddrs <= w.warmAddrs && w0.warmSlots <= w.warmSlots
    && |w0.billed| <= |w.billed| && w.billed[..|w0.billed|] == w0.billed
    && (forall i :: |w0.billed| <= i < |w.billed| ==> !IsWarm(w0, w.billed[i]) && IsWarm(w, w.billed[i]))
    && (forall i, j :: |w0.billed| <= i < j < |w.billed| ==> w.billed[i] != w.billed[j])
  }

  ghost predicate SameList(w: World, w1: World) {
    w1.warmAddrs == w.warmAddrs && w1.warmSlots == w.warmSlots && w1.billed == w.billed
  }

  /** The list after charging for `x`. */
  function After(w: World, x: Access): World {
    match x
    case ColdAddress(a) => TouchAddress(w, a).1
    case ColdSlot(k) => TouchSlot(w, k).1
  }

  lemma BilledOnceTransitive(w0: World, w1: World, w2: World)
    requires BilledOnce(w0, w1) && BilledOnce(w1, w2)
    ensures BilledOnce(w0, w2)
  {
    assert w2.billed[..|w0.billed|] == w1.billed[..|w0.billed|];
    forall i | |w0.billed| <= i < |w2.billed| ensures !IsWarm(w0, w2.billed[i]) && IsWarm(w2, w2.billed[i]) {
      if i < |w1.billed| {
        assert w2.billed[i] == w1.billed[i];
      }
    }
    forall i, j | |w0.billed| <= i < j < |w2.billed| ensures w2.billed[i] != w2.billed[j] {
      if i < |w1.billed| {
        assert w2.billed[i] == w1.billed[i];
      }
      if j < |w1.billed| {
        assert w2.billed[j] == w1.billed[j];
      }
    }
  }

  lemma TouchBillsOnce(w: World, x: Access)
    ensures BilledOnce(w, After(w, x))
  {
  }

  lemma SameListBills(w: World, w1: World)
    requires SameList(w, w1)
    ensures BilledOnce(w, w1)
  {
  }

  /** The five places that charge for access touch the list at most once each. */
  lemma DynamicGasTouches(w: World, f: Frame, op: byte)
    ensures var w1 := DynamicGas(w, f, op).1; w1 == w || exists x :: w1 == After(w, x)
  {
    hide CopyGas, MemGas, WordCount, ByteLength, ToU64;
    var w1 := DynamicGas(w, f, op).1;
    if w1 != w {
      if op == 0x54 {
        assert w1 == After(w, ColdSlot((f.ctx.address, Arg(f, 0))));
      } else {
        assert w1 == After(w, ColdAddress(ToAddress(Arg(f, 0))));
      }
    }
  }

  lemma ExecuteTouches(env: Env, w: World, f: Frame, op: byte)
    ensures var w1 := WorldOf(Execute(env, w, f, op)); SameList(w, w1) || exists x :: SameList(After(w, x), w1)
  {
    hide LocalOp, OpSstore, OpTstore, OpSelfdestruct, OpCall, OpCreate;
    SstoreTouches(w, f);
    SelfdestructTouches(w, f);
    CreateTouches(env, w, f, op == 0xF5);
    CallTouches(env, w, f, Call);
    CallTouches(env, w, f, CallCode);
    CallTouches(env, w, f, DelegateCall);
    CallTouches(env, w, f, StaticCall);
    TstoreTouches(w, f);
  }

  lemma SstoreTouches(w: World, f: Frame)
    ensures var w1 := OpSstore(w, f).w; SameList(w, w1) || exists x :: SameList(After(w, x), w1)
  {
    hide StoreGas, RefundAfter;
    if |f.stack| >= 2 && !f.ctx.isStatic && f.gas > CALL_STIPEND {
      assert SameList(After(w, ColdSlot((f.ctx.address, Arg(f, 0)))), OpSstore(w, f).w);
    }
  }

  lemma TstoreTouches(w: World, f: Frame)
    ensures SameList(w, OpTstore(w, f).w)
  {
  }

  lemma SelfdestructTouches(w: World, f: Frame)
    ensures var w1 := OpSelfdestruct(w, f).w; SameList(w, w1) || exists x :: SameList(After(w, x), w1)
  {
    if |f.stack| >= 1 && !f.ctx.isStatic {
      assert SameList(After(w, ColdAddress(ToAddress(Arg(f, 0)))), OpSelfdestruct(w, f).w);
    }
  }

  lemma CallTouches(env: Env, w: World, f: Frame, kind: CallKind)
    ensures var w1 := WorldOf(OpCall(env, w, f, kind)); SameList(w, w1) || exists x :: SameList(After(w, x), w1)
  {
    hide M.Get, M.Resize, CallGrowth, CallBase, ChildGas, ToNat, ToU64, Add64, Finish;
    var w1 := WorldOf(OpCall(env, w, f, kind));
    if w1 != w {
      assert SameList(After(w, ColdAddress(ToAddress(Arg(f, 1)))), w1);
    }
  }

  lemma CreateTouches(env: Env, w: World, f: Frame, create2: bool)
    ensures SameList(w, WorldOf(OpCreate(env, w, f, create2)))
  {
    hide M.Get, MemGas, MaxCallGas, ToNat, ToU64, Add64, Mul64, Finish;
  }

  lemma StepBillsOnce(env: Env, hook: Hook, w: World, f: Frame)
    requires f.pc < |f.ctx.code|
    ensures BilledOnce(w, WorldOf(Step(env, hook, w, f)))
  {
    hide DynamicGas, Fire, Execute, BaseGas, MinFork, BilledOnce, After;
    var op := f.ctx.code[f.pc];
    var (dynamic, w1) := DynamicGas(w, f, op);
    DynamicGasTouches(w, f, op);
    SameListBills(w, w);
    forall x ensures BilledOnce(w, After(w, x)) {
      TouchBillsOnce(w, x);
    }
    if env.fork >= MinFork(op) {
      if dynamic + BaseGas(op) <= f.gas {
        var paid := f.(gas := f.gas - dynamic - BaseGas(op));
        FireEffect(env, hook, w1, paid);
        var fired := Fire(env, hook, w1, paid);
        SameListBills(w1, fired.w);
        BilledOnceTransitive(w, w1, fired.w);
        var w2 := WorldOf(Execute(env, fired.w, fired.f, op));
        ExecuteTouches(env, fired.w, fired.f, op);
        if SameList(fired.w, w2) {
          SameListBills(fired.w, w2);
        } else {
          var x :| SameList(After(fired.w, x), w2);
          TouchBillsOnce(fired.w, x);
          SameListBills(After(fired.w, x), w2);
          BilledOnceTransitive(fired.w, After(fired.w, x), w2);
        }
        BilledOnceTransitive(w, fired.w, w2);
      } else {
        SameListBills(w1, Record(w1, f, None));
        BilledOnceTransitive(w, w1, Record(w1, f, None));
      }
    } else {
      SameListBills(w, Record(w, f, None));
    }
  }

  lemma ResumeSameList(env: Env, w: World, f: Frame, k: Pending, res: Result)
    ensures SameList(w, Resume(env, w, f, k, res).w)
  {
    hide M.Set;
  }

  /** Across every frame of a nested run; rollback does not give warmth back. */
  lemma {:induction false} FrameBillsOnce(env: Env, hook: Hook, w: World, f: Frame)
    ensures BilledOnce(w, RunFrame(env, hook, w, f).w)
    decreases FrameRank(f.ctx.depth), f.gas
  {
    hide Step, Resume, Enter, Exit, BilledOnce;
    SameListBills(w, w);
    if f.pc < |f.ctx.code| {
      Gas.StepSpends(env, hook, w, f);
      StepBillsOnce(env, hook, w, f);
      var last := RunFrame(env, hook, w, f).w;
      match Step(env, hook, w, f)
      case Done(Next(w1, f1)) =>
        FrameBillsOnce(env, hook, w1, f1);
        BilledOnceTransitive(w, w1, last);
      case Done(Stop(_, _)) =>
      case Invoke(w1, f1, k) =>
        var o := ExecuteMessage(env, hook, w1, k.msg, f1.ctx);
        MessageBillsOnce(env, hook, w1, k.msg, f1.ctx);
        BilledOnceTransitive(w, w1, o.w);
        Gas.ResumeGas(env, o.w, f1, k, o.res);
        ResumeSameList(env, o.w, f1, k, o.res);
        var r := Resume(env, o.w, f1, k, o.res);
        SameListBills(o.w, r.w);
        BilledOnceTransitive(w, o.w, r.w);
        if r.Next? {
          FrameBillsOnce(env, hook, r.w, r.f);
          BilledOnceTransitive(w, r.w, last);
        }
    }
  }

  lemma {:induction false} MessageBillsOnce(env: Env, hook: Hook, w: World, msg: Message, parent: Ctx)
    ensures BilledOnce(w, ExecuteMessage(env, hook, w, msg, parent).w)
    decreases MessageRank(msg.depth), 0
  {
    hide BilledOnce;
    var o := ExecuteMessage(env, hook, w, msg, parent);
    match Enter(env, w, msg, parent)
    case Refused(_) => SameListBills(w, w);
    case Ran(_, _) => SameListBills(w, o.w);
    case Entered(w1, f) =>
      FrameBillsOnce(env, hook, w1, f);
      SameListBills(w, w1);
      BilledOnceTransitive(w, w1, RunFrame(env, hook, w1, f).w);
      SameListBills(RunFrame(env, hook, w1, f).w, o.w);
      BilledOnceTransitive(w, RunFrame(env, hook, w1, f).w, o.w);
  }

  /** Read from the start of a run: nothing is billed twice, and nothing prewarmed is billed. */
  lemma RunBillsOnce(env: Env, hook: Hook, w: World, f: Frame)
    requires w.billed == []
    ensures var end := RunFrame(env, hook, w, f).w;
      && (forall i, j :: 0 <= i < j < |end.billed| ==> end.billed[i] != end.billed[j])
      && (forall x :: x in end.billed ==> !IsWarm(w, x))
      && (forall x :: IsWarm(w, x) ==> IsWarm(end, x))
  {
    FrameBillsOnce(env, hook, w, f);
  }

  // ---------------------------------------------------------------- the bill is what was charged

  /** Whether an access put `x` on the bill; the only other outcome is an unchanged bill. */
  ghost predicate Billed(w: World, w1: World, x: Access) {
    w1.billed == w.billed + [x]
  }

  /** SSTORE pays 2100 more exactly when it bills its slot. */
  lemma SstorePaysItsBill(w: World, f: Frame)
    requires OpSstore(w, f).Next?
    ensures var k := (f.ctx.address, Arg(f, 0)); var s := OpSstore(w, f);
      var cold := Billed(w, s.w, ColdSlot(k));
      && (cold || s.w.billed == w.billed)
      && f.gas - s.f.gas == StoreGas(false, w.sto.Original(k), w.sto.Get(k), Arg(f, 1)) + if cold then 2100 else 0
  {
  }

  /** SLOAD is charged 2100 when it bills its slot and 100 otherwise. */
  lemma SloadPaysItsBill(w: World, f: Frame)
    requires |f.stack| >= 1
    ensures var (gas, w1) := DynamicGas(w, f, 0x54);
      var cold := Billed(w, w1, ColdSlot((f.ctx.address, Arg(f, 0))));
      (cold || w1.billed == w.billed) && gas == if cold then 2100 else 100
  {
    hide ToU64, ToAddress, MemGas, CopyGas;
  }

  /** BALANCE, EXTCODESIZE and EXTCODEHASH are charged 2600 when they bill their address and 100 otherwise. */
  lemma AddressReadPaysItsBill(w: World, f: Frame, op: byte)
    requires |f.stack| >= 1 && (op == 0x31 || op == 0x3B || op == 0x3F)
    ensures var (gas, w1) := DynamicGas(w, f, op);
      var cold := Billed(w, w1, ColdAddress(ToAddress(Arg(f, 0))));
      (cold || w1.billed == w.billed) && gas == if cold then 2600 else 100
  {
    hide ToU64, ToAddress, MemGas, CopyGas;
  }

  /** SELFDESTRUCT pays 2600 more exactly when it bills the heir. */
  lemma SelfdestructPaysItsBill(w: World, f: Frame)
    requires OpSelfdestruct(w, f).Next?
    ensures var heir := ToAddress(Arg(f, 0)); var s := OpSelfdestruct(w, f);
      var cold := Billed(w, s.w, ColdAddress(heir));
      var born := heir != f.ctx.address && !w.acc.Exists(heir) && w.acc.Balance(f.ctx.address) > 0;
      && (cold || s.w.billed == w.billed)
      && f.gas - s.f.gas == 5000 + (if cold then 2600 else 0) + if born then 25000 else 0
  {
    hide ToAddress, Inherited;
  }

  /** The CALL family prices its target at 2600 when it bills it and at 100 otherwise. */
  lemma CallPaysItsBill(env: Env, w: World, f: Frame, kind: CallKind)
    requires OpCall(env, w, f, kind).Invoke?
    ensures var s := OpCall(env, w, f, kind); var target := ToAddress(Arg(f, 1));
      var cold := Billed(w, s.w, ColdAddress(target));
      var value := s.k.msg.value;
      var surcharge := if value > 0 then 9000 + (if w.acc.IsEmpty(target) then 25000 else 0) else 0;
      && (cold || s.w.billed == w.billed)
      && CallBase(w, target, kind, value) == (if cold then 2600 else 100) + surcharge
  {
    hide M.Get, M.Resize, CallGrowth, ChildGas, ToNat, ToU64, ToAddress, Add64, Finish, Accounts.IsEmpty;
  }
}
