/** What a run of the engine does to accounts, storage and their journals is what some strategy of operations does. */
module EngineStrategy {
  import opened Base
  import opened Ledger
  import opened Machine
  import opened Execution
  import opened Run
  import opened Effects
  import opened TopLevel
  import opened Jobs
  import CodeKept
  import E = Eager
  import Gas
  import M = Memory
  import R = Reconstruction
  import StorageTelescope
  import W = WriteBack

  // ---------------------------------------------------------------- a world as an eager state

  ghost function AccountsOf(acc: Accounts): imap<Address, E.Entry> {
    imap a: Address | true :: E.EntryOf(acc, a)
  }

  ghost function SlotsOf(sto: Slots): imap<SlotKey, E.SlotEntry> {
    imap k: SlotKey | true :: E.SlotOf(sto, k)
  }

  ghost function SavedAccounts(saved: seq<Accounts>): (r: seq<imap<Address, E.Entry>>)
    ensures |r| == |saved| && forall i :: 0 <= i < |r| ==> r[i] == AccountsOf(saved[i])
  {
    seq(|saved|, i requires 0 <= i < |saved| => AccountsOf(saved[i]))
  }

  ghost function SavedSlots(saved: seq<Slots>): (r: seq<imap<SlotKey, E.SlotEntry>>)
    ensures |r| == |saved| && forall i :: 0 <= i < |r| ==> r[i] == SlotsOf(saved[i])
  {
    seq(|saved|, i requires 0 <= i < |saved| => SlotsOf(saved[i]))
  }

  /** Accounts, slots and both journals of a world. */
  ghost function StateOf(w: World): (e: E.EagerState)
    ensures e.Total()
  {
    E.EagerState(AccountsOf(w.acc), SavedAccounts(w.accSnaps), SlotsOf(w.sto), SavedSlots(w.stoSnaps))
  }

  /** Every slot held, or held by a snapshot, has its original value on record. */
  ghost predicate AllRecorded(w: World) {
    && StorageTelescope.Recorded(w.sto)
    && forall i :: 0 <= i < |w.stoSnaps| ==> StorageTelescope.Recorded(w.stoSnaps[i])
  }

  // ---------------------------------------------------------------- lists of operations

  ghost function PerformAll(e: E.EagerState, ops: seq<E.Op>, hash: Bytes -> Hash): (r: E.EagerState)
    requires e.Total()
    ensures r.Total()
    decreases |ops|
  {
    if ops == [] then e
    else
      E.PerformTotal(e, ops[0], hash);
      PerformAll(E.Perform(e, ops[0], hash).0, ops[1..], hash)
  }

  lemma {:induction false} PerformConcat(e: E.EagerState, a: seq<E.Op>, b: seq<E.Op>, hash: Bytes -> Hash)
    requires e.Total()
    ensures PerformAll(e, a + b, hash) == PerformAll(PerformAll(e, a, hash), b, hash)
    decreases |a|
  {
    hide E.Perform, E.EagerState.Total;
    if a == [] {
      assert a + b == b;
    } else {
      assert (a + b)[0] == a[0] && (a + b)[1..] == a[1..] + b;
      E.PerformTotal(e, a[0], hash);
      PerformConcat(E.Perform(e, a[0], hash).0, a[1..], b, hash);
    }
  }

  /** Some operations lead from one world's state to the other's, and originals stay on record. */
  ghost predicate Reached(w: World, w1: World, hash: Bytes -> Hash) {
    AllRecorded(w) ==>
      AllRecorded(w1) && exists ops :: PerformAll(StateOf(w), ops, hash) == StateOf(w1)
  }

  lemma ReachedThrough(w: World, w1: World, w2: World, hash: Bytes -> Hash)
    requires Reached(w, w1, hash) && Reached(w1, w2, hash)
    ensures Reached(w, w2, hash)
  {
    hide AllRecorded, StateOf, PerformAll, E.EagerState.Total;
    if AllRecorded(w) {
      var a :| PerformAll(StateOf(w), a, hash) == StateOf(w1);
      var b :| PerformAll(StateOf(w1), b, hash) == StateOf(w2);
      PerformConcat(StateOf(w), a, b, hash);
      assert PerformAll(StateOf(w), a + b, hash) == StateOf(w2);
    }
  }

  /** Only accounts, storage and their journals count. */
  lemma SameReached(w: World, w1: World, hash: Bytes -> Hash)
    requires w1.acc == w.acc && w1.accSnaps == w.accSnaps && w1.sto == w.sto && w1.stoSnaps == w.stoSnaps
    ensures Reached(w, w1, hash)
  {
    hide E.EntryOf, E.SlotOf;
    assert PerformAll(StateOf(w), [], hash) == StateOf(w1);
  }

  lemma OneReached(w: World, w1: World, op: E.Op, hash: Bytes -> Hash)
    requires AllRecorded(w) ==> AllRecorded(w1) && E.Perform(StateOf(w), op, hash).0 == StateOf(w1)
    ensures Reached(w, w1, hash)
  {
    hide E.Perform, AllRecorded, StateOf, E.EagerState.Total;
    if AllRecorded(w) {
      assert [op][1..] == [];
      assert PerformAll(StateOf(w), [op], hash) == StateOf(w1);
    }
  }

  // ---------------------------------------------------------------- single operations

  /** An operation on one account. */
  lemma AccountReached(w: World, acc: Accounts, op: E.Op, hash: Bytes -> Hash)
    requires E.OnAccount(op)
    requires forall b: Address :: b != op.a ==> E.EntryOf(acc, b) == E.EntryOf(w.acc, b)
    requires E.EntryOf(acc, op.a) == E.OnEntry(E.EntryOf(w.acc, op.a), op, hash).0
    ensures Reached(w, w.(acc := acc), hash)
  {
    hide E.EntryOf, E.SlotOf, E.OnEntry;
    assert AccountsOf(acc) == AccountsOf(w.acc)[op.a := E.OnEntry(E.EntryOf(w.acc, op.a), op, hash).0];
    OneReached(w, w.(acc := acc), op, hash);
  }

  lemma BalanceReached(w: World, a: Address, amount: int, hash: Bytes -> Hash)
    ensures Reached(w, w.(acc := w.acc.SetBalance(a, amount)), hash)
  {
    hide Reached;
    AccountReached(w, w.acc.SetBalance(a, amount), E.SetBalance(a, amount), hash);
  }

  lemma NonceReached(w: World, a: Address, nonce: u64, hash: Bytes -> Hash)
    ensures Reached(w, w.(acc := w.acc.SetNonce(a, nonce)), hash)
  {
    hide Reached;
    AccountReached(w, w.acc.SetNonce(a, nonce), E.SetNonce(a, nonce), hash);
  }

  lemma CodeReached(w: World, a: Address, code: Bytes, hash: Bytes -> Hash)
    ensures Reached(w, w.(acc := w.acc.SetCode(a, code, hash(code))), hash)
  {
    hide Reached;
    AccountReached(w, w.acc.SetCode(a, code, hash(code)), E.SetCode(a, code), hash);
  }

  lemma DeletedReached(w: World, a: Address, hash: Bytes -> Hash)
    ensures Reached(w, w.(acc := w.acc.SelfDestruct(a)), hash)
  {
    hide Reached;
    AccountReached(w, w.acc.SelfDestruct(a), E.SelfDestruct(a), hash);
  }

  lemma MoveReached(w: World, from: Address, to: Address, amount: int, hash: Bytes -> Hash)
    ensures Reached(w, w.(acc := w.acc.Move(from, to, amount)), hash)
  {
    hide Reached;
    var w1 := w.(acc := w.acc.SubBalance(from, amount));
    BalanceReached(w, from, w.acc.Balance(from) - amount, hash);
    BalanceReached(w1, to, w1.acc.Balance(to) + amount, hash);
    ReachedThrough(w, w1, w1.(acc := w1.acc.AddBalance(to, amount)), hash);
  }

  lemma SlotReached(w: World, k: SlotKey, v: Hash, hash: Bytes -> Hash)
    ensures Reached(w, w.(sto := w.sto.Set(k, v)), hash)
  {
    hide E.EntryOf;
    var w1 := w.(sto := w.sto.Set(k, v));
    if AllRecorded(w) {
      assert SlotsOf(w1.sto) == SlotsOf(w.sto)[k := SlotsOf(w.sto)[k].(value := v)];
    }
    OneReached(w, w1, E.Set(k, v), hash);
  }

  /** Both journals take a snapshot. */
  lemma SnapshotsReached(w: World, hash: Bytes -> Hash)
    ensures Reached(w, w.(accSnaps := w.accSnaps + [w.acc], stoSnaps := w.stoSnaps + [w.sto]), hash)
  {
    hide E.EntryOf, E.SlotOf;
    var w1 := w.(accSnaps := w.accSnaps + [w.acc]);
    var w2 := w1.(stoSnaps := w1.stoSnaps + [w1.sto]);
    assert SavedAccounts(w1.accSnaps) == SavedAccounts(w.accSnaps) + [AccountsOf(w.acc)];
    assert SavedSlots(w2.stoSnaps) == SavedSlots(w1.stoSnaps) + [SlotsOf(w1.sto)];
    OneReached(w, w1, E.SnapshotAccounts, hash);
    OneReached(w1, w2, E.SnapshotStorage, hash);
    ReachedThrough(w, w1, w2, hash);
  }

  lemma AccountsReverted(w: World, id: nat, hash: Bytes -> Hash)
    requires id < |w.accSnaps|
    ensures Reached(w, w.(acc := w.accSnaps[id], accSnaps := w.accSnaps[..id]), hash)
  {
    hide E.EntryOf, E.SlotOf;
    var w1 := w.(acc := w.accSnaps[id], accSnaps := w.accSnaps[..id]);
    assert SavedAccounts(w1.accSnaps) == SavedAccounts(w.accSnaps)[..id];
    OneReached(w, w1, E.RevertAccounts(id), hash);
  }

  lemma StorageReverted(w: World, id: nat, hash: Bytes -> Hash)
    requires id < |w.stoSnaps|
    ensures Reached(w, w.(sto := w.stoSnaps[id], stoSnaps := w.stoSnaps[..id]), hash)
  {
    hide E.EntryOf, E.SlotOf;
    var w1 := w.(sto := w.stoSnaps[id], stoSnaps := w.stoSnaps[..id]);
    assert SavedSlots(w1.stoSnaps) == SavedSlots(w.stoSnaps)[..id];
    OneReached(w, w1, E.RevertStorage(id), hash);
  }

  lemma RevertReached(w: World, accId: nat, stoId: nat, hash: Bytes -> Hash)
    ensures Reached(w, Revert(w, accId, stoId), hash)
  {
    hide Reached;
    var w1 := if accId < |w.accSnaps| then w.(acc := w.accSnaps[accId], accSnaps := w.accSnaps[..accId]) else w;
    SameReached(w, w, hash);
    if accId < |w.accSnaps| {
      AccountsReverted(w, accId, hash);
    }
    SameReached(w1, w1, hash);
    if stoId < |w1.stoSnaps| {
      StorageReverted(w1, stoId, hash);
    }
    ReachedThrough(w, w1, Revert(w, accId, stoId), hash);
  }

  // ---------------------------------------------------------------- one step

  lemma SstoreReached(w: World, f: Frame, hash: Bytes -> Hash)
    ensures Reached(w, OpSstore(w, f).w, hash)
  {
    hide Reached, StorageGas.StoreGas, StorageGas.RefundAfter;
    var w1 := OpSstore(w, f).w;
    SameReached(w, w1.(sto := w.sto), hash);
    if |f.stack| >= 2 {
      var k, v := (f.ctx.address, Arg(f, 0)), Arg(f, 1);
      SlotReached(w1.(sto := w.sto), k, v, hash);
      ReachedThrough(w, w1.(sto := w.sto), w1.(sto := w.sto.Set(k, v)), hash);
    }
  }

  lemma InheritedReached(w: World, heir: Address, self: Address, hash: Bytes -> Hash)
    ensures Reached(w, w.(acc := Inherited(w.acc, heir, self)), hash)
  {
    hide Reached;
    var balance := w.acc.Balance(self);
    var w1 := w.(acc := w.acc.AddBalance(heir, balance));
    var w2 := w1.(acc := w1.acc.SetBalance(self, 0));
    BalanceReached(w, heir, w.acc.Balance(heir) + balance, hash);
    BalanceReached(w1, self, 0, hash);
    ReachedThrough(w, w1, w2, hash);
    DeletedReached(w, self, hash);
    DeletedReached(w2, self, hash);
    ReachedThrough(w, w2, w2.(acc := w2.acc.SelfDestruct(self)), hash);
  }

  lemma DestructReached(w: World, f: Frame, hash: Bytes -> Hash)
    ensures Reached(w, OpSelfdestruct(w, f).w, hash)
  {
    hide Reached, DestructCost, Inherited;
    var w1 := OpSelfdestruct(w, f).w;
    SameReached(w, w1.(acc := w.acc), hash);
    if |f.stack| >= 1 {
      var heir, self := ToAddress(Arg(f, 0)), f.ctx.address;
      InheritedReached(w1.(acc := w.acc), heir, self, hash);
      ReachedThrough(w, w1.(acc := w.acc), w1.(acc := Inherited(w.acc, heir, self)), hash);
    }
  }

  lemma CreateReached(env: Env, w: World, f: Frame, create2: bool)
    ensures Reached(w, WorldOf(OpCreate(env, w, f, create2)), env.keccak)
  {
    hide Reached, OpCreate;
    var w1 := WorldOf(OpCreate(env, w, f, create2));
    OpCreateEffect(env, w, f, create2);
    SameReached(w, w1.(acc := w.acc), env.keccak);
    NonceReached(w1.(acc := w.acc), f.ctx.address, Add64(w.acc.Nonce(f.ctx.address), 1), env.keccak);
    ReachedThrough(w, w1.(acc := w.acc), w1.(acc := w.acc.IncrementNonce(f.ctx.address)), env.keccak);
  }

  lemma CallReached(env: Env, w: World, f: Frame, kind: CallKind)
    ensures Reached(w, WorldOf(OpCall(env, w, f, kind)), env.keccak)
  {
    hide Reached, OpCall;
    OpCallEffect(env, w, f, kind);
    SameReached(w, WorldOf(OpCall(env, w, f, kind)), env.keccak);
  }

  lemma ExecuteReached(env: Env, w: World, f: Frame, op: byte)
    ensures Reached(w, WorldOf(Execute(env, w, f, op)), env.keccak)
  {
    hide Reached, LocalOp, OpSstore, OpTstore, OpSelfdestruct, OpCreate, OpCall;
    SameReached(w, w, env.keccak);
    SstoreReached(w, f, env.keccak);
    OpTstoreEffect(w, f);
    SameReached(w, OpTstore(w, f).w, env.keccak);
    DestructReached(w, f, env.keccak);
    CreateReached(env, w, f, op == 0xF5);
    CallReached(env, w, f, Call);
    CallReached(env, w, f, CallCode);
    CallReached(env, w, f, DelegateCall);
    CallReached(env, w, f, StaticCall);
  }

  lemma StepReached(env: Env, w: World, f: Frame)
    requires f.pc < |f.ctx.code|
    ensures Reached(w, WorldOf(Step(env, NO_HOOK, w, f)), env.keccak)
  {
    hide Reached, DynamicGas, Execute, BaseGas, MinFork, Fire;
    var op := f.ctx.code[f.pc];
    DynamicGasEffect(w, f, op);
    var (dynamic, w1) := DynamicGas(w, f, op);
    SameReached(w, Record(w, f, None), env.keccak);
    SameReached(w, Record(w1, f, None), env.keccak);
    if env.fork >= MinFork(op) && dynamic + BaseGas(op) <= f.gas {
      var paid := f.(gas := f.gas - dynamic - BaseGas(op));
      FireEffect(env, NO_HOOK, w1, paid);
      var fired := Fire(env, NO_HOOK, w1, paid);
      SameReached(w, fired.w, env.keccak);
      ExecuteReached(env, fired.w, fired.f, op);
      ReachedThrough(w, fired.w, WorldOf(Execute(env, fired.w, fired.f, op)), env.keccak);
    }
  }

  // ---------------------------------------------------------------- messages

  lemma FundedReached(w: World, msg: Message, hash: Bytes -> Hash)
    ensures Reached(w, w.(acc := Funded(w.acc, msg)), hash)
  {
    hide Reached;
    var a := msg.callee;
    SameReached(w, w, hash);
    var w1 := if msg.isCreate && !w.acc.Exists(a) then w.(acc := w.acc.CreateAccount(a)) else w;
    BalanceReached(w, a, 0, hash);
    var w2 := if msg.isCreate && w1.acc.Nonce(a) == 0 && w1.acc.Code(a) == [] then w1.(acc := w1.acc.SetNonce(a, 1))
              else w1;
    SameReached(w1, w1, hash);
    NonceReached(w1, a, 1, hash);
    ReachedThrough(w, w1, w2, hash);
    MoveReached(w2, msg.caller, a, msg.value, hash);
    ReachedThrough(w, w2, w2.(acc := w2.acc.Move(msg.caller, a, msg.value)), hash);
  }

  /** Entering a message: the snapshots, then the funding. */
  lemma EntryReached(w: World, msg: Message, hash: Bytes -> Hash)
    ensures Reached(w, w.(accSnaps := w.accSnaps + [w.acc], stoSnaps := w.stoSnaps + [w.sto],
                          acc := Funded(w.acc, msg)), hash)
  {
    hide Reached, Funded;
    var w1 := w.(accSnaps := w.accSnaps + [w.acc], stoSnaps := w.stoSnaps + [w.sto]);
    SnapshotsReached(w, hash);
    FundedReached(w1, msg, hash);
    ReachedThrough(w, w1, w1.(acc := Funded(w1.acc, msg)), hash);
  }

  lemma ExitReached(w: World, accId: nat, stoId: nat, res: Result, hash: Bytes -> Hash)
    ensures Reached(w, Exit(w, accId, stoId, res).w, hash)
  {
    hide Reached, Revert;
    SameReached(w, w, hash);
    RevertReached(w, accId, stoId, hash);
  }

  lemma DeployedReached(env: Env, w: World, f: Frame, target: Address, code: Bytes)
    ensures Reached(w, Deployed(env, w, f, target, code).w, env.keccak)
  {
    hide Reached;
    var w1 := w.(acc := w.acc.SetCode(target, code, env.keccak(code)));
    CodeReached(w, target, code, env.keccak);
    CodeReached(w1, target, [], env.keccak);
    ReachedThrough(w, w1, w1.(acc := w1.acc.SetCode(target, [], env.keccak([]))), env.keccak);
  }

  lemma ResumeReached(env: Env, w: World, f: Frame, k: Pending, res: Result)
    ensures Reached(w, Resume(env, w, f, k, res).w, env.keccak)
  {
    hide Reached, M.Set, Deployed;
    SameReached(w, w, env.keccak);
    if k.PendingCreate? {
      DeployedReached(env, w, Merge(f, res), k.msg.callee, res.returnData);
    }
  }

  lemma {:induction false} FrameReached(env: Env, w: World, f: Frame)
    ensures Reached(w, RunFrame(env, NO_HOOK, w, f).w, env.keccak)
    decreases FrameRank(f.ctx.depth), f.gas
  {
    hide Reached, Step, Resume, Enter, Exit;
    SameReached(w, w, env.keccak);
    if f.pc < |f.ctx.code| {
      Gas.StepSpends(env, NO_HOOK, w, f);
      StepReached(env, w, f);
      var end := RunFrame(env, NO_HOOK, w, f).w;
      match Step(env, NO_HOOK, w, f)
      case Done(Next(w1, f1)) =>
        FrameReached(env, w1, f1);
        ReachedThrough(w, w1, end, env.keccak);
      case Done(Stop(_, _)) =>
      case Invoke(w1, f1, k) =>
        var o := ExecuteMessage(env, NO_HOOK, w1, k.msg, f1.ctx);
        MessageReached(env, w1, k.msg, f1.ctx);
        ReachedThrough(w, w1, o.w, env.keccak);
        Gas.ResumeGas(env, o.w, f1, k, o.res);
        ResumeReached(env, o.w, f1, k, o.res);
        var r := Resume(env, o.w, f1, k, o.res);
        ReachedThrough(w, o.w, r.w, env.keccak);
        if r.Next? {
          FrameReached(env, r.w, r.f);
          ReachedThrough(w, r.w, end, env.keccak);
        }
    }
  }

  lemma {:induction false} MessageReached(env: Env, w: World, msg: Message, parent: Ctx)
    ensures Reached(w, ExecuteMessage(env, NO_HOOK, w, msg, parent).w, env.keccak)
    decreases MessageRank(msg.depth), 0
  {
    hide Reached, Funded, RunPrecompile, Exit;
    var entered := w.(accSnaps := w.accSnaps + [w.acc], stoSnaps := w.stoSnaps + [w.sto], acc := Funded(w.acc, msg));
    var end := ExecuteMessage(env, NO_HOOK, w, msg, parent).w;
    SameReached(w, w, env.keccak);
    EntryReached(w, msg, env.keccak);
    match Enter(env, w, msg, parent)
    case Refused(_) =>
    case Ran(w1, res) =>
      ExitReached(w1, |w.accSnaps|, |w.stoSnaps|, res, env.keccak);
      ReachedThrough(w, w1, end, env.keccak);
    case Entered(w1, f) =>
      SameReached(entered, w1, env.keccak);
      ReachedThrough(w, entered, w1, env.keccak);
      FrameReached(env, w1, f);
      var o := RunFrame(env, NO_HOOK, w1, f);
      var closed := o.w.(active := w.active);
      ReachedThrough(w, w1, o.w, env.keccak);
      SameReached(o.w, closed, env.keccak);
      ReachedThrough(w, o.w, closed, env.keccak);
      ExitReached(closed, |w.accSnaps|, |w.stoSnaps|, o.res, env.keccak);
      ReachedThrough(w, closed, end, env.keccak);
  }

  // ---------------------------------------------------------------- transactions

  lemma ValueReached(cfg: Config, w: World, hash: Bytes -> Hash)
    ensures Reached(w, WithValue(cfg, w), hash)
  {
    hide Reached;
    SameReached(w, w, hash);
    if MovesValue(cfg) {
      var w1 := w.(accSnaps := w.accSnaps + [w.acc], stoSnaps := w.stoSnaps + [w.sto]);
      SnapshotsReached(w, hash);
      MoveReached(w1, cfg.caller, cfg.contract, cfg.value, hash);
      ReachedThrough(w, w1, WithValue(cfg, w), hash);
    }
  }

  lemma BurnReached(cfg: Config, w: World, burn: nat, hash: Bytes -> Hash)
    ensures Reached(w, BurnFrom(cfg, w, burn), hash)
  {
    hide Reached;
    SameReached(w, w, hash);
    if cfg.block.Some? {
      BalanceReached(w, cfg.block.value.coinbase, w.acc.Balance(cfg.block.value.coinbase) - burn, hash);
    }
  }

  lemma CallJobReached(env: Env, w: World, cfg: Config)
    requires cfg.gasLimit > 0 && !Unaffordable(cfg, w)
    ensures Reached(w, RunCall(env, NO_HOOK, w, cfg).w, env.keccak)
  {
    hide Reached, RunFrame, InitiallyWarm, Burn, WithValue, BurnFrom, Revert;
    var w0, f := Warmed(env, cfg, w), FreshFrame(RootCtx(cfg), cfg.gasLimit);
    var o := RunFrame(env, NO_HOOK, WithValue(cfg, w0), f);
    var w1 := if MovesValue(cfg) && !o.res.status.Success? then Revert(o.w, |w0.accSnaps|, |w0.stoSnaps|) else o.w;
    SameReached(w, w0, env.keccak);
    ValueReached(cfg, w0, env.keccak);
    ReachedThrough(w, w0, WithValue(cfg, w0), env.keccak);
    FrameReached(env, WithValue(cfg, w0), f);
    ReachedThrough(w, WithValue(cfg, w0), o.w, env.keccak);
    SameReached(o.w, o.w, env.keccak);
    RevertReached(o.w, |w0.accSnaps|, |w0.stoSnaps|, env.keccak);
    ReachedThrough(w, o.w, w1, env.keccak);
    BurnReached(cfg, w1, Burn(cfg, o.res), env.keccak);
    ReachedThrough(w, w1, BurnFrom(cfg, w1, Burn(cfg, o.res)), env.keccak);
  }

  lemma JobReached(env: Env, w: World, job: Job)
    ensures Reached(w, RunJob(env, NO_HOOK, w, job).w, env.keccak)
  {
    hide Reached, RunFrame, ExecuteMessage, InitiallyWarm, Burn, Enter;
    var w0 := Warmed(env, job.cfg, w);
    SameReached(w, w, env.keccak);
    SameReached(w, w0, env.keccak);
    if job.CreateJob? {
      MessageReached(env, w0, CreationMessage(job.cfg, job.target), RootCtx(job.cfg));
      ReachedThrough(w, w0, RunJob(env, NO_HOOK, w, job).w, env.keccak);
    } else if job.cfg.gasLimit > 0 && !Unaffordable(job.cfg, w) {
      CallJobReached(env, w, job.cfg);
    }
  }

  // ---------------------------------------------------------------- what the engine reads

  /** An operation on one account that leaves it as it is changes nothing. */
  lemma ReadAnswers(w: World, op: E.Op, hash: Bytes -> Hash)
    requires E.OnAccount(op) && E.OnEntry(E.EntryOf(w.acc, op.a), op, hash).0 == E.EntryOf(w.acc, op.a)
    ensures E.Perform(StateOf(w), op, hash) == (StateOf(w), E.OnEntry(E.EntryOf(w.acc, op.a), op, hash).1)
  {
    hide E.EntryOf, E.SlotOf, E.OnEntry;
    assert AccountsOf(w.acc)[op.a := E.EntryOf(w.acc, op.a)] == AccountsOf(w.acc);
  }

  /** What an operation answers in a world's state is what the engine reads there. */
  lemma ReadsAgree(w: World, a: Address, hash: Bytes -> Hash)
    ensures var e := StateOf(w);
      && E.Perform(e, E.Balance(a), hash) == (e, E.Number(w.acc.Balance(a)))
      && E.Perform(e, E.Nonce(a), hash) == (e, E.Number(w.acc.Nonce(a)))
      && E.Perform(e, E.Code(a), hash) == (e, E.Content(w.acc.Code(a)))
      && E.Perform(e, E.CodeHash(a), hash) == (e, E.Digest(w.acc.CodeHash(a)))
  {
    hide E.Perform, StateOf, E.EagerState.Total;
    ReadAnswers(w, E.Balance(a), hash);
    ReadAnswers(w, E.Nonce(a), hash);
    ReadAnswers(w, E.Code(a), hash);
    ReadAnswers(w, E.CodeHash(a), hash);
  }

  /** The same of the questions with a yes or a no. */
  lemma FlagsAgree(w: World, a: Address, hash: Bytes -> Hash)
    ensures var e := StateOf(w);
      && E.Perform(e, E.Exists(a), hash) == (e, E.Flag(w.acc.Exists(a)))
      && E.Perform(e, E.IsEmpty(a), hash) == (e, E.Flag(w.acc.IsEmpty(a)))
      && E.Perform(e, E.HasCodeOrNonce(a), hash) == (e, E.Flag(w.acc.HasCodeOrNonce(a)))
      && E.Perform(e, E.SelfDestructed(a), hash) == (e, E.Flag(a in w.acc.deleted))
  {
    hide E.Perform, StateOf, E.EagerState.Total;
    ReadAnswers(w, E.Exists(a), hash);
    ReadAnswers(w, E.IsEmpty(a), hash);
    ReadAnswers(w, E.HasCodeOrNonce(a), hash);
    ReadAnswers(w, E.SelfDestructed(a), hash);
  }

  /** The same of a slot's value and of what it started with. */
  lemma SlotReadsAgree(w: World, k: SlotKey, hash: Bytes -> Hash)
    ensures E.Perform(StateOf(w), E.Get(k), hash) == (StateOf(w), E.Digest(w.sto.Get(k)))
    ensures E.Perform(StateOf(w), E.Original(k), hash) == (StateOf(w), E.Digest(w.sto.Original(k)))
  {
    hide E.EntryOf;
  }

  // ---------------------------------------------------------------- as a strategy

  /** Performs a list of operations, whatever the answers. */
  function Scripted(ops: seq<E.Op>): E.Strategy {
    answers => if |answers| < |ops| then Some(ops[|answers|]) else None
  }

  lemma {:induction false} PlayScript(e: E.EagerState, ops: seq<E.Op>, hash: Bytes -> Hash, answers: seq<E.Answer>)
    requires e.Total() && |answers| <= |ops|
    ensures E.Play(e, Scripted(ops), hash, answers, |ops| - |answers|).0 == PerformAll(e, ops[|answers|..], hash)
    decreases |ops| - |answers|
  {
    hide E.Perform, E.EagerState.Total;
    var n := |answers|;
    if n < |ops| {
      E.PerformTotal(e, ops[n], hash);
      var (e1, answer) := E.Perform(e, ops[n], hash);
      PlayScript(e1, ops, hash, answers + [answer]);
      assert ops[n..][0] == ops[n] && ops[n..][1..] == ops[n + 1..];
    }
  }

  /** A transaction, as a reconstruction sees it, that performs a list of operations. */
  function ScriptedTx(ops: seq<E.Op>): R.Transaction {
    R.Transaction(None, [], code => Scripted(ops), |ops|, answers => None)
  }

  /** Executing this transaction on the state before a run gives the state after it. */
  ghost predicate Mimics(tx: R.Transaction, w: World, w1: World, hash: Bytes -> Hash) {
    R.Executed(StateOf(w), tx, hash).0 == StateOf(w1)
  }

  /**
   * The main result: what a replayed call or creation does to accounts, storage and journals is what some transaction
   * of a reconstruction does; and such a transaction takes code from no account, as a reconstruction asks.
   */
  lemma JobIsStrategy(env: Env, w: World, job: Job)
    requires AllRecorded(w)
    ensures exists tx :: Mimics(tx, w, RunJob(env, NO_HOOK, w, job).w, env.keccak)
    ensures forall tx :: Mimics(tx, w, RunJob(env, NO_HOOK, w, job).w, env.keccak) ==>
              W.KeepsCode(StateOf(w).accounts, R.Executed(StateOf(w), tx, env.keccak).0.accounts, None)
  {
    hide RunJob, StateOf, AllRecorded, PerformAll, E.EagerState.Total;
    var end := RunJob(env, NO_HOOK, w, job).w;
    JobReached(env, w, job);
    var ops :| PerformAll(StateOf(w), ops, env.keccak) == StateOf(end);
    assert ops[0..] == ops;
    PlayScript(StateOf(w), ops, env.keccak, []);
    assert Mimics(ScriptedTx(ops), w, end, env.keccak);
    CodeKept.JobKeepsCode(env, NO_HOOK, w, job);
    CodeStays(w, end);
  }

  lemma CodeStays(w: World, w1: World)
    requires CodeKept.CodeKept(w.acc, w1.acc)
    ensures W.KeepsCode(StateOf(w).accounts, StateOf(w1).accounts, None)
  {
    forall a: Address | w.acc.Code(a) != [] ensures w1.acc.Code(a) != [] {
    }
  }
}
