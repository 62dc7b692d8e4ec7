/** What each kind of instruction may change in the world the frames share. */
module Effects {
  import opened Base
  import opened Ledger
  import opened StorageGas
  import opened Machine
  import opened Execution
  import M = Memory

  function WorldOf(s: StepOut): World {
    match s
    case Done(flow) => flow.w
    case Invoke(w, _, _) => w
  }

  /** Only the access list, its billing and the observers differ. */
  ghost predicate SameLedger(w: World, w1: World) {
    && w1.acc == w.acc && w1.accSnaps == w.accSnaps && w1.sto == w.sto && w1.stoSnaps == w.stoSnaps
    && w1.transient == w.transient && w1.active == w.active
  }

  /** Nothing the step hook records differs either. */
  ghost predicate SameObservers(w: World, w1: World) {
    w1.trace == w.trace && w1.seen == w.seen && w1.pending == w.pending
  }

  lemma DynamicGasEffect(w: World, f: Frame, op: byte)
    ensures var w1 := DynamicGas(w, f, op).1; SameLedger(w, w1) && SameObservers(w, w1)
  {
    hide CopyGas, MemGas, WordCount, ByteLength, ToU64, ToAddress;
  }

  lemma OpSstoreEffect(w: World, f: Frame)
    ensures var w1 := OpSstore(w, f).w; SameObservers(w, w1) && SameLedger(w, w1.(sto := w.sto))
    ensures OpSstore(w, f).w.sto != w.sto ==> !f.ctx.isStatic
  {
    hide StoreGas, RefundAfter;
  }

  lemma OpTstoreEffect(w: World, f: Frame)
    ensures var w1 := OpTstore(w, f).w; SameObservers(w, w1) && SameLedger(w, w1.(transient := w.transient))
    ensures OpTstore(w, f).w.transient != w.transient ==> !f.ctx.isStatic
  {
  }

  lemma OpSelfdestructEffect(w: World, f: Frame)
    ensures var w1 := OpSelfdestruct(w, f).w; SameObservers(w, w1) && SameLedger(w, w1.(acc := w.acc))
    ensures OpSelfdestruct(w, f).w.acc != w.acc ==> !f.ctx.isStatic
  {
  }

  lemma SendCallEffect(env: Env, w: World, f: Frame, kind: CallKind, target: Address, value: nat, requested: u64,
                       input: Bytes, growth: (u64, u64), outOffset: u64, outSize: u64)
    ensures var w1 := WorldOf(SendCall(env, w, f, kind, target, value, requested, input, growth, outOffset, outSize));
      SameObservers(w, w1) && SameLedger(w, w1)
  {
    hide M.Resize, CallBase, ChildGas, Add64, Finish;
  }

  lemma OpCallEffect(env: Env, w: World, f: Frame, kind: CallKind)
    ensures var w1 := WorldOf(OpCall(env, w, f, kind)); SameObservers(w, w1) && SameLedger(w, w1)
  {
    hide M.Get, CallGrowth, SendCall, ToNat, ToU64, ToAddress, Finish;
    var n := CallOperands(kind);
    if |f.stack| >= n {
      var input := M.Get(f.memory, Arg64(f, n - 4), Arg64(f, n - 3), env.maxAlloc);
      if input.Some? {
        SendCallEffect(env, w, Drop(f, n), kind, ToAddress(Arg(f, 1)), if n == 7 then ToNat(Arg(f, 2)) else 0,
                       Arg64(f, 0), input.value,
                       CallGrowth(|f.memory|, Arg64(f, n - 4), Arg64(f, n - 3), Arg64(f, n - 2), Arg64(f, n - 1)),
                       Arg64(f, n - 2), Arg64(f, n - 1));
      }
    }
  }

  lemma OpCreateEffect(env: Env, w: World, f: Frame, create2: bool)
    ensures var w1 := WorldOf(OpCreate(env, w, f, create2));
      && SameObservers(w, w1)
      && SameLedger(w, w1.(acc := w.acc))
      && (w1.acc == w.acc || w1.acc == w.acc.IncrementNonce(f.ctx.address))
    ensures WorldOf(OpCreate(env, w, f, create2)).acc != w.acc ==> !f.ctx.isStatic
  {
    hide M.Get, CreateCost, MaxCallGas, ToNat, ToU64, Finish, Accounts.HasCodeOrNonce, Accounts.IncrementNonce;
  }

  /** The handler of one opcode, whatever it is, leaves the snapshot stacks, open frames and observers alone. */
  lemma ExecuteEffect(env: Env, w: World, f: Frame, op: byte)
    ensures var w1 := WorldOf(Execute(env, w, f, op));
      && w1.accSnaps == w.accSnaps && w1.stoSnaps == w.stoSnaps && w1.active == w.active
      && SameObservers(w, w1)
    ensures f.ctx.isStatic ==> SameLedger(w, WorldOf(Execute(env, w, f, op)))
  {
    hide LocalOp, OpSstore, OpTstore, OpSelfdestruct, OpCall, OpCreate;
    OpSstoreEffect(w, f);
    OpTstoreEffect(w, f);
    OpSelfdestructEffect(w, f);
    OpCreateEffect(env, w, f, op == 0xF5);
    OpCallEffect(env, w, f, Call);
    OpCallEffect(env, w, f, CallCode);
    OpCallEffect(env, w, f, DelegateCall);
    OpCallEffect(env, w, f, StaticCall);
  }

  /** The hook re-applies edits to storage, transient storage and this frame's memory, and records the fetch. */
  lemma FireEffect(env: Env, hook: Hook, w: World, f: Frame)
    ensures var fired := Fire(env, hook, w, f);
      && SameLedger(w, fired.w.(sto := w.sto, transient := w.transient))
      && fired.w.warmAddrs == w.warmAddrs && fired.w.warmSlots == w.warmSlots && fired.w.billed == w.billed
      && fired.f == f.(memory := fired.f.memory)
      && (hook.journal == [] ==> SameLedger(w, fired.w) && fired.f == f)
  {
    hide ApplyMutation;
  }

  /** No edit was made at this step. */
  ghost predicate NoEditAt(hook: Hook, step: nat) {
    forall i :: 0 <= i < |hook.journal| ==> hook.journal[i].step != step
  }

  lemma {:induction false} NothingApplied(journal: seq<Mutation>, step: nat, limit: M.AllocLimit, p: Patched)
    requires forall i :: 0 <= i < |journal| ==> journal[i].step != step
    ensures ApplyMutations(journal, step, limit, p) == p
  {
    if journal != [] && p.ok {
      NothingApplied(journal[1..], step, limit, p);
    }
  }

  /** There the hook changes nothing that the instruction works on. */
  lemma QuietFire(env: Env, hook: Hook, w: World, f: Frame)
    requires NoEditAt(hook, w.seen)
    ensures SameLedger(w, Fire(env, hook, w, f).w) && Fire(env, hook, w, f).f == f
  {
    hide ApplyMutations;
    NothingApplied(hook.journal, w.seen, env.maxAlloc, Patched(w.sto, w.transient, f.memory, true));
  }

  /** Rolling a message back leaves what the step hook recorded. */
  lemma ExitObserves(w: World, accId: nat, stoId: nat, res: Result)
    ensures var w1 := Exit(w, accId, stoId, res).w; SameObservers(w, w1) && w1.active == w.active
  {
  }
}
