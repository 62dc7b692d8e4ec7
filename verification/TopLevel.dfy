/** Running one transaction's call from the outside: value transfer, the run, rollback, and the base-fee burn. */
module TopLevel {
  import opened Base
  import opened Ledger
  import opened Machine
  import opened Execution
  import opened Run
  import opened StorageGas
  import Rollback
  import SmallGas
  import Conservation
  import ColdAccess
  import StaticPurity
  import M = Memory

  datatype BlockInfo = BlockInfo(coinbase: Address, baseFee: nat)

  datatype Config = Config(
    origin: Address, caller: Address, contract: Address, value: nat, gasLimit: u64, input: Bytes, code: Bytes,
    isStatic: bool, depth: nat, block: Option<BlockInfo>, warmAddresses: seq<Address>)

  datatype Report = Report(w: World, res: Result, gasUsed: u64)

  function IntrinsicGas(data: Bytes): u64 {
    if data == [] then 21000
    else Add64(IntrinsicGas(data[..|data| - 1]), if data[|data| - 1] == 0 then 4 else 16)
  }

  /** intrinsicTxGas */
  method ComputeIntrinsicGas(data: Bytes) returns (gas: u64)
    ensures gas == IntrinsicGas(data)
  {
    gas := 21000;
    for i := 0 to |data|
      invariant gas == IntrinsicGas(data[..i])
    {
      assert data[..i + 1][..i] == data[..i];
      gas := Add64(gas, if data[i] == 0 then 4 else 16);
    }
    assert data[..|data|] == data;
  }

  function RootCtx(cfg: Config): Ctx {
    Ctx(cfg.contract, cfg.caller, cfg.value, cfg.input, cfg.code, cfg.contract, cfg.isStatic, cfg.depth)
  }

  /** What warmInitialAccessList warms before anything is charged (EIP-2929, EIP-3651). */
  function InitiallyWarm(env: Env, cfg: Config): set<Address> {
    {cfg.origin, cfg.caller, cfg.contract}
    + (if env.fork >= SHANGHAI && cfg.block.Some? then {cfg.block.value.coinbase} else {})
    + env.precompiles.Keys + set a | a in cfg.warmAddresses
  }

  function Warmed(env: Env, cfg: Config, w: World): World {
    w.(warmAddrs := w.warmAddrs + InitiallyWarm(env, cfg))
  }

  /** Value moves, and a snapshot is taken, only when there is value and somewhere else for it to go. */
  predicate MovesValue(cfg: Config) {
    cfg.value > 0 && cfg.caller != cfg.contract
  }

  function WithValue(cfg: Config, w: World): World {
    if MovesValue(cfg) then
      w.(accSnaps := w.accSnaps + [w.acc], stoSnaps := w.stoSnaps + [w.sto],
         acc := w.acc.Move(cfg.caller, cfg.contract, cfg.value))
    else w
  }

  function Product(a: nat, b: nat): nat {
    a * b
  }

  /** applyBaseFeeBurn: gas charged less a fifth at most in refunds, times the base fee. */
  function Burn(cfg: Config, res: Result): nat
    requires res.gasRemaining <= cfg.gasLimit
  {
    if cfg.block.None? then 0
    else
      var charged := Add64(IntrinsicGas(cfg.input), cfg.gasLimit - res.gasRemaining);
      var refund := Min(res.gasRefund, charged / 5);
      if refund >= charged then 0 else Product(charged - refund, cfg.block.value.baseFee)
  }

  function BurnFrom(cfg: Config, w: World, burn: nat): World {
    if burn == 0 || cfg.block.None? then w else w.(acc := w.acc.SubBalance(cfg.block.value.coinbase, burn))
  }

  /** SimpleEngine.Run; None is a configuration without gas. */
  function RunTransaction(env: Env, hook: Hook, cfg: Config, w: World): Option<Report> {
    if cfg.gasLimit == 0 then None else Some(RunWarmed(env, hook, cfg, Warmed(env, cfg, w)))
  }

  function RunWarmed(env: Env, hook: Hook, cfg: Config, w: World): Report
    requires cfg.gasLimit > 0
  {
    if MovesValue(cfg) && w.acc.Balance(cfg.caller) < cfg.value then
      Report(w, Result(InsufficientBalance, cfg.gasLimit, 0, [], []), 0)
    else
      var o := RunFrame(env, hook, WithValue(cfg, w), FreshFrame(RootCtx(cfg), cfg.gasLimit));
      var w1 := if MovesValue(cfg) && !o.res.status.Success? then Revert(o.w, |w.accSnaps|, |w.stoSnaps|) else o.w;
      Report(BurnFrom(cfg, w1, Burn(cfg, o.res)), o.res, cfg.gasLimit - o.res.gasRemaining)
  }

  /** Gas is accounted for to the unit. */
  lemma GasAccountedFor(env: Env, hook: Hook, cfg: Config, w: World)
    requires cfg.gasLimit > 0
    ensures var r := RunTransaction(env, hook, cfg, w);
      r.Some? && r.value.gasUsed + r.value.res.gasRemaining == cfg.gasLimit
  {
  }

  /** The supply changes by the burn and nothing else, on every outcome. */
  lemma OnlyBurnLeaves(env: Env, hook: Hook, cfg: Config, w: World)
    requires cfg.gasLimit > 0 && Conservation.Sound(w.acc)
    ensures var r := RunTransaction(env, hook, cfg, w).value;
      Conservation.Supply(r.w.acc)
      == Conservation.Supply(w.acc)
         - if MovesValue(cfg) && w.acc.Balance(cfg.caller) < cfg.value then 0 else Burn(cfg, r.res)
  {
    hide RunFrame, Conservation.Supply, Conservation.Sound, InitiallyWarm;
    var w0 := Warmed(env, cfg, w);
    if !(MovesValue(cfg) && w.acc.Balance(cfg.caller) < cfg.value) {
      var w1, f := WithValue(cfg, w0), FreshFrame(RootCtx(cfg), cfg.gasLimit);
      if MovesValue(cfg) {
        Conservation.MoveConserves(w.acc, cfg.caller, cfg.contract, cfg.value);
        FailureUndone(env, hook, cfg, w0);
      }
      Conservation.FrameConserves(env, hook, w1, f);
      var o := RunFrame(env, hook, w1, f);
      var w2 := if MovesValue(cfg) && !o.res.status.Success? then Revert(o.w, |w.accSnaps|, |w.stoSnaps|) else o.w;
      assert Conservation.Supply(w2.acc) == Conservation.Supply(w.acc);
      if cfg.block.Some? {
        BurnTakes(w2.acc, cfg.block.value.coinbase, Burn(cfg, o.res));
      }
    }
  }

  lemma BurnTakes(acc: Accounts, a: Address, burn: nat)
    ensures Conservation.Supply(acc.SubBalance(a, burn)) == Conservation.Supply(acc) - burn
  {
    Conservation.SupplyUpdated(acc, a, acc.Balance(a) - burn);
  }

  /** What the revert restores when value was moved: the accounts and storage the transaction started from. */
  lemma FailureUndone(env: Env, hook: Hook, cfg: Config, w: World)
    requires MovesValue(cfg)
    ensures var o := RunFrame(env, hook, WithValue(cfg, w), FreshFrame(RootCtx(cfg), cfg.gasLimit));
      var w1 := Revert(o.w, |w.accSnaps|, |w.stoSnaps|);
      w1.acc == w.acc && w1.sto == w.sto && w1.accSnaps == w.accSnaps && w1.stoSnaps == w.stoSnaps
  {
    hide RunFrame;
    var w0 := WithValue(cfg, w);
    var o := RunFrame(env, hook, w0, FreshFrame(RootCtx(cfg), cfg.gasLimit));
    Rollback.FrameKeepsSnapshots(env, hook, w0, FreshFrame(RootCtx(cfg), cfg.gasLimit));
    assert w0.accSnaps[|w.accSnaps|] == w.acc && w0.stoSnaps[|w.stoSnaps|] == w.sto;
    assert w0.accSnaps[..|w.accSnaps|] == w.accSnaps && w0.stoSnaps[..|w.stoSnaps|] == w.stoSnaps;
    assert o.w.accSnaps[..|w.accSnaps|] == w.accSnaps && o.w.stoSnaps[..|w.stoSnaps|] == w.stoSnaps;
  }

  /** A failed transaction that moved value leaves nothing behind but the burn. */
  lemma FailedTransferIsUndone(env: Env, hook: Hook, cfg: Config, w: World)
    requires cfg.gasLimit > 0 && MovesValue(cfg) && w.acc.Balance(cfg.caller) >= cfg.value
    ensures var r := RunTransaction(env, hook, cfg, w).value;
      !r.res.status.Success? ==>
        r.w.sto == w.sto && r.w.acc == BurnFrom(cfg, w, Burn(cfg, r.res)).acc
  {
    hide RunFrame, Burn, InitiallyWarm;
    FailureUndone(env, hook, cfg, Warmed(env, cfg, w));
  }

  /** A transaction bills nothing twice, and nothing on its initial access list at all. */
  lemma TransactionBillsOnce(env: Env, hook: Hook, cfg: Config, w: World)
    requires cfg.gasLimit > 0 && w.billed == []
    ensures var bill := RunTransaction(env, hook, cfg, w).value.w.billed;
      && (forall i, j :: 0 <= i < j < |bill| ==> bill[i] != bill[j])
      && (forall a :: a in InitiallyWarm(env, cfg) ==> ColdAddress(a) !in bill)
  {
    hide RunFrame, Burn, InitiallyWarm;
    var w0 := WithValue(cfg, Warmed(env, cfg, w));
    ColdAccess.RunBillsOnce(env, hook, w0, FreshFrame(RootCtx(cfg), cfg.gasLimit));
    forall a | a in InitiallyWarm(env, cfg) ensures ColdAccess.IsWarm(w0, ColdAddress(a)) {
    }
  }

  // ---------------------------------------------------------------- no value, no rollback

  /** PUSH1 1, PUSH1 0, SSTORE, INVALID */
  const WRITE_AND_FAIL: Bytes := [0x60, 0x01, 0x60, 0x00, 0x55, 0xFE]

  lemma PushStep(env: Env, w: World, f: Frame, n: byte)
    requires f.pc + 1 < |f.ctx.code| && f.ctx.code[f.pc] == 0x60 && f.ctx.code[f.pc + 1] == n
    requires f.gas >= 3 && |f.stack| < 1024
    ensures var s := Step(env, NO_HOOK, w, f);
      && s.Done? && s.flow.Next?
      && s.flow.f == f.(pc := f.pc + 2, gas := f.gas - 3, stack := f.stack + [Zeros(31) + [n]])
      && s.flow.w == w.(seen := w.seen + 1, trace := s.flow.w.trace)
  {
    hide OpSstore, OpTstore, OpSelfdestruct;
    hide M.Get, M.Set, M.Resize, MemGas, CopyGas, TouchAddress, ToNat, ToU64, ToAddress, OpCall, OpCreate, Compute;
    assert PushData(f.ctx.code, f.pc, 1) == Zeros(31) + [n];
  }

  /** A store that can be paid for. */
  lemma StoreStep(env: Env, w: World, f: Frame)
    requires f.pc < |f.ctx.code| && f.ctx.code[f.pc] == 0x55 && |f.stack| >= 2 && !f.ctx.isStatic
    requires f.gas > CALL_STIPEND && f.gas >= StorePrice(w, (f.ctx.address, Arg(f, 0)), Arg(f, 1))
    ensures var s := Step(env, NO_HOOK, w, f);
      && s.Done? && s.flow.Next?
      && s.flow.f.ctx == f.ctx && s.flow.f.pc == f.pc + 1
      && s.flow.f.refund == RefundAfter(f.refund, w.sto.Original((f.ctx.address, Arg(f, 0))),
                                        w.sto.Get((f.ctx.address, Arg(f, 0))), Arg(f, 1))
      && s.flow.w.sto == w.sto.Set((f.ctx.address, Arg(f, 0)), Arg(f, 1))
  {
    hide M.Get, M.Set, M.Resize, MemGas, CopyGas, TouchAddress, ToNat, ToU64, ToAddress, OpCall, OpCreate, LocalOp;
    hide StoreGas, RefundAfter;
  }

  function StorePrice(w: World, k: SlotKey, v: Hash): u64 {
    StoreGas(k !in w.warmSlots, w.sto.Original(k), w.sto.Get(k), v)
  }

  lemma InvalidStep(env: Env, w: World, f: Frame)
    requires f.pc < |f.ctx.code| && f.ctx.code[f.pc] == 0xFE
    ensures var s := Step(env, NO_HOOK, w, f);
      s.Done? && s.flow.Stop? && !s.flow.res.status.Success? && s.flow.w.sto == w.sto
  {
    hide M.Get, M.Set, M.Resize, MemGas, CopyGas, TouchAddress, ToNat, ToU64, ToAddress, OpCall, OpCreate, Compute;
  }

  /** A transaction that moves no value and fails keeps what its code wrote. */
  lemma FailureWithoutValueKeepsWrites(env: Env, cfg: Config, w: World)
    requires !MovesValue(cfg) && cfg.code == WRITE_AND_FAIL && !cfg.isStatic
    requires cfg.gasLimit > 6 + CALL_STIPEND && cfg.gasLimit >= 6 + StorePrice(w, (cfg.contract, ZERO_WORD), ONE_WORD)
    ensures var r := RunTransaction(env, NO_HOOK, cfg, w).value;
      && !r.res.status.Success?
      && r.w.sto == w.sto.Set((cfg.contract, ZERO_WORD), ONE_WORD)
  {
    hide Step, InitiallyWarm, Burn, StoreGas;
    assert Zeros(31) + [0] == ZERO_WORD && Zeros(31) + [1] == ONE_WORD;
    var w0 := Warmed(env, cfg, w);
    var f0 := FreshFrame(RootCtx(cfg), cfg.gasLimit);
    PushStep(env, w0, f0, 1);
    var s1 := Step(env, NO_HOOK, w0, f0).flow;
    PushStep(env, s1.w, s1.f, 0);
    var s2 := Step(env, NO_HOOK, s1.w, s1.f).flow;
    StoreStep(env, s2.w, s2.f);
    var s3 := Step(env, NO_HOOK, s2.w, s2.f).flow;
    InvalidStep(env, s3.w, s3.f);
    var s4 := Step(env, NO_HOOK, s3.w, s3.f).flow;
    assert RunFrame(env, NO_HOOK, s3.w, s3.f) == Outcome(s4.w, s4.res);
    assert RunFrame(env, NO_HOOK, s2.w, s2.f) == Outcome(s4.w, s4.res);
    assert RunFrame(env, NO_HOOK, s1.w, s1.f) == Outcome(s4.w, s4.res);
    assert RunFrame(env, NO_HOOK, w0, f0) == Outcome(s4.w, s4.res);
  }

  /** Whatever code fails from whatever state, storage ends as it was. */
  ghost predicate FailureKeepsStorage(env: Env, cfg: Config) {
    forall code: Bytes, w: World :: FailureKeeps(env, cfg.(code := code), w)
  }

  ghost predicate FailureKeeps(env: Env, cfg: Config, w: World) {
    var r := RunTransaction(env, NO_HOOK, cfg, w);
    r.Some? && !r.value.res.status.Success? ==> r.value.w.sto == w.sto
  }

  /** PUSH0, PUSH0, SSTORE, INVALID */
  const CLEAR_AND_FAIL: Bytes := [0x5F, 0x5F, 0x55, 0xFE]

  lemma PushZeroStep(env: Env, w: World, f: Frame)
    requires f.pc < |f.ctx.code| && f.ctx.code[f.pc] == 0x5F && env.fork >= SHANGHAI
    requires f.gas >= 2 && |f.stack| < 1024
    ensures var s := Step(env, NO_HOOK, w, f);
      && s.Done? && s.flow.Next?
      && s.flow.f == f.(pc := f.pc + 1, gas := f.gas - 2, stack := f.stack + [ZERO_WORD])
      && s.flow.w == w.(seen := w.seen + 1, trace := s.flow.w.trace)
  {
    hide OpSstore, OpTstore, OpSelfdestruct;
    hide M.Get, M.Set, M.Resize, MemGas, CopyGas, TouchAddress, ToNat, ToU64, ToAddress, OpCall, OpCreate, Compute;
    assert PushData(f.ctx.code, f.pc, 0) == ZERO_WORD;
  }

  /** From Shanghai on the two operands need 4 gas only. */
  lemma CheapFailureKeepsWrites(env: Env, cfg: Config, w: World)
    requires !MovesValue(cfg) && cfg.code == CLEAR_AND_FAIL && !cfg.isStatic && env.fork >= SHANGHAI
    requires cfg.gasLimit > 4 + CALL_STIPEND && cfg.gasLimit >= 4 + StorePrice(w, (cfg.contract, ZERO_WORD), ZERO_WORD)
    ensures var r := RunTransaction(env, NO_HOOK, cfg, w).value;
      && !r.res.status.Success?
      && r.w.sto == w.sto.Set((cfg.contract, ZERO_WORD), ZERO_WORD)
  {
    hide Step, InitiallyWarm, Burn, StoreGas;
    var w0 := Warmed(env, cfg, w);
    var f0 := FreshFrame(RootCtx(cfg), cfg.gasLimit);
    PushZeroStep(env, w0, f0);
    var s1 := Step(env, NO_HOOK, w0, f0).flow;
    PushZeroStep(env, s1.w, s1.f);
    var s2 := Step(env, NO_HOOK, s1.w, s1.f).flow;
    StoreStep(env, s2.w, s2.f);
    var s3 := Step(env, NO_HOOK, s2.w, s2.f).flow;
    InvalidStep(env, s3.w, s3.f);
    var s4 := Step(env, NO_HOOK, s3.w, s3.f).flow;
    assert RunFrame(env, NO_HOOK, s3.w, s3.f) == Outcome(s4.w, s4.res);
    assert RunFrame(env, NO_HOOK, s2.w, s2.f) == Outcome(s4.w, s4.res);
    assert RunFrame(env, NO_HOOK, s1.w, s1.f) == Outcome(s4.w, s4.res);
    assert RunFrame(env, NO_HOOK, w0, f0) == Outcome(s4.w, s4.res);
  }

  /**
   * The rollback is tied to the transfer: a failed transaction leaves no write behind, whatever its code and whatever
   * the state, exactly when it moves value, may not write, or has no gas to. (Before Shanghai the last two units of the
   * bound depend on what the cheapest instructions push.)
   */
  lemma NoWriteLeftIff(env: Env, cfg: Config)
    requires cfg.gasLimit <= SmallGas.TOO_LITTLE || cfg.gasLimit > SmallGas.TOO_LITTLE + 2 || env.fork >= SHANGHAI
    ensures FailureKeepsStorage(env, cfg)
      <==> MovesValue(cfg) || cfg.isStatic || cfg.gasLimit <= SmallGas.TOO_LITTLE
  {
    hide RunTransaction, InitiallyWarm;
    if MovesValue(cfg) || cfg.isStatic || cfg.gasLimit <= SmallGas.TOO_LITTLE {
      forall code: Bytes, w: World ensures FailureKeeps(env, cfg.(code := code), w) {
        GuardedFailureKeeps(env, cfg.(code := code), w);
      }
    } else {
      var k := (cfg.contract, ZERO_WORD);
      var code := if env.fork >= SHANGHAI then CLEAR_AND_FAIL else WRITE_AND_FAIL;
      var w := DirtyWorld(k);
      DirtyStore(k);
      if env.fork >= SHANGHAI {
        CheapFailureKeepsWrites(env, cfg.(code := code), w);
      } else {
        FailureWithoutValueKeepsWrites(env, cfg.(code := code), w);
      }
      GivesReport(env, cfg.(code := code), w);
      assert !FailureKeeps(env, cfg.(code := code), w);
    }
  }

  lemma GivesReport(env: Env, cfg: Config, w: World)
    requires cfg.gasLimit > 0
    ensures RunTransaction(env, NO_HOOK, cfg, w).Some?
  {
  }

  /** A world with one warm slot that this transaction has already written to. */
  function DirtyWorld(k: SlotKey): World {
    World(NO_ACCOUNTS, [], Slots(map[k := Zeros(31) + [2]], map[k := ZERO_WORD]), [], map[], {}, {k},
          [], [], [], 0, None)
  }

  lemma DirtyStore(k: SlotKey)
    ensures var w := DirtyWorld(k);
      && StorePrice(w, k, ONE_WORD) == StorePrice(w, k, ZERO_WORD) == WARM_ACCESS
      && w.sto.Set(k, ONE_WORD) != w.sto && w.sto.Set(k, ZERO_WORD) != w.sto
  {
    var two: Word := Zeros(31) + [2];
    assert two[31] == 2 && ZERO_WORD[31] == 0 && ONE_WORD[31] == 1;
    var w := DirtyWorld(k);
    assert w.sto.Get(k) == two && w.sto.Original(k) == ZERO_WORD;
    assert w.sto.Set(k, ONE_WORD).Get(k) == ONE_WORD && w.sto.Set(k, ZERO_WORD).Get(k) == ZERO_WORD;
  }

  lemma GuardedFailureKeeps(env: Env, cfg: Config, w: World)
    requires MovesValue(cfg) || cfg.isStatic || cfg.gasLimit <= SmallGas.TOO_LITTLE
    ensures FailureKeeps(env, cfg, w)
  {
    hide RunFrame, InitiallyWarm, Burn;
    if cfg.gasLimit > 0 {
      if MovesValue(cfg) {
        if w.acc.Balance(cfg.caller) >= cfg.value {
          FailedTransferIsUndone(env, NO_HOOK, cfg, w);
        }
      } else if cfg.isStatic {
        StaticPurity.StaticFrameIsPure(env, NO_HOOK, Warmed(env, cfg, w), FreshFrame(RootCtx(cfg), cfg.gasLimit));
      } else {
        SmallGas.FrameStoresNothing(env, Warmed(env, cfg, w), FreshFrame(RootCtx(cfg), cfg.gasLimit));
      }
    }
  }
}
