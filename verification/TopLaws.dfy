/** What a transaction's call is, from outside: the frame it runs, the value it moves, and the fee it burns. */
module TopLaws {
  import opened Base
  import opened Machine
  import opened Execution
  import opened Run
  import opened TopLevel
  import opened Jobs
  import Conservation

  /** The value cannot be paid. */
  predicate CannotPay(cfg: Config, w: World) {
    cfg.value > 0 && cfg.caller != cfg.contract && w.acc.Balance(cfg.caller) < cfg.value
  }

  /** What cannot be paid for is not run: everything stays, all gas is left. */
  lemma UnpaidIsNotRun(env: Env, hook: Hook, cfg: Config, w: World)
    requires cfg.gasLimit > 0 && CannotPay(cfg, w)
    ensures var r := RunTransaction(env, hook, cfg, w).value;
      && r.res.status == InsufficientBalance && r.res.gasRemaining == cfg.gasLimit && r.gasUsed == 0
      && r.w.acc == w.acc && r.w.sto == w.sto
  {
    hide RunFrame, InitiallyWarm;
  }

  /** The frame a transaction runs is fresh, on the contract's storage, in the caller's name. */
  lemma RootFrame(cfg: Config)
    ensures var f := FreshFrame(RootCtx(cfg), cfg.gasLimit);
      && f.ctx.address == cfg.contract && f.ctx.codeAddr == cfg.contract && f.ctx.caller == cfg.caller
      && f.ctx.value == cfg.value && f.ctx.input == cfg.input && f.ctx.code == cfg.code
      && f.ctx.isStatic == cfg.isStatic && f.ctx.depth == cfg.depth
      && f.pc == 0 && f.gas == cfg.gasLimit && f.refund == 0 && f.stack == [] && f.memory == [] && f.logs == []
  {
  }

  /** It finds the value moved from caller to contract, unless they are one, and all else as it was. */
  lemma RootStarts(env: Env, cfg: Config, w: World)
    ensures var w1 := WithValue(cfg, Warmed(env, cfg, w));
      && w1.sto == w.sto && w1.transient == w.transient && w.warmAddrs <= w1.warmAddrs
      && (cfg.caller == cfg.contract ==> w1.acc == w.acc)
      && (cfg.caller != cfg.contract ==>
            && w1.acc.Balance(cfg.caller) == w.acc.Balance(cfg.caller) - cfg.value
            && w1.acc.Balance(cfg.contract) == w.acc.Balance(cfg.contract) + cfg.value)
      && (forall a: Address :: a != cfg.caller && a != cfg.contract ==> w1.acc.Balance(a) == w.acc.Balance(a))
      && forall a: Address :: w1.acc.Nonce(a) == w.acc.Nonce(a) && w1.acc.Code(a) == w.acc.Code(a)
  {
    hide InitiallyWarm;
  }

  /** What can be paid for is run: the result is that of the frame of `RootFrame` on the state of `RootStarts`. */
  lemma RootRuns(env: Env, hook: Hook, cfg: Config, w: World)
    requires cfg.gasLimit > 0 && !CannotPay(cfg, w)
    ensures var r := RunTransaction(env, hook, cfg, w).value;
      var run := RunFrame(env, hook, WithValue(cfg, Warmed(env, cfg, w)), FreshFrame(RootCtx(cfg), cfg.gasLimit));
      && r.res == run.res && r.gasUsed == cfg.gasLimit - run.res.gasRemaining
      && (run.res.status == Success ==> r.w.sto == run.w.sto)
      && (run.res.status == Success && cfg.block.None? ==> r.w.acc == run.w.acc)
  {
    hide RunFrame, InitiallyWarm, FreshFrame, RootCtx, WithValue;
  }

  /** The addresses that are warm when it starts: the parties, the coinbase from Shanghai on, and those named. */
  lemma WarmAtStart(env: Env, cfg: Config, w: World, a: Address)
    ensures a in Warmed(env, cfg, w).warmAddrs <==>
      || a in w.warmAddrs || a == cfg.origin || a == cfg.caller || a == cfg.contract || a in cfg.warmAddresses
      || a in env.precompiles || (env.fork >= SHANGHAI && cfg.block.Some? && a == cfg.block.value.coinbase)
    ensures Warmed(env, cfg, w) == w.(warmAddrs := Warmed(env, cfg, w).warmAddrs)
  {
  }

  // ---------------------------------------------------------------- as a session runs it

  /** The message of a prepared creation: from the caller to the new address, with the given code as init code. */
  lemma CreationSends(cfg: Config, target: Address)
    ensures var msg := CreationMessage(cfg, target);
      && msg.isCreate && msg.kind == Call && !msg.isStatic && msg.depth == cfg.depth
      && msg.caller == cfg.caller && msg.callee == target && msg.codeAddr == target && msg.value == cfg.value
      && msg.code == cfg.code && msg.input == cfg.input && msg.gas == cfg.gasLimit
  {
  }

  /** A prepared creation is that message, and fails when its code does, not when it is refused. */
  lemma CreationRuns(env: Env, hook: Hook, w: World, cfg: Config, target: Address)
    ensures var w0, msg := Warmed(env, cfg, w), CreationMessage(cfg, target);
      var o, end := ExecuteMessage(env, hook, w0, msg, RootCtx(cfg)), RunJob(env, hook, w, CreateJob(cfg, target));
      && end.w == o.w
      && (end.failed <==> o.res.status != Success && !Enter(env, w0, msg, RootCtx(cfg)).Refused?)
  {
    hide ExecuteMessage, InitiallyWarm, Enter, CreationMessage, RootCtx;
  }

  /** A prepared call is a transaction; it fails when its code does, or without gas, but not for want of the value. */
  lemma CallRuns(env: Env, hook: Hook, w: World, cfg: Config)
    ensures var end, r := RunJob(env, hook, w, CallJob(cfg)), RunTransaction(env, hook, cfg, w);
      if cfg.gasLimit == 0 then end == JobEnd(w, true)
      else end.w == r.value.w && (end.failed <==> r.value.res.status != Success && !CannotPay(cfg, w))
  {
    hide RunFrame, InitiallyWarm, Burn;
  }

  // ---------------------------------------------------------------- the burn

  function ZeroBytes(data: Bytes): nat {
    multiset(data)[0]
  }

  /** The gas a transaction pays for its data, by counting bytes. */
  function DataGas(data: Bytes): int {
    21000 + 4 * ZeroBytes(data) + 16 * (|data| - ZeroBytes(data))
  }

  lemma {:induction false} IntrinsicByCounts(data: Bytes)
    requires 21000 + 16 * |data| < TWO64
    ensures IntrinsicGas(data) == DataGas(data)
  {
    hide ZeroBytes;
    if data == [] {
      assert ZeroBytes([]) == 0 by { ZeroBytesBound([]); }
    } else {
      var init, last := data[..|data| - 1], data[|data| - 1];
      IntrinsicByCounts(init);
      assert data == init + [last];
      LastByteCounts(init, last);
      ZeroBytesBound(init);
    }
  }

  lemma LastByteCounts(init: Bytes, last: byte)
    ensures ZeroBytes(init + [last]) == ZeroBytes(init) + if last == 0 then 1 else 0
  {
    assert multiset(init + [last]) == multiset(init) + multiset{last};
  }

  lemma ZeroBytesBound(data: Bytes)
    ensures ZeroBytes(data) <= |data|
  {
    assert |multiset(data)| == |data|;
  }

  /** A fifth, rounded down, left over. */
  lemma LessAFifth(g: nat)
    ensures 4 * g <= 5 * (g - g / 5) < 4 * g + 5
  {
  }

  /** What is burned, and by how much the supply falls: the same number. */
  ghost predicate Burned(g: int, refund: nat, baseFee: nat, fall: int) {
    && (5 * refund <= g ==> fall == (g - refund) * baseFee)
    && (5 * refund > g ==> exists d: nat :: fall == d * baseFee && 4 * g <= 5 * d < 4 * g + 5)
  }

  lemma BurnByCounts(cfg: Config, res: Result)
    requires cfg.block.Some? && res.gasRemaining <= cfg.gasLimit && 21000 + 16 * |cfg.input| + cfg.gasLimit < TWO64
    ensures Burned(DataGas(cfg.input) + cfg.gasLimit - res.gasRemaining, res.gasRefund, cfg.block.value.baseFee,
                   Burn(cfg, res))
  {
    hide IntrinsicGas, Product, Burned, ZeroBytes;
    IntrinsicByCounts(cfg.input);
    ZeroBytesBound(cfg.input);
    var g := DataGas(cfg.input) + cfg.gasLimit - res.gasRemaining;
    assert Add64(IntrinsicGas(cfg.input), cfg.gasLimit - res.gasRemaining) == g;
    CappedRefund(g, res.gasRefund, cfg.block.value.baseFee);
  }

  /** The refund counts up to a fifth. */
  lemma CappedRefund(g: nat, refund: nat, baseFee: nat)
    requires g > 0
    ensures Min(refund, g / 5) < g
    ensures Burned(g, refund, baseFee, Product(g - Min(refund, g / 5), baseFee))
  {
    LessAFifth(g);
    if 5 * refund > g {
      var d: nat := g - g / 5;
      assert Min(refund, g / 5) == g / 5;
      assert Product(d, baseFee) == d * baseFee;
    }
  }

  /**
   * The base-fee burn. With g the gas of the data, by counts, and of the run, the supply falls by g less the refund,
   * times the base fee, if the refund is at most a fifth of g; otherwise by four fifths of g, rounded up, times it.
   */
  lemma SupplyFalls(env: Env, hook: Hook, cfg: Config, w: World)
    requires cfg.gasLimit > 0 && cfg.block.Some? && !CannotPay(cfg, w) && Conservation.Sound(w.acc)
    requires 21000 + 16 * |cfg.input| + cfg.gasLimit < TWO64
    ensures var r := RunTransaction(env, hook, cfg, w).value;
      Burned(21000 + 4 * ZeroBytes(cfg.input) + 16 * (|cfg.input| - ZeroBytes(cfg.input)) + r.gasUsed,
             r.res.gasRefund, cfg.block.value.baseFee,
             Conservation.Supply(w.acc) - Conservation.Supply(r.w.acc))
  {
    hide RunFrame, Burn, Burned, InitiallyWarm, Conservation.Supply, Conservation.Sound;
    OnlyBurnLeaves(env, hook, cfg, w);
    BurnByCounts(cfg, RunTransaction(env, hook, cfg, w).value.res);
  }

  /** All of it is the coinbase's loss: with no base fee the same transaction ends the same but for that. */
  lemma CoinbasePays(env: Env, hook: Hook, cfg: Config, w: World)
    requires cfg.gasLimit > 0 && cfg.block.Some? && !CannotPay(cfg, w)
    requires 21000 + 16 * |cfg.input| + cfg.gasLimit < TWO64
    ensures var free := cfg.(block := Some(cfg.block.value.(baseFee := 0)));
      var r, r0 := RunTransaction(env, hook, cfg, w).value, RunTransaction(env, hook, free, w).value;
      var coinbase := cfg.block.value.coinbase;
      && r.res == r0.res && r.w == r0.w.(acc := r.w.acc)
      && (forall a: Address :: a != coinbase ==> r.w.acc.Balance(a) == r0.w.acc.Balance(a))
      && (forall a: Address :: r.w.acc.Nonce(a) == r0.w.acc.Nonce(a) && r.w.acc.Code(a) == r0.w.acc.Code(a))
      && Burned(DataGas(cfg.input) + r.gasUsed, r.res.gasRefund, cfg.block.value.baseFee,
                r0.w.acc.Balance(coinbase) - r.w.acc.Balance(coinbase))
  {
    hide RunFrame, Burn, Burned, Revert;
    var free := cfg.(block := Some(cfg.block.value.(baseFee := 0)));
    var r := RunTransaction(env, hook, cfg, w).value;
    assert InitiallyWarm(env, free) == InitiallyWarm(env, cfg);
    FreeBurnsNothing(free, r.res);
    BurnByCounts(cfg, r.res);
  }

  lemma FreeBurnsNothing(cfg: Config, res: Result)
    requires cfg.block.Some? && cfg.block.value.baseFee == 0 && res.gasRemaining <= cfg.gasLimit
    ensures Burn(cfg, res) == 0
  {
  }
}
