/** SimpleEngine on the objects a caller hands it. */
module Engine {
  import opened Base
  import opened Machine
  import opened Execution
  import opened Run
  import opened TopLevel
  import opened AccountState
  import opened EngineObjects
  import opened Evm
  import Bytecode

  class SimpleEngine {
    constructor () {
    }

    /** warmInitialAccessList */
    method WarmInitial(shared: Shared, env: Env, cfg: Config)
      requires shared.Valid()
      modifies shared`warmAddrs
      ensures shared.Valid() && shared.View() == Warmed(env, cfg, old(shared.View()))
    {
      hide InMemoryAccountState.Valid, InMemoryAccountState.View, InMemoryAccountState.Saved;
      var warm := shared.warmAddrs + {cfg.origin, cfg.caller, cfg.contract};
      if env.fork >= SHANGHAI && cfg.block.Some? {
        warm := warm + {cfg.block.value.coinbase};
      }
      warm := warm + env.precompiles.Keys;
      for i := 0 to |cfg.warmAddresses|
        invariant warm == shared.warmAddrs + {cfg.origin, cfg.caller, cfg.contract}
          + (if env.fork >= SHANGHAI && cfg.block.Some? then {cfg.block.value.coinbase} else {})
          + env.precompiles.Keys + set a | a in cfg.warmAddresses[..i]
      {
        warm := warm + {cfg.warmAddresses[i]};
      }
      assert cfg.warmAddresses[..|cfg.warmAddresses|] == cfg.warmAddresses;
      shared.warmAddrs := warm;
    }

    /** applyTopLevelCallValue: the snapshot ids, when value moved. */
    method MoveValue(shared: Shared, cfg: Config) returns (ids: Option<(nat, nat)>)
      requires shared.Valid()
      requires MovesValue(cfg) ==> shared.View().acc.Balance(cfg.caller) >= cfg.value
      modifies shared.storage, shared.account.Repr
      ensures shared.Valid() && fresh(shared.account.Repr - old(shared.account.Repr))
      ensures shared.View() == WithValue(cfg, old(shared.View()))
      ensures var w := old(shared.View());
        ids == if MovesValue(cfg) then Some((|w.accSnaps|, |w.stoSnaps|)) else None
    {
      hide InMemoryAccountState.Valid, InMemoryAccountState.View, InMemoryAccountState.Saved;
      if cfg.value == 0 || cfg.caller == cfg.contract {
        return None;
      }
      var accId := shared.account.Snapshot();
      var stoId := shared.storage.Snapshot();
      shared.account.SubBalance(cfg.caller, cfg.value);
      shared.account.AddBalance(cfg.contract, cfg.value);
      ids := Some((accId, stoId));
    }

    /** revertTopLevelCallValue */
    method RevertValue(shared: Shared, ids: Option<(nat, nat)>, status: Status)
      requires shared.Valid()
      modifies shared.storage, shared.account.Repr
      ensures shared.Valid() && shared.account.Repr == old(shared.account.Repr)
      ensures var w := old(shared.View());
        shared.View() == if ids.Some? && !status.Success? then Revert(w, ids.value.0, ids.value.1) else w
    {
      hide InMemoryAccountState.Valid, InMemoryAccountState.View, InMemoryAccountState.Saved;
      if ids.None? || status.Success? {
        return;
      }
      shared.account.RevertToSnapshot(ids.value.0);
      shared.storage.RevertToSnapshot(ids.value.1);
    }

    /** applyBaseFeeBurn */
    method BurnBaseFee(shared: Shared, cfg: Config, res: Result)
      requires shared.Valid() && res.gasRemaining <= cfg.gasLimit
      modifies shared.account.Repr
      ensures shared.Valid() && fresh(shared.account.Repr - old(shared.account.Repr))
      ensures shared.View() == BurnFrom(cfg, old(shared.View()), Burn(cfg, res))
    {
      hide InMemoryAccountState.Valid, InMemoryAccountState.View, InMemoryAccountState.Saved, Product, IntrinsicGas;
      if cfg.block.None? {
        return;
      }
      var charged := ComputeIntrinsicGas(cfg.input);
      charged := Add64(charged, cfg.gasLimit - res.gasRemaining);
      var refund := if res.gasRefund > charged / 5 then charged / 5 else res.gasRefund;
      if refund >= charged {
        return;
      }
      var burn := Product(charged - refund, cfg.block.value.baseFee);
      if burn == 0 {
        return;
      }
      shared.account.SubBalance(cfg.block.value.coinbase, burn);
    }

    /** runWithConfig: a root frame over the shared objects, run to its end. */
    method RunRoot(shared: Shared, env: Env, hook: Hook, cfg: Config) returns (res: Result)
      requires shared.Valid() && shared.account.hash == env.keccak
      modifies shared, shared.storage, shared.account.Repr
      ensures shared.Valid() && fresh(shared.account.Repr - old(shared.account.Repr))
      ensures Outcome(shared.View(), res)
           == RunFrame(env, hook, old(shared.View()), FreshFrame(RootCtx(cfg), cfg.gasLimit))
    {
      hide InMemoryAccountState.Valid, InMemoryAccountState.View, InMemoryAccountState.Saved, Bytecode.IsJumpDest;
      hide RunFrame, RootCtx, InMemoryStorage.View;
      var evm := new EVM(shared, env, hook, RootCtx(cfg), cfg.gasLimit);
      res := evm.RunCode();
    }

    /** Run: the report of RunTransaction, and the shared objects as it leaves them. */
    method Run(shared: Shared, env: Env, hook: Hook, cfg: Config) returns (r: Option<(Result, u64)>)
      requires shared.Valid() && shared.account.hash == env.keccak
      modifies shared, shared.storage, shared.account.Repr
      ensures shared.Valid() && fresh(shared.account.Repr - old(shared.account.Repr))
      ensures match RunTransaction(env, hook, cfg, old(shared.View()))
        case None => r.None? && shared.View() == old(shared.View())
        case Some(report) => r == Some((report.res, report.gasUsed)) && shared.View() == report.w
    {
      hide InMemoryAccountState.Valid, InMemoryAccountState.View, InMemoryAccountState.Saved;
      hide WithValue, Warmed, BurnFrom, Burn, RunFrame, Revert, InMemoryStorage.View, RootCtx;
      if cfg.gasLimit == 0 {
        return None;
      }
      WarmInitial(shared, env, cfg);
      assert shared.View().acc == shared.account.View();
      hide Shared.View, Shared.Valid;
      if MovesValue(cfg) {
        var balance := shared.account.Balance(cfg.caller);
        if balance < cfg.value {
          return Some((Result(InsufficientBalance, cfg.gasLimit, 0, [], []), 0));
        }
      }
      var ids := MoveValue(shared, cfg);
      var res := RunRoot(shared, env, hook, cfg);
      RevertValue(shared, ids, res.status);
      BurnBaseFee(shared, cfg, res);
      r := Some((res, cfg.gasLimit - res.gasRemaining));
    }
  }
}
