/** Nested execution: message entry and exit, and the loop that runs a frame to its end. */
module Execution {
  import opened Base
  import opened Ledger
  import opened Machine
  import M = Memory

  datatype Outcome = Outcome(w: World, res: Result)

  /** What a message does before its code runs. */
  datatype Entry =
    | Refused(res: Result)
    | Ran(w: World, res: Result)
    | Entered(w: World, f: Frame)

  function Refusal(status: Status, gas: u64): Entry {
    Refused(Result(status, gas, 0, [], []))
  }

  /** newChildState: DELEGATECALL keeps the parent's identity, CALLCODE keeps its address only. */
  function ChildCtx(parent: Ctx, msg: Message, code: Bytes): Ctx {
    match msg.kind
    case DelegateCall =>
      Ctx(parent.address, parent.caller, parent.value, msg.input, code, msg.codeAddr, msg.isStatic, msg.depth)
    case CallCode =>
      Ctx(parent.address, parent.address, msg.value, msg.input, code, msg.codeAddr, msg.isStatic, msg.depth)
    case _ =>
      Ctx(msg.callee, msg.caller, msg.value, msg.input, code, msg.codeAddr, msg.isStatic, msg.depth)
  }

  function FreshFrame(ctx: Ctx, gas: u64): Frame {
    Frame(ctx, 0, gas, 0, [], [], [], [], [])
  }

  /** A created account gets nonce 1 when it has neither nonce nor code. */
  function InitCreated(acc: Accounts, a: Address): Accounts {
    var acc1 := if acc.Exists(a) then acc else acc.CreateAccount(a);
    if acc1.Nonce(a) == 0 && acc1.Code(a) == [] then acc1.SetNonce(a, 1) else acc1
  }

  /** Account changes made after the snapshot and before any code runs. */
  function Funded(acc: Accounts, msg: Message): Accounts {
    var acc1 := if msg.isCreate then InitCreated(acc, msg.callee) else acc;
    if msg.value > 0 then acc1.Move(msg.caller, msg.callee, msg.value) else acc1
  }

  function RunPrecompile(p: Precompile, msg: Message): Result {
    var gas := p.gas(msg.input);
    if gas.None? then Result(Halted, 0, 0, [], [])
    else if gas.value > msg.gas then Result(OutOfGas, 0, 0, [], [])
    else
      var output := p.run(msg.input);
      if output.None? then Result(Halted, 0, 0, [], [])
      else Result(Success, msg.gas - gas.value, 0, output.value, [])
  }

  function Enter(env: Env, w: World, msg: Message, parent: Ctx): Entry {
    if msg.depth >= 1024 then Refusal(CallDepthExceeded, msg.gas)
    else if msg.isStatic && msg.value > 0 then Refusal(Halted, 0)
    else if msg.value > 0 && w.acc.Balance(msg.caller) < msg.value then Refusal(InsufficientBalance, msg.gas)
    else
      var w1 := w.(accSnaps := w.accSnaps + [w.acc], stoSnaps := w.stoSnaps + [w.sto], acc := Funded(w.acc, msg));
      if msg.codeAddr in env.precompiles then Ran(w1, RunPrecompile(env.precompiles[msg.codeAddr], msg))
      else
        var code := if msg.code == [] then w1.acc.Code(msg.codeAddr) else msg.code;
        var ctx := ChildCtx(parent, msg, code);
        Entered(w1.(active := w.active + [ctx]), FreshFrame(ctx, msg.gas))
  }

  /** RevertToSnapshot on both journals: an id that is not on the stack changes nothing. */
  function Revert(w: World, accId: nat, stoId: nat): World {
    var w1 := if accId < |w.accSnaps| then w.(acc := w.accSnaps[accId], accSnaps := w.accSnaps[..accId]) else w;
    if stoId < |w1.stoSnaps| then w1.(sto := w1.stoSnaps[stoId], stoSnaps := w1.stoSnaps[..stoId]) else w1
  }

  /** Every failure undoes the message; only REVERT keeps its gas. */
  function Exit(w: World, accId: nat, stoId: nat, res: Result): Outcome {
    if res.status.Success? then Outcome(w, res)
    else Outcome(Revert(w, accId, stoId), if res.status.Reverted? then res else res.(gasRemaining := 0))
  }

  function Merge(f: Frame, res: Result): Frame {
    var f1 := f.(gas := Add64(f.gas, res.gasRemaining));
    if res.status.Success? then f1.(refund := Add64(f.refund, res.gasRefund), logs := f.logs + res.logs) else f1
  }

  /** The caller picks up after its CALL: gas back, return data copied out, success flag pushed. */
  function ResumeCall(env: Env, w: World, f: Frame, k: Pending, res: Result): Flow
    requires k.PendingCall?
  {
    var f1 := Merge(f, res).(returnData := res.returnData);
    var memory := M.Set(f.memory, k.outOffset, res.returnData[..Min(k.outSize, |res.returnData|)], env.maxAlloc);
    if memory.None? then Fail(w, f1, Halted)
    else Lift(w, Push(f1.(memory := memory.value), if res.status.Success? then ONE_WORD else ZERO_WORD))
  }

  /** A malformed, oversized or unpaid deployment clears the code but undoes nothing else. */
  function Deployed(env: Env, w: World, f: Frame, target: Address, code: Bytes): Flow {
    var deposit := |code| * CODE_DEPOSIT;
    var acc := w.acc.SetCode(target, code, env.keccak(code));
    if (code != [] && code[0] == 0xEF) || |code| > MAX_CODE_SIZE || f.gas < deposit then
      Lift(w.(acc := acc.SetCode(target, [], env.keccak([]))), Push(f, ZERO_WORD))
    else
      Lift(w.(acc := acc), Push(f.(gas := f.gas - deposit), AddressWord(target)))
  }

  /** The caller picks up after its CREATE. */
  function ResumeCreate(env: Env, w: World, f: Frame, target: Address, res: Result): Flow {
    var f1 := Merge(f, res);
    if !res.status.Success? then Lift(w, Push(f1, ZERO_WORD)) else Deployed(env, w, f1, target, res.returnData)
  }

  function Resume(env: Env, w: World, f: Frame, k: Pending, res: Result): Flow {
    match k
    case PendingCall(_, _, _) => ResumeCall(env, w, f, k, res)
    case PendingCreate(msg) => ResumeCreate(env, w, f, msg.callee, res)
  }
}
