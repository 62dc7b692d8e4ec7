/** What a create is, from the opcode to the word its creator finds: the message, the deployment, what comes back. */
module CreateLaws {
  import opened Base
  import opened Ledger
  import opened Machine
  import opened Execution
  import opened Run
  import opened Effects
  import opened MemoryBytes
  import opened Instructions
  import Gas
  import M = Memory

  function CreateOpcode(create2: bool): byte {
    if create2 then 0xF5 else 0xF0
  }

  /** The operands of a create; `salt` is none for CREATE. */
  datatype Operands = Operands(value: Word, offset: Word, size: Word, salt: Word)

  function CreateStack(rest: seq<Word>, create2: bool, o: Operands): seq<Word> {
    rest + (if create2 then [o.salt] else []) + [o.size, o.offset, o.value]
  }

  /** Where the new account goes. */
  function NewAddress(env: Env, w: World, f: Frame, create2: bool, o: Operands, init: Bytes): Address {
    if create2 then env.create2Address(f.ctx.address, o.salt, init)
    else env.createAddress(f.ctx.address, w.acc.Nonce(f.ctx.address))
  }

  /** The message: who creates, where, with what value and what init code, and with how much gas. */
  ghost predicate Creates(env: Env, msg: Message, kept: u64, w: World, f: Frame, create2: bool, o: Operands) {
    && msg.isCreate && msg.kind == Call && !msg.isStatic && msg.depth == f.ctx.depth + 1
    && msg.caller == f.ctx.address && msg.value == ToNat(o.value)
    && |msg.code| == ToU64(o.size) && msg.input == msg.code
    && (forall i :: 0 <= i < |msg.code| ==> msg.code[i] == M.ByteAt(f.memory, ToU64(o.offset) + i))
    && msg.callee == msg.codeAddr == NewAddress(env, w, f, create2, o, msg.code)
    && kept + msg.gas < TWO64 && msg.gas == kept + msg.gas - (kept + msg.gas) / 64
  }

  /** One account's nonce went up by one, and nothing else changed. */
  ghost predicate OnlyNonceUp(acc: Accounts, acc1: Accounts, a: Address) {
    && acc1.Nonce(a) == (acc.Nonce(a) + 1) % TWO64
    && (forall b: Address :: b != a ==> acc1.Nonce(b) == acc.Nonce(b))
    && forall b: Address :: acc1.Balance(b) == acc.Balance(b) && acc1.Code(b) == acc.Code(b)
  }

  /** A create gives up without ending its frame: zero on the stack, nothing else in the frame but gas. */
  ghost predicate GivesUp(f: Frame, rest: seq<Word>, f1: Frame) {
    f1 == f.(gas := f1.gas, stack := rest + [ZERO_WORD], pc := f.pc + 1)
  }

  /** The address has a nonce or code already. */
  predicate Taken(w: World, a: Address) {
    w.acc.Nonce(a) > 0 || w.acc.Code(a) != []
  }

  /** The reasons: the value cannot be paid, the init code is too long from Shanghai on, or the address is taken. */
  predicate HasReason(env: Env, w: World, w1: World, f: Frame, create2: bool, o: Operands) {
    || ToNat(o.value) > w.acc.Balance(f.ctx.address)
    || (env.fork >= SHANGHAI && ToU64(o.size) > 0xC000)
    || Taken(w1, NewAddress(env, w, f, create2, o, Range(f.memory, ToU64(o.offset), ToU64(o.size))))
  }

  lemma OperandsAt(f: Frame, rest: seq<Word>, create2: bool, o: Operands)
    requires f.stack == CreateStack(rest, create2, o)
    ensures |f.stack| == |rest| + (if create2 then 4 else 3) && f.stack[..|rest|] == rest
    ensures Arg(f, 0) == o.value && Arg(f, 1) == o.offset && Arg(f, 2) == o.size && (create2 ==> Arg(f, 3) == o.salt)
  {
  }

  lemma SendCreateLaw(w: World, g: Frame, target: Address, value: nat, init: Bytes)
    requires |g.stack| < 1024
    ensures match SendCreate(w, g, target, value, init)
      case Invoke(w1, f1, k) =>
        && k.PendingCreate? && f1 == g.(gas := f1.gas) && f1.gas + k.msg.gas == g.gas
        && k.msg.gas == g.gas - g.gas / 64 && !Taken(w1, target)
        && k.msg == Message(g.ctx.address, target, value, k.msg.gas, init, init, target, false, g.ctx.depth + 1, Call,
                            true)
        && w1 == w.(acc := w1.acc) && OnlyNonceUp(w.acc, w1.acc, g.ctx.address)
      case Done(Next(end, f1)) =>
        && GivesUp(g, g.stack, f1) && Taken(end, target)
        && OnlyNonceUp(w.acc, end.acc, g.ctx.address)
      case Done(Stop(_, _)) => false
  {
  }

  /** What a create that is sent has put into its message. */
  lemma OpCreateLaw(env: Env, w: World, f: Frame, create2: bool, rest: seq<Word>, o: Operands)
    requires f.stack == CreateStack(rest, create2, o) && |f.stack| <= 1024
    ensures match OpCreate(env, w, f, create2)
      case Invoke(w1, f1, k) =>
        && k.PendingCreate? && Creates(env, k.msg, f1.gas, w, f, create2, o)
        && f1 == f.(gas := f1.gas, stack := rest) && !Taken(w1, k.msg.callee)
        && w1 == w.(acc := w1.acc) && OnlyNonceUp(w.acc, w1.acc, f.ctx.address)
      case Done(Next(end, f1)) => GivesUp(f, rest, f1) && HasReason(env, w, end, f, create2, o)
      case Done(Stop(_, _)) => true
  {
    hide M.Get, CreateCost, ToNat, ToU64, SendCreate, OnlyNonceUp, Finish, Taken, Range;
    OperandsAt(f, rest, create2, o);
    var g := f.(stack := rest);
    var init := M.Get(f.memory, ToU64(o.offset), ToU64(o.size), env.maxAlloc);
    if init.Some? {
      GetBytes(f.memory, ToU64(o.offset), ToU64(o.size), env.maxAlloc);
      assert init.value == Range(f.memory, ToU64(o.offset), ToU64(o.size));
      var cost := CreateCost(env, g, ToU64(o.offset), ToU64(o.size), create2);
      if cost <= f.gas {
        SendCreateLaw(w, g.(gas := f.gas - cost), NewAddress(env, w, f, create2, o, init.value), ToNat(o.value),
                      init.value);
      }
    }
  }

  lemma CreateSends(env: Env, hook: Hook, w: World, f: Frame, create2: bool, rest: seq<Word>, o: Operands)
    requires NoEditAt(hook, w.seen) && f.pc < |f.ctx.code| && f.ctx.code[f.pc] == CreateOpcode(create2)
    requires f.stack == CreateStack(rest, create2, o) && |f.stack| <= 1024
    ensures match Step(env, hook, w, f)
      case Invoke(w1, f1, k) =>
        && k.PendingCreate? && Creates(env, k.msg, f1.gas, w, f, create2, o)
        && f1 == f.(gas := f1.gas, stack := rest) && !Taken(w1, k.msg.callee)
        && w1.sto == w.sto && w1.transient == w.transient && OnlyNonceUp(w.acc, w1.acc, f.ctx.address)
      case Done(Next(end, f1)) => GivesUp(f, rest, f1) && HasReason(env, w, end, f, create2, o)
      case Done(Stop(_, _)) => true
  {
    hide DynamicGas, BaseGas, MinFork, Fire, OpCreate, CreateStack, Creates, OnlyNonceUp, GivesUp, HasReason, Taken;
    var op := f.ctx.code[f.pc];
    DynamicGasEffect(w, f, op);
    var (dynamic, w1) := DynamicGas(w, f, op);
    if env.fork >= MinFork(op) && dynamic + BaseGas(op) <= f.gas {
      var paid := f.(gas := f.gas - dynamic - BaseGas(op));
      FireEffect(env, hook, w1, paid);
      QuietFire(env, hook, w1, paid);
      var fired := Fire(env, hook, w1, paid);
      OpCreateLaw(env, fired.w, paid, create2, rest, o);
      match Step(env, hook, w, f)
      case Invoke(_, f1, k) => SameCreates(env, k.msg, f1.gas, fired.w, w, paid, f, create2, o);
      case Done(Next(end, f1)) =>
        SameGivesUp(paid, f, rest, f1);
        SameReason(env, fired.w, w, end, paid, f, create2, o);
      case Done(Stop(_, _)) =>
    }
  }

  lemma SameCreates(env: Env, msg: Message, kept: u64, w: World, w1: World, paid: Frame, f: Frame, create2: bool,
                    o: Operands)
    requires Creates(env, msg, kept, w, paid, create2, o) && w1.acc == w.acc && f == paid.(gas := f.gas)
    ensures Creates(env, msg, kept, w1, f, create2, o)
  {
  }

  lemma SameReason(env: Env, w: World, w1: World, end: World, paid: Frame, f: Frame, create2: bool, o: Operands)
    requires HasReason(env, w, end, paid, create2, o) && w1.acc == w.acc && f == paid.(gas := f.gas)
    ensures HasReason(env, w1, end, f, create2, o)
  {
  }

  lemma SameGivesUp(paid: Frame, f: Frame, rest: seq<Word>, f1: Frame)
    requires GivesUp(paid, rest, f1) && f == paid.(gas := f.gas)
    ensures GivesUp(f, rest, f1)
  {
  }

  // ---------------------------------------------------------------- what comes back

  /** The code the init code returned may stay: not of the reserved form, not too long, and its deposit can be paid. */
  predicate Deployable(code: Bytes, gas: nat) {
    (code == [] || code[0] != 0xEF) && |code| <= 0x6000 && 200 * |code| <= gas
  }

  /** The creator's frame after its message, against the frame `f` that sent it. */
  ghost predicate PickedUp(f: Frame, msg: Message, res: Result, f1: Frame) {
    var gas := f.gas + res.gasRemaining;
    var deployed := res.status.Success? && Deployable(res.returnData, gas);
    && f1.gas == gas - (if deployed then 200 * |res.returnData| else 0)
    && f1.stack == f.stack + [if deployed then Zeros(12) + msg.callee else Zeros(32)]
    && f1.pc == f.pc + 1 && f1.ctx == f.ctx && f1.memory == f.memory && f1.returnData == f.returnData
    && f1.logs == (if res.status.Success? then f.logs + res.logs else f.logs)
    && (f.refund + res.gasRefund < TWO64 ==>
          f1.refund == if res.status.Success? then f.refund + res.gasRefund else f.refund)
  }

  /** After a successful message the new account has the returned code if it may stay, and none otherwise. */
  ghost predicate Deploys(env: Env, w: World, gas: nat, target: Address, res: Result, w1: World) {
    var code := if Deployable(res.returnData, gas) then res.returnData else [];
    if res.status.Success? then
      && w1 == w.(acc := w1.acc) && w1.acc.Code(target) == code && w1.acc.CodeHash(target) == env.keccak(code)
      && (forall b: Address :: b != target ==>
            w1.acc.Code(b) == w.acc.Code(b) && w1.acc.CodeHash(b) == w.acc.CodeHash(b))
      && (forall b: Address :: w1.acc.Balance(b) == w.acc.Balance(b) && w1.acc.Nonce(b) == w.acc.Nonce(b))
    else
      w1 == w
  }

  /** The deployment alone, on the frame that has its gas back. */
  lemma DeployedLaw(env: Env, w: World, g: Frame, target: Address, code: Bytes)
    requires |g.stack| < 1024
    ensures match Deployed(env, w, g, target, code)
      case Next(w1, f1) =>
        var deployed := Deployable(code, g.gas);
        var left := if deployed then code else [];
        && f1 == g.(gas := f1.gas, pc := g.pc + 1,
                    stack := g.stack + [if deployed then Zeros(12) + target else Zeros(32)])
        && f1.gas == g.gas - (if deployed then 200 * |code| else 0)
        && w1 == w.(acc := w1.acc) && w1.acc.Code(target) == left && w1.acc.CodeHash(target) == env.keccak(left)
        && (forall b: Address :: b != target ==>
              w1.acc.Code(b) == w.acc.Code(b) && w1.acc.CodeHash(b) == w.acc.CodeHash(b))
        && forall b: Address :: w1.acc.Balance(b) == w.acc.Balance(b) && w1.acc.Nonce(b) == w.acc.Nonce(b)
      case Stop(_, _) => false
  {
  }

  lemma DeploymentLaw(env: Env, w: World, f: Frame, msg: Message, res: Result)
    requires |f.stack| < 1024 && f.gas + res.gasRemaining < TWO64
    ensures match Resume(env, w, f, PendingCreate(msg), res)
      case Next(w1, f1) => PickedUp(f, msg, res, f1) && Deploys(env, w, f.gas + res.gasRemaining, msg.callee, res, w1)
      case Stop(_, _) => false
  {
    hide Deployed, Deployable;
    DeployedLaw(env, w, Merge(f, res), msg.callee, res.returnData);
  }

  /**
   * The law of CREATE and CREATE2. The frame goes on either without a message and with zero on its stack, or after the
   * message of `CreateSends`, with the new account's address if the returned code was deployed and zero otherwise.
   */
  lemma CreateTurn(env: Env, hook: Hook, w: World, f: Frame, create2: bool, rest: seq<Word>, o: Operands)
    requires NoEditAt(hook, w.seen) && f.pc < |f.ctx.code| && f.ctx.code[f.pc] == CreateOpcode(create2)
    requires f.stack == CreateStack(rest, create2, o) && |f.stack| <= 1024
    ensures var s := Step(env, hook, w, f);
      match Turn(env, hook, w, f)
      case Next(w1, f1) =>
        if s.Invoke? then
          && s.k.PendingCreate? && Creates(env, s.k.msg, s.f.gas, w, f, create2, o)
          && var sent := ExecuteMessage(env, hook, s.w, s.k.msg, f.ctx);
             && PickedUp(f.(gas := s.f.gas, stack := rest), s.k.msg, sent.res, f1)
             && Deploys(env, sent.w, s.f.gas + sent.res.gasRemaining, s.k.msg.callee, sent.res, w1)
        else
          GivesUp(f, rest, f1) && HasReason(env, w, s.flow.w, f, create2, o)
      case Stop(_, _) => s.Done?
  {
    hide Step, Creates, PickedUp, Deploys, GivesUp, CreateStack, Resume, ExecuteMessage, OnlyNonceUp, HasReason, Taken;
    CreateSends(env, hook, w, f, create2, rest, o);
    RestFits(f, create2, rest, o);
    Gas.StepSpends(env, hook, w, f);
    match Step(env, hook, w, f)
    case Done(_) =>
    case Invoke(w1, f1, k) =>
      var sent := ExecuteMessage(env, hook, w1, k.msg, f1.ctx);
      DeploymentLaw(env, sent.w, f1, k.msg, sent.res);
  }

  lemma RestFits(f: Frame, create2: bool, rest: seq<Word>, o: Operands)
    requires f.stack == CreateStack(rest, create2, o) && |f.stack| <= 1024
    ensures |rest| < 1024
  {
  }
}
