/** What a call is, from the opcode to the word its caller finds: the message, whose code runs where, the answer. */
module CallLaws {
  import opened Base
  import opened Ledger
  import opened Machine
  import opened Execution
  import opened Run
  import opened Effects
  import opened MemoryBytes
  import opened StorageGas
  import opened StorageTelescope
  import opened TopLevel
  import Gas
  import M = Memory

  // ---------------------------------------------------------------- the message a call sends

  function OpcodeOf(kind: CallKind): byte {
    match kind
    case Call => 0xF1
    case CallCode => 0xF2
    case DelegateCall => 0xF4
    case StaticCall => 0xFA
  }

  predicate TakesValue(kind: CallKind) {
    kind == Call || kind == CallCode
  }

  /** The operands of a call, the first to be popped first; `value` is none for the kinds that take none. */
  datatype Operands = Operands(
    gas: Word, target: Word, value: Word, inOffset: Word, inSize: Word, outOffset: Word, outSize: Word)

  /** A stack with the operands of a call on top. */
  function CallStack(rest: seq<Word>, kind: CallKind, o: Operands): seq<Word> {
    rest + [o.outSize, o.outOffset, o.inSize, o.inOffset] + (if TakesValue(kind) then [o.value] else [])
    + [o.target, o.gas]
  }

  function ValueOf(kind: CallKind, o: Operands): nat {
    if TakesValue(kind) then ToNat(o.value) else 0
  }

  /** The message says who calls whom, with what value, what input and under which restriction. */
  ghost predicate Carries(msg: Message, f: Frame, kind: CallKind, o: Operands) {
    && msg.kind == kind && !msg.isCreate && msg.code == []
    && msg.caller == f.ctx.address
    && msg.codeAddr == o.target[12..]
    && msg.callee == (if kind == Call || kind == StaticCall then o.target[12..] else f.ctx.address)
    && msg.value == ValueOf(kind, o)
    && msg.isStatic == (f.ctx.isStatic || kind == StaticCall)
    && msg.depth == f.ctx.depth + 1
    && |msg.input| == ToU64(o.inSize)
    && forall i :: 0 <= i < |msg.input| ==> msg.input[i] == M.ByteAt(f.memory, ToU64(o.inOffset) + i)
  }

  /** The gas sent is what was asked for, but at most all but a 64th of what is left, and 2300 more with value. */
  ghost predicate SendsGas(msg: Message, kept: u64, asked: u64) {
    var stipend := if msg.value > 0 then 2300 else 0;
    msg.gas >= stipend
    && var charged := msg.gas - stipend; charged == Min(asked, kept + charged - (kept + charged) / 64)
  }

  lemma OperandsAt(f: Frame, rest: seq<Word>, kind: CallKind, o: Operands)
    requires f.stack == CallStack(rest, kind, o)
    ensures var n := CallOperands(kind);
      && |f.stack| == |rest| + n && f.stack[..|rest|] == rest
      && Arg(f, 0) == o.gas && Arg(f, 1) == o.target && (n == 7 ==> Arg(f, 2) == o.value)
      && Arg(f, n - 4) == o.inOffset && Arg(f, n - 3) == o.inSize
      && Arg(f, n - 2) == o.outOffset && Arg(f, n - 1) == o.outSize
  {
  }

  lemma ChildGasIs(available: u64, asked: u64)
    ensures ChildGas(available, asked) == Min(asked, available - available / 64)
  {
  }

  lemma SendCallLaw(env: Env, w: World, g: Frame, kind: CallKind, target: Address, value: nat, asked: u64, input: Bytes,
                    inOffset: u64, inSize: u64, outOffset: u64, outSize: u64)
    requires value > 0 ==> TakesValue(kind)
    ensures var growth := CallGrowth(|g.memory|, inOffset, inSize, outOffset, outSize);
      var s := SendCall(env, w, g, kind, target, value, asked, input, growth, outOffset, outSize);
      s.Invoke? ==>
        && s.k == PendingCall(s.k.msg, outOffset, outSize)
        && SendsGas(s.k.msg, s.f.gas, asked)
        && s.f == g.(gas := s.f.gas, memory := s.f.memory)
        && forall i: nat :: M.ByteAt(s.f.memory, i) == M.ByteAt(g.memory, i)
  {
    hide M.Resize, CallBase, CallGrowth, TouchAddress, ChildGas, Add64;
    var growth := CallGrowth(|g.memory|, inOffset, inSize, outOffset, outSize);
    if M.Resize(g.memory, growth.1, env.maxAlloc).Some? {
      var base := CallBase(w, target, kind, value);
      Gas.CallBasePrice(w, target, kind, value);
      Gas.CallPaysItsPrice(base, g.memory, inOffset, inSize, outOffset, outSize, env.maxAlloc);
      if Add64(base, growth.0) <= g.gas {
        ResizeBytes(g.memory, growth.1, env.maxAlloc);
        ChildGasIs(g.gas - Add64(base, growth.0), asked);
        StipendAdded(ChildGas(g.gas - Add64(base, growth.0), asked), value > 0);
      }
    }
  }

  lemma StipendAdded(charged: u64, withValue: bool)
    requires withValue ==> charged + CALL_STIPEND < TWO64
    ensures (if withValue then Add64(charged, CALL_STIPEND) else charged) == charged + if withValue then 2300 else 0
  {
  }

  /** What a call that is sent has taken from its frame and put into its message. */
  lemma OpCallLaw(env: Env, w: World, f: Frame, kind: CallKind, rest: seq<Word>, o: Operands)
    requires f.stack == CallStack(rest, kind, o)
    ensures var s := OpCall(env, w, f, kind);
      s.Invoke? ==>
        && s.k == PendingCall(s.k.msg, ToU64(o.outOffset), ToU64(o.outSize))
        && Carries(s.k.msg, f, kind, o) && SendsGas(s.k.msg, s.f.gas, ToU64(o.gas))
        && s.f == f.(gas := s.f.gas, memory := s.f.memory, stack := rest)
        && forall i: nat :: M.ByteAt(s.f.memory, i) == M.ByteAt(f.memory, i)
  {
    hide M.Get, CallGrowth, SendsGas, ToNat, ToU64, CallBase, TouchAddress, ChildGas, Add64, M.Resize;
    OperandsAt(f, rest, kind, o);
    var n := CallOperands(kind);
    var input := M.Get(f.memory, ToU64(o.inOffset), ToU64(o.inSize), env.maxAlloc);
    if OpCall(env, w, f, kind).Invoke? {
      GetBytes(f.memory, ToU64(o.inOffset), ToU64(o.inSize), env.maxAlloc);
      SendCallLaw(env, w, Drop(f, n), kind, ToAddress(o.target), ValueOf(kind, o), ToU64(o.gas), input.value,
                  ToU64(o.inOffset), ToU64(o.inSize), ToU64(o.outOffset), ToU64(o.outSize));
    }
  }

  /** The same of the instruction: the message is sent from the frame and the world as they are. */
  lemma CallSends(env: Env, hook: Hook, w: World, f: Frame, kind: CallKind, rest: seq<Word>, o: Operands)
    requires NoEditAt(hook, w.seen) && f.pc < |f.ctx.code| && f.ctx.code[f.pc] == OpcodeOf(kind)
    requires f.stack == CallStack(rest, kind, o)
    ensures var s := Step(env, hook, w, f);
      s.Invoke? ==>
        && s.k == PendingCall(s.k.msg, ToU64(o.outOffset), ToU64(o.outSize))
        && Carries(s.k.msg, f, kind, o) && SendsGas(s.k.msg, s.f.gas, ToU64(o.gas))
        && s.f == f.(gas := s.f.gas, memory := s.f.memory, stack := rest)
        && (forall i: nat :: M.ByteAt(s.f.memory, i) == M.ByteAt(f.memory, i))
        && s.w.acc == w.acc && s.w.sto == w.sto && s.w.transient == w.transient
    ensures Step(env, hook, w, f).Done? ==> Step(env, hook, w, f).flow.Stop?
  {
    hide DynamicGas, BaseGas, MinFork, Fire, OpCall, CallStack, Carries, SendsGas, ToU64;
    var op := f.ctx.code[f.pc];
    DynamicGasEffect(w, f, op);
    var (dynamic, w1) := DynamicGas(w, f, op);
    if env.fork >= MinFork(op) && dynamic + BaseGas(op) <= f.gas {
      var paid := f.(gas := f.gas - dynamic - BaseGas(op));
      FireEffect(env, hook, w1, paid);
      QuietFire(env, hook, w1, paid);
      var fired := Fire(env, hook, w1, paid);
      OpCallEffect(env, fired.w, paid, kind);
      OpCallLaw(env, fired.w, paid, kind, rest, o);
      Gas.CallSendsOrStops(env, fired.w, paid, kind);
      if Step(env, hook, w, f).Invoke? {
        SameCarried(Step(env, hook, w, f).k.msg, paid, f, kind, o);
      }
    }
  }

  lemma SameCarried(msg: Message, paid: Frame, f: Frame, kind: CallKind, o: Operands)
    requires Carries(msg, paid, kind, o) && f.ctx == paid.ctx && f.memory == paid.memory
    ensures Carries(msg, f, kind, o)
  {
  }

  // ---------------------------------------------------------------- where its code runs

  /** The frame a message opens: fresh, with the message's gas and input, and with the code it names. */
  lemma EnteredFrame(env: Env, w: World, msg: Message, parent: Ctx)
    requires Enter(env, w, msg, parent).Entered?
    ensures var f := Enter(env, w, msg, parent).f;
      && f.pc == 0 && f.gas == msg.gas && f.refund == 0 && f.stack == [] && f.memory == [] && f.returnData == []
      && f.output == [] && f.logs == []
      && f.ctx.input == msg.input && f.ctx.codeAddr == msg.codeAddr
      && f.ctx.code == (if msg.code == [] then w.acc.Code(msg.codeAddr) else msg.code)
      && f.ctx.isStatic == msg.isStatic && f.ctx.depth == msg.depth
  {
  }

  /** On whose storage and in whose name it runs. */
  lemma EnteredIdentity(env: Env, w: World, msg: Message, parent: Ctx)
    requires Enter(env, w, msg, parent).Entered?
    ensures var c := Enter(env, w, msg, parent).f.ctx;
      match msg.kind
      case Call => c.address == msg.callee && c.caller == msg.caller && c.value == msg.value
      case StaticCall => c.address == msg.callee && c.caller == msg.caller && c.value == msg.value
      case CallCode => c.address == parent.address && c.caller == parent.address && c.value == msg.value
      case DelegateCall => c.address == parent.address && c.caller == parent.caller && c.value == parent.value
  {
    hide Funded;
  }

  /** Whose slots a call of this kind writes. */
  function StorageOwner(f: Frame, kind: CallKind, target: Address): Address {
    if kind == Call || kind == StaticCall then target else f.ctx.address
  }

  /**
   * The run form: code that stores, reached by CALL, writes a slot of the account called and no other slot; reached by
   * CALLCODE or DELEGATECALL, the slot of the caller and no other.
   */
  lemma CalledCodeStores(env: Env, w: World, f: Frame, kind: CallKind, rest: seq<Word>, o: Operands,
                         slot: byte, v: byte)
    requires kind != StaticCall && !f.ctx.isStatic && f.ctx.depth < 1023 && f.stack == CallStack(rest, kind, o)
    requires ValueOf(kind, o) == 0 && o.target[12..] !in env.precompiles
    requires w.acc.Code(o.target[12..]) == StoreCode(slot, v)
    requires OpCall(env, w, f, kind).Invoke?
    requires var gas := OpCall(env, w, f, kind).k.msg.gas;
      gas > 6 + CALL_STIPEND
      && gas >= 6 + StorePrice(w, (StorageOwner(f, kind, o.target[12..]), ByteWord(slot)), ByteWord(v))
    ensures var s, k := OpCall(env, w, f, kind), (StorageOwner(f, kind, o.target[12..]), ByteWord(slot));
      var sent := ExecuteMessage(env, NO_HOOK, s.w, s.k.msg, s.f.ctx);
      && sent.res.status.Success? && sent.w.sto.Get(k) == ByteWord(v)
      && forall j: SlotKey :: j != k ==> sent.w.sto.Get(j) == w.sto.Get(j)
  {
    hide OpCall, CallStack, RunFrame, StoreGas, RefundAfter, ByteWord, StoreCode, SendsGas;
    var s := OpCall(env, w, f, kind);
    OpCallLaw(env, w, f, kind, rest, o);
    OpCallEffect(env, w, f, kind);
    CallWarmsNoSlot(env, w, f, kind);
    match Enter(env, s.w, s.k.msg, s.f.ctx)
    case Entered(w1, f1) =>
      EnteredFrame(env, s.w, s.k.msg, s.f.ctx);
      EnteredIdentity(env, s.w, s.k.msg, s.f.ctx);
      StoreCodeRuns(env, w1, f1.ctx, s.k.msg.gas, slot, v);
  }

  lemma CallWarmsNoSlot(env: Env, w: World, f: Frame, kind: CallKind)
    ensures WorldOf(OpCall(env, w, f, kind)).warmSlots == w.warmSlots
  {
    hide M.Get, M.Resize, CallGrowth, CallBase, ChildGas, ToNat, ToU64, ToAddress, Add64, Finish;
  }

  // ---------------------------------------------------------------- what comes back

  /** The word a caller finds on its stack. */
  ghost predicate IsFlag(word: Word, success: bool) {
    (forall i :: 0 <= i < 31 ==> word[i] == 0) && word[31] == if success then 1 else 0
  }

  /** How much of the answer fits where the caller wants it. */
  function Copied(k: Pending, answer: Bytes): nat
    requires k.PendingCall?
  {
    Min(k.outSize, |answer|)
  }

  /**
   * A frame that goes on after its call, against the frame `f` that sent it and the outcome of the message. No buffer
   * holds 2^37 bytes.
   */
  ghost predicate PickedUp(f: Frame, k: Pending, res: Result, f1: Frame)
    requires k.PendingCall?
  {
    && f1.ctx == f.ctx && f1.pc == f.pc + 1 && f1.gas == f.gas + res.gasRemaining && f1.output == f.output
    && |f1.stack| == |f.stack| + 1 && f1.stack[..|f.stack|] == f.stack
    && IsFlag(f1.stack[|f.stack|], res.status.Success?)
    && f1.returnData == res.returnData
    && f1.logs == (if res.status.Success? then f.logs + res.logs else f.logs)
    && (f.refund + res.gasRefund < TWO64 ==>
          f1.refund == if res.status.Success? then f.refund + res.gasRefund else f.refund)
    && (Copied(k, res.returnData) < 0x20_0000_0000 ==>
          forall i: nat :: M.ByteAt(f1.memory, i)
            == if k.outOffset <= i < k.outOffset + Copied(k, res.returnData) then res.returnData[i - k.outOffset]
               else M.ByteAt(f.memory, i))
  }

  lemma AnswerLaw(env: Env, w: World, f: Frame, k: Pending, res: Result)
    requires k.PendingCall? && f.gas + res.gasRemaining < TWO64
    ensures match Resume(env, w, f, k, res)
      case Next(w1, f1) => w1 == w && PickedUp(f, k, res, f1)
      case Stop(w1, _) => w1 == w
  {
    hide M.Set;
    var data := res.returnData[..Copied(k, res.returnData)];
    if M.Set(f.memory, k.outOffset, data, env.maxAlloc).Some? && |data| < 0x20_0000_0000 {
      SetBytes(f.memory, k.outOffset, data, env.maxAlloc);
    }
  }

  /**
   * The law of the four call opcodes. When the frame goes on after its call, the message was sent as `CallSends` says
   * and run to its end; the stack is the old one less the operands plus one word, 1 if and only if the message
   * succeeded and 0 otherwise; the return data is the message's output, memory at the place asked for holds its first
   * bytes, as many as fit, and every other byte is as it was; and the gas that came back is added to what was kept.
   */
  lemma CallTurn(env: Env, hook: Hook, w: World, f: Frame, kind: CallKind, rest: seq<Word>, o: Operands)
    requires NoEditAt(hook, w.seen) && f.pc < |f.ctx.code| && f.ctx.code[f.pc] == OpcodeOf(kind)
    requires f.stack == CallStack(rest, kind, o)
    ensures var s := Step(env, hook, w, f);
      match Turn(env, hook, w, f)
      case Next(w1, f1) =>
        s.Invoke? && Carries(s.k.msg, f, kind, o) && SendsGas(s.k.msg, s.f.gas, ToU64(o.gas))
        && s.k.PendingCall? && s.k.outOffset == ToU64(o.outOffset) && s.k.outSize == ToU64(o.outSize)
        && var sent := ExecuteMessage(env, hook, s.w, s.k.msg, f.ctx);
           w1 == sent.w && PickedUp(f.(gas := s.f.gas, stack := rest), s.k, sent.res, f1)
      case Stop(_, _) => true
  {
    hide Step, Carries, SendsGas, PickedUp, CallStack, Resume, ExecuteMessage, ToU64;
    CallSends(env, hook, w, f, kind, rest, o);
    Gas.StepSpends(env, hook, w, f);
    match Step(env, hook, w, f)
    case Done(_) =>
    case Invoke(w1, f1, k) =>
      var sent := ExecuteMessage(env, hook, w1, k.msg, f1.ctx);
      AnswerLaw(env, sent.w, f1, k, sent.res);
      match Resume(env, sent.w, f1, k, sent.res)
      case Stop(_, _) =>
      case Next(_, f2) => SamePickedUp(f1, f.(gas := f1.gas, stack := rest), k, sent.res, f2);
  }

  /** Memory that was grown before the message counts as it was. */
  lemma SamePickedUp(f: Frame, g: Frame, k: Pending, res: Result, f1: Frame)
    requires k.PendingCall? && PickedUp(f, k, res, f1)
    requires g == f.(memory := g.memory) && forall i: nat :: M.ByteAt(f.memory, i) == M.ByteAt(g.memory, i)
    ensures PickedUp(g, k, res, f1)
  {
    hide IsFlag;
  }
}
