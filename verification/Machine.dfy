/** One step of the interpreter: frames, the world they share, and every opcode handler. */
module Machine {
  import opened Base
  import opened Ledger
  import opened StorageGas
  import Bytecode
  import M = Memory

  // ---------------------------------------------------------------- data

  datatype Status =
    | Success | Reverted | Halted | OutOfGas | InvalidJump | StackOverflow | StackUnderflow
    | InvalidOpcode | CallDepthExceeded | InsufficientBalance

  datatype Log = Log(address: Address, topics: seq<Hash>, data: Bytes)

  datatype Result = Result(status: Status, gasRemaining: u64, gasRefund: u64, returnData: Bytes, logs: seq<Log>)

  /** What a frame is executing and for whom: fixed for the life of the frame. */
  datatype Ctx = Ctx(
    address: Address, caller: Address, value: nat, input: Bytes, code: Bytes, codeAddr: Address,
    isStatic: bool, depth: nat)

  /** A running frame. The top of the stack is its last element. */
  datatype Frame = Frame(
    ctx: Ctx, pc: nat, gas: u64, refund: u64, stack: seq<Word>, memory: M.Store,
    returnData: Bytes, output: Bytes, logs: seq<Log>)

  /** A charge at the cold price. */
  datatype Access = ColdAddress(address: Address) | ColdSlot(slot: SlotKey)

  /** What a paused debugger shows. */
  datatype Shown = Shown(frame: Frame, acc: Accounts, sto: Slots, transient: map<SlotKey, Hash>)

  /** One instruction fetch; `step` is its number when the step hook ran to its end. */
  datatype Event = Event(active: seq<Ctx>, shown: Shown, step: Option<nat>)

  datatype Pause = Pause(step: nat, shown: Shown)

  /**
   * Everything frames share. `accSnaps` and `stoSnaps` are the snapshot stacks, whose indices are the snapshot ids.
   * The last five fields only observe: cold charges made, frames open, fetches, hook firings, and the pause taken.
   */
  datatype World = World(
    acc: Accounts, accSnaps: seq<Accounts>, sto: Slots, stoSnaps: seq<Slots>, transient: map<SlotKey, Hash>,
    warmAddrs: set<Address>, warmSlots: set<SlotKey>,
    billed: seq<Access>, active: seq<Ctx>, trace: seq<Event>, seen: nat, pending: Option<Pause>)
  {
    function Transient(k: SlotKey): Hash {
      if k in transient then transient[k] else ZERO_WORD
    }
  }

  /** An edit the debugger's user made while paused at step `step`. */
  datatype Mutation =
    | StorageWrite(step: nat, transientScope: bool, slot: SlotKey, value: Hash)
    | MemoryWrite(step: nat, offset: u64, data: M.Store)

  /** The step hook: edits to re-apply, and the step to pause at. */
  datatype Hook = Hook(journal: seq<Mutation>, pauseAt: Option<nat>)

  const NO_HOOK := Hook([], None)

  datatype Precompile = Precompile(gas: Bytes -> Option<u64>, run: Bytes -> Option<Bytes>)

  /** Fixed parameters of an execution. `alu` gives the word pushed by every opcode that only computes. */
  datatype Env = Env(
    fork: nat, maxAlloc: M.AllocLimit, precompiles: map<Address, Precompile>,
    alu: (byte, seq<Word>, World, Frame) -> Word, keccak: Bytes -> Hash,
    createAddress: (Address, u64) -> Address, create2Address: (Address, Hash, Bytes) -> Address)

  const LONDON := 0
  const PARIS := 1
  const SHANGHAI := 2
  const CANCUN := 3
  const AMSTERDAM := 5

  datatype CallKind = Call | CallCode | DelegateCall | StaticCall

  datatype Message = Message(
    caller: Address, callee: Address, value: nat, gas: u64, input: Bytes, code: Bytes, codeAddr: Address,
    isStatic: bool, depth: nat, kind: CallKind, isCreate: bool)

  /** A sub-message in flight and what its frame still has to do with the answer. */
  datatype Pending =
    | PendingCall(msg: Message, outOffset: u64, outSize: u64)
    | PendingCreate(msg: Message)

  /** Outcome of an opcode that touches only its own frame. */
  datatype Local = Cont(f: Frame) | End(f: Frame, status: Status)

  datatype Flow = Next(w: World, f: Frame) | Stop(w: World, res: Result)

  datatype StepOut = Done(flow: Flow) | Invoke(w: World, f: Frame, k: Pending)

  // ---------------------------------------------------------------- gas

  const COLD_ACCOUNT: u64 := 2600
  const CALL_VALUE: u64 := 9000
  const CALL_STIPEND: u64 := 2300
  const NEW_ACCOUNT: u64 := 25000
  const SELFDESTRUCT_GAS: u64 := 5000
  const CODE_DEPOSIT: u64 := 200
  const MAX_CODE_SIZE := 0x6000
  const MAX_INIT_CODE_SIZE := 0xC000

  /** The static cost table. */
  function BaseGas(op: byte): u64 {
    if op == 0x02 || 0x04 <= op <= 0x07 || op == 0x0B || op == 0x1E || op == 0x47 then 5
    else if op == 0x08 || op == 0x09 || op == 0x56 then 8
    else if op == 0x0A || op == 0x57 then 10
    else if op == 0x20 then 30
    else if op == 0x40 then 20
    else if op == 0x5B then 1
    else if op == 0x5C || op == 0x5D then 100
    else if 0xA0 <= op <= 0xA4 then 375
    else if op == 0xF0 || op == 0xF5 then 32000
    else if op == 0x01 || op == 0x03 || 0x10 <= op <= 0x1D || op == 0x35 || op == 0x37 || op == 0x39 || op == 0x3E
      || op == 0x49 || 0x51 <= op <= 0x53 || op == 0x5E || 0x60 <= op <= 0x9F then 3
    else if op == 0x30 || 0x32 <= op <= 0x34 || op == 0x36 || op == 0x38 || op == 0x3A || op == 0x3D
      || 0x41 <= op <= 0x46 || op == 0x48 || op == 0x4A || op == 0x50 || 0x58 <= op <= 0x5A || op == 0x5F then 2
    else 0
  }

  function MinFork(op: byte): nat {
    if op == 0x44 then PARIS
    else if op == 0x5F then SHANGHAI
    else if 0x5C <= op <= 0x5E || op == 0x49 || op == 0x4A then CANCUN
    else if op == 0x1E then AMSTERDAM
    else LONDON
  }

  /** Access cost of an address; the list is shared by every frame and never shrinks. */
  function TouchAddress(w: World, a: Address): (u64, World) {
    if a in w.warmAddrs then (WARM_ACCESS, w)
    else (COLD_ACCOUNT, w.(warmAddrs := w.warmAddrs + {a}, billed := w.billed + [ColdAddress(a)]))
  }

  function TouchSlot(w: World, k: SlotKey): (u64, World) {
    if k in w.warmSlots then (WARM_ACCESS, w)
    else (COLD_SLOAD, w.(warmSlots := w.warmSlots + {k}, billed := w.billed + [ColdSlot(k)]))
  }

  function Arg(f: Frame, i: nat): Word
    requires i < |f.stack|
  {
    f.stack[|f.stack| - 1 - i]
  }

  function Arg64(f: Frame, i: nat): u64
    requires i < |f.stack|
  {
    ToU64(Arg(f, i))
  }

  function Capped(n: nat): u64 {
    if n < TWO64 then n else MAX64
  }

  function WordCount(size: u64): u64 {
    if size > MAX64 - 31 then MAX64 else (size + 31) / 32
  }

  function MemGas(f: Frame, offset: u64, size: u64): u64 {
    M.ExpandSize(|f.memory|, offset, size).0
  }

  /** Memory growth plus a per-word price; an overflow anywhere is the largest uint64. */
  function CopyGas(f: Frame, offset: u64, size: u64, wordGas: nat): u64 {
    Capped(MemGas(f, offset, size) + wordGas)
  }

  function ByteLength(w: Word): nat {
    if forall i :: 0 <= i < 32 ==> w[i] == 0 then 0
    else var i :| 0 <= i < 32 && w[i] != 0 && forall j :: 0 <= j < i ==> w[j] == 0; 32 - i
  }

  /** Data-dependent gas, charged before the handler runs; a stack that is too short costs nothing here. */
  function DynamicGas(w: World, f: Frame, op: byte): (u64, World) {
    var n := |f.stack|;
    if op == 0x0A && n >= 2 then (ByteLength(Arg(f, 1)) * 50, w)
    else if op == 0x20 && n >= 2 then (CopyGas(f, Arg64(f, 0), Arg64(f, 1), WordCount(Arg64(f, 1)) * 6), w)
    else if (op == 0x31 || op == 0x3B || op == 0x3F) && n >= 1 then TouchAddress(w, ToAddress(Arg(f, 0)))
    else if op == 0x3C && n >= 4 then
      var size := Arg64(f, 3);
      if WordCount(size) * 3 >= TWO64 then (MAX64, w)
      else
        var (access, w1) := TouchAddress(w, ToAddress(Arg(f, 0)));
        (Capped(MemGas(f, Arg64(f, 1), size) + WordCount(size) * 3 + access), w1)
    else if (op == 0x37 || op == 0x39 || op == 0x3E || op == 0x5E) && n >= 3 then
      (CopyGas(f, Arg64(f, 0), Arg64(f, 2), WordCount(Arg64(f, 2)) * 3), w)
    else if (op == 0x51 || op == 0x52) && n >= (if op == 0x51 then 1 else 2) then (MemGas(f, Arg64(f, 0), 32), w)
    else if op == 0x53 && n >= 2 then (MemGas(f, Arg64(f, 0), 1), w)
    else if op == 0x54 && n >= 1 then TouchSlot(w, (f.ctx.address, Arg(f, 0)))
    else if 0xA0 <= op <= 0xA4 && n >= 2 then
      (Capped(MemGas(f, Arg64(f, 0), Arg64(f, 1)) + Arg64(f, 1) * 8 + (op - 0xA0) * 375), w)
    else if (op == 0xF3 || op == 0xFD) && n >= 2 then (MemGas(f, Arg64(f, 0), Arg64(f, 1)), w)
    else (0, w)
  }

  // ---------------------------------------------------------------- frame-local opcodes

  function Drop(f: Frame, n: nat): Frame
    requires n <= |f.stack|
  {
    f.(stack := f.stack[..|f.stack| - n])
  }

  function Advance(f: Frame): Local {
    Cont(f.(pc := f.pc + 1))
  }

  function Push(f: Frame, v: Word): Local {
    if |f.stack| >= 1024 then End(f, StackOverflow) else Advance(f.(stack := f.stack + [v]))
  }

  function Jump(f: Frame, dest: u64): Local {
    if Bytecode.IsJumpDest(f.ctx.code, dest) then Cont(f.(pc := dest)) else End(f, InvalidJump)
  }

  /** The operand of PUSHn: bytes past the end of the code read as zero. */
  function PushData(code: Bytes, pc: nat, n: nat): Word
    requires n <= 32
  {
    var from := Min(pc + 1, |code|);
    var have := code[from..Min(from + n, |code|)];
    Zeros(32 - n) + have + Zeros(n - |have|)
  }

  function StoreMemory(f: Frame, memory: Option<M.Store>): Local {
    if memory.None? then End(f, Halted) else Advance(f.(memory := memory.value))
  }

  function CopyToMemory(env: Env, f: Frame, offset: u64, data: Option<Bytes>): Local
    requires data.Some? ==> |data.value| < TWO64
  {
    if data.None? then End(f, Halted) else StoreMemory(f, M.Set(f.memory, offset, data.value, env.maxAlloc))
  }

  function Dup(f: Frame, n: nat): Local
    requires 1 <= n
  {
    if n > |f.stack| then End(f, StackUnderflow) else Push(f, Arg(f, n - 1))
  }

  function Swap(f: Frame, n: nat): Local
    requires 1 <= n
  {
    if n >= |f.stack| then End(f, StackUnderflow)
    else
      var top := |f.stack| - 1;
      Advance(f.(stack := f.stack[top := f.stack[top - n]][top - n := f.stack[top]]))
  }

  function EmitLog(env: Env, f: Frame, topics: nat): Local {
    if |f.stack| < 2 + topics then End(f, StackUnderflow)
    else
      var data := M.Get(f.memory, Arg64(f, 0), Arg64(f, 1), env.maxAlloc);
      if data.None? then End(f, Halted)
      else
        var words := seq(topics, i requires 0 <= i < topics => Arg(f, 2 + i));
        Advance(Drop(f, 2 + topics).(logs := f.logs + [Log(f.ctx.address, words, data.value)]))
  }

  /** How many words the opcodes that only compute one word take; the rest have handlers below. */
  function Arity(op: byte): Option<nat> {
    if op == 0x15 || op == 0x19 || op == 0x1E || op == 0x31 || op == 0x35 || op == 0x3B || 0x3F <= op <= 0x40
      || op == 0x49 then Some(1)
    else if 0x08 <= op <= 0x09 then Some(3)
    else if 0x01 <= op <= 0x0B || 0x10 <= op <= 0x1D then Some(2)
    else if op == 0x30 || 0x32 <= op <= 0x34 || op == 0x36 || op == 0x38 || op == 0x3A || op == 0x3D
      || 0x41 <= op <= 0x48 || op == 0x4A || 0x58 <= op <= 0x5A then Some(0)
    else None
  }

  function Compute(env: Env, w: World, f: Frame, op: byte, n: nat): Local {
    if |f.stack| < n then End(f, StackUnderflow)
    else Push(Drop(f, n), env.alu(op, f.stack[|f.stack| - n..], w, f))
  }

  function Leave(env: Env, f: Frame, status: Status): Local {
    if |f.stack| < 2 then End(f, StackUnderflow)
    else
      var data := M.Get(f.memory, Arg64(f, 0), Arg64(f, 1), env.maxAlloc);
      if data.None? then End(f, Halted) else End(f.(output := data.value, returnData := data.value), status)
  }

  function OpPush(f: Frame, n: nat): Local
    requires n <= 32
  {
    if |f.stack| >= 1024 then End(f, StackOverflow)
    else Cont(f.(stack := f.stack + [PushData(f.ctx.code, f.pc, n)], pc := f.pc + 1 + n))
  }

  function OpPop(f: Frame): Local {
    if |f.stack| < 1 then End(f, StackUnderflow) else Advance(Drop(f, 1))
  }

  function OpJump(f: Frame): Local {
    if |f.stack| < 1 then End(f, StackUnderflow) else Jump(Drop(f, 1), Arg64(f, 0))
  }

  function OpJumpi(f: Frame): Local {
    if |f.stack| < 2 then End(f, StackUnderflow)
    else if ToNat(Arg(f, 1)) != 0 then Jump(Drop(f, 2), Arg64(f, 0))
    else Advance(Drop(f, 2))
  }

  function OpSload(w: World, f: Frame): Local {
    if |f.stack| < 1 then End(f, StackUnderflow)
    else Push(Drop(f, 1), w.sto.Get((f.ctx.address, Arg(f, 0))))
  }

  function OpTload(w: World, f: Frame): Local {
    if |f.stack| < 1 then End(f, StackUnderflow)
    else Push(Drop(f, 1), w.Transient((f.ctx.address, Arg(f, 0))))
  }

  function OpMload(env: Env, f: Frame): Local {
    if |f.stack| < 1 then End(f, StackUnderflow)
    else
      var grown := M.Resize(f.memory, Add64(Arg64(f, 0), 32), env.maxAlloc);
      if grown.None? then End(f, Halted)
      else
        var data := M.Get(grown.value, Arg64(f, 0), 32, env.maxAlloc);
        if data.None? then End(f, Halted) else Push(Drop(f, 1).(memory := grown.value), data.value)
  }

  function OpMstore(env: Env, f: Frame): Local {
    if |f.stack| < 2 then End(f, StackUnderflow)
    else CopyToMemory(env, Drop(f, 2), Arg64(f, 0), Some(Arg(f, 1)))
  }

  function OpMstore8(env: Env, f: Frame): Local {
    if |f.stack| < 2 then End(f, StackUnderflow)
    else CopyToMemory(env, Drop(f, 2), Arg64(f, 0), Some([Arg(f, 1)[31]]))
  }

  /** KECCAK256 resizes memory even for an empty range. */
  function OpKeccak(env: Env, f: Frame): Local {
    if |f.stack| < 2 then End(f, StackUnderflow)
    else
      var grown := M.Resize(f.memory, Add64(Arg64(f, 0), Arg64(f, 1)), env.maxAlloc);
      if grown.None? then End(f, Halted)
      else
        var data := M.Get(grown.value, Arg64(f, 0), Arg64(f, 1), env.maxAlloc);
        if data.None? then End(f, Halted) else Push(Drop(f, 2).(memory := grown.value), env.keccak(data.value))
  }

  /** MCOPY goes through a fresh buffer of the requested length. */
  function OpMcopy(env: Env, f: Frame): Local {
    if |f.stack| < 3 then End(f, StackUnderflow)
    else
      var length := Arg64(f, 2);
      var data := if length > env.maxAlloc then None else M.Get(f.memory, Arg64(f, 1), length, env.maxAlloc);
      CopyToMemory(env, Drop(f, 3), Arg64(f, 0), data)
  }

  /** CALLDATACOPY and CODECOPY. */
  function OpCopy(env: Env, f: Frame, source: Bytes): Local {
    if |f.stack| < 3 then End(f, StackUnderflow)
    else CopyToMemory(env, Drop(f, 3), Arg64(f, 0), M.CopySlice(source, Arg64(f, 1), Arg64(f, 2), env.maxAlloc))
  }

  function OpExtcodecopy(env: Env, w: World, f: Frame): Local {
    if |f.stack| < 4 then End(f, StackUnderflow)
    else
      var code := w.acc.Code(ToAddress(Arg(f, 0)));
      CopyToMemory(env, Drop(f, 4), Arg64(f, 1), M.CopySlice(code, Arg64(f, 2), Arg64(f, 3), env.maxAlloc))
  }

  /** A sum that wraps passes the handler's bound test and then panics on the reversed slice: halted either way. */
  function OpReturndatacopy(env: Env, f: Frame): Local {
    if |f.stack| < 3 then End(f, StackUnderflow)
    else
      var end := Add64(Arg64(f, 1), Arg64(f, 2));
      if end > |f.returnData| || end < Arg64(f, 1) then End(f, Halted) else OpCopy(env, f, f.returnData)
  }

  function LocalOp(env: Env, w: World, f: Frame, op: byte): Local {
    if Arity(op).Some? then Compute(env, w, f, op, Arity(op).value)
    else if 0x5F <= op <= 0x7F then OpPush(f, op - 0x5F)
    else if 0x80 <= op <= 0x8F then Dup(f, op - 0x7F)
    else if 0x90 <= op <= 0x9F then Swap(f, op - 0x8F)
    else if 0xA0 <= op <= 0xA4 then EmitLog(env, f, op - 0xA0)
    else if op == 0x00 then End(f, Success)
    else if op == 0x20 then OpKeccak(env, f)
    else if op == 0x37 then OpCopy(env, f, f.ctx.input)
    else if op == 0x39 then OpCopy(env, f, f.ctx.code)
    else if op == 0x3C then OpExtcodecopy(env, w, f)
    else if op == 0x3E then OpReturndatacopy(env, f)
    else if op == 0x50 then OpPop(f)
    else if op == 0x51 then OpMload(env, f)
    else if op == 0x52 then OpMstore(env, f)
    else if op == 0x53 then OpMstore8(env, f)
    else if op == 0x54 then OpSload(w, f)
    else if op == 0x56 then OpJump(f)
    else if op == 0x57 then OpJumpi(f)
    else if op == 0x5B then Advance(f)
    else if op == 0x5C then OpTload(w, f)
    else if op == 0x5E then OpMcopy(env, f)
    else if op == 0xF3 then Leave(env, f, Success)
    else if op == 0xFD then Leave(env, f, Reverted)
    else End(f, InvalidOpcode)
  }

  /** The result a frame ends with: gas, refund and logs survive success and revert only. */
  function Finish(f: Frame, status: Status): Result {
    if status.Success? || status.Reverted? then Result(status, f.gas, f.refund, f.output, f.logs)
    else Result(status, 0, 0, f.output, [])
  }

  function Fail(w: World, f: Frame, status: Status): Flow {
    Stop(w, Finish(f, status))
  }

  function Lift(w: World, l: Local): Flow {
    match l
    case Cont(f) => Next(w, f)
    case End(f, status) => Stop(w, Finish(f, status))
  }

  // ---------------------------------------------------------------- opcodes that change the world

  function OpSstore(w: World, f: Frame): Flow {
    if |f.stack| < 2 then Fail(w, f, StackUnderflow)
    else if f.ctx.isStatic then Fail(w, f, Halted)
    else if f.gas <= CALL_STIPEND then Fail(w, f, OutOfGas)
    else StoreSlot(w, Drop(f, 2), (f.ctx.address, Arg(f, 0)), Arg(f, 1))
  }

  /** A store whose operands are popped: warm the slot, pay, adjust the refund, write. */
  function StoreSlot(w: World, f: Frame, k: SlotKey, value: Hash): Flow {
    var current, original := w.sto.Get(k), w.sto.Original(k);
    var cost := StoreGas(k !in w.warmSlots, original, current, value);
    var w1 := TouchSlot(w, k).1;
    if cost > f.gas then Fail(w1, f, OutOfGas)
    else
      Next(w1.(sto := w.sto.Set(k, value)),
           f.(gas := f.gas - cost, refund := RefundAfter(f.refund, original, current, value), pc := f.pc + 1))
  }

  function OpTstore(w: World, f: Frame): Flow {
    if |f.stack| < 2 then Fail(w, f, StackUnderflow)
    else if f.ctx.isStatic then Fail(w, f, Halted)
    else
      var k := (f.ctx.address, Arg(f, 0));
      Next(w.(transient := w.transient[k := Arg(f, 1)]), Drop(f, 2).(pc := f.pc + 1))
  }

  /** SELFDESTRUCT moves the balance, records the address and carries on at the next instruction. */
  function OpSelfdestruct(w: World, f: Frame): Flow {
    if |f.stack| < 1 then Fail(w, f, StackUnderflow)
    else if f.ctx.isStatic then Fail(w, f, Halted)
    else Destruct(w, Drop(f, 1), ToAddress(Arg(f, 0)))
  }

  function DestructCost(w: World, self: Address, heir: Address): u64 {
    SELFDESTRUCT_GAS + (if heir in w.warmAddrs then 0 else COLD_ACCOUNT)
    + if heir != self && !w.acc.Exists(heir) && w.acc.Balance(self) > 0 then NEW_ACCOUNT else 0
  }

  function Destruct(w: World, f: Frame, heir: Address): Flow {
    var self := f.ctx.address;
    var cost := DestructCost(w, self, heir);
    var w1 := TouchAddress(w, heir).1;
    if cost > f.gas then Fail(w1, f, OutOfGas)
    else Next(w1.(acc := Inherited(w.acc, heir, self)), f.(gas := f.gas - cost, pc := f.pc + 1))
  }

  function Inherited(acc: Accounts, heir: Address, self: Address): Accounts {
    var balance := acc.Balance(self);
    (if heir != self && balance > 0 then acc.AddBalance(heir, balance).SetBalance(self, 0) else acc).SelfDestruct(self)
  }

  // ---------------------------------------------------------------- calls

  /** All but one 64th (EIP-150). */
  function MaxCallGas(gas: u64): u64 {
    gas - gas / 64
  }

  function ChildGas(available: u64, requested: u64): u64 {
    Min(requested, MaxCallGas(available))
  }

  /** The call's own price, added up in wrapping uint64 arithmetic as the handler does. */
  function CallBase(w: World, target: Address, kind: CallKind, value: nat): u64 {
    (if target in w.warmAddrs then WARM_ACCESS else COLD_ACCOUNT)
    + (if !kind.DelegateCall? && !kind.StaticCall? && value > 0
       then CALL_VALUE + (if w.acc.IsEmpty(target) then NEW_ACCOUNT else 0) else 0)
  }

  /** Growth for input and output: the larger range is charged and resized to. */
  function CallGrowth(length: nat, inOffset: u64, inSize: u64, outOffset: u64, outSize: u64): (u64, u64)
    requires length < TWO64
  {
    var into := M.ExpandSize(length, inOffset, inSize);
    var out := M.ExpandSize(length, outOffset, outSize);
    if into.1 > out.1 then into else out
  }

  function CallOperands(kind: CallKind): nat {
    if kind.Call? || kind.CallCode? then 7 else 6
  }

  function OpCall(env: Env, w: World, f: Frame, kind: CallKind): StepOut {
    var n := CallOperands(kind);
    if |f.stack| < n then Done(Fail(w, f, StackUnderflow))
    else
      var target := ToAddress(Arg(f, 1));
      var value := if n == 7 then ToNat(Arg(f, 2)) else 0;
      var inOffset, inSize := Arg64(f, n - 4), Arg64(f, n - 3);
      var outOffset, outSize := Arg64(f, n - 2), Arg64(f, n - 1);
      var input := M.Get(f.memory, inOffset, inSize, env.maxAlloc);
      if (f.ctx.isStatic && value > 0) || input.None? then Done(Fail(w, f, Halted))
      else
        var growth := CallGrowth(|f.memory|, inOffset, inSize, outOffset, outSize);
        SendCall(env, w, Drop(f, n), kind, target, value, Arg64(f, 0), input.value, growth, outOffset, outSize)
  }

  /** A call whose operands are popped: warm the target, pay, grow memory, and send the message. */
  function SendCall(env: Env, w: World, f: Frame, kind: CallKind, target: Address, value: nat, requested: u64,
                    input: Bytes, growth: (u64, u64), outOffset: u64, outSize: u64): StepOut {
    var extra := Add64(CallBase(w, target, kind, value), growth.0);
    var w1 := TouchAddress(w, target).1;
    if f.gas < extra then Done(Fail(w1, f, OutOfGas))
    else
      var charged := ChildGas(f.gas - extra, requested);
      var childGas := if value > 0 then Add64(charged, CALL_STIPEND) else charged;
      var grown := M.Resize(f.memory, growth.1, env.maxAlloc);
      if grown.None? then Done(Fail(w1, f, Halted))
      else
        var self := f.ctx.address;
        var callee := if kind.CallCode? || kind.DelegateCall? then self else target;
        var msg := Message(self, callee, value, childGas, input, [], target,
                           kind.StaticCall? || f.ctx.isStatic, f.ctx.depth + 1, kind, false);
        Invoke(w1, f.(gas := f.gas - extra - charged, memory := grown.value), PendingCall(msg, outOffset, outSize))
  }

  /** Pushes zero and moves on: every way CREATE gives up without ending its frame. */
  function CreateFails(w: World, g: Frame): StepOut {
    Done(Lift(w, Push(g, ZERO_WORD)))
  }

  /** Memory growth, the CREATE2 hash and the init-code price, in wrapping uint64 arithmetic. */
  function CreateCost(env: Env, f: Frame, offset: u64, size: u64, create2: bool): u64 {
    var words := Add64(size, 31) / 32;
    var hashGas := if create2 then Mul64(words, 6) else 0;
    var initGas := if env.fork >= SHANGHAI then Mul64(words, 2) else 0;
    Add64(Add64(MemGas(f, offset, size), hashGas), initGas)
  }

  function OpCreate(env: Env, w: World, f: Frame, create2: bool): StepOut {
    var n := if create2 then 4 else 3;
    if |f.stack| < n then Done(Fail(w, f, StackUnderflow))
    else if f.ctx.isStatic then Done(Fail(w, f, Halted))
    else
      ReadInit(env, w, Drop(f, n), create2, ToNat(Arg(f, 0)), Arg64(f, 1), Arg64(f, 2),
               if create2 then Arg(f, 3) else ZERO_WORD)
  }

  /** A create whose operands are popped: balance check, then the init code. */
  function ReadInit(env: Env, w: World, f: Frame, create2: bool, value: nat, offset: u64, size: u64, salt: Word)
    : StepOut
  {
    if value > 0 && w.acc.Balance(f.ctx.address) < value then CreateFails(w, f)
    else
      var init := M.Get(f.memory, offset, size, env.maxAlloc);
      if init.None? then Done(Fail(w, f, Halted))
      else StartCreate(env, w, f, create2, value, offset, size, salt, init.value)
  }

  /** A create whose init code is read: size limit, payment, address. */
  function StartCreate(env: Env, w: World, f: Frame, create2: bool, value: nat, offset: u64, size: u64, salt: Word,
                       init: Bytes): StepOut {
    if env.fork >= SHANGHAI && size > MAX_INIT_CODE_SIZE then CreateFails(w, f)
    else
      var cost := CreateCost(env, f, offset, size, create2);
      if cost > f.gas then Done(Fail(w, f, OutOfGas))
      else
        var self := f.ctx.address;
        var target := if create2 then env.create2Address(self, salt, init)
                      else env.createAddress(self, w.acc.Nonce(self));
        SendCreate(w, f.(gas := f.gas - cost), target, value, init)
  }

  /** A create that is paid for: the creator's nonce goes up whatever follows, a collision gives up. */
  function SendCreate(w: World, f: Frame, target: Address, value: nat, init: Bytes): StepOut {
    var self := f.ctx.address;
    var w1 := w.(acc := w.acc.IncrementNonce(self));
    if w1.acc.HasCodeOrNonce(target) then CreateFails(w1, f)
    else
      var childGas := MaxCallGas(f.gas);
      var msg := Message(self, target, value, childGas, init, init, target, false, f.ctx.depth + 1, Call, true);
      Invoke(w1, f.(gas := f.gas - childGas), PendingCreate(msg))
  }

  // ---------------------------------------------------------------- the step hook

  /** The state a journaled edit may change; `ok` turns false when a memory write panics. */
  datatype Patched = Patched(sto: Slots, transient: map<SlotKey, Hash>, memory: M.Store, ok: bool)

  function ApplyMutation(m: Mutation, limit: M.AllocLimit, p: Patched): Patched {
    match m
    case StorageWrite(_, true, k, v) => p.(transient := p.transient[k := v])
    case StorageWrite(_, false, k, v) => p.(sto := p.sto.Set(k, v))
    case MemoryWrite(_, offset, data) =>
      var memory := M.Set(p.memory, offset, data, limit);
      if memory.None? then p.(ok := false) else p.(memory := memory.value)
  }

  /** applyMutations: the journal entries of this step, oldest first. */
  function ApplyMutations(journal: seq<Mutation>, step: nat, limit: M.AllocLimit, p: Patched): Patched {
    if journal == [] || !p.ok then p
    else ApplyMutations(journal[1..], step, limit,
                        if journal[0].step == step then ApplyMutation(journal[0], limit, p) else p)
  }

  datatype Fired = Proceed(w: World, f: Frame) | Interrupted(w: World, f: Frame)

  function Show(w: World, f: Frame): Shown {
    Shown(f, w.acc, w.sto, w.transient)
  }

  /** Fire: count the step, re-apply its edits, then pause here or let the instruction run. */
  function Fire(env: Env, hook: Hook, w: World, f: Frame): Fired {
    var p := ApplyMutations(hook.journal, w.seen, env.maxAlloc, Patched(w.sto, w.transient, f.memory, true));
    var f1 := f.(memory := p.memory);
    var w1 := w.(sto := p.sto, transient := p.transient, seen := w.seen + 1);
    if !p.ok then Interrupted(Record(w1, f, None), f)
    else
      var w2 := Record(w1, f1, Some(w.seen));
      if hook.pauseAt == Some(w.seen) then Interrupted(w2.(pending := Some(Pause(w.seen, Show(w1, f1)))), f1)
      else Proceed(w2, f1)
  }

  function Record(w: World, f: Frame, step: Option<nat>): World {
    w.(trace := w.trace + [Event(w.active, Show(w, f), step)])
  }

  // ---------------------------------------------------------------- one step

  function Execute(env: Env, w: World, f: Frame, op: byte): StepOut {
    if op == 0x55 then Done(OpSstore(w, f))
    else if op == 0x5D then Done(OpTstore(w, f))
    else if op == 0xFF then Done(OpSelfdestruct(w, f))
    else if op == 0xF0 || op == 0xF5 then OpCreate(env, w, f, op == 0xF5)
    else if op == 0xF1 then OpCall(env, w, f, Call)
    else if op == 0xF2 then OpCall(env, w, f, CallCode)
    else if op == 0xF4 then OpCall(env, w, f, DelegateCall)
    else if op == 0xFA then OpCall(env, w, f, StaticCall)
    else Done(Lift(w, LocalOp(env, w, f, op)))
  }

  /** One turn of the interpreter loop: fetch, fork check, gas, hook, handler. */
  function Step(env: Env, hook: Hook, w: World, f: Frame): StepOut
    requires f.pc < |f.ctx.code|
  {
    var op := f.ctx.code[f.pc];
    if env.fork < MinFork(op) then Done(Fail(Record(w, f, None), f.(output := []), InvalidOpcode))
    else
      var (dynamic, w1) := DynamicGas(w, f, op);
      if dynamic + BaseGas(op) > f.gas then Done(Fail(Record(w1, f, None), f.(output := []), OutOfGas))
      else
        match Fire(env, hook, w1, f.(gas := f.gas - dynamic - BaseGas(op)))
        case Proceed(w2, f2) => Execute(env, w2, f2, op)
        case Interrupted(w2, f2) => Done(Fail(w2, f2, Halted))
  }
}
