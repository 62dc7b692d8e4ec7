/** The engine as it runs: one object per call frame, updated in place, computing what the step functions say. */
module Evm {
  import opened Base
  import opened Ledger
  import opened StorageGas
  import opened Machine
  import opened Execution
  import opened Run
  import opened AccountState
  import opened EngineObjects
  import Bytecode
  import Gas
  import M = Memory

  /** Which handler the opcodes outside the stack ranges go to. */
  lemma MemoryDispatch(env: Env, w: World, f: Frame)
    ensures LocalOp(env, w, f, 0x51) == Machine.OpMload(env, f)
    ensures LocalOp(env, w, f, 0x52) == Machine.OpMstore(env, f)
    ensures LocalOp(env, w, f, 0x53) == Machine.OpMstore8(env, f)
    ensures LocalOp(env, w, f, 0x5E) == Machine.OpMcopy(env, f)
  {
    hide Machine.OpMload, Machine.OpMstore, Machine.OpMstore8, Machine.OpSload, Machine.OpTload, Machine.OpMcopy, Leave;
    hide Compute, EmitLog, Machine.OpKeccak, Machine.OpCopy, Machine.OpExtcodecopy, Machine.OpReturndatacopy;
    hide Machine.OpJump, Machine.OpJumpi, Machine.OpPush, Machine.OpPop, Machine.Dup, Machine.Swap, Advance;
  }

  lemma CopyDispatch(env: Env, w: World, f: Frame)
    ensures LocalOp(env, w, f, 0x20) == Machine.OpKeccak(env, f)
    ensures LocalOp(env, w, f, 0x37) == Machine.OpCopy(env, f, f.ctx.input)
    ensures LocalOp(env, w, f, 0x39) == Machine.OpCopy(env, f, f.ctx.code)
    ensures LocalOp(env, w, f, 0x3C) == Machine.OpExtcodecopy(env, w, f)
    ensures LocalOp(env, w, f, 0x3E) == Machine.OpReturndatacopy(env, f)
  {
    hide Machine.OpMload, Machine.OpMstore, Machine.OpMstore8, Machine.OpSload, Machine.OpTload, Machine.OpMcopy, Leave;
    hide Compute, EmitLog, Machine.OpKeccak, Machine.OpCopy, Machine.OpExtcodecopy, Machine.OpReturndatacopy;
    hide Machine.OpJump, Machine.OpJumpi, Machine.OpPush, Machine.OpPop, Machine.Dup, Machine.Swap, Advance;
  }

  lemma AccessDispatch(env: Env, w: World, f: Frame)
    ensures LocalOp(env, w, f, 0x54) == Machine.OpSload(w, f)
    ensures LocalOp(env, w, f, 0x5C) == Machine.OpTload(w, f)
    ensures LocalOp(env, w, f, 0xF3) == Leave(env, f, Success)
    ensures LocalOp(env, w, f, 0xFD) == Leave(env, f, Reverted)
  {
    hide Machine.OpMload, Machine.OpMstore, Machine.OpMstore8, Machine.OpSload, Machine.OpTload, Machine.OpMcopy, Leave;
    hide Compute, EmitLog, Machine.OpKeccak, Machine.OpCopy, Machine.OpExtcodecopy, Machine.OpReturndatacopy;
    hide Machine.OpJump, Machine.OpJumpi, Machine.OpPush, Machine.OpPop, Machine.Dup, Machine.Swap, Advance;
  }

  lemma ChildDepth(parent: Ctx, msg: Message, code: Bytes)
    ensures ChildCtx(parent, msg, code).depth == msg.depth
  {
  }

  class EVM {
    const env: Env
    const hook: Hook
    const ctx: Ctx
    const shared: Shared
    const meter: GasMeter
    const stack: EvmStack
    const memory: EvmMemory
    const jumpdests: seq<bool>
    var pc: nat
    var returnData: Bytes
    var output: Bytes
    var logs: seq<Log>

    /** The objects only this frame touches. */
    ghost function Own(): set<object>
      reads this
    {
      {this, meter, stack, memory}
    }

    /** The objects every frame touches. */
    ghost function Common(): set<object>
      reads this, shared.account
    {
      {shared, shared.storage} + shared.account.Repr
    }

    ghost predicate Valid()
      reads this, shared, shared.account, shared.account.Repr
    {
      && shared.Valid()
      && Own() !! Common()
      && memory.limit == env.maxAlloc
      && |jumpdests| == |ctx.code|
      && (forall d :: 0 <= d < |ctx.code| ==> (jumpdests[d] <==> Bytecode.IsJumpDest(ctx.code, d)))
      && shared.account.hash == env.keccak
    }

    function View(): Frame
      reads this, meter, stack, memory
    {
      Frame(ctx, pc, meter.gas, meter.refund, stack.data, memory.store, returnData, output, logs)
    }

    constructor (shared: Shared, env: Env, hook: Hook, ctx: Ctx, gas: u64)
      requires shared.Valid() && shared.account.hash == env.keccak
      ensures Valid() && fresh(Own())
      ensures this.shared == shared && this.env == env && this.hook == hook && this.ctx == ctx
      ensures View() == FreshFrame(ctx, gas)
    {
      this.shared, this.env, this.hook, this.ctx := shared, env, hook, ctx;
      meter := new GasMeter(gas);
      stack := new EvmStack();
      memory := new EvmMemory(env.maxAlloc);
      var dests := Bytecode.AnalyzeJumpdests(ctx.code);
      jumpdests := dests[..];
      pc, returnData, output, logs := 0, [], [], [];
    }

    /** How a handler's answer matches a step function's: None is "go on". */
    ghost predicate Follows(flow: Flow, r: Option<Result>)
      requires Valid()
      reads this, meter, stack, memory, shared, shared.storage, shared.account, shared.account.Repr
    {
      match flow
      case Next(w, f) => r.None? && shared.View() == w && View() == f
      case Stop(w, res) => r == Some(res) && shared.View() == w
    }

    /** The same for a handler that leaves the shared objects alone. */
    ghost predicate FollowsLocal(l: Local, r: Option<Result>)
      reads this, meter, stack, memory
    {
      match l
      case Cont(f) => r.None? && View() == f
      case End(f, status) => r == Some(Finish(f, status))
    }

    /** Run's answer to a handler's error or panic. */
    method Fault(status: Status) returns (r: Option<Result>)
      requires !status.Success? && !status.Reverted?
      ensures r == Some(Finish(View(), status))
    {
      r := Some(Result(status, 0, 0, output, []));
    }

    // ------------------------------------------------------------ stack, control flow

    method PushWord(word: Word) returns (r: Option<Result>)
      modifies this`pc, stack
      ensures FollowsLocal(Push(old(View()), word), r)
    {
      var ok := stack.Push(word);
      if !ok {
        r := Fault(StackOverflow);
        return;
      }
      pc := pc + 1;
      r := None;
    }

    /** isJumpdest and the jump itself. */
    method JumpTo(dest: u64) returns (r: Option<Result>)
      requires Valid()
      modifies this`pc
      ensures FollowsLocal(Machine.Jump(old(View()), dest), r)
    {
      if dest >= |jumpdests| || !jumpdests[dest] {
        r := Fault(InvalidJump);
        return;
      }
      pc := dest;
      r := None;
    }

    method OpJump() returns (r: Option<Result>)
      requires Valid()
      modifies this`pc, stack
      ensures FollowsLocal(Machine.OpJump(old(View())), r)
    {
      var dest := stack.Pop();
      if dest.None? {
        r := Fault(StackUnderflow);
        return;
      }
      r := JumpTo(ToU64(dest.value));
    }

    method OpJumpi() returns (r: Option<Result>)
      requires Valid()
      modifies this`pc, stack
      ensures FollowsLocal(Machine.OpJumpi(old(View())), r)
    {
      hide ToNat, ToU64;
      var dest := stack.Pop();
      if dest.None? {
        r := Fault(StackUnderflow);
        return;
      }
      var condition := stack.Pop();
      if condition.None? {
        r := Fault(StackUnderflow);
        return;
      }
      if ToNat(condition.value) != 0 {
        r := JumpTo(ToU64(dest.value));
      } else {
        pc := pc + 1;
        r := None;
      }
    }

    method OpPop() returns (r: Option<Result>)
      modifies this`pc, stack
      ensures FollowsLocal(Machine.OpPop(old(View())), r)
    {
      var word := stack.Pop();
      if word.None? {
        r := Fault(StackUnderflow);
        return;
      }
      pc := pc + 1;
      r := None;
    }

    method OpPush(n: nat) returns (r: Option<Result>)
      requires n <= 32
      modifies this`pc, stack
      ensures FollowsLocal(Machine.OpPush(old(View()), n), r)
    {
      var start := pc + 1;
      var word := Zeros(32);
      if start < |ctx.code| {
        var end := if start + n > |ctx.code| then |ctx.code| else start + n;
        word := Zeros(32 - n) + ctx.code[start..end] + Zeros(n - (end - start));
      }
      assert word == PushData(ctx.code, pc, n);
      var ok := stack.Push(word);
      if !ok {
        r := Fault(StackOverflow);
        return;
      }
      pc := pc + 1 + n;
      r := None;
    }

    method OpDup(n: nat) returns (r: Option<Result>)
      requires 1 <= n <= 16
      modifies this`pc, stack
      ensures FollowsLocal(Machine.Dup(old(View()), n), r)
    {
      var fault := stack.Dup(n);
      if fault.Some? {
        r := Fault(fault.value);
        return;
      }
      pc := pc + 1;
      r := None;
    }

    method OpSwap(n: nat) returns (r: Option<Result>)
      requires 1 <= n <= 16
      modifies this`pc, stack
      ensures FollowsLocal(Machine.Swap(old(View()), n), r)
    {
      var ok := stack.Swap(n);
      if !ok {
        r := Fault(StackUnderflow);
        return;
      }
      pc := pc + 1;
      r := None;
    }

    // ------------------------------------------------------------ memory

    method OpMload() returns (r: Option<Result>)
      requires memory.limit == env.maxAlloc
      modifies this`pc, stack, memory
      ensures FollowsLocal(Machine.OpMload(env, old(View())), r)
    {
      hide M.Get, M.Resize, ToU64, Add64;
      var offset := stack.Pop();
      if offset.None? {
        r := Fault(StackUnderflow);
        return;
      }
      var ok := memory.Resize(Add64(ToU64(offset.value), 32));
      if !ok {
        r := Fault(Halted);
        return;
      }
      var data := memory.Get(ToU64(offset.value), 32);
      if data.None? {
        r := Fault(Halted);
        return;
      }
      r := PushWord(data.value);
    }

    /** The write every storing and copying handler ends with. */
    method WriteMemory(offset: u64, data: Bytes) returns (r: Option<Result>)
      requires memory.limit == env.maxAlloc && |data| < TWO64
      modifies this`pc, memory
      ensures FollowsLocal(CopyToMemory(env, old(View()), offset, Some(data)), r)
    {
      hide M.Set;
      var ok := memory.Set(offset, data);
      if !ok {
        r := Fault(Halted);
        return;
      }
      pc := pc + 1;
      r := None;
    }

    method OpMstore() returns (r: Option<Result>)
      requires memory.limit == env.maxAlloc
      modifies this`pc, stack, memory
      ensures FollowsLocal(Machine.OpMstore(env, old(View())), r)
    {
      hide CopyToMemory, ToU64;
      var offset := stack.Pop();
      if offset.None? {
        r := Fault(StackUnderflow);
        return;
      }
      var value := stack.Pop();
      if value.None? {
        r := Fault(StackUnderflow);
        return;
      }
      assert View() == Drop(old(View()), 2);
      r := WriteMemory(ToU64(offset.value), value.value);
    }

    method OpMstore8() returns (r: Option<Result>)
      requires memory.limit == env.maxAlloc
      modifies this`pc, stack, memory
      ensures FollowsLocal(Machine.OpMstore8(env, old(View())), r)
    {
      hide CopyToMemory, ToU64;
      var offset := stack.Pop();
      if offset.None? {
        r := Fault(StackUnderflow);
        return;
      }
      var value := stack.Pop();
      if value.None? {
        r := Fault(StackUnderflow);
        return;
      }
      assert View() == Drop(old(View()), 2);
      r := WriteMemory(ToU64(offset.value), [value.value[31]]);
    }

    method OpMcopy() returns (r: Option<Result>)
      requires memory.limit == env.maxAlloc
      modifies this`pc, stack, memory
      ensures FollowsLocal(Machine.OpMcopy(env, old(View())), r)
    {
      hide M.Set, M.Get, ToU64;
      var dst := stack.Pop();
      if dst.None? {
        r := Fault(StackUnderflow);
        return;
      }
      var src := stack.Pop();
      if src.None? {
        r := Fault(StackUnderflow);
        return;
      }
      var length := stack.Pop();
      if length.None? {
        r := Fault(StackUnderflow);
        return;
      }
      if ToU64(length.value) > memory.limit {
        r := Fault(Halted);
        return;
      }
      var data := memory.Get(ToU64(src.value), ToU64(length.value));
      if data.None? {
        r := Fault(Halted);
        return;
      }
      r := WriteMemory(ToU64(dst.value), data.value);
    }

    method OpKeccak() returns (r: Option<Result>)
      requires memory.limit == env.maxAlloc
      modifies this`pc, stack, memory
      ensures FollowsLocal(Machine.OpKeccak(env, old(View())), r)
    {
      hide M.Get, M.Resize, ToU64, Add64;
      var offset := stack.Pop();
      if offset.None? {
        r := Fault(StackUnderflow);
        return;
      }
      var size := stack.Pop();
      if size.None? {
        r := Fault(StackUnderflow);
        return;
      }
      var ok := memory.Resize(Add64(ToU64(offset.value), ToU64(size.value)));
      if !ok {
        r := Fault(Halted);
        return;
      }
      var data := memory.Get(ToU64(offset.value), ToU64(size.value));
      if data.None? {
        r := Fault(Halted);
        return;
      }
      r := PushWord(env.keccak(data.value));
    }

    /** The end of every copy: cut the source, pad it, write it. */
    method CopyFrom(source: Bytes, memOffset: u64, offset: u64, size: u64) returns (r: Option<Result>)
      requires memory.limit == env.maxAlloc
      modifies this`pc, memory
      ensures FollowsLocal(CopyToMemory(env, old(View()), memOffset, M.CopySlice(source, offset, size, env.maxAlloc)),
                           r)
    {
      hide M.Set;
      if size > memory.limit {
        r := Fault(Halted);
        return;
      }
      var data := Zeros(size);
      if offset < |source| {
        var end := Add64(offset, size);
        if end > |source| {
          end := |source|;
        }
        if end < offset {
          r := Fault(Halted);
          return;
        }
        var have := source[offset..end];
        data := if |have| >= size then have[..size] else have + Zeros(size - |have|);
      }
      r := WriteMemory(memOffset, data);
    }

    /** CALLDATACOPY and CODECOPY. */
    method OpCopy(source: Bytes) returns (r: Option<Result>)
      requires memory.limit == env.maxAlloc
      modifies this`pc, stack, memory
      ensures FollowsLocal(Machine.OpCopy(env, old(View()), source), r)
    {
      hide CopyToMemory, M.CopySlice, ToU64;
      var words := PopMany(3);
      if words.None? {
        r := Fault(StackUnderflow);
        return;
      }
      r := CopyFrom(source, ToU64(words.value[0]), ToU64(words.value[1]), ToU64(words.value[2]));
    }

    method OpExtcodecopy() returns (r: Option<Result>)
      requires Valid()
      modifies this`pc, stack, memory
      ensures FollowsLocal(Machine.OpExtcodecopy(env, old(shared.View()), old(View())), r)
    {
      hide InMemoryAccountState.Valid, InMemoryAccountState.View, InMemoryAccountState.Saved, Bytecode.IsJumpDest;
      hide CopyToMemory, M.CopySlice, ToU64, ToAddress;
      var words := PopMany(4);
      if words.None? {
        r := Fault(StackUnderflow);
        return;
      }
      var code := shared.account.Code(ToAddress(words.value[0]));
      r := CopyFrom(code, ToU64(words.value[1]), ToU64(words.value[2]), ToU64(words.value[3]));
    }

    /** A sum that wraps passes the bound test and then panics on the reversed slice. */
    method OpReturndatacopy() returns (r: Option<Result>)
      requires memory.limit == env.maxAlloc
      modifies this`pc, stack, memory
      ensures FollowsLocal(Machine.OpReturndatacopy(env, old(View())), r)
    {
      hide CopyToMemory, ToU64;
      var words := PopMany(3);
      if words.None? {
        r := Fault(StackUnderflow);
        return;
      }
      var offset, size := ToU64(words.value[1]), ToU64(words.value[2]);
      var end := Add64(offset, size);
      if end > |returnData| || end < offset {
        r := Fault(Halted);
        return;
      }
      r := CopyFrom(returnData, ToU64(words.value[0]), offset, size);
    }

    // ------------------------------------------------------------ other frame-local handlers

    method OpSload() returns (r: Option<Result>)
      requires Valid()
      modifies this`pc, stack
      ensures FollowsLocal(Machine.OpSload(shared.View(), old(View())), r)
    {
      var slot := stack.Pop();
      if slot.None? {
        r := Fault(StackUnderflow);
        return;
      }
      var value := shared.storage.Get((ctx.address, slot.value));
      r := PushWord(value);
    }

    method OpTload() returns (r: Option<Result>)
      requires Valid()
      modifies this`pc, stack
      ensures FollowsLocal(Machine.OpTload(shared.View(), old(View())), r)
    {
      var slot := stack.Pop();
      if slot.None? {
        r := Fault(StackUnderflow);
        return;
      }
      var k := (ctx.address, slot.value);
      r := PushWord(if k in shared.transient then shared.transient[k] else ZERO_WORD);
    }

    /** RETURN and REVERT. */
    method OpLeave(status: Status) returns (r: Option<Result>)
      requires memory.limit == env.maxAlloc && (status.Success? || status.Reverted?)
      modifies this`output, this`returnData, stack
      ensures FollowsLocal(Machine.Leave(env, old(View()), status), r)
    {
      hide M.Get, ToU64;
      var offset := stack.Pop();
      if offset.None? {
        r := Fault(StackUnderflow);
        return;
      }
      var size := stack.Pop();
      if size.None? {
        r := Fault(StackUnderflow);
        return;
      }
      var data := memory.Get(ToU64(offset.value), ToU64(size.value));
      if data.None? {
        r := Fault(Halted);
        return;
      }
      output := data.value;
      returnData := output;
      r := Some(Result(status, meter.gas, meter.refund, output, logs));
    }

    /** The remaining handlers that stay within their frame: they take words, compute, and write back. */
    method OpOther(op: byte) returns (r: Option<Result>)
      requires Valid()
      modifies this`pc, this`returnData, this`output, this`logs, stack, memory, meter
      ensures FollowsLocal(LocalOp(env, old(shared.View()), old(View()), op), r)
    {
      hide LocalOp;
      Gas.LocalOpKeepsGas(env, shared.View(), View(), op);
      var l := LocalOp(env, shared.View(), View(), op);
      if l.End? {
        r := Some(Finish(l.f, l.status));
        return;
      }
      pc, returnData, output, logs := l.f.pc, l.f.returnData, l.f.output, l.f.logs;
      stack.data := l.f.stack;
      memory.store := l.f.memory;
      r := None;
    }

    method ExecuteStackOp(op: byte) returns (r: Option<Result>)
      requires op == 0x50 || op == 0x56 || op == 0x57 || 0x5F <= op <= 0x9F
      requires Valid()
      modifies this`pc, stack
      ensures FollowsLocal(LocalOp(env, old(shared.View()), old(View()), op), r)
    {
      hide FollowsLocal, Valid, Compute, EmitLog;
      hide Machine.OpKeccak, Machine.OpCopy, Machine.OpExtcodecopy, Machine.OpReturndatacopy;
      hide Machine.OpPop, Machine.OpMload, Machine.OpMstore, Machine.OpMstore8, Machine.OpSload, Machine.OpJump;
      hide Machine.OpJumpi, Machine.OpTload, Machine.OpMcopy, Machine.OpPush, Machine.Dup, Machine.Swap, Machine.Leave;
      if op == 0x50 {
        r := OpPop();
      } else if op == 0x56 {
        r := OpJump();
      } else if op == 0x57 {
        r := OpJumpi();
      } else if op <= 0x7F {
        r := OpPush(op - 0x5F);
      } else if op <= 0x8F {
        r := OpDup(op - 0x7F);
      } else {
        r := OpSwap(op - 0x8F);
      }
    }

    method ExecuteMemoryOp(op: byte) returns (r: Option<Result>)
      requires 0x51 <= op <= 0x53 || op == 0x5E
      requires Valid()
      modifies this`pc, stack, memory
      ensures FollowsLocal(LocalOp(env, old(shared.View()), old(View()), op), r)
    {
      assert memory.limit == env.maxAlloc;
      MemoryDispatch(env, shared.View(), View());
      hide LocalOp, FollowsLocal, Valid, Compute, EmitLog;
      hide Machine.OpKeccak, Machine.OpCopy, Machine.OpExtcodecopy, Machine.OpReturndatacopy;
      hide Machine.OpPop, Machine.OpMload, Machine.OpMstore, Machine.OpMstore8, Machine.OpSload, Machine.OpJump;
      hide Machine.OpJumpi, Machine.OpTload, Machine.OpMcopy, Machine.OpPush, Machine.Dup, Machine.Swap, Machine.Leave;
      if op == 0x51 {
        r := OpMload();
      } else if op == 0x52 {
        r := OpMstore();
      } else if op == 0x53 {
        r := OpMstore8();
      } else {
        r := OpMcopy();
      }
    }

    method ExecuteAccessOp(op: byte) returns (r: Option<Result>)
      requires op == 0x54 || op == 0x5C || op == 0xF3 || op == 0xFD
      requires Valid()
      modifies this`pc, this`returnData, this`output, stack
      ensures FollowsLocal(LocalOp(env, old(shared.View()), old(View()), op), r)
    {
      assert memory.limit == env.maxAlloc;
      AccessDispatch(env, shared.View(), View());
      hide LocalOp, FollowsLocal, Valid, Machine.OpSload, Machine.OpTload, Machine.Leave;
      if op == 0x54 {
        r := OpSload();
      } else if op == 0x5C {
        r := OpTload();
      } else if op == 0xF3 {
        r := OpLeave(Success);
      } else {
        r := OpLeave(Reverted);
      }
    }

    method ExecuteCopyOp(op: byte) returns (r: Option<Result>)
      requires op == 0x20 || op == 0x37 || op == 0x39 || op == 0x3C || op == 0x3E
      requires Valid()
      modifies this`pc, stack, memory
      ensures FollowsLocal(LocalOp(env, old(shared.View()), old(View()), op), r)
    {
      assert memory.limit == env.maxAlloc;
      CopyDispatch(env, shared.View(), View());
      hide LocalOp, FollowsLocal, Valid;
      hide Machine.OpKeccak, Machine.OpCopy, Machine.OpExtcodecopy, Machine.OpReturndatacopy;
      if op == 0x20 {
        r := OpKeccak();
      } else if op == 0x37 {
        r := OpCopy(ctx.input);
      } else if op == 0x39 {
        r := OpCopy(ctx.code);
      } else if op == 0x3C {
        r := OpExtcodecopy();
      } else {
        r := OpReturndatacopy();
      }
    }

    method ExecuteLocal(op: byte) returns (r: Option<Result>)
      requires Valid()
      modifies this`pc, this`returnData, this`output, this`logs, stack, memory, meter
      ensures FollowsLocal(LocalOp(env, old(shared.View()), old(View()), op), r)
    {
      hide LocalOp, FollowsLocal, Valid;
      if op == 0x50 || op == 0x56 || op == 0x57 || 0x5F <= op <= 0x9F {
        r := ExecuteStackOp(op);
      } else if 0x51 <= op <= 0x53 || op == 0x5E {
        r := ExecuteMemoryOp(op);
      } else if op == 0x54 || op == 0x5C || op == 0xF3 || op == 0xFD {
        r := ExecuteAccessOp(op);
      } else if op == 0x20 || op == 0x37 || op == 0x39 || op == 0x3C || op == 0x3E {
        r := ExecuteCopyOp(op);
      } else {
        r := OpOther(op);
      }
    }

    // ------------------------------------------------------------ handlers that change shared state

    /** Two operands, or not both. */
    method PopPair() returns (first: Option<Word>, second: Option<Word>)
      modifies stack
      ensures first.Some? && second.Some? <==> |old(stack.data)| >= 2
      ensures |old(stack.data)| >= 2 ==>
        first == Some(Arg(old(View()), 0)) && second == Some(Arg(old(View()), 1)) && View() == Drop(old(View()), 2)
    {
      second := None;
      first := stack.Pop();
      if first.Some? {
        second := stack.Pop();
      }
    }

    method OpSstore() returns (r: Option<Result>)
      requires Valid()
      modifies this`pc, meter, stack, shared, shared.storage
      ensures Valid() && Follows(Machine.OpSstore(old(shared.View()), old(View())), r)
    {
      hide Machine.StoreSlot;
      hide InMemoryAccountState.Valid, InMemoryAccountState.View, InMemoryAccountState.Saved;
      var slot, value := PopPair();
      if slot.None? || value.None? {
        r := Fault(StackUnderflow);
        return;
      }
      if ctx.isStatic {
        r := Fault(Halted);
        return;
      }
      if meter.gas <= CALL_STIPEND {
        r := Fault(OutOfGas);
        return;
      }
      r := StoreSlot((ctx.address, slot.value), value.value);
    }

    method StoreSlot(k: SlotKey, value: Hash) returns (r: Option<Result>)
      requires Valid()
      modifies this`pc, meter, shared, shared.storage
      ensures Valid() && Follows(Machine.StoreSlot(old(shared.View()), old(View()), k, value), r)
    {
      hide RefundAfter, StoreGas, Machine.TouchSlot, Shared.View, Shared.Valid, Bytecode.IsJumpDest;
      hide Slots.Set, Slots.Get, Slots.Original;
      hide InMemoryAccountState.Valid, InMemoryAccountState.View, InMemoryAccountState.Saved;
      var original, current, cold := ReadSlot(k);
      var cost := StoreCost(cold, original, current, value);
      var ok := meter.ConsumeGas(cost);
      if !ok {
        r := Fault(OutOfGas);
        return;
      }
      WriteSlot(k, original, current, value);
      r := None;
    }

    /** What a store needs to know about its slot, which is warm afterwards. */
    method ReadSlot(k: SlotKey) returns (original: Hash, current: Hash, cold: bool)
      requires Valid()
      modifies shared`warmSlots, shared`billed
      ensures Valid() && shared.View() == Machine.TouchSlot(old(shared.View()), k).1
      ensures shared.View().sto == old(shared.View()).sto && cold == (k !in old(shared.View()).warmSlots)
      ensures original == shared.View().sto.Original(k) && current == shared.View().sto.Get(k)
    {
      hide InMemoryAccountState.Valid, InMemoryAccountState.View, InMemoryAccountState.Saved, Bytecode.IsJumpDest;
      current := shared.storage.Get(k);
      original := shared.storage.Original(k);
      var access := shared.TouchSlot(k);
      cold := access == COLD_SLOAD;
    }

    method WriteSlot(k: SlotKey, original: Hash, current: Hash, value: Hash)
      requires Valid()
      modifies this`pc, meter`refund, shared.storage
      ensures Valid() && shared.View() == old(shared.View()).(sto := old(shared.View()).sto.Set(k, value))
      ensures View()
           == old(View()).(refund := RefundAfter(old(meter.refund), original, current, value), pc := old(pc) + 1)
    {
      hide RefundAfter, Slots.Set, Bytecode.IsJumpDest, Shared.View, Shared.Valid;
      AdjustRefund(original, current, value);
      shared.SetSlot(k, value);
      pc := pc + 1;
    }

    /** The price of a store, added up as the handler does. */
    method StoreCost(cold: bool, original: Hash, current: Hash, value: Hash) returns (cost: u64)
      ensures cost == StoreGas(cold, original, current, value)
    {
      cost := 0;
      if cold {
        cost := cost + COLD_SLOAD;
      }
      if original == current {
        if current != value {
          if original == ZERO_WORD {
            cost := cost + SSTORE_SET;
          } else {
            cost := cost + SSTORE_RESET;
          }
        } else {
          cost := cost + WARM_ACCESS;
        }
      } else {
        cost := cost + WARM_ACCESS;
      }
    }

    /** The three refund adjustments of a store, in order. */
    method AdjustRefund(original: Hash, current: Hash, value: Hash)
      modifies meter`refund
      ensures meter.refund == RefundAfter(old(meter.refund), original, current, value)
    {
      if current != value {
        if original != ZERO_WORD && current != ZERO_WORD && value == ZERO_WORD {
          meter.RefundGas(REFUND_CLEAR);
        }
        if original != ZERO_WORD && current == ZERO_WORD {
          meter.DeductRefund(REFUND_CLEAR);
        }
        if value == original {
          if original == ZERO_WORD {
            meter.RefundGas(SSTORE_SET - WARM_ACCESS);
          } else {
            meter.RefundGas(SSTORE_RESET - WARM_ACCESS);
          }
        }
      }
    }

    method OpTstore() returns (r: Option<Result>)
      requires Valid()
      modifies this`pc, stack, shared`transient
      ensures Valid() && Follows(Machine.OpTstore(old(shared.View()), old(View())), r)
    {
      hide InMemoryAccountState.Valid, InMemoryAccountState.View, InMemoryAccountState.Saved;
      var slot, value := PopPair();
      if slot.None? || value.None? {
        r := Fault(StackUnderflow);
        return;
      }
      if ctx.isStatic {
        r := Fault(Halted);
        return;
      }
      shared.transient := shared.transient[(ctx.address, slot.value) := value.value];
      pc := pc + 1;
      r := None;
    }

    method OpSelfdestruct() returns (r: Option<Result>)
      requires Valid()
      modifies this`pc, meter, stack, shared, shared.account.Repr
      ensures Valid() && fresh(shared.account.Repr - old(shared.account.Repr))
      ensures Follows(Machine.OpSelfdestruct(old(shared.View()), old(View())), r)
    {
      hide Machine.Destruct;
      hide InMemoryAccountState.Valid, InMemoryAccountState.View, InMemoryAccountState.Saved;
      var word := stack.Pop();
      if word.None? {
        r := Fault(StackUnderflow);
        return;
      }
      if ctx.isStatic {
        r := Fault(Halted);
        return;
      }
      r := Destruct(ToAddress(word.value));
    }

    method Destruct(heir: Address) returns (r: Option<Result>)
      requires Valid()
      modifies this`pc, meter, shared, shared.account.Repr
      ensures Valid() && fresh(shared.account.Repr - old(shared.account.Repr))
      ensures Follows(Machine.Destruct(old(shared.View()), old(View()), heir), r)
    {
      hide Inherited, DestructCost, Machine.TouchAddress, Shared.View, Shared.Valid, Bytecode.IsJumpDest;
      hide InMemoryAccountState.Valid, InMemoryAccountState.View, InMemoryAccountState.Saved;
      var cost := PriceDestruct(heir);
      var ok := meter.ConsumeGas(cost);
      if !ok {
        r := Fault(OutOfGas);
        return;
      }
      Bequeath(heir);
      r := None;
    }

    method PriceDestruct(heir: Address) returns (cost: u64)
      requires Valid()
      modifies shared`warmAddrs, shared`billed
      ensures Valid() && cost == DestructCost(old(shared.View()), ctx.address, heir)
      ensures shared.View() == Machine.TouchAddress(old(shared.View()), heir).1
      ensures shared.View().acc == old(shared.View()).acc
    {
      hide InMemoryAccountState.Valid, InMemoryAccountState.View, InMemoryAccountState.Saved, Bytecode.IsJumpDest;
      var balance := shared.account.Balance(ctx.address);
      var access := shared.TouchAddress(heir);
      cost := SELFDESTRUCT_GAS;
      if access == COLD_ACCOUNT {
        cost := cost + COLD_ACCOUNT;
      }
      if heir != ctx.address && !shared.account.Exists(heir) && balance > 0 {
        cost := cost + NEW_ACCOUNT;
      }
    }

    /** Hands the balance over and records the account. */
    static method Inherit(account: InMemoryAccountState, heir: Address, self: Address)
      requires account.Valid()
      modifies account.Repr
      ensures account.Valid() && fresh(account.Repr - old(account.Repr))
      ensures account.View() == Inherited(old(account.View()), heir, self) && account.Saved() == old(account.Saved())
    {
      hide InMemoryAccountState.Valid, InMemoryAccountState.View, InMemoryAccountState.Saved;
      var balance := account.Balance(self);
      if heir != self && balance > 0 {
        account.AddBalance(heir, balance);
        account.SetBalance(self, 0);
      }
      account.SelfDestruct(self);
    }

    /** The same on the shared accounts; the frame moves on. */
    method Bequeath(heir: Address)
      requires Valid()
      modifies this`pc, shared.account.Repr
      ensures Valid() && fresh(shared.account.Repr - old(shared.account.Repr))
      ensures shared.View() == old(shared.View()).(acc := Inherited(old(shared.View().acc), heir, ctx.address))
      ensures View() == old(View()).(pc := old(pc) + 1)
    {
      hide InMemoryAccountState.Valid, InMemoryAccountState.View, InMemoryAccountState.Saved, Bytecode.IsJumpDest;
      hide Inherited;
      Inherit(shared.account, heir, ctx.address);
      pc := pc + 1;
    }

    // ------------------------------------------------------------ gas and the step hook

    /** calcDynamicGas: opcodes that touch an address or a slot warm it and pay for that. */
    method DynamicCost(op: byte) returns (cost: u64)
      requires Valid()
      modifies shared`warmAddrs, shared`warmSlots, shared`billed
      ensures Valid() && (cost, shared.View()) == DynamicGas(old(shared.View()), old(View()), op)
    {
      hide InMemoryAccountState.Valid, InMemoryAccountState.View, InMemoryAccountState.Saved, Bytecode.IsJumpDest;
      hide CopyGas, MemGas, ByteLength, ToU64, ToAddress, M.ExpandSize;
      var f := View();
      if op in {0x31, 0x3B, 0x3F} && |f.stack| >= 1 {
        cost := shared.TouchAddress(ToAddress(Arg(f, 0)));
      } else if op == 0x54 && |f.stack| >= 1 {
        cost := shared.TouchSlot((ctx.address, Arg(f, 0)));
      } else if op == 0x3C && |f.stack| >= 4 {
        var size := Arg64(f, 3);
        if WordCount(size) * 3 >= TWO64 {
          return MAX64;
        }
        var access := shared.TouchAddress(ToAddress(Arg(f, 0)));
        cost := Capped(MemGas(f, Arg64(f, 1), size) + WordCount(size) * 3 + access);
      } else {
        cost := DynamicGas(shared.View(), f, op).0;
      }
    }

    /** What the journal may edit, as it is now. */
    function Editable(): Patched
      requires Valid()
      reads this, memory, shared, shared.storage, shared.account, shared.account.Repr
    {
      Patched(shared.storage.View(), shared.transient, memory.store, true)
    }

    /** One journaled edit; false is the panic of a memory write. */
    method ApplyEdit(m: Mutation) returns (ok: bool)
      requires Valid()
      modifies memory, shared`transient, shared.storage`data, shared.storage`original
      ensures Valid()
      ensures var p := ApplyMutation(m, env.maxAlloc, old(Editable()));
        && ok == p.ok && (ok ==> Editable() == p)
        && shared.View() == old(shared.View()).(sto := p.sto, transient := p.transient)
    {
      hide InMemoryAccountState.Valid, InMemoryAccountState.View;
      hide InMemoryAccountState.Saved, Bytecode.IsJumpDest, M.Set;
      ok := true;
      match m
      case StorageWrite(_, transientScope, k, v) =>
        if transientScope {
          shared.transient := shared.transient[k := v];
        } else {
          shared.SetSlot(k, v);
        }
      case MemoryWrite(_, offset, data) =>
        ok := memory.Set(offset, data);
    }

    /** applyMutations: the journal entries of the step about to run, oldest first. */
    method ApplyEdits() returns (ok: bool)
      requires Valid()
      modifies memory, shared`transient, shared.storage`data, shared.storage`original
      ensures Valid()
      ensures var p := ApplyMutations(hook.journal, old(shared.seen), env.maxAlloc, old(Editable()));
        && ok == p.ok && (ok ==> Editable() == p)
        && shared.View() == old(shared.View()).(sto := p.sto, transient := p.transient)
    {
      hide InMemoryAccountState.Valid, InMemoryAccountState.View, InMemoryAccountState.Saved, Bytecode.IsJumpDest;
      hide ApplyMutation;
      var i := 0;
      while i < |hook.journal|
        invariant 0 <= i <= |hook.journal| && Valid()
        invariant ApplyMutations(hook.journal, old(shared.seen), env.maxAlloc, old(Editable()))
               == ApplyMutations(hook.journal[i..], old(shared.seen), env.maxAlloc, Editable())
        invariant shared.View() == old(shared.View()).(sto := Editable().sto, transient := Editable().transient)
      {
        var m := hook.journal[i];
        assert hook.journal[i..][0] == m && hook.journal[i..][1..] == hook.journal[i + 1..];
        if m.step == shared.seen {
          ok := ApplyEdit(m);
          if !ok {
            return;
          }
        }
        i := i + 1;
      }
      ok := true;
    }

    /** debugStepHook.Fire: count the step, re-apply its edits, then pause here or let the instruction run. */
    method Fire() returns (ok: bool)
      requires Valid()
      modifies memory, shared, shared.storage
      ensures Valid()
      ensures match Machine.Fire(env, hook, old(shared.View()), old(View()))
        case Proceed(w, f) => ok && shared.View() == w && View() == f
        case Interrupted(w, f) => !ok && shared.View() == w && output == f.output
    {
      hide InMemoryAccountState.Valid, InMemoryAccountState.View, InMemoryAccountState.Saved, Bytecode.IsJumpDest;
      hide ApplyMutations;
      var step, before := shared.seen, View();
      ok := ApplyEdits();
      shared.seen := step + 1;
      if !ok {
        shared.trace := shared.trace + [Event(shared.active, Show(shared.View(), before), None)];
        return;
      }
      var shown := Show(shared.View(), View());
      shared.trace := shared.trace + [Event(shared.active, shown, Some(step))];
      if hook.pauseAt == Some(step) {
        shared.pending := Some(Pause(step, shown));
        ok := false;
      }
    }

    // ------------------------------------------------------------ messages

    /** The operands of a call or a create, first popped first; None is a stack that is too short. */
    method PopMany(n: nat) returns (words: Option<seq<Word>>)
      modifies stack
      ensures words.Some? <==> n <= |old(stack.data)|
      ensures words.Some? ==> |words.value| == n && View() == Drop(old(View()), n)
      ensures words.Some? ==> forall i :: 0 <= i < n ==> words.value[i] == Arg(old(View()), i)
    {
      var taken: seq<Word> := [];
      while |taken| < n
        invariant |taken| <= n && |taken| <= |old(stack.data)|
        invariant stack.data == old(stack.data)[..|old(stack.data)| - |taken|]
        invariant forall i :: 0 <= i < |taken| ==> taken[i] == old(stack.data)[|old(stack.data)| - 1 - i]
        decreases n - |taken|
      {
        var word := stack.Pop();
        if word.None? {
          return None;
        }
        taken := taken + [word.value];
      }
      words := Some(taken);
    }

    /** EIP-161: the account a create deploys to starts with nonce 1. */
    static method InitCreate(account: InMemoryAccountState, a: Address)
      requires account.Valid()
      modifies account.Repr
      ensures account.Valid() && fresh(account.Repr - old(account.Repr))
      ensures account.View() == InitCreated(old(account.View()), a) && account.Saved() == old(account.Saved())
    {
      hide InMemoryAccountState.Valid, InMemoryAccountState.View, InMemoryAccountState.Saved;
      if !account.Exists(a) {
        account.CreateAccount(a);
      }
      if account.Nonce(a) == 0 && |account.Code(a)| == 0 {
        account.SetNonce(a, 1);
      }
    }

    /** The account changes a message makes before its code runs. */
    static method Fund(account: InMemoryAccountState, msg: Message)
      requires account.Valid()
      modifies account.Repr
      ensures account.Valid() && fresh(account.Repr - old(account.Repr))
      ensures account.View() == Funded(old(account.View()), msg) && account.Saved() == old(account.Saved())
    {
      hide InMemoryAccountState.Valid, InMemoryAccountState.View, InMemoryAccountState.Saved, InitCreated;
      if msg.isCreate {
        InitCreate(account, msg.callee);
      }
      if msg.value > 0 {
        account.SubBalance(msg.caller, msg.value);
        account.AddBalance(msg.callee, msg.value);
      }
    }

    /** Snapshots both journals, then funds the callee. */
    static method Begin(shared: Shared, msg: Message) returns (accId: nat, stoId: nat)
      requires shared.Valid()
      modifies shared.storage, shared.account.Repr
      ensures shared.Valid() && fresh(shared.account.Repr - old(shared.account.Repr))
      ensures var w := old(shared.View());
        && accId == |w.accSnaps| && stoId == |w.stoSnaps|
        && shared.View()
           == w.(accSnaps := w.accSnaps + [w.acc], stoSnaps := w.stoSnaps + [w.sto], acc := Funded(w.acc, msg))
    {
      hide InMemoryAccountState.Valid, InMemoryAccountState.View, InMemoryAccountState.Saved, Funded;
      accId := shared.account.Snapshot();
      stoId := shared.storage.Snapshot();
      Fund(shared.account, msg);
    }

    /** Every failure reverts both journals; only REVERT keeps its gas. */
    static method Close(shared: Shared, accId: nat, stoId: nat, ended: Result) returns (res: Result)
      requires shared.Valid()
      modifies shared.storage, shared.account.Repr
      ensures shared.Valid() && shared.account.Repr == old(shared.account.Repr)
      ensures Outcome(shared.View(), res) == Exit(old(shared.View()), accId, stoId, ended)
    {
      hide InMemoryAccountState.Valid, InMemoryAccountState.View, InMemoryAccountState.Saved;
      res := ended;
      if !res.status.Success? {
        shared.account.RevertToSnapshot(accId);
        shared.storage.RevertToSnapshot(stoId);
        if !res.status.Reverted? {
          res := res.(gasRemaining := 0);
        }
      }
    }

    /** The checks made before anything is touched: depth, value in a static call, balance. */
    method CheckMessage(msg: Message) returns (refusal: Option<Result>)
      requires Valid()
      ensures match Enter(env, shared.View(), msg, ctx)
        case Refused(res) => refusal == Some(res)
        case _ => refusal.None?
    {
      hide InMemoryAccountState.Valid, InMemoryAccountState.View, InMemoryAccountState.Saved, Bytecode.IsJumpDest;
      hide Funded, RunPrecompile, ChildCtx, FreshFrame;
      if msg.depth >= 1024 {
        return Some(Result(CallDepthExceeded, msg.gas, 0, [], []));
      }
      if msg.isStatic && msg.value > 0 {
        return Some(Result(Halted, 0, 0, [], []));
      }
      if msg.value > 0 {
        var balance := shared.account.Balance(msg.caller);
        if balance < msg.value {
          return Some(Result(InsufficientBalance, msg.gas, 0, [], []));
        }
      }
      refusal := None;
    }

    /** ExecuteMessage */
    method ExecuteMessage(msg: Message) returns (res: Result)
      requires Valid()
      modifies shared, shared.storage, shared.account.Repr
      ensures Valid() && fresh(shared.account.Repr - old(shared.account.Repr))
      ensures Outcome(shared.View(), res) == Run.ExecuteMessage(env, hook, old(shared.View()), msg, ctx)
      decreases MessageRank(msg.depth), 0
    {
      hide InMemoryAccountState.Valid, InMemoryAccountState.View, InMemoryAccountState.Saved, Bytecode.IsJumpDest;
      hide Funded, RunFrame, RunPrecompile, Exit, ChildCtx, FreshFrame;
      var refusal := CheckMessage(msg);
      if refusal.Some? {
        return refusal.value;
      }
      var accId, stoId := Begin(shared, msg);
      var ended;
      if msg.codeAddr in env.precompiles {
        ended := RunPrecompile(env.precompiles[msg.codeAddr], msg);
      } else {
        var code := if |msg.code| == 0 then shared.account.Code(msg.codeAddr) else msg.code;
        ChildDepth(ctx, msg, code);
        ended := RunChild(ChildCtx(ctx, msg, code), msg.gas);
      }
      res := Close(shared, accId, stoId, ended);
    }

    /** Runs a frame of its own over the shared objects, listed as active while it lasts. */
    method RunChild(child: Ctx, gas: u64) returns (res: Result)
      requires Valid()
      modifies shared, shared.storage, shared.account.Repr
      ensures Valid() && fresh(shared.account.Repr - old(shared.account.Repr))
      ensures var w := old(shared.View());
        var o := RunFrame(env, hook, w.(active := w.active + [child]), FreshFrame(child, gas));
        res == o.res && shared.View() == o.w.(active := w.active)
      decreases FrameRank(child.depth), 5
    {
      hide InMemoryAccountState.Valid, InMemoryAccountState.View, InMemoryAccountState.Saved, Bytecode.IsJumpDest;
      hide RunFrame;
      var active := shared.active;
      shared.active := active + [child];
      var evm := new EVM(shared, env, hook, child, gas);
      res := evm.RunCode();
      shared.active := active;
    }

    /** Run: turn after turn until the frame ends. */
    method RunCode() returns (res: Result)
      requires Valid()
      modifies this`pc, this`returnData, this`output, this`logs, meter, stack, memory
      modifies shared, shared.storage, shared.account.Repr
      ensures Valid() && fresh(shared.account.Repr - old(shared.account.Repr))
      ensures Outcome(shared.View(), res) == RunFrame(env, hook, old(shared.View()), old(View()))
      decreases FrameRank(ctx.depth), 4
    {
      hide InMemoryAccountState.Valid, InMemoryAccountState.View, InMemoryAccountState.Saved, Bytecode.IsJumpDest;
      hide Run.Turn;
      while pc < |ctx.code|
        invariant Valid() && fresh(shared.account.Repr - old(shared.account.Repr))
        invariant RunFrame(env, hook, old(shared.View()), old(View())) == RunFrame(env, hook, shared.View(), View())
        decreases meter.gas
      {
        RunFrameByTurns(env, hook, shared.View(), View());
        var r := Turn();
        if r.Some? {
          return r.value;
        }
      }
      res := Result(Success, meter.gas, meter.refund, output, logs);
    }

    /** Gas, and on success refund and logs, come back from a sub-message. */
    method MergeResult(res: Result)
      modifies this`logs, meter
      ensures View() == Merge(old(View()), res)
    {
      meter.ReturnGas(res.gasRemaining);
      if res.status.Success? {
        meter.RefundGas(res.gasRefund);
        logs := logs + res.logs;
      }
    }

    method FinishCall(k: Pending, res: Result) returns (r: Option<Result>)
      requires Valid() && k.PendingCall?
      modifies this`pc, this`returnData, this`logs, meter, stack, memory
      ensures Valid() && Follows(ResumeCall(env, old(shared.View()), old(View()), k, res), r)
    {
      hide InMemoryAccountState.Valid, InMemoryAccountState.View, InMemoryAccountState.Saved, Bytecode.IsJumpDest;
      hide M.Set, Shared.View, Shared.Valid, Merge;
      MergeResult(res);
      assert Merge(old(View()), res).memory == View().memory == old(View()).memory;
      returnData := res.returnData;
      var ok := memory.Set(k.outOffset, res.returnData[..Min(k.outSize, |res.returnData|)]);
      if !ok {
        r := Fault(Halted);
        return;
      }
      r := PushWord(if res.status.Success? then ONE_WORD else ZERO_WORD);
    }

    method FinishCreate(target: Address, res: Result) returns (r: Option<Result>)
      requires Valid()
      modifies this`pc, this`logs, meter, stack, shared.account.Repr
      ensures Valid() && fresh(shared.account.Repr - old(shared.account.Repr))
      ensures Follows(ResumeCreate(env, old(shared.View()), old(View()), target, res), r)
    {
      hide InMemoryAccountState.Valid, InMemoryAccountState.View, InMemoryAccountState.Saved, Bytecode.IsJumpDest;
      hide Merge;
      MergeResult(res);
      if !res.status.Success? {
        r := PushWord(ZERO_WORD);
        return;
      }
      r := Deploy(target, res.returnData);
    }

    method Reject(target: Address) returns (r: Option<Result>)
      requires Valid()
      modifies this`pc, stack, shared.account.Repr
      ensures Valid() && fresh(shared.account.Repr - old(shared.account.Repr))
      ensures var w := old(shared.View());
        Follows(Lift(w.(acc := w.acc.SetCode(target, [], env.keccak([]))), Push(old(View()), ZERO_WORD)), r)
    {
      hide InMemoryAccountState.Valid, InMemoryAccountState.View, InMemoryAccountState.Saved, Bytecode.IsJumpDest;
      shared.account.SetCode(target, []);
      r := PushWord(ZERO_WORD);
    }

    /** Installs the returned code, unless it is malformed, too long or unpaid. */
    method Deploy(target: Address, code: Bytes) returns (r: Option<Result>)
      requires Valid()
      modifies this`pc, meter, stack, shared.account.Repr
      ensures Valid() && fresh(shared.account.Repr - old(shared.account.Repr))
      ensures Follows(Deployed(env, old(shared.View()), old(View()), target, code), r)
    {
      hide InMemoryAccountState.Valid, InMemoryAccountState.View, InMemoryAccountState.Saved, Bytecode.IsJumpDest;
      shared.account.SetCode(target, code);
      if (|code| > 0 && code[0] == 0xEF) || |code| > MAX_CODE_SIZE {
        r := Reject(target);
        return;
      }
      var deposit := |code| * CODE_DEPOSIT;
      if meter.gas < deposit {
        r := Reject(target);
        return;
      }
      var paid := meter.ConsumeGas(deposit);
      r := PushWord(AddressWord(target));
    }

    method Deliver(k: Pending) returns (r: Option<Result>)
      requires Valid() && k.msg.depth == ctx.depth + 1
      modifies this`pc, this`returnData, this`output, this`logs, meter, stack, memory
      modifies shared, shared.storage, shared.account.Repr
      ensures Valid() && fresh(shared.account.Repr - old(shared.account.Repr))
      ensures Follows(Run.Deliver(env, hook, old(shared.View()), old(View()), k), r)
      decreases FrameRank(ctx.depth), 0
    {
      hide InMemoryAccountState.Valid, InMemoryAccountState.View, InMemoryAccountState.Saved, Bytecode.IsJumpDest;
      hide ResumeCall, ResumeCreate, Run.ExecuteMessage;
      var res := ExecuteMessage(k.msg);
      match k
      case PendingCall(_, _, _) => r := FinishCall(k, res);
      case PendingCreate(msg) => r := FinishCreate(msg.callee, res);
    }

    // ------------------------------------------------------------ calls and creates

    /** How a handler that may send a message matches its step function. */
    ghost predicate Prepares(s: StepOut, r: Option<Result>, k: Option<Pending>)
      requires Valid()
      reads this, meter, stack, memory, shared, shared.storage, shared.account, shared.account.Repr
    {
      match s
      case Done(flow) => k.None? && Follows(flow, r)
      case Invoke(w, f, sent) => r.None? && k == Some(sent) && shared.View() == w && View() == f
    }

    /** The access, value and new-account prices of a call. */
    method CallPrice(target: Address, kind: CallKind, value: nat) returns (price: u64)
      requires Valid()
      modifies shared`warmAddrs, shared`billed
      ensures Valid() && shared.View() == Machine.TouchAddress(old(shared.View()), target).1
      ensures price == CallBase(old(shared.View()), target, kind, value)
    {
      hide InMemoryAccountState.Valid, InMemoryAccountState.View, InMemoryAccountState.Saved, Bytecode.IsJumpDest;
      hide Accounts.IsEmpty;
      price := shared.TouchAddress(target);
      if !kind.DelegateCall? && !kind.StaticCall? {
        if value > 0 {
          price := price + CALL_VALUE;
        }
        if shared.account.IsEmpty(target) && value > 0 {
          price := price + NEW_ACCOUNT;
        }
      }
    }

    /** Takes the call's price and the child's gas, and grows memory; the child's gas, or why not. */
    method ChargeCall(extra: u64, requested: u64, memSize: u64) returns (fault: Option<Status>, charged: u64)
      requires memory.limit == env.maxAlloc
      modifies meter`gas, memory
      ensures match fault
        case Some(status) => if old(meter.gas) < extra then status == OutOfGas
                             else status == Halted && M.Resize(old(memory.store), memSize, env.maxAlloc).None?
        case None =>
          && old(meter.gas) >= extra && charged == ChildGas(old(meter.gas) - extra, requested)
          && charged <= old(meter.gas) - extra && meter.gas == old(meter.gas) - extra - charged
          && M.Resize(old(memory.store), memSize, env.maxAlloc) == Some(memory.store)
    {
      hide M.Resize;
      fault, charged := None, 0;
      var available := meter.gas;
      if available < extra {
        fault := Some(OutOfGas);
        return;
      }
      charged := ChildGas(available - extra, requested);
      var paid := meter.ConsumeGas(extra + charged);
      var ok := memory.Resize(memSize);
      if !ok {
        fault := Some(Halted);
      }
    }

    method PrepareCall(kind: CallKind) returns (r: Option<Result>, k: Option<Pending>)
      requires Valid()
      modifies meter, stack, memory, shared`warmAddrs, shared`billed
      ensures Valid() && Prepares(Machine.OpCall(env, old(shared.View()), old(View()), kind), r, k)
    {
      hide InMemoryAccountState.Valid, InMemoryAccountState.View, InMemoryAccountState.Saved, Bytecode.IsJumpDest;
      hide M.Get, M.ExpandSize, ToU64, ToNat, ToAddress, Machine.SendCall, Shared.View, Shared.Valid;
      var n := CallOperands(kind);
      k := None;
      var words := PopMany(n);
      if words.None? {
        r := Fault(StackUnderflow);
        return;
      }
      var target := ToAddress(words.value[1]);
      var value := if kind.Call? || kind.CallCode? then ToNat(words.value[2]) else 0;
      var inOffset, inSize := ToU64(words.value[n - 4]), ToU64(words.value[n - 3]);
      var outOffset, outSize := ToU64(words.value[n - 2]), ToU64(words.value[n - 1]);
      if ctx.isStatic && value > 0 {
        r := Fault(Halted);
        return;
      }
      var input := memory.Get(inOffset, inSize);
      if input.None? {
        r := Fault(Halted);
        return;
      }
      var into := M.ExpandSize(|memory.store|, inOffset, inSize);
      var out := M.ExpandSize(|memory.store|, outOffset, outSize);
      var growth := if into.1 > out.1 then into else out;
      r, k := SendCall(kind, target, value, ToU64(words.value[0]), input.value, growth, outOffset, outSize);
    }

    method SendCall(kind: CallKind, target: Address, value: nat, requested: u64, input: Bytes, growth: (u64, u64),
                    outOffset: u64, outSize: u64)
      returns (r: Option<Result>, k: Option<Pending>)
      requires Valid()
      modifies meter, memory, shared`warmAddrs, shared`billed
      ensures Valid()
      ensures Prepares(Machine.SendCall(env, old(shared.View()), old(View()), kind, target, value, requested, input,
                                        growth, outOffset, outSize), r, k)
    {
      hide InMemoryAccountState.Valid, InMemoryAccountState.View, InMemoryAccountState.Saved, Bytecode.IsJumpDest;
      hide M.Resize, CallBase, Machine.TouchAddress, ChildGas, Add64, Shared.View, Shared.Valid;
      k := None;
      var price := CallPrice(target, kind, value);
      var fault, charged := ChargeCall(Add64(price, growth.0), requested, growth.1);
      if fault.Some? {
        r := Fault(fault.value);
        return;
      }
      var childGas := if value > 0 then Add64(charged, CALL_STIPEND) else charged;
      var callee := if kind.CallCode? || kind.DelegateCall? then ctx.address else target;
      var msg := Message(ctx.address, callee, value, childGas, input, [], target,
                         kind.StaticCall? || ctx.isStatic, ctx.depth + 1, kind, false);
      r, k := None, Some(PendingCall(msg, outOffset, outSize));
    }

    /** The gas of a create on top of its static price, added up in wrapping uint64 arithmetic. */
    method CreatePrice(offset: u64, size: u64, create2: bool) returns (price: u64)
      ensures price == CreateCost(env, View(), offset, size, create2)
    {
      hide M.ExpandSize;
      price := M.ExpandSize(|memory.store|, offset, size).0;
      if create2 {
        price := Add64(price, Mul64(Add64(size, 31) / 32, 6));
      }
      if env.fork >= SHANGHAI {
        price := Add64(price, Mul64(Add64(size, 31) / 32, 2));
      }
    }

    method PrepareCreate(create2: bool) returns (r: Option<Result>, k: Option<Pending>)
      requires Valid()
      modifies this`pc, meter, stack, shared.account.Repr
      ensures Valid() && fresh(shared.account.Repr - old(shared.account.Repr))
      ensures Prepares(Machine.OpCreate(env, old(shared.View()), old(View()), create2), r, k)
    {
      hide InMemoryAccountState.Valid, InMemoryAccountState.View, InMemoryAccountState.Saved, Bytecode.IsJumpDest;
      hide ToU64, ToNat, Machine.ReadInit;
      k := None;
      var words := PopMany(if create2 then 4 else 3);
      if words.None? {
        r := Fault(StackUnderflow);
        return;
      }
      if ctx.isStatic {
        r := Fault(Halted);
        return;
      }
      var salt := if create2 then words.value[3] else ZERO_WORD;
      r, k := ReadInit(create2, ToNat(words.value[0]), ToU64(words.value[1]), ToU64(words.value[2]), salt);
    }

    method ReadInit(create2: bool, value: nat, offset: u64, size: u64, salt: Word)
      returns (r: Option<Result>, k: Option<Pending>)
      requires Valid()
      modifies this`pc, meter, stack, shared.account.Repr
      ensures Valid() && fresh(shared.account.Repr - old(shared.account.Repr))
      ensures Prepares(Machine.ReadInit(env, old(shared.View()), old(View()), create2, value, offset, size, salt), r, k)
    {
      hide InMemoryAccountState.Valid, InMemoryAccountState.View, InMemoryAccountState.Saved, Bytecode.IsJumpDest;
      hide M.Get, Machine.StartCreate;
      k := None;
      var balance := shared.account.Balance(ctx.address);
      if value > 0 && balance < value {
        r := PushWord(ZERO_WORD);
        return;
      }
      var init := memory.Get(offset, size);
      if init.None? {
        r := Fault(Halted);
        return;
      }
      r, k := StartCreate(create2, value, offset, size, salt, init.value);
    }

    /** Where a create goes: by the creator's nonce, or by salt and init code. */
    method NewAddress(create2: bool, salt: Word, init: Bytes) returns (target: Address)
      requires Valid()
      ensures target == if create2 then env.create2Address(ctx.address, salt, init)
                        else env.createAddress(ctx.address, shared.View().acc.Nonce(ctx.address))
    {
      hide InMemoryAccountState.Valid, InMemoryAccountState.View, InMemoryAccountState.Saved, Bytecode.IsJumpDest;
      if create2 {
        return env.create2Address(ctx.address, salt, init);
      }
      var nonce := shared.account.Nonce(ctx.address);
      target := env.createAddress(ctx.address, nonce);
    }

    method StartCreate(create2: bool, value: nat, offset: u64, size: u64, salt: Word, init: Bytes)
      returns (r: Option<Result>, k: Option<Pending>)
      requires Valid()
      modifies this`pc, meter, stack, shared.account.Repr
      ensures Valid() && fresh(shared.account.Repr - old(shared.account.Repr))
      ensures Prepares(Machine.StartCreate(env, old(shared.View()), old(View()), create2, value, offset, size, salt,
                                           init), r, k)
    {
      hide InMemoryAccountState.Valid, InMemoryAccountState.View, InMemoryAccountState.Saved, Bytecode.IsJumpDest;
      hide CreateCost, Machine.SendCreate, Shared.View, Shared.Valid;
      k := None;
      if env.fork >= SHANGHAI && size > MAX_INIT_CODE_SIZE {
        r := PushWord(ZERO_WORD);
        return;
      }
      var price := CreatePrice(offset, size, create2);
      var paid := meter.ConsumeGas(price);
      if !paid {
        r := Fault(OutOfGas);
        return;
      }
      var target := NewAddress(create2, salt, init);
      r, k := SendCreate(target, value, init);
    }

    method SendCreate(target: Address, value: nat, init: Bytes) returns (r: Option<Result>, k: Option<Pending>)
      requires Valid()
      modifies this`pc, meter, stack, shared.account.Repr
      ensures Valid() && fresh(shared.account.Repr - old(shared.account.Repr))
      ensures Prepares(Machine.SendCreate(old(shared.View()), old(View()), target, value, init), r, k)
    {
      hide InMemoryAccountState.Valid, InMemoryAccountState.View, InMemoryAccountState.Saved, Bytecode.IsJumpDest;
      hide Accounts.IncrementNonce, Accounts.HasCodeOrNonce;
      k := None;
      shared.account.IncrementNonce(ctx.address);
      if shared.account.HasCodeOrNonce(target) {
        r := PushWord(ZERO_WORD);
        return;
      }
      var childGas := MaxCallGas(meter.gas);
      var paid := meter.ConsumeGas(childGas);
      var msg := Message(ctx.address, target, value, childGas, init, init, target, false, ctx.depth + 1, Call, true);
      r, k := None, Some(PendingCreate(msg));
    }

    // ------------------------------------------------------------ the interpreter loop

    method OpCall(kind: CallKind) returns (r: Option<Result>)
      requires Valid()
      modifies this`pc, this`returnData, this`output, this`logs, meter, stack, memory
      modifies shared, shared.storage, shared.account.Repr
      ensures Valid() && fresh(shared.account.Repr - old(shared.account.Repr))
      ensures Follows(Settle(env, hook, Machine.OpCall(env, old(shared.View()), old(View()), kind)), r)
      decreases FrameRank(ctx.depth), 1
    {
      hide InMemoryAccountState.Valid, InMemoryAccountState.View, InMemoryAccountState.Saved, Bytecode.IsJumpDest;
      hide Machine.OpCall, Run.Deliver;
      Gas.OpCallGas(env, shared.View(), View(), kind);
      var k;
      r, k := PrepareCall(kind);
      if k.Some? {
        r := Deliver(k.value);
      }
    }

    method OpCreate(create2: bool) returns (r: Option<Result>)
      requires Valid()
      modifies this`pc, this`returnData, this`output, this`logs, meter, stack, memory
      modifies shared, shared.storage, shared.account.Repr
      ensures Valid() && fresh(shared.account.Repr - old(shared.account.Repr))
      ensures Follows(Settle(env, hook, Machine.OpCreate(env, old(shared.View()), old(View()), create2)), r)
      decreases FrameRank(ctx.depth), 1
    {
      hide InMemoryAccountState.Valid, InMemoryAccountState.View, InMemoryAccountState.Saved, Bytecode.IsJumpDest;
      hide Machine.OpCreate, Run.Deliver;
      Gas.OpCreateGas(env, shared.View(), View(), create2);
      var k;
      r, k := PrepareCreate(create2);
      if k.Some? {
        r := Deliver(k.value);
      }
    }

    /** execute: the opcode dispatch. */
    method Execute(op: byte) returns (r: Option<Result>)
      requires Valid()
      modifies this`pc, this`returnData, this`output, this`logs, meter, stack, memory
      modifies shared, shared.storage, shared.account.Repr
      ensures Valid() && fresh(shared.account.Repr - old(shared.account.Repr))
      ensures Follows(Settle(env, hook, Machine.Execute(env, old(shared.View()), old(View()), op)), r)
      decreases FrameRank(ctx.depth), 2
    {
      hide InMemoryAccountState.Valid, InMemoryAccountState.View, InMemoryAccountState.Saved, Bytecode.IsJumpDest;
      hide LocalOp, Machine.OpCall, Machine.OpCreate;
      hide Machine.OpSstore, Machine.OpTstore, Machine.OpSelfdestruct, Run.Deliver;
      hide Shared.View, Shared.Valid;
      if op == 0x55 {
        r := OpSstore();
      } else if op == 0x5D {
        r := OpTstore();
      } else if op == 0xFF {
        r := OpSelfdestruct();
      } else if op == 0xF0 || op == 0xF5 {
        r := OpCreate(op == 0xF5);
      } else if op == 0xF1 {
        r := OpCall(Call);
      } else if op == 0xF2 {
        r := OpCall(CallCode);
      } else if op == 0xF4 {
        r := OpCall(DelegateCall);
      } else if op == 0xFA {
        r := OpCall(StaticCall);
      } else {
        r := ExecuteLocal(op);
      }
    }

    /** One turn: fetch, fork check, gas, hook, handler. */
    method Turn() returns (r: Option<Result>)
      requires Valid() && pc < |ctx.code|
      modifies this`pc, this`returnData, this`output, this`logs, meter, stack, memory
      modifies shared, shared.storage, shared.account.Repr
      ensures Valid() && fresh(shared.account.Repr - old(shared.account.Repr))
      ensures Follows(Run.Turn(env, hook, old(shared.View()), old(View())), r)
      decreases FrameRank(ctx.depth), 3
    {
      hide InMemoryAccountState.Valid, InMemoryAccountState.View, InMemoryAccountState.Saved, Bytecode.IsJumpDest;
      hide DynamicGas, MinFork, BaseGas, Machine.Execute, Machine.Fire, Run.Deliver, Shared.View, Shared.Valid;
      var op := ctx.code[pc];
      if env.fork < MinFork(op) {
        r := Refuse(InvalidOpcode);
        return;
      }
      var dynamic := DynamicCost(op);
      if dynamic + BaseGas(op) > meter.gas {
        r := Refuse(OutOfGas);
        return;
      }
      var paid := meter.ConsumeGas(dynamic + BaseGas(op));
      var ok := Fire();
      if !ok {
        r := Fault(Halted);
        return;
      }
      r := Execute(op);
    }

    /** An instruction refused before its hook: the fetch is recorded, and no output is handed over. */
    method Refuse(status: Status) returns (r: Option<Result>)
      requires Valid() && !status.Success? && !status.Reverted?
      modifies shared`trace
      ensures Valid() && shared.View() == Record(old(shared.View()), View(), None)
      ensures r == Some(Finish(View().(output := []), status))
    {
      hide InMemoryAccountState.Valid, InMemoryAccountState.View, InMemoryAccountState.Saved, Bytecode.IsJumpDest;
      shared.trace := shared.trace + [Event(shared.active, Show(shared.View(), View()), None)];
      r := Some(Result(status, 0, 0, [], []));
    }
  }
}
