/** What each instruction does, in terms of the stack, the memory bytes and the storage before it. */
module Instructions {
  import opened Base
  import opened Ledger
  import opened Machine
  import opened Effects
  import opened MemoryBytes
  import M = Memory
  import Bytecode

  /** The instruction only moves on to this frame. */
  ghost predicate GoesOn(s: StepOut, w: World, f1: Frame) {
    s == Done(Next(w, f1))
  }

  /** Unless it ends the frame, it leaves this stack, these bytes at that offset of memory, and the rest as it was. */
  ghost predicate Leaves(s: StepOut, w: World, f: Frame, stack: seq<Word>, offset: nat, data: Bytes) {
    s.Done? && (s.flow.Next? ==>
      && s.flow.w == w && s.flow.f == f.(pc := f.pc + 1, stack := stack, memory := s.flow.f.memory)
      && forall i: nat :: M.ByteAt(s.flow.f.memory, i)
           == if offset <= i < offset + |data| then data[i - offset] else M.ByteAt(f.memory, i))
  }

  /** A range of bytes, zero where the source has ended. */
  function Range(source: Bytes, from: nat, size: nat): (r: Bytes)
    ensures |r| == size && forall i :: 0 <= i < size ==> r[i] == M.ByteAt(source, from + i)
  {
    var have := if from < |source| then source[from..Min(from + size, |source|)] else [];
    have + Zeros(size - |have|)
  }

  // ---------------------------------------------------------------- from the fetch to the handler

  /** Without an edit at its step a fetch that does not end the frame runs the opcode, on the frame less its gas. */
  lemma StepRunsOpcode(env: Env, hook: Hook, w: World, f: Frame) returns (w1: World, g: Frame)
    requires f.pc < |f.ctx.code| && NoEditAt(hook, w.seen)
    ensures g == f.(gas := g.gas) && g.gas <= f.gas
    ensures w1.acc == w.acc && w1.sto == w.sto && w1.transient == w.transient
    ensures var s := Step(env, hook, w, f);
      || s == Execute(env, w1, g, f.ctx.code[f.pc])
      || (s.Done? && s.flow.Stop? && s.flow.res.status in [InvalidOpcode, OutOfGas, Halted])
  {
    hide DynamicGas, BaseGas, MinFork, Fire, Execute;
    var op := f.ctx.code[f.pc];
    DynamicGasEffect(w, f, op);
    var (dynamic, w0) := DynamicGas(w, f, op);
    w1, g := w, f;
    if env.fork >= MinFork(op) && dynamic + BaseGas(op) <= f.gas {
      g := f.(gas := f.gas - dynamic - BaseGas(op));
      FireEffect(env, hook, w0, g);
      QuietFire(env, hook, w0, g);
      w1 := Fire(env, hook, w0, g).w;
    }
  }

  /**
   * What the step hook shows: without an edit at its step a fetch is recorded once, with the frame that fetched, less
   * gas, and the state as it is; its number counts the firings before it, and there a pause is taken if asked for.
   */
  lemma FetchIsShown(env: Env, hook: Hook, w: World, f: Frame)
    requires f.pc < |f.ctx.code| && NoEditAt(hook, w.seen)
    ensures var s := Step(env, hook, w, f); var w1 := WorldOf(s);
      && |w1.trace| == |w.trace| + 1 && w1.trace[..|w.trace|] == w.trace
      && var e := w1.trace[|w.trace|];
         && e.active == w.active
         && e.shown.frame == f.(gas := e.shown.frame.gas) && e.shown.frame.gas <= f.gas
         && e.shown.acc == w.acc && e.shown.sto == w.sto && e.shown.transient == w.transient
         && (if e.step.None? then w1.seen == w.seen && w1.pending == w.pending && s.Done? && s.flow.Stop?
             else
               && e.step == Some(w.seen) && w1.seen == w.seen + 1
               && (hook.pauseAt == Some(w.seen) ==>
                     w1.pending == Some(Pause(w.seen, e.shown)) && s.Done? && s.flow.Stop?)
               && (hook.pauseAt != Some(w.seen) ==> w1.pending == w.pending))
  {
    hide DynamicGas, BaseGas, MinFork, Execute, ApplyMutations;
    var op := f.ctx.code[f.pc];
    DynamicGasEffect(w, f, op);
    var (dynamic, w0) := DynamicGas(w, f, op);
    if env.fork >= MinFork(op) && dynamic + BaseGas(op) <= f.gas {
      var g := f.(gas := f.gas - dynamic - BaseGas(op));
      NothingApplied(hook.journal, w.seen, env.maxAlloc, Patched(w.sto, w.transient, f.memory, true));
      var fired := Fire(env, hook, w0, g);
      ExecuteEffect(env, fired.w, fired.f, op);
    }
  }

  /** Opcodes that came with a later fork are invalid before it: RANDAO, PUSH0, Cancun's five, and CLZ. */
  lemma ArriveWithForks(env: Env, hook: Hook, w: World, f: Frame)
    requires f.pc < |f.ctx.code|
    ensures var op, s := f.ctx.code[f.pc], Step(env, hook, w, f);
      || (op == 0x44 && env.fork < PARIS) || (op == 0x5F && env.fork < SHANGHAI)
      || (op in [0x49, 0x4A, 0x5C, 0x5D, 0x5E] && env.fork < CANCUN) || (op == 0x1E && env.fork < AMSTERDAM) ==>
           s.Done? && s.flow.Stop? && s.flow.res.status == InvalidOpcode && s.flow.res.gasRemaining == 0
  {
    hide DynamicGas, BaseGas, Fire, Execute;
  }

  // ---------------------------------------------------------------- stack

  /** PUSH0 to PUSH32: the n bytes after the opcode become the low end of a word; past the code they read as zero. */
  lemma PushLaw(env: Env, w: World, f: Frame, n: nat)
    requires n <= 32 && |f.stack| < 1024
    ensures GoesOn(Execute(env, w, f, 0x5F + n), w,
                   f.(pc := f.pc + 1 + n, stack := f.stack + [Zeros(32 - n) + Range(f.ctx.code, f.pc + 1, n)]))
  {
    hide Compute, PushData;
    PushedBytes(f.ctx.code, f.pc, n);
  }

  lemma PushedBytes(code: Bytes, pc: nat, n: nat)
    requires n <= 32
    ensures PushData(code, pc, n) == Zeros(32 - n) + Range(code, pc + 1, n)
  {
    var from := Min(pc + 1, |code|);
    var have := code[from..Min(from + n, |code|)];
    assert have + Zeros(n - |have|) == Range(code, pc + 1, n);
  }

  /** DUP1 to DUP16 */
  lemma DupLaw(env: Env, w: World, f: Frame, rest: seq<Word>, v: Word, above: seq<Word>)
    requires f.stack == rest + [v] + above && |above| < 16 && |f.stack| < 1024
    ensures GoesOn(Execute(env, w, f, 0x80 + |above|), w, f.(pc := f.pc + 1, stack := f.stack + [v]))
  {
    hide Compute;
  }

  /** SWAP1 to SWAP16 */
  lemma SwapLaw(env: Env, w: World, f: Frame, rest: seq<Word>, u: Word, between: seq<Word>, v: Word)
    requires f.stack == rest + [u] + between + [v] && |between| < 16
    ensures GoesOn(Execute(env, w, f, 0x90 + |between|), w,
                   f.(pc := f.pc + 1, stack := rest + [v] + between + [u]))
  {
    hide Compute;
    var top, n := |f.stack| - 1, |between| + 1;
    assert f.stack[top := f.stack[top - n]][top - n := f.stack[top]] == rest + [v] + between + [u];
  }

  lemma PopLaw(env: Env, w: World, f: Frame, rest: seq<Word>, v: Word)
    requires f.stack == rest + [v]
    ensures GoesOn(Execute(env, w, f, 0x50), w, f.(pc := f.pc + 1, stack := rest))
  {
  }

  /** An opcode that only computes takes its operands off and puts one word on. */
  lemma ComputeLaw(env: Env, w: World, f: Frame, op: byte, rest: seq<Word>, operands: seq<Word>)
    requires Arity(op) == Some(|operands|) && f.stack == rest + operands && |rest| < 1024
    ensures GoesOn(Execute(env, w, f, op), w, f.(pc := f.pc + 1, stack := rest + [env.alu(op, operands, w, f)]))
  {
    assert f.stack[..|rest|] == rest && f.stack[|rest|..] == operands;
  }

  // ---------------------------------------------------------------- jumps

  /** JUMP */
  lemma JumpLaw(env: Env, w: World, f: Frame, rest: seq<Word>, dest: Word)
    requires f.stack == rest + [dest]
    ensures var s, code := Execute(env, w, f, 0x56), f.ctx.code;
      if Bytecode.IsJumpDest(code, ToU64(dest)) then GoesOn(s, w, f.(pc := ToU64(dest), stack := rest))
      else s.Done? && s.flow.Stop? && s.flow.res.status == InvalidJump
  {
    hide Bytecode.IsJumpDest, ToU64;
  }

  /** JUMPI: the destination is on top, the condition below it. */
  lemma JumpiLaw(env: Env, w: World, f: Frame, rest: seq<Word>, condition: Word, dest: Word)
    requires f.stack == rest + [condition, dest]
    ensures var s, code := Execute(env, w, f, 0x57), f.ctx.code;
      if ToNat(condition) == 0 then GoesOn(s, w, f.(pc := f.pc + 1, stack := rest))
      else if Bytecode.IsJumpDest(code, ToU64(dest)) then GoesOn(s, w, f.(pc := ToU64(dest), stack := rest))
      else s.Done? && s.flow.Stop? && s.flow.res.status == InvalidJump
  {
    hide Bytecode.IsJumpDest, ToU64, ToNat;
  }

  // ---------------------------------------------------------------- memory

  /** MLOAD: the 32 bytes at the offset. */
  lemma MloadLaw(env: Env, w: World, f: Frame, rest: seq<Word>, offset: Word)
    requires f.stack == rest + [offset]
    ensures Leaves(Execute(env, w, f, 0x51), w, f, rest + [Range(f.memory, ToU64(offset), 32)], 0, [])
  {
    hide M.Resize, M.Get, ToU64, Range;
    var grown := M.Resize(f.memory, Add64(ToU64(offset), 32), env.maxAlloc);
    if grown.Some? {
      ReadBytes(f.memory, Add64(ToU64(offset), 32), ToU64(offset), 32, env.maxAlloc);
    }
  }

  /** Reading after growing reads what was there. */
  lemma ReadBytes(memory: M.Store, size: u64, offset: u64, count: u64, limit: M.AllocLimit)
    requires M.Resize(memory, size, limit).Some?
    ensures var grown := M.Resize(memory, size, limit).value; var read := M.Get(grown, offset, count, limit);
      && (forall i: nat :: M.ByteAt(grown, i) == M.ByteAt(memory, i))
      && (read.Some? ==> read.value == Range(memory, offset, count))
  {
    hide M.Resize, M.Get, M.ByteAt;
    var grown := M.Resize(memory, size, limit).value;
    ResizeBytes(memory, size, limit);
    if M.Get(grown, offset, count, limit).Some? {
      GetBytes(grown, offset, count, limit);
    }
  }

  /** What a handler that copies to memory leaves. */
  lemma CopiedBytes(env: Env, w: World, f: Frame, g: Frame, offset: u64, data: Option<Bytes>, bytes: Bytes)
    requires data.Some? ==> data.value == bytes && |bytes| < 0x20_0000_0000
    requires g == f.(stack := g.stack)
    ensures Leaves(Done(Lift(w, CopyToMemory(env, g, offset, data))), w, f, g.stack, offset, bytes)
  {
    hide M.Set, Finish, M.ByteAt;
    if data.Some? && M.Set(f.memory, offset, data.value, env.maxAlloc).Some? {
      SetBytes(f.memory, offset, data.value, env.maxAlloc);
    }
  }

  /** MSTORE */
  lemma MstoreLaw(env: Env, w: World, f: Frame, rest: seq<Word>, v: Word, offset: Word)
    requires f.stack == rest + [v, offset]
    ensures Leaves(Execute(env, w, f, 0x52), w, f, rest, ToU64(offset), v)
  {
    hide CopyToMemory, ToU64, Finish, Leaves;
    CopiedBytes(env, w, f, f.(stack := rest), ToU64(offset), Some(v), v);
    assert Drop(f, 2).stack == rest;
  }

  /** MSTORE8 */
  lemma Mstore8Law(env: Env, w: World, f: Frame, rest: seq<Word>, v: Word, offset: Word)
    requires f.stack == rest + [v, offset]
    ensures Leaves(Execute(env, w, f, 0x53), w, f, rest, ToU64(offset), [v[31]])
  {
    hide CopyToMemory, ToU64, Finish, Leaves;
    CopiedBytes(env, w, f, f.(stack := rest), ToU64(offset), Some([v[31]]), [v[31]]);
    assert Drop(f, 2).stack == rest;
  }

  /** MCOPY: the bytes as they were before the copy, even where source and destination overlap. */
  lemma McopyLaw(env: Env, w: World, f: Frame, rest: seq<Word>, size: Word, from: Word, to: Word)
    requires f.stack == rest + [size, from, to]
    ensures Leaves(Execute(env, w, f, 0x5E), w, f, rest, ToU64(to), Range(f.memory, ToU64(from), ToU64(size)))
  {
    hide CopyToMemory, ToU64, Finish, Leaves, M.Get, M.ByteAt;
    var data := if ToU64(size) > env.maxAlloc then None else M.Get(f.memory, ToU64(from), ToU64(size), env.maxAlloc);
    if data.Some? {
      GetBytes(f.memory, ToU64(from), ToU64(size), env.maxAlloc);
      assert data.value == Range(f.memory, ToU64(from), ToU64(size));
    }
    CopiedBytes(env, w, f, f.(stack := rest), ToU64(to), data, Range(f.memory, ToU64(from), ToU64(size)));
    assert Drop(f, 3).stack == rest;
  }

  /** What the copying opcodes take from a source is its range. */
  lemma SliceIsRange(source: Bytes, from: u64, size: u64, limit: M.AllocLimit)
    ensures var data := M.CopySlice(source, from, size, limit);
      data.Some? ==> data.value == Range(source, from, size) && size < 0x20_0000_0000
  {
    if M.CopySlice(source, from, size, limit).Some? {
      SliceBytes(source, from, size, limit);
    }
  }

  /** CALLDATACOPY, CODECOPY and RETURNDATACOPY, the last of which ends the frame rather than read past the end. */
  lemma CopyLaw(env: Env, w: World, f: Frame, op: byte, rest: seq<Word>, size: Word, from: Word, to: Word)
    requires f.stack == rest + [size, from, to] && (op == 0x37 || op == 0x39 || op == 0x3E)
    ensures var source := if op == 0x37 then f.ctx.input else if op == 0x39 then f.ctx.code else f.returnData;
      && Leaves(Execute(env, w, f, op), w, f, rest, ToU64(to), Range(source, ToU64(from), ToU64(size)))
      && (op == 0x3E && ToU64(from) + ToU64(size) > |source| ==> Execute(env, w, f, op).flow.Stop?)
  {
    hide CopyToMemory, ToU64, Finish, M.CopySlice, M.ByteAt, Range, Leaves;
    var source := if op == 0x37 then f.ctx.input else if op == 0x39 then f.ctx.code else f.returnData;
    var range := Range(source, ToU64(from), ToU64(size));
    SliceIsRange(source, ToU64(from), ToU64(size), env.maxAlloc);
    CopiedBytes(env, w, f, f.(stack := rest), ToU64(to), M.CopySlice(source, ToU64(from), ToU64(size), env.maxAlloc),
                range);
    assert Drop(f, 3).stack == rest;
    EndedLeaves(w, f, Halted, rest, ToU64(to), range);
  }

  lemma EndedLeaves(w: World, f: Frame, status: Status, stack: seq<Word>, offset: nat, data: Bytes)
    ensures Leaves(Done(Lift(w, End(f, status))), w, f, stack, offset, data)
  {
  }

  /** EXTCODECOPY: the same from the code of the account whose address is on top. */
  lemma ExtcodecopyLaw(env: Env, w: World, f: Frame, rest: seq<Word>, size: Word, from: Word, to: Word, account: Word)
    requires f.stack == rest + [size, from, to, account]
    ensures Leaves(Execute(env, w, f, 0x3C), w, f, rest, ToU64(to),
                   Range(w.acc.Code(account[12..]), ToU64(from), ToU64(size)))
  {
    hide CopyToMemory, ToU64, Finish, M.CopySlice, M.ByteAt, Range, Leaves;
    var code := w.acc.Code(account[12..]);
    SliceIsRange(code, ToU64(from), ToU64(size), env.maxAlloc);
    CopiedBytes(env, w, f, f.(stack := rest), ToU64(to), M.CopySlice(code, ToU64(from), ToU64(size), env.maxAlloc),
                Range(code, ToU64(from), ToU64(size)));
    assert Drop(f, 4).stack == rest;
  }

  /** KECCAK256 hashes the bytes of its range. */
  lemma KeccakLaw(env: Env, w: World, f: Frame, rest: seq<Word>, size: Word, offset: Word)
    requires f.stack == rest + [size, offset]
    ensures Leaves(Execute(env, w, f, 0x20), w, f,
                   rest + [env.keccak(Range(f.memory, ToU64(offset), ToU64(size)))], 0, [])
  {
    hide M.Resize, M.Get, ToU64, Range;
    var end := Add64(ToU64(offset), ToU64(size));
    if M.Resize(f.memory, end, env.maxAlloc).Some? {
      ReadBytes(f.memory, end, ToU64(offset), ToU64(size), env.maxAlloc);
    }
  }

  // ---------------------------------------------------------------- storage and balances

  /** SLOAD reads the frame's own slot. */
  lemma SloadLaw(env: Env, w: World, f: Frame, rest: seq<Word>, slot: Word)
    requires f.stack == rest + [slot] && |f.stack| <= 1024
    ensures GoesOn(Execute(env, w, f, 0x54), w,
                   f.(pc := f.pc + 1, stack := rest + [w.sto.Get((f.ctx.address, slot))]))
  {
  }

  lemma TloadLaw(env: Env, w: World, f: Frame, rest: seq<Word>, slot: Word)
    requires f.stack == rest + [slot] && |f.stack| <= 1024
    ensures GoesOn(Execute(env, w, f, 0x5C), w,
                   f.(pc := f.pc + 1, stack := rest + [w.Transient((f.ctx.address, slot))]))
  {
  }

  /** SSTORE writes the frame's own slot and no other; transient storage is left alone. */
  lemma SstoreLaw(env: Env, w: World, f: Frame, rest: seq<Word>, value: Word, slot: Word)
    requires f.stack == rest + [value, slot]
    ensures match Execute(env, w, f, 0x55)
      case Done(Next(w1, f1)) =>
        && (forall k: SlotKey :: w1.sto.Get(k) == if k == (f.ctx.address, slot) then value else w.sto.Get(k))
        && w1.acc == w.acc && w1.transient == w.transient
        && f1 == f.(pc := f.pc + 1, stack := rest, gas := f1.gas, refund := f1.refund) && !f.ctx.isStatic
      case Done(Stop(w1, res)) => w1.sto == w.sto && res.status in [Halted, OutOfGas]
      case Invoke(_, _, _) => false
  {
    hide StorageGas.StoreGas, StorageGas.RefundAfter;
  }

  lemma TstoreLaw(env: Env, w: World, f: Frame, rest: seq<Word>, value: Word, slot: Word)
    requires f.stack == rest + [value, slot]
    ensures match Execute(env, w, f, 0x5D)
      case Done(Next(w1, f1)) =>
        && (forall k: SlotKey :: w1.Transient(k) == if k == (f.ctx.address, slot) then value else w.Transient(k))
        && w1.acc == w.acc && w1.sto == w.sto
        && f1 == f.(pc := f.pc + 1, stack := rest) && !f.ctx.isStatic
      case Done(Stop(w1, res)) => f.ctx.isStatic && w1 == w && res.status == Halted
      case Invoke(_, _, _) => false
  {
  }

  /** SELFDESTRUCT gives the heir all there is, unless the heir is the account itself, and marks the account. */
  lemma SelfdestructLaw(env: Env, w: World, f: Frame, rest: seq<Word>, heir: Word)
    requires f.stack == rest + [heir] && w.acc.Balance(f.ctx.address) >= 0
    ensures match Execute(env, w, f, 0xFF)
      case Done(Next(w1, f1)) =>
        var self, to := f.ctx.address, heir[12..];
        && (self != to ==>
              && w1.acc.Balance(to) == w.acc.Balance(to) + w.acc.Balance(self)
              && w1.acc.Balance(self) == 0)
        && (forall a: Address :: (a != self && a != to) || self == to ==> w1.acc.Balance(a) == w.acc.Balance(a))
        && (forall a: Address :: w1.acc.Nonce(a) == w.acc.Nonce(a) && w1.acc.Code(a) == w.acc.Code(a))
        && w1.acc.deleted == w.acc.deleted + {self} && w1.sto == w.sto && w1.transient == w.transient
        && f1 == f.(pc := f.pc + 1, stack := rest, gas := f1.gas) && !f.ctx.isStatic
      case Done(Stop(w1, res)) => w1.acc == w.acc && res.status in [Halted, OutOfGas]
      case Invoke(_, _, _) => false
  {
    hide DestructCost;
  }

  // ---------------------------------------------------------------- logs and leaving

  /** LOG0 to LOG4: the frame's address, the topics from the top down, and the bytes of the range. */
  lemma LogLaw(env: Env, w: World, f: Frame, rest: seq<Word>, topics: seq<Word>, size: Word, offset: Word)
    requires f.stack == rest + topics + [size, offset] && |topics| <= 4
    ensures match Execute(env, w, f, 0xA0 + |topics|)
      case Done(Next(w1, f1)) =>
        && w1 == w && |f1.logs| == |f.logs| + 1
        && f1 == f.(pc := f.pc + 1, stack := rest, logs := f.logs + [f1.logs[|f.logs|]])
        && var log := f1.logs[|f.logs|];
           && log.address == f.ctx.address && |log.topics| == |topics|
           && (forall i :: 0 <= i < |topics| ==> log.topics[i] == topics[|topics| - 1 - i])
           && log.data == Range(f.memory, ToU64(offset), ToU64(size))
      case Done(Stop(_, res)) => res.status == Halted
      case Invoke(_, _, _) => false
  {
    hide Compute, M.Get, ToU64, M.ByteAt;
    assert Drop(f, 2 + |topics|).stack == rest;
    var data := M.Get(f.memory, ToU64(offset), ToU64(size), env.maxAlloc);
    if data.Some? {
      GetBytes(f.memory, ToU64(offset), ToU64(size), env.maxAlloc);
    }
  }

  /** RETURN and REVERT hand over the bytes of the range; both keep the frame's gas and logs. */
  lemma LeaveLaw(env: Env, w: World, f: Frame, op: byte, rest: seq<Word>, size: Word, offset: Word)
    requires f.stack == rest + [size, offset] && (op == 0xF3 || op == 0xFD)
    ensures match Execute(env, w, f, op)
      case Done(Stop(w1, res)) =>
        w1 == w && (res.status != Halted ==>
          && res.status == (if op == 0xF3 then Success else Reverted)
          && res.gasRemaining == f.gas && res.gasRefund == f.refund && res.logs == f.logs
          && res.returnData == Range(f.memory, ToU64(offset), ToU64(size)))
      case _ => false
  {
    hide Compute, M.Get, ToU64, M.ByteAt;
    var data := M.Get(f.memory, ToU64(offset), ToU64(size), env.maxAlloc);
    if data.Some? {
      GetBytes(f.memory, ToU64(offset), ToU64(size), env.maxAlloc);
    }
  }

  /** STOP ends the frame with what it has; an opcode without a handler ends it without gas. */
  lemma StopLaw(env: Env, w: World, f: Frame)
    ensures Execute(env, w, f, 0x00) == Done(Stop(w, Result(Success, f.gas, f.refund, f.output, f.logs)))
    ensures Execute(env, w, f, 0xFE) == Done(Stop(w, Result(InvalidOpcode, 0, 0, f.output, [])))
    ensures GoesOn(Execute(env, w, f, 0x5B), w, f.(pc := f.pc + 1))
  {
  }

  // ---------------------------------------------------------------- words

  /** A word is read big-endian. */
  lemma {:induction false} WordIsBigEndian(high: Bytes, low: Bytes)
    ensures ToNat(high + low) == ToNat(high) * Power256(|low|) + ToNat(low) && ToNat(low) < Power256(|low|)
  {
    hide ToNat, Power256;
    if low == [] {
      assert high + low == high;
      EmptyIsZero(high);
    } else {
      var init, last := low[..|low| - 1], low[|low| - 1];
      WordIsBigEndian(high, init);
      assert low == init + [last];
      assert high + low == (high + init) + [last];
      LastByte(high + init, last);
      LastByte(init, last);
      OneMoreByte(|init|);
      Distribute(ToNat(high), Power256(|init|), ToNat(init), last);
    }
  }

  lemma EmptyIsZero(high: Bytes)
    ensures ToNat([]) == 0 && ToNat(high) * Power256(0) == ToNat(high) && Power256(0) == 1
  {
  }

  lemma LastByte(init: Bytes, last: byte)
    ensures ToNat(init + [last]) == ToNat(init) * 256 + last
  {
    assert (init + [last])[..|init|] == init;
  }

  lemma OneMoreByte(n: nat)
    ensures Power256(n + 1) == Power256(n) * 256
  {
  }

  lemma Distribute(high: nat, power: nat, low: nat, last: byte)
    ensures (high * power + low) * 256 + last == high * (power * 256) + (low * 256 + last)
    ensures low < power ==> low * 256 + last < power * 256
  {
  }

  function Power256(n: nat): nat {
    if n == 0 then 1 else Power256(n - 1) * 256
  }

  lemma {:induction false} ZeroIff(bs: Bytes)
    ensures ToNat(bs) == 0 <==> forall i :: 0 <= i < |bs| ==> bs[i] == 0
  {
    if bs != [] {
      ZeroIff(bs[..|bs| - 1]);
      assert forall i :: 0 <= i < |bs| - 1 ==> bs[..|bs| - 1][i] == bs[i];
    }
  }

  lemma EightBytes()
    ensures Power256(8) == TWO64
  {
    assert Power256(1) == 0x100;
    assert Power256(2) == 0x1_0000;
    assert Power256(3) == 0x100_0000;
    assert Power256(4) == 0x1_0000_0000;
    assert Power256(5) == 0x100_0000_0000;
    assert Power256(6) == 0x1_0000_0000_0000;
    assert Power256(7) == 0x100_0000_0000_0000;
  }

  /** Offsets, sizes and gas are read from a word's last eight bytes; a word with more in it reads as the largest. */
  lemma OperandsAreCapped(word: Word)
    ensures (forall i :: 0 <= i < 24 ==> word[i] == 0) ==> ToU64(word) == ToNat(word[24..])
    ensures (exists i :: 0 <= i < 24 && word[i] != 0) ==> ToU64(word) == 0xFFFF_FFFF_FFFF_FFFF
  {
    hide ToNat, Power256;
    var high, low := word[..24], word[24..];
    assert word == high + low;
    WordIsBigEndian(high, low);
    EightBytes();
    ZeroIff(high);
    if ToNat(high) > 0 {
      Times(ToNat(high), TWO64);
    }
  }

  lemma Times(a: nat, b: nat)
    requires a > 0
    ensures a * b >= b
  {
  }
}
