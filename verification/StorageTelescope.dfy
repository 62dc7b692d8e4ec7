/** Net gas metering telescopes: a run of SSTOREs costs what its end points say (EIP-2200, EIP-2929, EIP-3529). */
module StorageTelescope {
  import opened Base
  import opened Ledger
  import opened StorageGas
  import opened Machine
  import opened Execution
  import opened Run
  import opened Sums
  import opened TopLevel
  import Gas
  import MemoryPricing
  import M = Memory

  /** What SSTOREs of one frame change. */
  datatype Meter = Meter(sto: Slots, warm: set<SlotKey>, refund: u64, spent: nat)

  function StoreOne(m: Meter, k: SlotKey, v: Hash): Meter {
    var original, current := m.sto.Original(k), m.sto.Get(k);
    Meter(m.sto.Set(k, v), m.warm + {k}, RefundAfter(m.refund, original, current, v),
          m.spent + StoreGas(k !in m.warm, original, current, v))
  }

  function StoreAll(m: Meter, writes: seq<(SlotKey, Hash)>): Meter {
    if writes == [] then m
    else StoreOne(StoreAll(m, writes[..|writes| - 1]), writes[|writes| - 1].0, writes[|writes| - 1].1)
  }

  /** The opcode's effect on a frame and its world is one such store. */
  lemma OpSstoreIsStoreOne(w: World, f: Frame)
    requires OpSstore(w, f).Next?
    ensures var s := OpSstore(w, f);
      Meter(s.w.sto, s.w.warmSlots, s.f.refund, f.gas - s.f.gas)
      == StoreOne(Meter(w.sto, w.warmSlots, f.refund, 0), (f.ctx.address, Arg(f, 0)), Arg(f, 1))
  {
  }

  /** The net price of leaving a slot that was `original` at the start of the transaction at `final`. */
  function Term(original: Hash, final: Hash): int {
    if final == original then 0
    else if original == ZERO_WORD then 19900
    else if final != ZERO_WORD then 2800
    else -2000
  }

  /** The refund change the handler intends, before flooring. */
  function RefundDelta(original: Hash, current: Hash, value: Hash): int {
    if current == value then 0
    else
      (if original != ZERO_WORD && current != ZERO_WORD && value == ZERO_WORD then 4800 else 0)
      - (if original != ZERO_WORD && current == ZERO_WORD then 4800 else 0)
      + if value != original then 0 else if original == ZERO_WORD then 19900 else 2800
  }

  /** One store: price less intended refund is 100, the cold surcharge, and the move of the slot's term. */
  lemma NetPrice(cold: bool, original: Hash, current: Hash, value: Hash)
    ensures StoreGas(cold, original, current, value) - RefundDelta(original, current, value)
         == 100 + (if cold then 2100 else 0) + Term(original, value) - Term(original, current)
  {
  }

  /** Exactly when DeductRefund's floor stays out of the way. */
  lemma RefundExactIff(refund: u64, original: Hash, current: Hash, value: Hash)
    requires refund < TWO64 - 30000
    ensures RefundAfter(refund, original, current, value) == refund + RefundDelta(original, current, value)
       <==> (original != ZERO_WORD && current == ZERO_WORD && value != current ==> refund >= 4800)
  {
  }

  /** The original value is fixed once the storage records one for everything it holds. */
  ghost predicate Recorded(sto: Slots) {
    forall k :: k in sto.data ==> k in sto.original
  }

  lemma SetKeepsOriginal(sto: Slots, k: SlotKey, v: Hash, j: SlotKey)
    requires Recorded(sto)
    ensures Recorded(sto.Set(k, v)) && sto.Set(k, v).Original(j) == sto.Original(j)
    ensures sto.Set(k, v).Get(j) == if j == k then v else sto.Get(j)
  {
  }

  function Terms(sto: Slots, keys: set<SlotKey>): map<SlotKey, int> {
    map k | k in keys :: Term(sto.Original(k), sto.Get(k))
  }

  /** Refunds owed back if the cleared slots are filled again. */
  function Owed(sto: Slots, keys: set<SlotKey>): map<SlotKey, int> {
    map k | k in keys :: OwedFor(sto.Original(k), sto.Get(k)) as int
  }

  /** `m` after `n` stores from `m0`, all to slots of `keys`. */
  ghost predicate Telescoped(m0: Meter, m: Meter, n: nat, keys: set<SlotKey>) {
    && Recorded(m.sto)
    && m0.warm <= m.warm <= m0.warm + keys
    && (forall k :: m.sto.Original(k) == m0.sto.Original(k))
    && m.refund <= m0.refund + 30000 * n
    && Sum(Owed(m.sto, keys)) <= m.refund
    && m.spent - m0.spent - (m.refund - m0.refund)
       == 100 * n + 2100 * |m.warm - m0.warm| + Sum(Terms(m.sto, keys)) - Sum(Terms(m0.sto, keys))
  }

  function OwedFor(original: Hash, current: Hash): nat {
    if original != ZERO_WORD && current == ZERO_WORD then 4800 else 0
  }

  lemma OwedMoves(original: Hash, current: Hash, value: Hash)
    ensures OwedFor(original, value) - OwedFor(original, current) <= RefundDelta(original, current, value) <= 30000
    ensures original != ZERO_WORD && current == ZERO_WORD && value != current ==> OwedFor(original, current) == 4800
  {
  }

  /** A store moves the two sums by the change of its own slot. */
  lemma SumsMove(sto: Slots, keys: set<SlotKey>, k: SlotKey, v: Hash)
    requires Recorded(sto) && k in keys
    ensures Sum(Owed(sto.Set(k, v), keys))
         == Sum(Owed(sto, keys)) - OwedFor(sto.Original(k), sto.Get(k)) + OwedFor(sto.Original(k), v)
    ensures Sum(Terms(sto.Set(k, v), keys))
         == Sum(Terms(sto, keys)) - Term(sto.Original(k), sto.Get(k)) + Term(sto.Original(k), v)
    ensures Sum(Owed(sto, keys)) >= OwedFor(sto.Original(k), sto.Get(k))
  {
    hide Term, OwedFor, Sum;
    forall j ensures sto.Set(k, v).Original(j) == sto.Original(j)
             ensures sto.Set(k, v).Get(j) == if j == k then v else sto.Get(j) {
      SetKeepsOriginal(sto, k, v, j);
    }
    assert Owed(sto.Set(k, v), keys) == Owed(sto, keys)[k := OwedFor(sto.Original(k), v)];
    assert Terms(sto.Set(k, v), keys) == Terms(sto, keys)[k := Term(sto.Original(k), v)];
    SumUpdated(Owed(sto, keys), k, OwedFor(sto.Original(k), v));
    SumUpdated(Terms(sto, keys), k, Term(sto.Original(k), v));
    SumAtLeast(Owed(sto, keys), k);
  }

  lemma ColdCount(m0: Meter, m: Meter, keys: set<SlotKey>, k: SlotKey)
    requires m0.warm <= m.warm <= m0.warm + keys && k in keys
    ensures m0.warm <= m.warm + {k} <= m0.warm + keys
    ensures |m.warm + {k} - m0.warm| == |m.warm - m0.warm| + if k in m.warm then 0 else 1
  {
    if k in m.warm {
      assert m.warm + {k} == m.warm;
    } else {
      assert m.warm + {k} - m0.warm == (m.warm - m0.warm) + {k};
    }
  }

  /** One more store keeps the account balanced, and its refund is not floored. */
  lemma StoreTelescopes(m0: Meter, m: Meter, n: nat, keys: set<SlotKey>, k: SlotKey, v: Hash)
    requires Telescoped(m0, m, n, keys) && k in keys && m0.refund + 30000 * (n + 1) < TWO64
    ensures Telescoped(m0, StoreOne(m, k, v), n + 1, keys)
    ensures StoreOne(m, k, v).refund == m.refund + RefundDelta(m.sto.Original(k), m.sto.Get(k), v)
  {
    hide StoreGas, RefundAfter, RefundDelta, Term, Terms, Owed;
    var original, current, after := m.sto.Original(k), m.sto.Get(k), StoreOne(m, k, v);
    forall j ensures after.sto.Original(j) == m.sto.Original(j) {
      SetKeepsOriginal(m.sto, k, v, j);
    }
    SumsMove(m.sto, keys, k, v);
    OwedMoves(original, current, v);
    RefundExactIff(m.refund, original, current, v);
    NetPrice(k !in m.warm, original, current, v);
    ColdCount(m0, m, keys, k);
  }

  lemma {:induction false} WritesTelescope(m0: Meter, writes: seq<(SlotKey, Hash)>, keys: set<SlotKey>)
    requires Recorded(m0.sto) && Sum(Owed(m0.sto, keys)) <= m0.refund
    requires forall i :: 0 <= i < |writes| ==> writes[i].0 in keys
    requires m0.refund + 30000 * |writes| < TWO64
    ensures Telescoped(m0, StoreAll(m0, writes), |writes|, keys)
  {
    if writes == [] {
      assert m0.warm - m0.warm == {};
    } else {
      var last := writes[|writes| - 1];
      WritesTelescope(m0, writes[..|writes| - 1], keys);
      StoreTelescopes(m0, StoreAll(m0, writes[..|writes| - 1]), |writes| - 1, keys, last.0, last.1);
    }
  }

  /** Slots still holding their original values. */
  ghost predicate Settled(sto: Slots, keys: set<SlotKey>) {
    forall k :: k in keys ==> sto.Get(k) == sto.Original(k)
  }

  lemma {:induction false} ZeroTerms(m: map<SlotKey, int>)
    requires forall k :: k in m ==> m[k] == 0
    ensures Sum(m) == 0
    decreases |m|
  {
    if m != map[] {
      var k :| k in m && Sum(m) == m[k] + Sum(m - {k});
      assert (m - {k}).Keys == m.Keys - {k};
      ZeroTerms(m - {k});
    }
  }

  /**
   * The main result. In a frame whose slots start settled, any list of stores costs, net of refund, 100 a store, 2100
   * for each slot it was first to touch, and a term of each slot's original and final value only.
   */
  lemma SstoreTelescopes(m0: Meter, writes: seq<(SlotKey, Hash)>, keys: set<SlotKey>)
    requires Recorded(m0.sto) && Settled(m0.sto, keys)
    requires forall i :: 0 <= i < |writes| ==> writes[i].0 in keys
    requires m0.refund + 30000 * |writes| < TWO64
    ensures var m := StoreAll(m0, writes);
      && m.spent - m0.spent - (m.refund - m0.refund)
         == 100 * |writes| + 2100 * |m.warm - m0.warm| + Sum(Terms(m.sto, keys))
      && (forall k :: m.sto.Original(k) == m0.sto.Original(k))
  {
    ZeroTerms(Terms(m0.sto, keys));
    assert forall k :: k in Owed(m0.sto, keys) ==> Owed(m0.sto, keys)[k] == 0;
    ZeroTerms(Owed(m0.sto, keys));
    WritesTelescope(m0, writes, keys);
  }

  /** Along the way no deduction is cut short: each store moves the meter by exactly the intended amount. */
  lemma RefundNeverFloored(m0: Meter, writes: seq<(SlotKey, Hash)>, keys: set<SlotKey>, i: nat)
    requires Recorded(m0.sto) && Settled(m0.sto, keys) && i < |writes|
    requires forall j :: 0 <= j < |writes| ==> writes[j].0 in keys
    requires m0.refund + 30000 * |writes| < TWO64
    ensures var m := StoreAll(m0, writes[..i]);
      StoreAll(m0, writes[..i + 1]).refund
      == m.refund + RefundDelta(m.sto.Original(writes[i].0), m.sto.Get(writes[i].0), writes[i].1)
  {
    assert forall k :: k in Owed(m0.sto, keys) ==> Owed(m0.sto, keys)[k] == 0;
    ZeroTerms(Owed(m0.sto, keys));
    hide StoreOne, Telescoped, Terms, Owed, RefundDelta;
    WritesTelescope(m0, writes[..i], keys);
    StoreTelescopes(m0, StoreAll(m0, writes[..i]), i, keys, writes[i].0, writes[i].1);
    assert writes[..i + 1][..i] == writes[..i];
  }

  // ---------------------------------------------------------------- two frames

  function ByteWord(b: byte): Word {
    Zeros(31) + [b]
  }

  /** PUSH1 v, PUSH1 slot, SSTORE */
  function StoreCode(slot: byte, v: byte): Bytes {
    [0x60, v, 0x60, slot, 0x55]
  }

  /** The message of a DELEGATECALL to `library` without input. */
  function CallTo(library: Address, f: Frame, gas: u64): Message {
    Message(f.ctx.address, f.ctx.address, 0, gas, [], [], library, f.ctx.isStatic, f.ctx.depth + 1, DelegateCall, false)
  }

  /** Running the store to its end. */
  lemma StoreCodeRuns(env: Env, w: World, ctx: Ctx, gas: u64, slot: byte, v: byte)
    requires ctx.code == StoreCode(slot, v) && !ctx.isStatic && gas > 6 + CALL_STIPEND
    requires gas >= 6 + StorePrice(w, (ctx.address, ByteWord(slot)), ByteWord(v))
    ensures var o, k := RunFrame(env, NO_HOOK, w, FreshFrame(ctx, gas)), (ctx.address, ByteWord(slot));
      && o.res.status.Success? && o.w.sto == w.sto.Set(k, ByteWord(v))
      && o.res.gasRefund == RefundAfter(0, w.sto.Original(k), w.sto.Get(k), ByteWord(v))
  {
    hide Step, StoreGas, RefundAfter;
    var f := FreshFrame(ctx, gas);
    PushStep(env, w, f, v);
    var s1 := Step(env, NO_HOOK, w, f).flow;
    PushStep(env, s1.w, s1.f, slot);
    var s2 := Step(env, NO_HOOK, s1.w, s1.f).flow;
    StoreStep(env, s2.w, s2.f);
    var s3 := Step(env, NO_HOOK, s2.w, s2.f).flow;
    assert RunFrame(env, NO_HOOK, s3.w, s3.f) == Outcome(s3.w, Finish(s3.f, Success));
    assert RunFrame(env, NO_HOOK, s2.w, s2.f) == Outcome(s3.w, Finish(s3.f, Success));
    assert RunFrame(env, NO_HOOK, s1.w, s1.f) == Outcome(s3.w, Finish(s3.f, Success));
  }

  /** A library called from a frame stores in that frame's own slot. */
  lemma LibraryStores(env: Env, w: World, f: Frame, library: Address, gas: u64, slot: byte, v: byte)
    requires f.ctx.depth < 1023 && !f.ctx.isStatic
    requires library !in env.precompiles && w.acc.Code(library) == StoreCode(slot, v)
    requires gas > 6 + CALL_STIPEND && gas >= 6 + StorePrice(w, (f.ctx.address, ByteWord(slot)), ByteWord(v))
    ensures var o := ExecuteMessage(env, NO_HOOK, w, CallTo(library, f, gas), f.ctx);
      var k := (f.ctx.address, ByteWord(slot));
      && o.res.status.Success? && o.w.sto == w.sto.Set(k, ByteWord(v))
      && o.res.gasRefund == RefundAfter(0, w.sto.Original(k), w.sto.Get(k), ByteWord(v))
  {
    hide RunFrame, StoreGas, RefundAfter, ByteWord, StoreCode;
    match Enter(env, w, CallTo(library, f, gas), f.ctx)
    case Entered(w1, f1) => StoreCodeRuns(env, w1, f1.ctx, gas, slot, v);
  }

  /** DELEGATECALL's operands: at least 3000 gas for `library`, no input and no output wanted. */
  predicate AtDelegateCall(g: Frame, library: Address) {
    && |g.stack| >= 6 && Arg64(g, 0) >= 3000 && ToAddress(Arg(g, 1)) == library && Arg64(g, 3) == 0 && Arg64(g, 5) == 0
    && |g.memory| % 32 == 0 && |g.memory| <= MemoryPricing.LAST_ROUNDED && g.gas >= 6000
  }

  /** What the opcode then sends, and what its frame keeps. */
  lemma DelegateCallSends(env: Env, w: World, g: Frame, library: Address)
    requires AtDelegateCall(g, library)
    ensures var s := OpCall(env, w, g, DelegateCall);
      && s.Invoke? && s.k == PendingCall(CallTo(library, g, s.k.msg.gas), Arg64(g, 4), 0) && s.k.msg.gas >= 3000
      && s.w == TouchAddress(w, library).1 && s.f.gas + s.k.msg.gas < g.gas
      && s.f.ctx == g.ctx && s.f.refund == g.refund && |s.f.stack| == |g.stack| - 6
  {
    hide ToNat, ToU64, ToAddress, TouchAddress, M.Ceil32;
    Gas.OpCallGas(env, w, g, DelegateCall);
    MemoryPricing.Ceil32ExactIff(|g.memory|);
  }

  lemma TouchingSpares(w: World, a: Address)
    ensures var w1 := TouchAddress(w, a).1; w1.acc == w.acc && w1.sto == w.sto && w1.warmSlots == w.warmSlots
  {
  }

  /**
   * Refund counters are per frame, so the condition of RefundExactIff matters. A frame clears a slot that held its
   * original value, and later, as `g`, delegates to a library that puts the value back: the library's frame starts from
   * an empty counter, and the caller picks up 7600 of refund where the metering rules intend 2800.
   */
  lemma FloorAcrossFrames(env: Env, w: World, f: Frame, g: Frame, library: Address, slot: byte, v: byte)
    requires v != 0 && |f.stack| >= 2 && Arg(f, 0) == ByteWord(slot) && Arg(f, 1) == ZERO_WORD && f.refund == 0
    requires var k := (f.ctx.address, ByteWord(slot));
      k in w.warmSlots && w.sto.Get(k) == ByteWord(v) && w.sto.Original(k) == ByteWord(v)
    requires f.ctx.depth < 1023 && library !in env.precompiles && w.acc.Code(library) == StoreCode(slot, v)
    requires OpSstore(w, f).Next?
    requires g.ctx == f.ctx && g.refund == OpSstore(w, f).f.refund && |g.stack| <= 1024 && AtDelegateCall(g, library)
    ensures OpCall(env, OpSstore(w, f).w, g, DelegateCall).Invoke?
    ensures var k, s := (f.ctx.address, ByteWord(slot)), OpCall(env, OpSstore(w, f).w, g, DelegateCall);
      var o := ExecuteMessage(env, NO_HOOK, s.w, s.k.msg, s.f.ctx);
      var after := Resume(env, o.w, s.f, s.k, o.res);
      && after.Next? && after.w.sto.Get(k) == w.sto.Get(k)
      && after.f.refund == 7600
      && RefundDelta(ByteWord(v), ByteWord(v), ZERO_WORD) + RefundDelta(ByteWord(v), ZERO_WORD, ByteWord(v)) == 2800
  {
    hide ExecuteMessage, StoreCode, OpCall, AtDelegateCall, TouchAddress;
    var k := (f.ctx.address, ByteWord(slot));
    assert ByteWord(v)[31] == v && ZERO_WORD[31] == 0;
    var cleared := OpSstore(w, f);
    assert cleared.f.refund == 4800 && cleared.w.sto == w.sto.Set(k, ZERO_WORD);
    assert cleared.w.acc == w.acc && k in cleared.w.warmSlots;
    DelegateCallSends(env, cleared.w, g, library);
    TouchingSpares(cleared.w, library);
    var s := OpCall(env, cleared.w, g, DelegateCall);
    assert s.w.sto.Original(k) == ByteWord(v) && s.w.sto.Get(k) == ZERO_WORD;
    LibraryStores(env, s.w, g, library, s.k.msg.gas, slot, v);
    var o := ExecuteMessage(env, NO_HOOK, s.w, s.k.msg, s.f.ctx);
    assert o.res.gasRefund == 2800;
    NothingCopied(env, o.w, s.f, s.k, o.res);
  }

  /** Picking up after a successful call that asked for no output. */
  lemma NothingCopied(env: Env, w: World, f: Frame, k: Pending, res: Result)
    requires res.status.Success? && |f.stack| < 1024 && k.PendingCall? && k.outSize == 0
    ensures var after := Resume(env, w, f, k, res);
      after.Next? && after.w == w && after.f.refund == Add64(f.refund, res.gasRefund)
  {
  }
}
