/** What the instructions that work on a range are charged, in unbounded arithmetic. */
module Prices {
  import opened Base
  import opened Ledger
  import opened Machine
  import opened Execution
  import opened Run
  import opened Effects
  import opened MemoryPricing
  import opened MemoryMeter
  import CreateLaws
  import Gas
  import Instructions
  import M = Memory

  /** What an instruction is charged before its handler runs. */
  function Charge(w: World, f: Frame, op: byte): nat {
    DynamicGas(w, f, op).0 + BaseGas(op)
  }

  /** An instruction that touches only its own frame costs its charge and nothing else. */
  lemma StepCosts(env: Env, hook: Hook, w: World, f: Frame)
    requires f.pc < |f.ctx.code| && Op(f) !in {0x55, 0x5D, 0xFF, 0xF0, 0xF5, 0xF1, 0xF2, 0xF4, 0xFA}
    ensures match Step(env, hook, w, f)
      case Done(Next(_, f1)) => f1.gas == f.gas - Charge(w, f, Op(f))
      case Done(Stop(_, res)) => res.gasRemaining == 0 || res.gasRemaining == f.gas - Charge(w, f, Op(f))
      case Invoke(_, _, _) => false
  {
    hide DynamicGas, BaseGas, MinFork, Fire, LocalOp;
    var op := Op(f);
    var (dynamic, w1) := DynamicGas(w, f, op);
    if dynamic + BaseGas(op) <= f.gas {
      var paid := f.(gas := f.gas - dynamic - BaseGas(op));
      Gas.FireKeepsFrame(env, hook, w1, paid);
      var fired := Fire(env, hook, w1, paid);
      Gas.LocalOpKeepsGas(env, fired.w, fired.f, op);
    }
  }

  /** This much is charged beside growing memory to hold the range; a range too far is charged more than there is. */
  ghost predicate Costs(f: Frame, charge: nat, offset: nat, size: nat, rest: nat) {
    var next := Grown(|f.memory|, offset, size);
    if next <= LAST_EXACT then charge == rest + Price(next / 32) - Price(|f.memory| / 32) else charge > f.gas
  }

  lemma GrowthCosts(f: Frame, offset: u64, size: u64, more: nat)
    requires WithinBudget(f) && offset + size <= LAST_ROUNDED
    ensures Costs(f, MemGas(f, offset, size) + more, offset, size, more)
  {
    hide MemGas, Price;
    ChargeIsExact(f, offset, size);
  }

  /** No growth that can be rounded is priced at 2^61 or more. */
  lemma GrowthBelow(f: Frame, offset: u64, size: u64)
    requires WithinBudget(f) && offset + size <= LAST_ROUNDED
    ensures MemGas(f, offset, size) < 0x2000_0000_0000_0000
  {
    hide Price, M.ExpansionGas;
    var length, next := |f.memory|, Grown(|f.memory|, offset, size);
    ExpandSizeExact(length, offset, size);
    BudgetBoundsLength(length);
    LengthWords(length);
    if LAST_EXACT < next {
      WordsBelow(offset + size);
      FarBelow(length, next);
    } else if next > length {
      ExpansionExact(length, next);
    }
  }

  lemma FarBelow(length: u64, next: u64)
    requires length <= LAST_EXACT < next <= LAST_ROUNDED && Price(Words(length)) < GAS_CEILING
    ensures M.ExpansionGas(length, next) < 0x2000_0000_0000_0000
  {
    hide M.GasCost, Price;
    GasCostExact(length);
    GasCostFar(next);
    GasCostByWords(next);
    CostBelow(Words(next), Words(next) * Words(next));
    Sub64Exact(M.GasCost(next), M.GasCost(length));
  }

  lemma CostBelow(words: nat, square: nat)
    requires words <= TWO64 / 32
    ensures 3 * words + square % TWO64 / 512 < 0x2000_0000_0000_0000
  {
    assert square % TWO64 / 512 < TWO64 / 512;
  }

  /** A capped sum of growth and something more. */
  lemma CappedSum(f: Frame, offset: u64, size: u64, more: nat)
    requires WithinBudget(f) && offset + size <= LAST_ROUNDED && more < 0x5000_0000_0000_0000
    ensures Costs(f, Capped(MemGas(f, offset, size) + more), offset, size, more)
  {
    hide MemGas, Price, Costs;
    GrowthCosts(f, offset, size, more);
    GrowthBelow(f, offset, size);
  }

  lemma WordsOf(size: u64)
    requires size <= LAST_ROUNDED
    ensures WordCount(size) == Words(size) <= 0x800_0000_0000_0000
  {
  }

  // ---------------------------------------------------------------- prices

  /** KECCAK256: 30, and 6 a word. */
  lemma KeccakPrice(w: World, f: Frame, rest: seq<Word>, size: Word, offset: Word)
    requires WithinBudget(f) && f.stack == rest + [size, offset] && ToU64(offset) + ToU64(size) <= LAST_ROUNDED
    ensures Costs(f, Charge(w, f, 0x20), ToU64(offset), ToU64(size), 30 + 6 * Words(ToU64(size)))
  {
    hide MemGas, ToU64, Words, WordCount, Costs;
    WordsOf(ToU64(size));
    CappedSum(f, ToU64(offset), ToU64(size), 6 * Words(ToU64(size)));
    AndMore(f, DynamicGas(w, f, 0x20).0, ToU64(offset), ToU64(size), 6 * Words(ToU64(size)), 30);
  }

  lemma AndMore(f: Frame, charge: nat, offset: nat, size: nat, rest: nat, more: nat)
    requires Costs(f, charge, offset, size, rest)
    ensures Costs(f, charge + more, offset, size, rest + more)
  {
  }

  /** CALLDATACOPY, CODECOPY, RETURNDATACOPY and MCOPY: 3, and 3 a word. */
  lemma CopyPrice(w: World, f: Frame, op: byte, rest: seq<Word>, size: Word, from: Word, to: Word)
    requires op == 0x37 || op == 0x39 || op == 0x3E || op == 0x5E
    requires WithinBudget(f) && f.stack == rest + [size, from, to] && ToU64(to) + ToU64(size) <= LAST_ROUNDED
    ensures Costs(f, Charge(w, f, op), ToU64(to), ToU64(size), 3 + 3 * Words(ToU64(size)))
  {
    hide MemGas, ToU64, Words, WordCount, Costs;
    WordsOf(ToU64(size));
    CappedSum(f, ToU64(to), ToU64(size), 3 * Words(ToU64(size)));
    AndMore(f, DynamicGas(w, f, op).0, ToU64(to), ToU64(size), 3 * Words(ToU64(size)), 3);
  }

  /** EXTCODECOPY: the access of the account, and 3 a word. */
  lemma ExtcodecopyPrice(w: World, f: Frame, rest: seq<Word>, size: Word, from: Word, to: Word, account: Word)
    requires WithinBudget(f) && f.stack == rest + [size, from, to, account]
    requires ToU64(to) + ToU64(size) <= LAST_ROUNDED
    ensures var access := if account[12..] in w.warmAddrs then 100 else 2600;
      Costs(f, Charge(w, f, 0x3C), ToU64(to), ToU64(size), access + 3 * Words(ToU64(size)))
  {
    hide MemGas, ToU64, Words, WordCount, Costs;
    var access := if account[12..] in w.warmAddrs then 100 else 2600;
    WordsOf(ToU64(size));
    CappedSum(f, ToU64(to), ToU64(size), 3 * Words(ToU64(size)) + access);
    assert Arg(f, 0) == account && Arg(f, 1) == to && Arg(f, 3) == size;
  }

  /** MLOAD and MSTORE: 3 and room for a word; MSTORE8: 3 and room for a byte. */
  lemma LoadStorePrice(w: World, f: Frame, op: byte, rest: seq<Word>, offset: Word)
    requires op == 0x51 || op == 0x52 || op == 0x53
    requires WithinBudget(f) && f.stack == rest + [offset] && ToU64(offset) + 32 <= LAST_ROUNDED
    requires op != 0x51 ==> rest != []
    ensures Costs(f, Charge(w, f, op), ToU64(offset), if op == 0x53 then 1 else 32, 3)
  {
    hide MemGas, Price, Grown, ToU64;
    GrowthCosts(f, ToU64(offset), if op == 0x53 then 1 else 32, 3);
  }

  /** LOG0 to LOG4: 375, 375 a topic and 8 a byte. */
  lemma LogPrice(w: World, f: Frame, op: byte, rest: seq<Word>, size: Word, offset: Word)
    requires 0xA0 <= op <= 0xA4
    requires WithinBudget(f) && f.stack == rest + [size, offset] && ToU64(offset) + ToU64(size) <= LAST_ROUNDED
    ensures Costs(f, Charge(w, f, op), ToU64(offset), ToU64(size), 375 + 375 * (op - 0xA0) + 8 * ToU64(size))
  {
    hide MemGas, Price, Grown, ToU64;
    var topics := 375 * (op - 0xA0);
    LogSum(f, ToU64(offset), ToU64(size), topics);
    AndMore(f, DynamicGas(w, f, op).0, ToU64(offset), ToU64(size), 8 * ToU64(size) + topics, 375);
  }

  lemma LogSum(f: Frame, offset: u64, size: u64, topics: nat)
    requires WithinBudget(f) && offset + size <= LAST_ROUNDED && topics <= 1500
    ensures Costs(f, Capped(MemGas(f, offset, size) + size * 8 + topics), offset, size, 8 * size + topics)
  {
    hide MemGas, Price;
    GrowthCosts(f, offset, size, 8 * size + topics);
    GrowthBelow(f, offset, size);
    assert size <= LAST_EXACT || Grown(|f.memory|, offset, size) > LAST_EXACT by { BudgetBoundsLength(|f.memory|); }
  }

  /** RETURN and REVERT: the growth alone. */
  lemma LeavePrice(w: World, f: Frame, op: byte, rest: seq<Word>, size: Word, offset: Word)
    requires op == 0xF3 || op == 0xFD
    requires WithinBudget(f) && f.stack == rest + [size, offset] && ToU64(offset) + ToU64(size) <= LAST_ROUNDED
    ensures Costs(f, Charge(w, f, op), ToU64(offset), ToU64(size), 0)
  {
    hide MemGas, Price, Grown, ToU64;
    GrowthCosts(f, ToU64(offset), ToU64(size), 0);
  }

  /** EXP: 10, and 50 for each byte the exponent needs. */
  lemma ExpPrice(w: World, f: Frame, rest: seq<Word>, exponent: Word, base: Word) returns (n: nat)
    requires f.stack == rest + [exponent, base]
    ensures Charge(w, f, 0x0A) == 10 + 50 * n
    ensures ToNat(exponent) < Instructions.Power256(n)
    ensures n > 0 ==> ToNat(exponent) >= Instructions.Power256(n - 1)
  {
    hide ToNat;
    n := ByteLength(exponent);
    BytesNeeded(exponent);
  }

  lemma BytesNeeded(v: Word)
    ensures var n := ByteLength(v);
      ToNat(v) < Instructions.Power256(n) && (n > 0 ==> ToNat(v) >= Instructions.Power256(n - 1))
  {
    hide ToNat;
    var n := ByteLength(v);
    var zeros, low := v[..32 - n], v[32 - n..];
    assert v == zeros + low;
    Instructions.ZeroIff(zeros);
    Instructions.WordIsBigEndian(zeros, low);
    if n > 0 {
      assert low == [low[0]] + low[1..];
      Instructions.WordIsBigEndian([low[0]], low[1..]);
      OneByte(low[0]);
      Instructions.Times(low[0], Instructions.Power256(n - 1));
    }
  }

  lemma OneByte(b: byte)
    ensures ToNat([b]) == b
  {
    assert [b][..0] == [];
  }

  /** CREATE: room for the init code, and from Shanghai 2 a word of it; CREATE2 adds 6 a word. All else is sent. */
  lemma CreatePrice(env: Env, w: World, f: Frame, create2: bool, rest: seq<Word>, o: CreateLaws.Operands)
    requires WithinBudget(f) && f.stack == CreateLaws.CreateStack(rest, create2, o)
    requires ToU64(o.offset) + ToU64(o.size) <= LAST_ROUNDED
    ensures var s, words := OpCreate(env, w, f, create2), Words(ToU64(o.size));
      s.Invoke? ==>
        Costs(f, f.gas - (s.f.gas + s.k.msg.gas), ToU64(o.offset), ToU64(o.size),
              (if create2 then 6 * words else 0) + (if env.fork >= SHANGHAI then 2 * words else 0))
  {
    hide M.Get, ToNat, ToU64, Price, Grown, MemGas, CreateCost, Costs, Accounts.HasCodeOrNonce;
    CreateLaws.OperandsAt(f, rest, create2, o);
    var g := f.(stack := rest);
    assert Drop(f, if create2 then 4 else 3) == g;
    CreateSum(env, f, g, ToU64(o.offset), ToU64(o.size), create2);
  }

  lemma CreateSum(env: Env, f: Frame, g: Frame, offset: u64, size: u64, create2: bool)
    requires WithinBudget(f) && offset + size <= LAST_ROUNDED && g == f.(stack := g.stack)
    ensures var words := Words(size);
      Costs(f, CreateCost(env, g, offset, size, create2), offset, size,
            (if create2 then 6 * words else 0) + (if env.fork >= SHANGHAI then 2 * words else 0))
  {
    hide MemGas, Costs, Add64, Mul64;
    var words := Words(size);
    WordsOf(size);
    SameGrowth(f, g, offset, size);
    GrowthBelow(f, offset, size);
    RoundedWords(size);
    var growth, hashGas := MemGas(f, offset, size), if create2 then 6 * words else 0;
    var initGas := if env.fork >= SHANGHAI then 2 * words else 0;
    SumsFit(growth, hashGas, initGas);
    GrowthCosts(f, offset, size, hashGas + initGas);
  }

  lemma RoundedWords(size: u64)
    requires size <= LAST_ROUNDED
    ensures var words := Words(size);
      Add64(size, 31) / 32 == words && Mul64(words, 6) == 6 * words && Mul64(words, 2) == 2 * words
  {
  }

  lemma SumsFit(growth: u64, hashGas: u64, initGas: u64)
    requires growth < 0x2000_0000_0000_0000 && hashGas < 0x4000_0000_0000_0000 && initGas < 0x2000_0000_0000_0000
    ensures Add64(Add64(growth, hashGas), initGas) == growth + (hashGas + initGas)
  {
  }

  lemma SameGrowth(f: Frame, g: Frame, offset: u64, size: u64)
    requires g.memory == f.memory
    ensures MemGas(g, offset, size) == MemGas(f, offset, size)
  {
  }
}
