/** The uint64 memory price against the unbounded one of the Yellow Paper, Appendix H. */
module MemoryPricing {
  import opened Base
  import M = Memory

  /** Words needed for `size` bytes and what they cost, in unbounded arithmetic. */
  function Words(size: nat): nat {
    (size + 31) / 32
  }

  function Price(words: nat): nat {
    3 * words + words * words / 512
  }

  /** 2^37 - 32: the last length whose word count squares without wrapping. */
  const LAST_EXACT: nat := 0x1F_FFFF_FFE0
  /** 2^64 - 32: the last size that ceil32 rounds without wrapping. */
  const LAST_ROUNDED: nat := TWO64 - 32

  lemma SquareMonotonic(a: nat, b: nat)
    requires a <= b
    ensures a * a <= b * b
  {
    assert b * b == a * a + (b - a) * (b + a);
  }

  lemma PriceMonotonic(a: nat, b: nat)
    requires a <= b
    ensures Price(a) <= Price(b)
    ensures a < b ==> Price(a) < Price(b)
  {
    SquareMonotonic(a, b);
  }

  lemma WordsBelow(size: nat)
    requires size <= LAST_ROUNDED
    ensures 32 * Words(size) < TWO64 && size <= 32 * Words(size) < size + 32
  {
  }

  lemma SumDoesNotWrap(words: nat, square: nat)
    requires words < TWO64 / 32
    ensures Mul64(words, 3) == 3 * words
    ensures Add64(3 * words, square % TWO64 / 512) == 3 * words + square % TWO64 / 512
  {
    assert square % TWO64 / 512 < TWO64 / 512;
  }

  /** The wrapping formula, before knowing whether the square wrapped. */
  lemma GasCostByWords(size: u64)
    requires size <= LAST_ROUNDED
    ensures var w := Words(size); M.GasCost(size) == 3 * w + w * w % TWO64 / 512
  {
    var w := Words(size);
    assert w < TWO64 / 32 by { WordsBelow(size); }
    assert Add64(size, 31) / 32 == w;
    SumDoesNotWrap(w, w * w);
  }

  lemma NoWrap(x: nat)
    requires x < TWO64
    ensures x % TWO64 == x && x / 512 < TWO64 / 512
  {
  }

  /** Up to 2^37 - 32 bytes the two prices agree. */
  lemma GasCostExact(size: u64)
    requires size <= LAST_EXACT
    ensures M.GasCost(size) == Price(Words(size)) < 0x2000_0000_0000_0000
  {
    hide M.GasCost;
    var w := Words(size);
    assert w <= 0xFFFF_FFFF;
    GasCostByWords(size);
    var square := w * w;
    assert square <= 0xFFFF_FFFE_0000_0001 by { SquareMonotonic(w, 0xFFFF_FFFF); }
    NoWrap(square);
  }

  /** Beyond it the square may wrap to nothing, but the linear part alone is 3 * 2^32. */
  lemma GasCostFar(size: u64)
    requires LAST_EXACT < size <= LAST_ROUNDED
    ensures M.GasCost(size) >= 0x3_0000_0000
  {
    GasCostByWords(size);
  }

  /** ceil32 rounds up exactly when the size leaves it room to. */
  lemma Ceil32ExactIff(size: u64)
    ensures M.Ceil32(size) == 32 * Words(size) <==> size <= LAST_ROUNDED
    ensures size > LAST_ROUNDED ==> M.Ceil32(size) == 0
  {
    if size <= LAST_ROUNDED {
      WordsBelow(size);
    } else {
      assert Add64(size, 31) == size + 31 - TWO64;
    }
  }

  lemma Sub64Exact(a: u64, b: u64)
    requires b <= a
    ensures Sub64(a, b) == a - b
  {
  }

  /** Growing within that range costs the difference of exact prices. */
  lemma ExpansionExact(current: u64, next: u64)
    requires current <= next <= LAST_EXACT
    ensures M.ExpansionGas(current, next) == Price(Words(next)) - Price(Words(current)) < 0x2000_0000_0000_0000
  {
    var a, b := Words(current), Words(next);
    assert a <= b;
    assert M.GasCost(current) == Price(a) by { GasCostExact(current); }
    assert M.GasCost(next) == Price(b) < 0x2000_0000_0000_0000 by { GasCostExact(next); }
    PriceMonotonic(a, b);
    Sub64Exact(M.GasCost(next), M.GasCost(current));
  }
}
