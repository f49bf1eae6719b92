/** 32-bit words and the integers they stand for. */
module Bits {

  const WORD := 0x1_0000_0000

  /** The unsigned value of a word. */
  function Value(x: bv32): int {
    x as int
  }

  function Word(n: nat): bv32
    requires n < WORD
  {
    n as bv32
  }

  lemma Even(x: bv32, y: bv32)
    requires y < 0x8000_0000 && x == y << 1
    ensures Value(x) == 2 * Value(y)
  {}

  lemma Odd(x: bv32, y: bv32)
    requires y < 0x8000_0000 && x == (y << 1) | 1
    ensures Value(x) == 2 * Value(y) + 1
  {}

  lemma TopBitClear(x: bv32)
    requires Value(x) < 0x8000_0000
    ensures x < 0x8000_0000
  {}

  lemma {:induction false} WordOf(n: nat) returns (x: bv32)
    requires n < WORD
    ensures Value(x) == n
  {
    if n == 0 {
      x := 0;
    } else {
      hide Value;
      var y := WordOf(n / 2);
      TopBitClear(y);
      if n % 2 == 0 {
        x := y << 1;
        Even(x, y);
      } else {
        x := (y << 1) | 1;
        Odd(x, y);
      }
    }
  }

  lemma BackToWord(x: bv32)
    ensures 0 <= Value(x) < WORD && Word(Value(x)) == x
  {}

  /** Converting an int to a word and back loses nothing below 2^32. */
  lemma WordRoundTrip(n: nat)
    requires n < WORD
    ensures Value(Word(n)) == n
  {
    hide Value, Word;
    var x := WordOf(n);
    BackToWord(x);
  }

  // ----- pow2gt -----

  function Pow2Gt(x0: bv32): bv32 {
    var x1 := x0 - 1;
    var x2 := x1 | (x1 >> 1);
    var x3 := x2 | (x2 >> 2);
    var x4 := x3 | (x3 >> 4);
    var x5 := x4 | (x4 >> 8);
    var x6 := x5 | (x5 >> 16);
    x6 + 1
  }

  predicate IsPowerOfTwo(n: nat) {
    n == 1 || (n > 0 && n % 2 == 0 && IsPowerOfTwo(n / 2))
  }

  lemma Pow2GtWord(x: bv32)
    requires 1 <= x <= 0x4000_0000
    ensures var r := Pow2Gt(x);
            Single(r) && AtMost(x, r) && AtMost(r, 0x4000_0000) && AtMost(Half(r), x) && Half(r) != x
  {}

  // Words seen through functions, so that proofs about their values need no bit reasoning.

  predicate AtMost(x: bv32, y: bv32) { x <= y }
  predicate Low(x: bv32) { x & 1 != 0 }
  predicate Single(x: bv32) { x & (x - 1) == 0 && x != 0 }
  function Half(x: bv32): bv32 { x >> 1 }

  lemma HalveEven(x: bv32, y: bv32)
    requires y == Half(x) && !Low(x)
    ensures x == y << 1 && y < 0x8000_0000
  {}

  lemma HalveOdd(x: bv32, y: bv32)
    requires y == Half(x) && Low(x)
    ensures x == (y << 1) | 1 && y < 0x8000_0000
  {}

  /** A word is twice its half plus its lowest bit. */
  lemma SplitLow(x: bv32)
    ensures Value(x) == 2 * Value(Half(x)) + (if Low(x) then 1 else 0)
  {
    hide Value, Half, Low;
    if Low(x) {
      HalveOdd(x, Half(x));
      Odd(x, Half(x));
    } else {
      HalveEven(x, Half(x));
      Even(x, Half(x));
    }
  }

  lemma HalfOrder(x: bv32, y: bv32)
    requires AtMost(x, y)
    ensures AtMost(Half(x), Half(y))
  {}

  lemma LowOrder(x: bv32, y: bv32)
    requires AtMost(x, y) && x != y && Half(x) == Half(y)
    ensures !Low(x) && Low(y)
  {}

  lemma Positive(x: bv32, y: bv32)
    requires AtMost(x, y) && x != y
    ensures Value(y) > 0
  {}

  lemma {:induction false} StrictOrder(x: bv32, y: bv32)
    requires AtMost(x, y) && x != y
    ensures Value(x) < Value(y)
    decreases Value(y)
  {
    hide *;
    Positive(x, y);
    SplitLow(x);
    SplitLow(y);
    HalfOrder(x, y);
    if Half(x) == Half(y) { LowOrder(x, y); } else { StrictOrder(Half(x), Half(y)); }
  }

  lemma HalveSingle(r: bv32)
    requires Single(r) && r != 1
    ensures Single(Half(r)) && !Low(r)
  {}

  lemma One()
    ensures Value(1) == 1
  {}

  lemma {:induction false} SingleBit(r: bv32)
    requires Single(r)
    ensures Value(r) > 0 && IsPowerOfTwo(Value(r))
    decreases Value(r)
  {
    hide Value, Single, Half, Low;
    One();
    if r != 1 {
      HalveSingle(r);
      SplitLow(r);
      NonZero(r);
      SingleBit(Half(r));
    }
  }

  lemma NonZero(r: bv32)
    requires Single(r)
    ensures Value(r) > 0
  {}

  lemma {:induction false} PowersApart(p: nat, q: nat)
    requires IsPowerOfTwo(p) && IsPowerOfTwo(q) && p < q
    ensures 2 * p <= q
  {
    if p > 1 { PowersApart(p / 2, q / 2); }
  }

  lemma InRange(x: bv32)
    requires 1 <= Value(x) <= 0x4000_0000
    ensures 1 <= x <= 0x4000_0000
  {}

  lemma Limit()
    ensures Value(0x4000_0000) == 0x4000_0000
  {}

  lemma Order(x: bv32, y: bv32)
    requires AtMost(x, y)
    ensures Value(x) <= Value(y)
  {
    hide *;
    if x != y { StrictOrder(x, y); }
  }

  lemma LeastPower(x: bv32) returns (r: nat)
    requires 1 <= x <= 0x4000_0000
    ensures r == Value(Pow2Gt(x)) && 0 < Value(x) <= r <= 0x4000_0000
    ensures IsPowerOfTwo(r) && r < 2 * Value(x)
  {
    Pow2GtWord(x);
    hide *;
    r := PowerValue(x, Pow2Gt(x));
  }

  lemma PowerValue(x: bv32, w: bv32) returns (r: nat)
    requires Single(w) && AtMost(x, w) && AtMost(w, 0x4000_0000) && AtMost(Half(w), x) && Half(w) != x
    ensures r == Value(w) && 0 < Value(x) <= r <= 0x4000_0000
    ensures IsPowerOfTwo(r) && r < 2 * Value(x)
  {
    hide *;
    SingleBit(w);
    r := Value(w);
    Order(x, w);
    Order(w, 0x4000_0000);
    Limit();
    StrictOrder(Half(w), x);
    SplitLow(w);
  }

  /** pow2gt returns the least power of two that is at least its argument. */
  lemma Pow2GtLeast(n: nat)
    requires 1 <= n <= 0x4000_0000
    ensures var r := Value(Pow2Gt(Word(n)));
            r > 0 && IsPowerOfTwo(r) && n <= r <= 0x4000_0000
            && forall p: nat :: IsPowerOfTwo(p) && n <= p ==> r <= p
  {
    hide Pow2Gt, Value, Word;
    WordRoundTrip(n);
    InRange(Word(n));
    var r := LeastPower(Word(n));
    forall p: nat | IsPowerOfTwo(p) && n <= p ensures r <= p {
      if p < r { PowersApart(p, r); }
    }
  }
}
