/** The masks and the bit test of the allocator on machine words: they are the roundings and the test for powers of two
    that its model works with. */
module AlignMasks {
  import opened Allocator
  import opened Division

  // ---- One bit ----

  /** What a machine word stands for. */
  function Value(x: bv64): int { x as int }

  function Half(x: bv64): bv64 { x >> 1 }
  function Twice(x: bv64): bv64 { x << 1 }
  function TwicePlusOne(x: bv64): bv64 { (x << 1) | 1 }
  predicate Odd(x: bv64) { x & 1 == 1 }
  predicate TopBitClear(x: bv64) { x < 0x8000_0000_0000_0000 }

  lemma OfItsHalf(x: bv64)
    ensures TopBitClear(Half(x)) && x == if Odd(x) then TwicePlusOne(Half(x)) else Twice(Half(x))
  {
  }

  lemma TwiceValue(x: bv64)
    requires TopBitClear(x)
    ensures Value(Twice(x)) == 2 * Value(x)
  {
  }

  lemma TwicePlusOneValue(x: bv64)
    requires TopBitClear(x)
    ensures Value(TwicePlusOne(x)) == 2 * Value(x) + 1
  {
  }

  lemma HalfValue(x: bv64)
    ensures Value(x) == 2 * Value(Half(x)) + if Odd(x) then 1 else 0
  {
    hide Value, Half, Twice, TwicePlusOne, Odd, TopBitClear;
    OfItsHalf(x);
    if Odd(x) { TwicePlusOneValue(Half(x)); } else { TwiceValue(Half(x)); }
  }

  lemma ValueFacts(x: bv64)
    ensures 0 <= Value(x) && (Value(x) == 0 <==> x == 0)
  {
  }

  lemma OneIsOne(x: bv64)
    ensures Value(x) == 1 <==> x == 1
  {
  }

  // ---- Masking off the low bits ----

  function Masked(x: bv64, mask: bv64): bv64 { x & !mask }

  lemma MaskedByHalves(x: bv64, mask: bv64)
    requires Odd(mask)
    ensures Masked(x, mask) == Twice(Masked(Half(x), Half(mask))) && TopBitClear(Masked(Half(x), Half(mask)))
  {
  }

  lemma MaskedByNothing(x: bv64)
    ensures Masked(x, 0) == x
  {
  }

  lemma RemainderByHalves(n: int, h: int, b: int, j: int)
    requires j > 0 && n == 2 * h + b && 0 <= b <= 1
    ensures n - n % (2 * j) == 2 * (h - h % j)
  {
    Divide(h, j);
    assert n == 2 * j * (h / j) + (2 * (h % j) + b);
    Unique(n, 2 * j, h / j, 2 * (h % j) + b);
  }

  /** With a mask one below a power of two, masking takes the remainder off. */
  lemma {:induction false} MaskTakesRemainder(x: bv64, mask: bv64)
    requires IsPowerOfTwo(Value(mask) + 1)
    ensures Value(Masked(x, mask)) == Value(x) - Value(x) % (Value(mask) + 1)
    decreases Value(mask)
  {
    hide Value, Half, Twice, Odd, TopBitClear, Masked;
    ValueFacts(mask);
    if mask == 0 {
      MaskedByNothing(x);
    } else {
      HalfValue(mask);
      HalfValue(x);
      ValueFacts(Half(mask));
      assert Odd(mask) && (Value(mask) + 1) / 2 == Value(Half(mask)) + 1;
      MaskTakesRemainder(Half(x), Half(mask));
      MaskedByHalves(x, mask);
      TwiceValue(Masked(Half(x), Half(mask)));
      RemainderByHalves(Value(x), Value(Half(x)), if Odd(x) then 1 else 0, Value(Half(mask)) + 1);
    }
  }

  lemma SmallValues()
    ensures Value(7) == 7 && Value(31) == 31
  {
  }

  lemma MaskValues()
    ensures Value(7) == 7 && Value(31) == 31 && IsPowerOfTwo(8) && IsPowerOfTwo(32)
  {
    hide Value;
    SmallValues();
    assert IsPowerOfTwo(2) && IsPowerOfTwo(4) && IsPowerOfTwo(8) && IsPowerOfTwo(16) && IsPowerOfTwo(32);
  }

  /** size & ~7. */
  lemma RoundDownIsMask(size: bv64)
    ensures Value(Masked(size, 7)) == RoundDown(Value(size))
  {
    MaskValues();
    hide Value, Masked, IsPowerOfTwo;
    MaskTakesRemainder(size, 7);
  }

  /** (x + mask) & ~mask, the sum not wrapping. */
  lemma RoundUpIsMask(x: int, mask: bv64, sum: bv64)
    requires IsPowerOfTwo(Value(mask) + 1) && Value(sum) == x + Value(mask)
    ensures Value(mask) >= 0 && Value(Masked(sum, mask)) == RoundUp(x, Value(mask) + 1)
  {
    hide Value, Masked;
    ValueFacts(mask);
    MaskTakesRemainder(sum, mask);
  }

  /** (x + 31) & ~31, the sum not wrapping. */
  lemma RoundUp32IsMask(x: int, sum: bv64)
    requires Value(sum) == x + 31
    ensures Value(Masked(sum, 31)) == RoundUp32(x)
  {
    MaskValues();
    hide Value, Masked, IsPowerOfTwo;
    MaskTakesRemainder(sum, 31);
  }

  // ---- The test for a power of two ----

  predicate PassesTest(n: bv64) { n & (n - 1) == 0 }

  lemma TestByHalves(n: bv64)
    requires n != 0 && !Odd(n)
    ensures Half(n) != 0 && (PassesTest(n) <==> PassesTest(Half(n)))
  {
  }

  lemma TestOdd(n: bv64)
    requires Odd(n)
    ensures PassesTest(n) <==> n == 1
  {
  }

  /** n & (n - 1) is 0 exactly when n is a power of two, n not being 0. */
  lemma {:induction false} TestFindsPowers(n: bv64)
    requires n != 0
    ensures PassesTest(n) <==> IsPowerOfTwo(Value(n))
    decreases Value(n)
  {
    hide Value, Half, Odd, PassesTest;
    ValueFacts(n);
    ValueFacts(Half(n));
    HalfValue(n);
    if Odd(n) {
      TestOdd(n);
      OneIsOne(n);
    } else {
      TestByHalves(n);
      TestFindsPowers(Half(n));
    }
  }
}
