/** Rounding to binary64 (section 4.3.1 of IEEE 754-2019, roundTiesToEven) on the reals.
    The exponent range is unbounded: no value of this system is near overflow or underflow. */
module Float64 {

  const TWO52 := 4503599627370496.0
  const TWO53 := 9007199254740992.0

  function Abs(x: real): real {
    if x < 0.0 then -x else x
  }

  /** The real product, before rounding. */
  function Times(x: real, y: real): real {
    x * y
  }

  /** The integer nearest to y, ties to even. */
  function NearestEven(y: real): (n: int)
    ensures y - 0.5 <= n as real <= y + 0.5
  {
    var low := y.Floor;
    var frac := y - low as real;
    if frac < 0.5 || (frac == 0.5 && low % 2 == 0) then low else low + 1
  }

  lemma NearestEvenMonotone(x: real, y: real)
    requires x <= y
    ensures NearestEven(x) <= NearestEven(y)
  {
    if x.Floor == y.Floor {
    } else {
      assert x.Floor + 1 <= y.Floor;
    }
  }

  /** A positive x has a 53-bit significand in [2^52, 2^53); scaling by two moves x there exactly. */
  function RoundPositive(x: real): (r: real)
    requires x > 0.0
    ensures r >= 0.0
    decreases if x < 1.0 then 3 else if x < TWO52 then 2 else if x < TWO53 then 0 else 1,
              if x < 1.0 then 2.0 / x else if x < TWO52 then TWO53 - x else x
  {
    if x < TWO52 then
      assert x < 1.0 ==> 2.0 / x - 2.0 / (2.0 * x) >= 1.0 by {
        if x < 1.0 { HalfReciprocal(x); }
      }
      RoundPositive(2.0 * x) / 2.0
    else if x >= TWO53 then 2.0 * RoundPositive(x / 2.0)
    else NearestEven(x) as real
  }

  lemma HalfReciprocal(x: real)
    requires 0.0 < x < 1.0
    ensures 2.0 / x - 2.0 / (2.0 * x) >= 1.0
  {
    var r := 1.0 / x;
    assert r * x == 1.0;
    assert 2.0 / x == 2.0 * r;
    assert 2.0 / (2.0 * x) == r;
    assert r >= 1.0 by {
      if r < 1.0 { BelowOne(r, x); }
    }
  }

  lemma BelowOne(r: real, x: real)
    requires 0.0 < x < 1.0 && r < 1.0
    ensures r * x < 1.0
  {
    if r > 0.0 { assert r * x < 1.0 * x; }
  }

  function Round(x: real): real {
    if x == 0.0 then 0.0 else if x > 0.0 then RoundPositive(x) else -RoundPositive(-x)
  }

  /** What the money arithmetic needs of a rounding function. */
  ghost predicate Faithful(rnd: real -> real) {
    && (forall x :: WithinUnit(rnd, x))
    && (forall n: int :: -9007199254740992 <= n <= 9007199254740992 ==> KeepsInteger(rnd, n))
  }

  /** The relative error is at most the unit roundoff 2^-53. */
  ghost predicate WithinUnit(rnd: real -> real, x: real) {
    Abs(rnd(x) - x) * TWO53 <= Abs(x)
  }

  ghost predicate KeepsInteger(rnd: real -> real, n: int) {
    rnd(n as real) == n as real
  }

  ghost predicate Monotone(rnd: real -> real) {
    forall x, y :: x <= y ==> KeepsOrder(rnd, x, y)
  }

  ghost predicate KeepsOrder(rnd: real -> real, x: real, y: real) {
    rnd(x) <= rnd(y)
  }

  lemma {:induction false} RelativeError(x: real)
    requires x > 0.0
    ensures Abs(RoundPositive(x) - x) * TWO53 <= x
    decreases if x < 1.0 then 3 else if x < TWO52 then 2 else if x < TWO53 then 0 else 1,
              if x < 1.0 then 2.0 / x else if x < TWO52 then TWO53 - x else x
  {
    if x < TWO52 {
      if x < 1.0 { HalfReciprocal(x); }
      RelativeError(2.0 * x);
    } else if x >= TWO53 {
      RelativeError(x / 2.0);
    }
  }

  lemma {:induction false} IntegersExact(n: int)
    requires 0 < n <= 9007199254740992
    ensures RoundPositive(n as real) == n as real
    decreases 9007199254740992 - n
  {
    if n < 4503599627370496 {
      IntegersExact(2 * n);
    } else if n == 9007199254740992 {
      assert RoundPositive(TWO53) == 2.0 * RoundPositive(TWO52);
      assert TWO52.Floor == 4503599627370496;
      assert RoundPositive(TWO52) == NearestEven(TWO52) as real;
    } else {
      assert (n as real).Floor == n;
    }
  }

  lemma {:induction false} BelowBinade(x: real)
    requires 0.0 < x <= TWO52
    ensures RoundPositive(x) <= TWO52
  {
    if x < TWO52 {
      BelowBinadeTop(2.0 * x);
    } else {
      IntegersExact(4503599627370496);
    }
  }

  lemma {:induction false} BelowBinadeTop(x: real)
    requires 0.0 < x <= TWO53
    ensures RoundPositive(x) <= TWO53
    decreases if x < 1.0 then 3 else if x < TWO52 then 2 else if x < TWO53 then 0 else 1,
              if x < 1.0 then 2.0 / x else if x < TWO52 then TWO53 - x else x
  {
    if x < TWO52 {
      if x < 1.0 { HalfReciprocal(x); }
      BelowBinadeTop(2.0 * x);
    } else if x < TWO53 {
      assert x.Floor < 9007199254740992;
    } else {
      IntegersExact(9007199254740992);
    }
  }

  lemma {:induction false} RoundPositiveMonotone(x: real, y: real)
    requires 0.0 < x <= y
    ensures RoundPositive(x) <= RoundPositive(y)
    decreases if y < 1.0 then 3 else if y < TWO52 then 2 else if y < TWO53 then 0 else 1,
              if y < 1.0 then 2.0 / y else if y < TWO52 then TWO53 - y else y
  {
    if y < TWO52 {
      if y < 1.0 { HalfReciprocal(y); }
      RoundPositiveMonotone(2.0 * x, 2.0 * y);
    } else if y < TWO53 {
      if x < TWO52 {
        BelowBinade(x);
        AboveBinade(y);
      } else {
        NearestEvenMonotone(x, y);
      }
    } else {
      ScaleByTwo(x / 2.0);
      RoundPositiveMonotone(x / 2.0, y / 2.0);
    }
  }

  lemma AboveBinade(y: real)
    requires TWO52 <= y < TWO53
    ensures RoundPositive(y) >= TWO52
  {
    assert y.Floor >= 4503599627370496;
    assert NearestEven(y) >= y.Floor;
  }

  /** Scaling by a power of two commutes with rounding. */
  lemma ScaleByTwo(x: real)
    requires x > 0.0
    ensures RoundPositive(2.0 * x) == 2.0 * RoundPositive(x)
  {
    if x < TWO52 {
    } else {
      assert 2.0 * x >= TWO53;
      assert (2.0 * x) / 2.0 == x;
    }
  }

  /** Round is a rounding function in the sense the premium bounds use. */
  lemma RoundIsFaithful()
    ensures Faithful(Round)
    ensures Monotone(Round)
  {
    forall x ensures WithinUnit(Round, x) {
      if x > 0.0 { RelativeError(x); } else if x < 0.0 { RelativeError(-x); }
    }
    forall n: int | -9007199254740992 <= n <= 9007199254740992 ensures KeepsInteger(Round, n) {
      if n > 0 { IntegersExact(n); } else if n < 0 { IntegersExact(-n); assert (-n) as real == -(n as real); }
    }
    forall x, y | x <= y ensures KeepsOrder(Round, x, y) {
      if 0.0 < x { RoundPositiveMonotone(x, y); }
      else if y < 0.0 { RoundPositiveMonotone(-y, -x); }
    }
  }

  lemma ScaleBy32(x: real)
    requires x > 0.0
    ensures RoundPositive(32.0 * x) == 32.0 * RoundPositive(x)
  {
    ScaleByTwo(x);
    ScaleByTwo(2.0 * x);
    ScaleByTwo(4.0 * x);
    ScaleByTwo(8.0 * x);
    ScaleByTwo(16.0 * x);
  }

  lemma ScaleBy8(x: real)
    requires x > 0.0
    ensures RoundPositive(8.0 * x) == 8.0 * RoundPositive(x)
  {
    ScaleByTwo(x);
    ScaleByTwo(2.0 * x);
    ScaleByTwo(4.0 * x);
  }

  lemma ScaleBy20(x: real)
    requires x > 0.0
    ensures RoundPositive(1048576.0 * x) == 1048576.0 * RoundPositive(x)
  {
    ScaleBy32(x);
    ScaleBy32(32.0 * x);
    ScaleBy32(1024.0 * x);
    ScaleBy32(32768.0 * x);
  }

  /** To round x, scale it by 2^30, round there, and scale back. */
  lemma ScaleBy30(x: real)
    requires x > 0.0
    ensures RoundPositive(1073741824.0 * x) == 1073741824.0 * RoundPositive(x)
  {
    ScaleBy20(x);
    ScaleBy32(1048576.0 * x);
    ScaleBy32(33554432.0 * x);
  }
}
