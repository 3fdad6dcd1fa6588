/** The settlement distribution shown before payment: each share is rounded on its own. */
module SplitRounding {
  import opened Float64

  /** Math.round (section 21.3.2.28 of ECMA-262): the nearest integer, ties toward plus infinity. */
  function MathRound(x: real): (n: int)
    ensures x - 0.5 < n as real <= x + 0.5
  {
    (x + 0.5).Floor
  }

  function Sum(pcts: seq<real>): real {
    if pcts == [] then 0.0 else pcts[0] + Sum(pcts[1..])
  }

  function Share(premium: int, pct: real): int {
    MathRound(Times(premium as real, pct) / 100.0)
  }

  function ShownTotal(premium: int, pcts: seq<real>): int {
    if pcts == [] then 0 else Share(premium, pcts[0]) + ShownTotal(premium, pcts[1..])
  }

  lemma {:induction false} TotalError(premium: int, pcts: seq<real>)
    ensures var exact := Times(premium as real, Sum(pcts)) / 100.0;
      Abs(ShownTotal(premium, pcts) as real - exact) <= |pcts| as real / 2.0
  {
    if pcts == [] {
    } else {
      TotalError(premium, pcts[1..]);
      Distributes(premium as real, pcts[0], Sum(pcts[1..]));
    }
  }

  lemma Distributes(p: real, x: real, y: real)
    ensures Times(p, x + y) == Times(p, x) + Times(p, y)
  {
  }

  /** The n shown shares of a full split miss the premium by at most n/2. */
  lemma SplitBound(premium: int, pcts: seq<real>)
    requires Sum(pcts) == 100.0
    ensures Abs((ShownTotal(premium, pcts) - premium) as real) <= |pcts| as real / 2.0
  {
    TotalError(premium, pcts);
    assert Times(premium as real, 100.0) / 100.0 == premium as real;
  }

  /** The default split 97/2/1 is off by at most one rupiah. */
  lemma DefaultSplitBound(premium: int)
    ensures -1 <= ShownTotal(premium, [97.0, 2.0, 1.0]) - premium <= 1
  {
    var pcts := [97.0, 2.0, 1.0];
    assert pcts[1..] == [2.0, 1.0] && pcts[1..][1..] == [1.0] && pcts[1..][1..][1..] == [];
    SplitBound(premium, pcts);
  }

  // ---- When the shown total is the premium ----

  function Reals(pcts: seq<int>): seq<real> {
    if pcts == [] then [] else [pcts[0] as real] + Reals(pcts[1..])
  }

  function IntSum(pcts: seq<int>): int {
    if pcts == [] then 0 else pcts[0] + IntSum(pcts[1..])
  }

  /** What the shares leave over: the remainders of premium * pct + 50 by 100. */
  function Remainders(premium: int, pcts: seq<int>): int {
    if pcts == [] then 0 else (premium * pcts[0] + 50) % 100 + Remainders(premium, pcts[1..])
  }

  lemma WholeShare(premium: int, pct: int)
    ensures Share(premium, pct as real) == (premium * pct + 50) / 100
  {
    var n := premium * pct + 50;
    assert Times(premium as real, pct as real) == (premium * pct) as real;
    assert Times(premium as real, pct as real) / 100.0 + 0.5 == n as real / 100.0;
    FloorOfHundredths(n);
  }

  lemma FloorOfHundredths(n: int)
    ensures (n as real / 100.0).Floor == n / 100
  {
    var q := n / 100;
    assert q as real * 100.0 <= n as real < (q + 1) as real * 100.0;
  }

  lemma {:induction false} ShownTotalIs(premium: int, pcts: seq<int>)
    ensures 100 * ShownTotal(premium, Reals(pcts)) == premium * IntSum(pcts) + 50 * |pcts| - Remainders(premium, pcts)
  {
    if pcts == [] {
    } else {
      ShownTotalIs(premium, pcts[1..]);
      WholeShare(premium, pcts[0]);
      assert Reals(pcts)[1..] == Reals(pcts[1..]);
      DistributesInt(premium, pcts[0], IntSum(pcts[1..]));
    }
  }

  lemma DistributesInt(p: int, x: int, y: int)
    ensures p * (x + y) == p * x + p * y
  {
  }

  /** For any whole percentages that sum to 100, the shown shares sum to the premium exactly when the remainders
      sum to 50 for each share. */
  lemma WholeSplitExactly(premium: int, pcts: seq<int>)
    requires IntSum(pcts) == 100
    ensures ShownTotal(premium, Reals(pcts)) == premium <==> Remainders(premium, pcts) == 50 * |pcts|
  {
    ShownTotalIs(premium, pcts);
  }

  /** The last two digits with which the default split misses. */
  predicate SplitMisses(premium: int) {
    17 <= premium % 100 <= 24 || premium % 100 == 50 || 75 <= premium % 100 <= 83
  }

  /** A share of the default split depends on the last two digits, up to a multiple of its percentage. */
  lemma ShareOfDigits(premium: int, pct: int)
    ensures Share(premium, pct as real) == premium / 100 * pct + (premium % 100 * pct + 50) / 100
  {
    var a, r := premium / 100, premium % 100;
    WholeShare(premium, pct);
    assert premium * pct == 100 * (a * pct) + r * pct by {
      assert premium == 100 * a + r;
      Expand(a, r, pct);
    }
    AddHundreds(r * pct + 50, a * pct);
  }

  lemma Expand(a: int, r: int, q: int)
    ensures (100 * a + r) * q == 100 * (a * q) + r * q
  {
  }

  lemma AddHundreds(n: int, m: int)
    ensures (n + 100 * m) / 100 == n / 100 + m
  {
  }

  lemma DigitsDecide(r: int)
    requires 0 <= r < 100
    ensures (r * 97 + 50) / 100 + (r * 2 + 50) / 100 + (r * 1 + 50) / 100 == r <==> !SplitMisses(r)
  {
    QuotientIs(r * 97 + 50, r - (if r <= 16 then 0 else if r <= 50 then 1 else if r <= 83 then 2 else 3));
    QuotientIs(r * 2 + 50, if r < 25 then 0 else if r < 75 then 1 else 2);
    QuotientIs(r * 1 + 50, if r < 50 then 0 else 1);
    SmallRemainder(r);
  }

  lemma SmallRemainder(r: int)
    requires 0 <= r < 100
    ensures r % 100 == r
  {
  }

  lemma QuotientIs(n: int, q: int)
    requires 100 * q <= n < 100 * q + 100
    ensures n / 100 == q
  {
  }

  /** The default split shows the premium exactly when its last two digits are none of those. */
  lemma DefaultSplitExactly(premium: int)
    ensures ShownTotal(premium, [97.0, 2.0, 1.0]) == premium <==> !SplitMisses(premium)
  {
    var a, r := premium / 100, premium % 100;
    ThreeShares(premium);
    ShareOfDigits(premium, 97);
    ShareOfDigits(premium, 2);
    ShareOfDigits(premium, 1);
    DigitsDecide(r);
    SmallRemainder(r);
    assert a * 97 + a * 2 + a * 1 + r == premium;
  }

  lemma ThreeShares(premium: int)
    ensures ShownTotal(premium, [97.0, 2.0, 1.0]) ==
      Share(premium, 97 as real) + Share(premium, 2 as real) + Share(premium, 1 as real)
  {
    var pcts := [97.0, 2.0, 1.0];
    assert pcts[1..] == [2.0, 1.0] && [2.0, 1.0][1..] == [1.0] && [1.0][1..] == [];
    assert ShownTotal(premium, [1.0]) == Share(premium, 1.0);
    assert ShownTotal(premium, [2.0, 1.0]) == Share(premium, 2.0) + Share(premium, 1.0);
    assert 97 as real == 97.0 && 2 as real == 2.0 && 1 as real == 1.0;
  }

  /** The shown total can really be off by one: the shares of 17 rupiah add up to 16. */
  lemma DefaultSplitCanMiss()
    ensures ShownTotal(17, [97.0, 2.0, 1.0]) == 16
  {
    var pcts := [97.0, 2.0, 1.0];
    assert pcts[1..] == [2.0, 1.0] && pcts[1..][1..] == [1.0] && pcts[1..][1..][1..] == [];
    assert Share(17, 97.0) == 16 && Share(17, 2.0) == 0 && Share(17, 1.0) == 0;
  }

  // ---- In binary64 ----

  /** The share as JavaScript computes it: the product and the quotient are binary64 values. */
  function FloatShare(premium: int, pct: int): int {
    MathRound(Round(Round((premium * pct) as real) / 100.0))
  }

  function FloatTotal(premium: int, pcts: seq<int>): int {
    if pcts == [] then 0 else FloatShare(premium, pcts[0]) + FloatTotal(premium, pcts[1..])
  }

  /** For whole percentages and premiums up to 2^46 rupiah, binary64 rounding never changes a share. */
  lemma FloatShareExact(premium: int, pct: int)
    requires 0 <= premium <= 70368744177664 && 0 <= pct <= 100
    ensures FloatShare(premium, pct) == Share(premium, pct as real)
  {
    var product := premium * pct;
    ProductBound(premium, pct);
    assert Times(premium as real, pct as real) == product as real;
    if product == 0 {
    } else {
      IntegersExact(product);
      var x := product as real / 100.0;
      NoTieCrossed(product);
      var k := MathRound(x);
      assert MathRound(RoundPositive(x)) == k;
    }
  }

  lemma ProductBound(premium: int, pct: int)
    requires 0 <= premium <= 70368744177664 && 0 <= pct <= 100
    ensures 0 <= premium * pct <= 7036874417766400
  {
  }

  /** Rounding n/100 to binary64 does not carry it across a half-integer. */
  lemma NoTieCrossed(n: int)
    requires 0 < n <= 7036874417766400
    ensures var x := n as real / 100.0;
      MathRound(x) as real - 0.5 <= RoundPositive(x) < MathRound(x) as real + 0.5
  {
    var x := n as real / 100.0;
    var k := MathRound(x);
    RelativeError(x);
    assert n < 100 * k + 50;
    assert x <= k as real + 0.5 - 0.01;
    if k >= 1 {
      var half := k as real - 0.5;
      IntegersExact(2 * k - 1);
      ScaleByTwo(half);
      assert 2.0 * half == (2 * k - 1) as real;
      RoundPositiveMonotone(half, x);
    }
  }

  /** Hence the displayed total of whole percentages obeys the same bound. */
  lemma {:induction false} FloatTotalExact(premium: int, pcts: seq<int>)
    requires 0 <= premium <= 70368744177664
    requires forall i :: 0 <= i < |pcts| ==> 0 <= pcts[i] <= 100
    ensures FloatTotal(premium, pcts) == ShownTotal(premium, Reals(pcts))
  {
    if pcts == [] {
    } else {
      FloatShareExact(premium, pcts[0]);
      FloatTotalExact(premium, pcts[1..]);
      assert Reals(pcts)[1..] == Reals(pcts[1..]);
    }
  }

  /** The total displayed for any whole percentages is the premium exactly under the same condition. */
  lemma DisplayedSplitExactly(premium: int, pcts: seq<int>)
    requires 0 <= premium <= 70368744177664
    requires IntSum(pcts) == 100 && forall i :: 0 <= i < |pcts| ==> 0 <= pcts[i] <= 100
    ensures FloatTotal(premium, pcts) == premium <==> Remainders(premium, pcts) == 50 * |pcts|
  {
    FloatTotalExact(premium, pcts);
    WholeSplitExactly(premium, pcts);
  }

  /** The total on the payment page for the default split: off by at most one rupiah, and equal to the premium
      exactly when the last two digits allow it. */
  lemma DisplayedDefaultSplit(premium: int)
    requires 0 <= premium <= 70368744177664
    ensures -1 <= FloatTotal(premium, [97, 2, 1]) - premium <= 1
    ensures FloatTotal(premium, [97, 2, 1]) == premium <==> !SplitMisses(premium)
  {
    FloatTotalExact(premium, [97, 2, 1]);
    assert [97, 2, 1][1..] == [2, 1] && [2, 1][1..] == [1] && [1][1..] == [];
    assert Reals([97, 2, 1]) == [97.0, 2.0, 1.0];
    DefaultSplitBound(premium);
    DefaultSplitExactly(premium);
  }

  /** The share of a percentage that is any binary64 value. */
  function AnyShare(premium: int, pct: real): int {
    MathRound(Round(Round(Times(premium as real, pct)) / 100.0))
  }

  function AnyTotal(premium: int, pcts: seq<real>): int {
    if pcts == [] then 0 else AnyShare(premium, pcts[0]) + AnyTotal(premium, pcts[1..])
  }

  /** The two roundings move a share by at most 2.1 units of relative error before Math.round. */
  lemma AnyShareError(premium: int, pct: real)
    requires premium >= 0 && pct >= 0.0
    ensures var exact := Times(premium as real, pct) / 100.0;
      Abs(AnyShare(premium, pct) as real - exact) <= 0.5 + 2.1 * exact / TWO53
  {
    var product := Times(premium as real, pct);
    assert product >= 0.0;
    RoundIsFaithful();
    assert WithinUnit(Round, product);
    assert WithinUnit(Round, Round(product) / 100.0);
  }

  lemma {:induction false} AnyTotalError(premium: int, pcts: seq<real>)
    requires premium >= 0 && forall i :: 0 <= i < |pcts| ==> pcts[i] >= 0.0
    ensures var exact := Times(premium as real, Sum(pcts)) / 100.0;
      Abs(AnyTotal(premium, pcts) as real - exact) <= |pcts| as real / 2.0 + 2.1 * exact / TWO53
  {
    if pcts == [] {
    } else {
      AnyTotalError(premium, pcts[1..]);
      AnyShareError(premium, pcts[0]);
      Distributes(premium as real, pcts[0], Sum(pcts[1..]));
    }
  }

  /** For any n non-negative percentages that sum to 100 and any premium up to 2^50, the total displayed in
      binary64 is within n/2 of the premium, as in exact arithmetic. */
  lemma AnySplitBound(premium: int, pcts: seq<real>)
    requires 0 <= premium <= 1125899906842624
    requires Sum(pcts) == 100.0 && forall i :: 0 <= i < |pcts| ==> pcts[i] >= 0.0
    ensures Abs((AnyTotal(premium, pcts) - premium) as real) <= |pcts| as real / 2.0
  {
    AnyTotalError(premium, pcts);
    assert Times(premium as real, 100.0) / 100.0 == premium as real;
    assert 2.1 * premium as real / TWO53 < 0.5;
    HalfStep(AnyTotal(premium, pcts) - premium, |pcts|);
  }

  /** A whole distance below n/2 + 1/2 is at most n/2. */
  lemma HalfStep(d: int, n: nat)
    requires Abs(d as real) < n as real / 2.0 + 0.5
    ensures Abs(d as real) <= n as real / 2.0
  {
    var m := if d < 0 then -d else d;
    Doubled(m);
    Compare(2 * m, n + 1);
    Compare(2 * m, n);
  }

  lemma Doubled(m: int)
    ensures (2 * m) as real == 2.0 * m as real && (-m) as real == -(m as real)
  {
  }

  lemma Compare(a: int, b: int)
    ensures (a < b <==> a as real < b as real) && (a <= b <==> a as real <= b as real)
  {
  }
}
