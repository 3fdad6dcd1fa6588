/** When the truncated premium is exactly the floor of the exact one, for insured values up to 10^12 rupiah. */
module PremiumExact {
  import opened Float64
  import opened Premium

  const TRILLION := 1000000000000

  /** Tariff rates have two decimals: their sum is k hundredths, and the exact base premium is idv * k / 20000. */
  predicate InHundredths(rate: Rate, k: int) {
    rate.min + rate.max == k as real / 100.0
  }

  lemma ExactIs(rate: Rate, k: int, idv: int)
    requires InHundredths(rate, k)
    ensures ExactBase(rate, idv) == (idv * k) as real / 20000.0
  {
    var f, h := idv as real, k as real;
    assert (rate.min + rate.max) / 2.0 == h / 200.0;
    TimesFraction(f, h);
    assert Times(f, h) == (idv * k) as real;
  }

  lemma TimesFraction(f: real, h: real)
    ensures Times(f, h / 200.0) == Times(f, h) / 200.0
  {
  }

  lemma FloorIs(x: real, q: int)
    requires q as real <= x < q as real + 1.0
    ensures x.Floor == q
  {
  }

  lemma DivideReal(n: int)
    ensures n as real / 20000.0 == (n / 20000) as real + (n % 20000) as real / 20000.0
  {
    assert n as real == 20000.0 * (n / 20000) as real + (n % 20000) as real;
  }

  /** Where the exact premium is not an integer, rounding cannot carry it across one. */
  lemma ExactBetweenIntegers(rnd: real -> real, rate: Rate, k: int, idv: int)
    requires Faithful(rnd) && Plausible(rate) && InHundredths(rate, k)
    requires 0 < idv <= TRILLION && (idv * k) % 20000 != 0
    ensures BasePremium(rnd, rate, idv) == idv * k / 20000
  {
    var n := idv * k;
    var q, r, e, raw := n / 20000, n % 20000, ExactBase(rate, idv), RawBase(rnd, rate, idv);
    RoundedPremiumError(rnd, rate, idv);
    ExactIs(rate, k, idv);
    DivideReal(n);
    assert e == q as real + r as real / 20000.0 && 1 <= r <= 19999;
    ExactBound(rate, idv);
    assert Abs(raw - e) < 1.0 / 20000.0;
    FloorIs(raw, q);
  }

  lemma ExactBound(rate: Rate, idv: int)
    requires Plausible(rate) && 0 < idv <= TRILLION
    ensures 0.0 <= ExactBase(rate, idv) <= 42000000000.0
  {
    var half := (rate.min + rate.max) / 2.0;
    MulMonotone(half, 0.0, idv as real);
    MulMonotone(half, idv as real, 1000000000000.0);
    MulMonotone(1000000000000.0, half, 4.2);
  }

  /** Where it is an integer, the premium is that integer or one less, as the quotient before truncation says. */
  lemma ExactAtInteger(rnd: real -> real, rate: Rate, k: int, idv: int)
    requires Faithful(rnd) && Plausible(rate) && InHundredths(rate, k)
    requires 0 < idv <= 9007199254740992 && (idv * k) % 20000 == 0
    ensures var q := idv * k / 20000;
      && q as real - 1.0 < RawBase(rnd, rate, idv) < q as real + 1.0
      && BasePremium(rnd, rate, idv) == if RawBase(rnd, rate, idv) >= q as real then q else q - 1
  {
    var n := idv * k;
    var q, raw := n / 20000, RawBase(rnd, rate, idv);
    RoundedPremiumError(rnd, rate, idv);
    ExactIs(rate, k, idv);
    DivideReal(n);
    FloorIs(raw, if raw >= q as real then q else q - 1);
  }

  /** For every faithful rounding the premium is never above the floor of the exact one, and it misses it, by one,
      exactly where the exact premium is an integer and the quotient stays below it. */
  lemma PremiumExactly(rnd: real -> real, rate: Rate, k: int, idv: int)
    requires Faithful(rnd) && Plausible(rate) && InHundredths(rate, k) && 0 < idv <= TRILLION
    ensures var q := idv * k / 20000;
      && ExactBase(rate, idv).Floor == q
      && q - 1 <= BasePremium(rnd, rate, idv) <= q
      && (BasePremium(rnd, rate, idv) == q <==> (idv * k) % 20000 != 0 || RawBase(rnd, rate, idv) >= q as real)
  {
    ExactIs(rate, k, idv);
    DivideReal(idv * k);
    FloorIs(ExactBase(rate, idv), idv * k / 20000);
    if (idv * k) % 20000 != 0 {
      ExactBetweenIntegers(rnd, rate, k, idv);
    } else {
      ExactAtInteger(rnd, rate, k, idv);
    }
  }

  /** A rate whose rounded midpoint is not below the exact one never misses, for every monotone rounding. */
  lemma HighMidNeverMisses(rnd: real -> real, rate: Rate, k: int, idv: int)
    requires Faithful(rnd) && Monotone(rnd) && Plausible(rate) && InHundredths(rate, k) && 0 < idv <= TRILLION
    requires MidRate(rnd, rate) >= k as real / 200.0
    ensures BasePremium(rnd, rate, idv) == idv * k / 20000
  {
    PremiumExactly(rnd, rate, k, idv);
    if (idv * k) % 20000 == 0 {
      var q, mid := idv * k / 20000, MidRate(rnd, rate);
      IntegerProduct(rate, k, idv);
      assert KeepsInteger(rnd, idv);
      MulMonotone(idv as real, k as real / 200.0, mid);
      HighQuotient(rnd, Times(idv as real, mid), q);
    }
  }

  /** A product of at least 100 q gives a quotient of at least q. */
  lemma HighQuotient(rnd: real -> real, product: real, q: int)
    requires Faithful(rnd) && Monotone(rnd) && 0 < q <= 42000000000 && product >= (100 * q) as real
    ensures rnd(rnd(product) / 100.0) >= q as real
  {
    assert KeepsOrder(rnd, (100 * q) as real, product) && KeepsInteger(rnd, 100 * q);
    assert rnd(product) / 100.0 >= q as real;
    assert KeepsOrder(rnd, q as real, rnd(product) / 100.0) && KeepsInteger(rnd, q);
  }

  /** The exact product where the exact premium is the integer q. */
  lemma IntegerProduct(rate: Rate, k: int, idv: int)
    requires Plausible(rate) && InHundredths(rate, k) && 0 < idv <= TRILLION && (idv * k) % 20000 == 0
    ensures var q := idv * k / 20000;
      && Times(idv as real, k as real / 200.0) == (100 * q) as real
      && 0 < q <= 42000000000
  {
    var q := idv * k / 20000;
    ExactIs(rate, k, idv);
    ExactBound(rate, idv);
    TimesFraction(idv as real, k as real);
    assert Times(idv as real, k as real) == (idv * k) as real;
    assert (idv * k) as real == 20000.0 * q as real;
    assert ExactBase(rate, idv) == q as real;
    MulMonotone((rate.min + rate.max) / 2.0, 1.0, idv as real);
    assert ExactBase(rate, idv) > 0.0;
  }

  // ---- Powers of two ----

  function Pow(e: nat): (p: int)
    ensures p >= 1
  {
    if e == 0 then 1 else 2 * Pow(e - 1)
  }

  /** The exponent of the largest power of two that is at most n. */
  function TopExp(n: int): (e: nat)
    requires n >= 1
    ensures Pow(e) <= n < 2 * Pow(e)
  {
    if n == 1 then 0 else TopExp(n / 2) + 1
  }

  lemma {:induction false} PowAdd(a: nat, b: nat)
    ensures Pow(a + b) == Pow(a) * Pow(b)
  {
    if a > 0 {
      PowAdd(a - 1, b);
    }
  }

  lemma {:induction false} PowMonotone(a: nat, b: nat)
    ensures a <= b ==> Pow(a) <= Pow(b)
  {
    if a < b {
      PowMonotone(a, b - 1);
    }
  }

  lemma PowValues()
    ensures Pow(49) == 562949953421312 && Pow(50) == 1125899906842624 && Pow(51) == 2251799813685248
    ensures Pow(52) == 4503599627370496 && Pow(53) == 9007199254740992 && Pow(54) == 18014398509481984
  {
    assert Pow(2) == 4 && Pow(3) == 8;
    PowAdd(3, 3);
    PowAdd(6, 6);
    PowAdd(12, 12);
    PowAdd(24, 24);
    assert Pow(48) == 281474976710656;
    assert Pow(49) == 2 * Pow(48) && Pow(50) == 2 * Pow(49) && Pow(51) == 2 * Pow(50);
    assert Pow(52) == 2 * Pow(51) && Pow(53) == 2 * Pow(52) && Pow(54) == 2 * Pow(53);
  }

  /** No power of two is a multiple of three or five. */
  lemma {:induction false} PowIndivisible(e: nat)
    ensures Pow(e) % 3 != 0 && Pow(e) % 5 != 0
  {
    if e > 0 {
      PowIndivisible(e - 1);
      DoubleIndivisible(Pow(e - 1));
    }
  }

  lemma DoubleIndivisible(n: int)
    ensures (n % 3 != 0 ==> 2 * n % 3 != 0) && (n % 5 != 0 ==> 2 * n % 5 != 0)
  {
    ThirdOfDouble(n);
    FifthOfDouble(n);
  }

  lemma ThirdOfDouble(n: int)
    ensures 2 * n % 3 == 0 ==> n % 3 == 0
  {
    assert 2 * n % 3 == 0 ==> n == 3 * (n - 2 * n / 3);
  }

  lemma FifthOfDouble(n: int)
    ensures 2 * n % 5 == 0 ==> n % 5 == 0
  {
    assert 2 * n % 5 == 0 ==> n == 5 * (n - 2 * (2 * n / 5));
  }

  lemma {:induction false} RoundScale(x: real, e: nat)
    requires x > 0.0
    ensures Times(Pow(e) as real, x) > 0.0
    ensures RoundPositive(Times(Pow(e) as real, x)) == Times(Pow(e) as real, RoundPositive(x))
  {
    if e > 0 {
      RoundScale(x, e - 1);
      var p := Pow(e - 1) as real;
      assert Pow(e) as real == 2.0 * p;
      DoubleTimes(p, x);
      DoubleTimes(p, RoundPositive(x));
      ScaleByTwo(Times(p, x));
    }
  }

  lemma DoubleTimes(p: real, x: real)
    ensures Times(2.0 * p, x) == 2.0 * Times(p, x)
  {
  }

  /** The significand of x is m when it lies within half a unit of m at scale 2^-e. */
  lemma SignificandIs(x: real, e: nat, m: int)
    requires x > 0.0 && Rounds(Times(Pow(e) as real, x), m)
    ensures RoundPositive(x) == m as real / Pow(e) as real
  {
    RoundScale(x, e);
    NearestIs(Times(Pow(e) as real, x), m);
    Quotient(Pow(e) as real, RoundPositive(x), m as real);
  }

  lemma Quotient(p: real, x: real, m: real)
    requires p >= 1.0 && Times(p, x) == m
    ensures x == m / p
  {
  }

  // ---- Rounding just below an integer ----

  /** n lies strictly inside the binade of 2^e; the unit there is 2^(e-52), and f is its inverse. */
  predicate InBinade(n: int, e: nat, f: int) {
    e <= 52 && f == Pow(52 - e) && Pow(e) < n < 2 * Pow(e)
  }

  lemma ScaledInteger(n: int, e: nat, f: int)
    requires InBinade(n, e, f)
    ensures f >= 1 && Pow(e) * f == 4503599627370496
    ensures 4503599627370496 < n * f < 9007199254740992
  {
    PowValues();
    PowAdd(e, 52 - e);
    Between(Pow(e), n, f);
  }

  lemma Between(p: int, n: int, f: int)
    requires p < n < 2 * p && f >= 1
    ensures p * f < n * f < 2 * (p * f)
  {
    assert (n - p) * f >= 1 && (2 * p - n) * f >= 1;
  }

  lemma TimesMinus(f: real, n: real, gap: real)
    ensures Times(f, n - gap) == Times(f, n) - Times(f, gap)
  {
  }

  lemma IntTimes(f: int, n: int)
    ensures Times(f as real, n as real) == (n * f) as real
  {
  }

  /** A value less than one unit below n rounds to n when it is nearer than half a unit, else one unit below. */
  lemma RoundBelow(n: int, gap: real, e: nat, f: int)
    requires InBinade(n, e, f)
    requires 0.0 <= Times(f as real, gap) < 1.0 && Times(f as real, gap) != 0.5
    requires n as real - gap > 0.0
    ensures Times(f as real, RoundPositive(n as real - gap)) ==
      (n * f) as real - (if Times(f as real, gap) < 0.5 then 0.0 else 1.0)
  {
    var x, t := n as real - gap, Times(f as real, gap);
    ScaledInteger(n, e, f);
    RoundScale(x, 52 - e);
    TimesMinus(f as real, n as real, gap);
    IntTimes(f, n);
    var y, m := Times(f as real, x), if t < 0.5 then n * f else n * f - 1;
    assert y == (n * f) as real - t;
    assert TWO52 <= y < TWO53;
    NearestIs(y, m);
  }

  /** A value more than half a unit below n does not round up to it. */
  lemma RoundStaysBelow(n: int, z: real, e: nat, f: int)
    requires InBinade(n, e, f) && z > 0.0
    requires Times(f as real, n as real - z) > 0.5
    ensures RoundPositive(z) < n as real
  {
    ScaledInteger(n, e, f);
    RoundScale(z, 52 - e);
    TimesMinus(f as real, n as real, z);
    IntTimes(f, n);
    var y := Times(f as real, z);
    assert y < (n * f) as real - 0.5;
    if y < TWO52 {
      BelowBinade(y);
    } else {
      assert RoundPositive(y) == NearestEven(y) as real;
    }
    assert Times(f as real, RoundPositive(z)) < Times(f as real, n as real);
    CancelTimes(f as real, RoundPositive(z), n as real);
  }

  lemma CancelTimes(f: real, x: real, y: real)
    requires f >= 1.0
    ensures Times(f, x) < Times(f, y) <==> x < y
    ensures Times(f, x) == Times(f, y) <==> x == y
  {
    if x < y {
      Positive(f, y - x);
    } else if x > y {
      Positive(f, x - y);
    }
  }

  lemma Positive(f: real, d: real)
    requires f >= 1.0 && d > 0.0
    ensures f * d > 0.0
  {
  }

  // ---- The tariff in binary64 ----

  /** The midpoint rate from the three significands. */
  lemma MidRateIs(rate: Rate, ea: nat, ma: int, eb: nat, mb: int, es: nat, ms: int)
    requires rate.min > 0.0 && rate.max > 0.0
    requires Rounds(Times(Pow(ea) as real, rate.min), ma) && Rounds(Times(Pow(eb) as real, rate.max), mb)
    requires var sum := ma as real / Pow(ea) as real + mb as real / Pow(eb) as real;
      sum > 0.0 && Rounds(Times(Pow(es) as real, sum), ms)
    requires TWO52 <= ms as real < TWO53
    ensures MidRate(Round, rate) == ms as real / Pow(es) as real / 2.0
  {
    SignificandIs(rate.min, ea, ma);
    SignificandIs(rate.max, eb, mb);
    var sum := ma as real / Pow(ea) as real + mb as real / Pow(eb) as real;
    SignificandIs(sum, es, ms);
    HalfIsExact(es, ms);
  }

  /** Half of a value with 53 significant bits is exact. */
  lemma HalfIsExact(e: nat, m: int)
    requires TWO52 <= m as real < TWO53
    ensures var s := m as real / Pow(e) as real; s > 0.0 && RoundPositive(s / 2.0) == s / 2.0
  {
    var s := m as real / Pow(e) as real;
    QuotientTimes(Pow(e) as real, m as real);
    SignificandIs(s, e, m);
    ScaleByTwo(s / 2.0);
  }

  lemma QuotientTimes(p: real, m: real)
    requires p >= 1.0 && m > 0.0
    ensures m / p > 0.0 && Times(p, m / p) == m
  {
  }

  lemma ScaledGap(idv: int, c: real, f: int, p: int)
    requires p * f == 4503599627370496 && p >= 1
    ensures Times(p as real, Times(f as real, Times(idv as real, c / TWO52))) == Times(c, idv as real)
  {
    var a, b, x, u := p as real, f as real, idv as real, c / TWO52;
    assert a * b == TWO52;
    assert a * (b * (x * u)) == (a * b) * (x * u);
    Regroup(x, u);
  }

  lemma Regroup(x: real, u: real)
    ensures TWO52 * (x * u) == (TWO52 * u) * x
  {
  }

  /** The binade of 100 q. */
  lemma BinadeOf(q: int) returns (e: nat, f: int)
    requires 0 < q <= 42000000000
    ensures e == TopExp(100 * q) && InBinade(100 * q, e, f)
  {
    e := TopExp(100 * q);
    NotAPower(20 * q, e);
    SmallExponent(100 * q, e);
    f := Pow(52 - e);
  }

  lemma NotAPower(m: int, e: nat)
    ensures 5 * m != Pow(e)
  {
    PowIndivisible(e);
    assert 5 * m % 5 == 0;
  }

  lemma SmallExponent(n: int, e: nat)
    requires Pow(e) <= n < 4503599627370496
    ensures e <= 52
  {
    PowValues();
    PowMonotone(53, e);
  }

  /** The gap in units of the binade of 100 q. */
  lemma GapInUnits(idv: int, c: real, q: int) returns (e: nat, f: int, gap: real)
    requires 0 < idv && 0.0 <= c && 0 < q <= 42000000000
    ensures e == TopExp(100 * q) && InBinade(100 * q, e, f)
    ensures gap == Times(idv as real, c / TWO52)
    ensures Times(Pow(e) as real, Times(f as real, gap)) == Times(c, idv as real)
    ensures Times(f as real, gap) >= 0.0
  {
    e, f := BinadeOf(q);
    gap := Times(idv as real, c / TWO52);
    ScaledInteger(100 * q, e, f);
    ScaledGap(idv, c, f, Pow(e));
    NonNegative(idv as real, c / TWO52);
    NonNegative(f as real, gap);
  }

  /** A midpoint rate c units of 2^-52 below the exact one, and an insured value whose exact product is 100 q. */
  predicate IntegerCase(idv: int, exact: real, mid: real, c: real, q: int) {
    && 0 < idv <= TRILLION && 0 < q <= 42000000000 && 0.0 <= c
    && mid == exact - c / TWO52
    && Times(idv as real, exact) == (100 * q) as real
  }

  /** The product and its distance from 100 q. */
  lemma ProductGap(idv: int, exact: real, mid: real, c: real, q: int) returns (e: nat, f: int, gap: real)
    requires IntegerCase(idv, exact, mid, c, q)
    ensures e == TopExp(100 * q) && InBinade(100 * q, e, f)
    ensures Times(idv as real, mid) == (100 * q) as real - gap
    ensures Times(Pow(e) as real, Times(f as real, gap)) == Times(c, idv as real)
    ensures Times(f as real, gap) >= 0.0
  {
    e, f, gap := GapInUnits(idv, c, q);
    TimesMinus(idv as real, exact, c / TWO52);
  }

  lemma NonNegative(x: real, y: real)
    requires x >= 0.0 && y >= 0.0
    ensures Times(x, y) >= 0.0
  {
  }

  lemma RoundOfInteger(n: int)
    requires 0 < n <= 9007199254740992
    ensures Round(n as real) == n as real
  {
    IntegersExact(n);
  }

  /** The quotient before truncation, as binary64 computes it from the midpoint rate. */
  function QuotientOf(idv: int, mid: real): real {
    Round(Round(Times(idv as real, mid)) / 100.0)
  }

  lemma RawBaseIs(rate: Rate, idv: int)
    requires 0 < idv <= TRILLION
    ensures RawBase(Round, rate, idv) == QuotientOf(idv, MidRate(Round, rate))
  {
    RoundOfInteger(idv);
  }

  /** When the product is nearer than half a unit to 100 q, the quotient is q. */
  lemma NearHits(idv: int, exact: real, mid: real, c: real, q: int)
    requires IntegerCase(idv, exact, mid, c, q)
    requires Times(c, idv as real) < 0.5 * Pow(TopExp(100 * q)) as real
    ensures QuotientOf(idv, mid) == q as real
  {
    ProductRoundsUp(idv, exact, mid, c, q);
    HundredthOf(idv, mid, q);
  }

  lemma HundredthOf(idv: int, mid: real, q: int)
    requires 0 < q <= 42000000000 && Round(Times(idv as real, mid)) == (100 * q) as real
    ensures QuotientOf(idv, mid) == q as real
  {
    assert (100 * q) as real / 100.0 == q as real;
    RoundOfInteger(q);
  }

  lemma ProductRoundsUp(idv: int, exact: real, mid: real, c: real, q: int)
    requires IntegerCase(idv, exact, mid, c, q)
    requires Times(c, idv as real) < 0.5 * Pow(TopExp(100 * q)) as real
    ensures Round(Times(idv as real, mid)) == (100 * q) as real
  {
    var e, f, gap := ProductGap(idv, exact, mid, c, q);
    GapRoundsUp(100 * q, Times(idv as real, mid), gap, e, f, Times(c, idv as real));
  }

  lemma GapRoundsUp(n: int, product: real, gap: real, e: nat, f: int, value: real)
    requires InBinade(n, e, f) && product == n as real - gap && Times(f as real, gap) >= 0.0
    requires Times(Pow(e) as real, Times(f as real, gap)) == value < 0.5 * Pow(e) as real
    ensures Round(product) == n as real
  {
    InUnits(Pow(e), Times(f as real, gap), value);
    RoundsUp(n, gap, e, f);
  }

  lemma GapRoundsDown(n: int, product: real, gap: real, e: nat, f: int, value: real) returns (p: real)
    requires InBinade(n, e, f) && product == n as real - gap
    requires Times(Pow(e) as real, Times(f as real, gap)) == value && 0.5 * Pow(e) as real < value < Pow(e) as real
    ensures p > 0.0 && Round(product) == p && Times(f as real, n as real - p) == 1.0
  {
    InUnits(Pow(e), Times(f as real, gap), value);
    p := RoundsDown(n, gap, e, f);
  }

  /** A distance in units against its value. */
  lemma InUnits(p: int, t: real, value: real)
    requires p >= 1 && Times(p as real, t) == value
    ensures value < 0.5 * p as real ==> t < 0.5
    ensures value > 0.5 * p as real ==> t > 0.5
    ensures value < p as real ==> t < 1.0
  {
    CancelTimes(p as real, t, 0.5);
    CancelTimes(p as real, 0.5, t);
    CancelTimes(p as real, t, 1.0);
  }

  lemma RoundsUp(n: int, gap: real, e: nat, f: int)
    requires InBinade(n, e, f) && 0.0 <= Times(f as real, gap) < 0.5
    ensures n as real - gap > 0.0 && RoundPositive(n as real - gap) == n as real
  {
    GapSmall(n, gap, f);
    RoundBelow(n, gap, e, f);
    IntTimes(f, n);
    CancelTimes(f as real, RoundPositive(n as real - gap), n as real);
  }

  lemma GapSmall(n: int, gap: real, f: int)
    requires n >= 1 && f >= 1 && Times(f as real, gap) < 1.0
    ensures n as real - gap > 0.0
  {
    AtLeastOne(f as real, gap);
  }

  lemma AtLeastOne(f: real, g: real)
    requires f >= 1.0
    ensures g >= 0.0 ==> Times(f, g) >= g
  {
    if g >= 0.0 {
      assert (f - 1.0) * g >= 0.0;
    }
  }

  /** When it is farther, the product is rounded one unit down, and the quotient by 100 cannot reach q again. */
  lemma FarMisses(idv: int, exact: real, mid: real, c: real, q: int)
    requires IntegerCase(idv, exact, mid, c, q) && q % 3 == 0
    requires var p := Pow(TopExp(100 * q)) as real; 0.5 * p < Times(c, idv as real) < p
    ensures QuotientOf(idv, mid) < q as real
  {
    var e, f, p := ProductRoundsDown(idv, exact, mid, c, q);
    QuotientFalls(q, e, f, p);
  }

  lemma ProductRoundsDown(idv: int, exact: real, mid: real, c: real, q: int) returns (e: nat, f: int, p: real)
    requires IntegerCase(idv, exact, mid, c, q)
    requires var p := Pow(TopExp(100 * q)) as real; 0.5 * p < Times(c, idv as real) < p
    ensures e == TopExp(100 * q) && InBinade(100 * q, e, f)
    ensures p > 0.0 && Round(Times(idv as real, mid)) == p && Times(f as real, (100 * q) as real - p) == 1.0
  {
    var gap;
    e, f, gap := ProductGap(idv, exact, mid, c, q);
    p := GapRoundsDown(100 * q, Times(idv as real, mid), gap, e, f, Times(c, idv as real));
  }

  lemma RoundsDown(n: int, gap: real, e: nat, f: int) returns (p: real)
    requires InBinade(n, e, f) && 0.5 < Times(f as real, gap) < 1.0
    ensures n as real - gap > 0.0 && p == RoundPositive(n as real - gap)
    ensures p > 0.0 && Times(f as real, n as real - p) == 1.0
  {
    GapSmall(n, gap, f);
    RoundBelow(n, gap, e, f);
    p := RoundPositive(n as real - gap);
    OneUnitDown(n, f, p);
  }

  lemma OneUnitDown(n: int, f: int, p: real)
    requires n >= 2 && f >= 1 && Times(f as real, p) == (n * f) as real - 1.0
    ensures Times(f as real, n as real - p) == 1.0 && p > 0.0
  {
    IntTimes(f, n);
    TimesMinus(f as real, n as real, p);
    GapSmallBy(n as real - p, f as real);
  }

  lemma GapSmallBy(d: real, f: real)
    requires f >= 1.0 && Times(f, d) == 1.0
    ensures d <= 1.0
  {
    AtLeastOne(f, d);
  }

  /** One unit of 100 q is at least 64 units of q, so a hundredth of it is more than half a unit. */
  lemma QuotientFalls(q: int, e: nat, f: int, p: real)
    requires 0 < q <= 42000000000 && q % 3 == 0
    requires InBinade(100 * q, e, f) && e == TopExp(100 * q)
    requires Times(f as real, (100 * q) as real - p) == 1.0 && p > 0.0
    ensures RoundPositive(p / 100.0) < q as real
  {
    var h := TopExp(q);
    PowIndivisible(h);
    SmallExponent(q, h);
    var g := Pow(52 - h);
    UnitsRatio(q, h, e);
    var d := q as real - p / 100.0;
    assert (100 * q) as real - p == 100.0 * d;
    Hundredth(f as real, d, g as real);
    RoundStaysBelow(q, p / 100.0, h, g);
  }

  lemma PowSix(h: nat)
    ensures Pow(h + 6) == 64 * Pow(h)
  {
    assert Pow(3) == 8;
    PowAdd(3, 3);
    PowAdd(6, h);
  }

  lemma ExponentGap(q: int, h: nat, e: nat)
    requires q >= 1 && h == TopExp(q) && e == TopExp(100 * q)
    ensures h + 6 <= e
  {
    PowSix(h);
    PowMonotone(e + 1, h + 6);
    assert Pow(e + 1) == 2 * Pow(e);
  }

  lemma UnitsRatio(q: int, h: nat, e: nat)
    requires q >= 1 && h == TopExp(q) && e == TopExp(100 * q) && e <= 52 && h <= 52
    ensures Pow(52 - h) >= 64 * Pow(52 - e)
  {
    ExponentGap(q, h, e);
    PowSix(52 - e);
    PowMonotone(58 - e, 52 - h);
  }

  lemma Hundredth(f: real, d: real, g: real)
    requires f >= 1.0 && g >= 64.0 * f && Times(f, 100.0 * d) == 1.0
    ensures Times(g, d) > 0.5
  {
    assert f * d == 0.01;
    assert d > 0.0 by { AtLeastOne(f, -d); }
    assert (g - 64.0 * f) * d >= 0.0;
    assert (g - 64.0 * f) * d == g * d - 64.0 * (f * d);
  }

  // ---- The tariff rates ----

  const ZONE_THREE := Rate(2.53, 3.08)

  lemma Mid445()
    ensures MidRate(Round, Rate(1.80, 2.65)) >= 445 as real / 200.0
  {
    PowValues();
    MidRateIs(Rate(1.80, 2.65), 52, 8106479329266893, 51, 5967269506265907, 50, 5010254585449677);
  }

  lemma Mid103()
    ensures MidRate(Round, Rate(0.47, 0.56)) >= 103 as real / 200.0
  {
    PowValues();
    MidRateIs(Rate(0.47, 0.56), 54, 8466767299456532, 53, 5044031582654956, 52, 4638707616191611);
  }

  lemma Mid350()
    ensures MidRate(Round, Rate(1.40, 2.10)) >= 350 as real / 200.0
  {
    PowValues();
    MidRateIs(Rate(1.40, 2.10), 52, 6305039478318694, 51, 4728779608739021, 51, 7881299347898368);
  }

  lemma Mid550()
    ensures MidRate(Round, Rate(2.50, 3.00)) >= 550 as real / 200.0
  {
    PowValues();
    MidRateIs(Rate(2.50, 3.00), 51, 5629499534213120, 51, 6755399441055744, 50, 6192449487634432);
  }

  lemma Mid802()
    ensures MidRate(Round, Rate(3.82, 4.20)) == 802 as real / 200.0 - 0.96 / TWO52
  {
    PowValues();
    MidRateIs(Rate(3.82, 4.20), 51, 8601875288277647, 50, 4728779608739021, 49, 4514858626438922);
  }

  lemma Mid430()
    ensures MidRate(Round, Rate(1.80, 2.50)) == 430 as real / 200.0 - 0.4 / TWO52
  {
    PowValues();
    MidRateIs(Rate(1.80, 2.50), 52, 8106479329266893, 51, 5629499534213120, 50, 4841369599423283);
  }

  lemma Mid561()
    ensures MidRate(Round, ZONE_THREE) == 561 as real / 200.0 - 1.28 / TWO52
  {
    PowValues();
    MidRateIs(ZONE_THREE, 51, 5697053528623677, 51, 6935543426150564, 50, 6316298477387120);
  }

  /** A rate whose midpoint is so little below the exact one that a product of 100 q is always rounded back. */
  lemma LowMidNeverMisses(rate: Rate, k: int, idv: int, c: real)
    requires Plausible(rate) && InHundredths(rate, k) && 0 < idv <= TRILLION && 0.0 <= c
    requires MidRate(Round, rate) == k as real / 200.0 - c / TWO52
    requires c * 4.0 < k as real / 200.0
    ensures BasePremium(Round, rate, idv) == idv * k / 20000
  {
    RoundIsFaithful();
    PremiumExactly(Round, rate, k, idv);
    if (idv * k) % 20000 == 0 {
      var q, exact := idv * k / 20000, k as real / 200.0;
      IntegerProduct(rate, k, idv);
      UnitOfProduct(c, exact, idv as real, (100 * q) as real, Pow(TopExp(100 * q)) as real);
      NearHits(idv, exact, MidRate(Round, rate), c, q);
      RawBaseIs(rate, idv);
    }
  }

  lemma UnitOfProduct(c: real, exact: real, idv: real, n: real, p: real)
    requires idv > 0.0 && 4.0 * c < exact && Times(idv, exact) == n && n < 2.0 * p
    ensures Times(c, idv) < 0.5 * p
  {
    assert (exact - 4.0 * c) * idv > 0.0;
    assert (exact - 4.0 * c) * idv == Times(idv, exact) - 4.0 * Times(c, idv);
  }

  /** The insured values for which binary64 misses the floor: at the rate of ZONE_3 to ZONE_5 of the comprehensive
      product, the multiples j * 20000 with no power of two between 51200 j and 56100 j. */
  predicate MissesFloor(rate: Rate, idv: int) {
    rate == ZONE_THREE && idv > 0 && idv % 20000 == 0 &&
    Pow(TopExp(56100 * (idv / 20000))) < 51200 * (idv / 20000)
  }

  /** 17041 is the inverse of 561 modulo 20000. */
  lemma InverseOf561(idv: int, q: int)
    requires 561 * idv == 20000 * q
    ensures idv == 20000 * (17041 * q - 478 * idv)
  {
  }

  lemma MultipleOf(n: int, m: int)
    requires n == 20000 * m
    ensures n % 20000 == 0 && n / 20000 == m
  {
  }

  lemma MultiplesOnly(idv: int)
    ensures (idv * 561) % 20000 == 0 <==> idv % 20000 == 0
  {
    if (idv * 561) % 20000 == 0 {
      var q := idv * 561 / 20000;
      InverseOf561(idv, q);
      MultipleOf(idv, 17041 * q - 478 * idv);
    } else if idv % 20000 == 0 {
      MultipleOf(idv * 561, 561 * (idv / 20000));
    }
  }

  lemma ZoneThreeCase(j: int, idv: int, q: int)
    requires idv == 20000 * j && q == 561 * j && 0 < idv <= TRILLION
    ensures IntegerCase(idv, 561 as real / 200.0, MidRate(Round, ZONE_THREE), 1.28, q)
    ensures idv * 561 / 20000 == q && (idv * 561) % 20000 == 0
  {
    Mid561();
    MultipleOf(idv * 561, q);
    IntegerProduct(ZONE_THREE, 561, idv);
  }

  lemma ZoneThreeQuotient(j: int, idv: int, q: int)
    requires idv == 20000 * j && q == 561 * j && 0 < idv <= TRILLION
    ensures var raw := QuotientOf(idv, MidRate(Round, ZONE_THREE));
      if Pow(TopExp(100 * q)) < 51200 * j then raw < q as real else raw == q as real
  {
    var p, mid := Pow(TopExp(100 * q)), MidRate(Round, ZONE_THREE);
    ZoneThreeCase(j, idv, q);
    NotAPower(10240 * j, TopExp(100 * q));
    UnitsOfZoneThree(j, idv, p);
    if p < 51200 * j {
      ThirdOf(q, 187 * j);
      FarMisses(idv, 561 as real / 200.0, mid, 1.28, q);
    } else {
      NearHits(idv, 561 as real / 200.0, mid, 1.28, q);
    }
  }

  lemma ThirdOf(q: int, m: int)
    requires q == 3 * m
    ensures q % 3 == 0
  {
  }

  lemma UnitsOfZoneThree(j: int, idv: int, p: int)
    requires idv == 20000 * j && j > 0 && p <= 56100 * j < 2 * p && p != 51200 * j
    ensures Times(1.28, idv as real) < p as real
    ensures p < 51200 * j ==> Times(1.28, idv as real) > 0.5 * p as real
    ensures p > 51200 * j ==> Times(1.28, idv as real) < 0.5 * p as real
  {
    assert Times(1.28, idv as real) == (25600 * j) as real;
  }

  /** The rate the handlers quote, at a multiple of 20000. */
  lemma ZoneThreeAtMultiple(j: int, idv: int, q: int)
    requires idv == 20000 * j && q == 561 * j && 0 < idv <= TRILLION
    ensures BasePremium(Round, ZONE_THREE, idv) == if Pow(TopExp(100 * q)) < 51200 * j then q - 1 else q
  {
    RoundIsFaithful();
    ZoneThreeCase(j, idv, q);
    ExactAtInteger(Round, ZONE_THREE, 561, idv);
    RawBaseIs(ZONE_THREE, idv);
    ZoneThreeQuotient(j, idv, q);
  }

  lemma ZoneThreeExactly(idv: int)
    requires 0 < idv <= TRILLION
    ensures BasePremium(Round, ZONE_THREE, idv) == idv * 561 / 20000 - (if MissesFloor(ZONE_THREE, idv) then 1 else 0)
  {
    MultiplesOnly(idv);
    if idv % 20000 == 0 {
      MultipleExactly(idv, idv / 20000, 561 * (idv / 20000));
    } else {
      RoundIsFaithful();
      PremiumExactly(Round, ZONE_THREE, 561, idv);
    }
  }

  lemma MultipleExactly(idv: int, j: int, q: int)
    requires 0 < idv <= TRILLION && idv == 20000 * j && q == 561 * j
    ensures BasePremium(Round, ZONE_THREE, idv) == idv * 561 / 20000 - (if MissesFloor(ZONE_THREE, idv) then 1 else 0)
  {
    ZoneThreeAtMultiple(j, idv, q);
    MultipleOf(idv, j);
    MultipleOf(idv * 561, q);
    assert 100 * q == 56100 * j;
  }

  /** In binary64, for every product and zone and every insured value up to 10^12 rupiah, the base premium is the
      floor of the exact premium, except for one rupiah less where MissesFloor says so. */
  lemma TariffExactly(productType: string, zone: string, idv: int)
    requires productType in OJK_RATES && zone in ZONES && 0 <= idv <= TRILLION
    ensures zone in OJK_RATES[productType]
    ensures var rate, r := OJK_RATES[productType][zone], CalcPremium(Round, productType, zone, idv);
      && r.Success?
      && r.value.basePremium == ExactBase(rate, idv).Floor - (if MissesFloor(rate, idv) then 1 else 0)
  {
    TariffTable(productType, zone);
    var rate := OJK_RATES[productType][zone];
    if idv == 0 {
      ZeroValue(rate);
    } else {
      RateExactly(rate, idv);
    }
  }

  lemma ZeroValue(rate: Rate)
    ensures BasePremium(Round, rate, 0) == ExactBase(rate, 0).Floor == 0
  {
    MulZero(MidRate(Round, rate));
    MulZero((rate.min + rate.max) / 2.0);
  }

  lemma RateExactly(rate: Rate, idv: int)
    requires 0 < idv <= TRILLION
    requires rate in {Rate(1.80, 2.65), Rate(3.82, 4.20), ZONE_THREE, Rate(0.47, 0.56), Rate(1.40, 2.10), Rate(2.50, 3.00),
                      Rate(1.80, 2.50)}
    ensures BasePremium(Round, rate, idv) == ExactBase(rate, idv).Floor - (if MissesFloor(rate, idv) then 1 else 0)
  {
    RoundIsFaithful();
    if rate == ZONE_THREE {
      PremiumExactly(Round, rate, 561, idv);
      ZoneThreeExactly(idv);
    } else if rate == Rate(3.82, 4.20) {
      Mid802();
      PremiumExactly(Round, rate, 802, idv);
      LowMidNeverMisses(rate, 802, idv, 0.96);
    } else if rate == Rate(1.80, 2.50) {
      Mid430();
      PremiumExactly(Round, rate, 430, idv);
      LowMidNeverMisses(rate, 430, idv, 0.4);
    } else {
      HighRate(rate, idv);
    }
  }

  lemma HighRate(rate: Rate, idv: int)
    requires 0 < idv <= TRILLION
    requires rate in {Rate(1.80, 2.65), Rate(0.47, 0.56), Rate(1.40, 2.10), Rate(2.50, 3.00)}
    ensures BasePremium(Round, rate, idv) == ExactBase(rate, idv).Floor
  {
    RoundIsFaithful();
    Mid445();
    Mid103();
    Mid350();
    Mid550();
    var k := if rate == Rate(1.80, 2.65) then 445 else if rate == Rate(0.47, 0.56) then 103
             else if rate == Rate(1.40, 2.10) then 350 else 550;
    PremiumExactly(Round, rate, k, idv);
    HighMidNeverMisses(Round, rate, k, idv);
  }

  /** What the handlers quote. */
  lemma QuoteExactly(idv: int)
    requires 0 <= idv <= TRILLION
    ensures QuoteTotal(idv) == ExactBase(ZONE_THREE, idv).Floor + 160000 - (if MissesFloor(ZONE_THREE, idv) then 1 else 0)
  {
    TariffExactly("MOTOR_COMPREHENSIVE", "ZONE_3", idv);
  }

  /** The whole breakdown in binary64, with the midpoint of every product and zone in two-hundredths of a percent. */
  lemma BreakdownExactly(productType: string, zone: string, idv: int)
    requires productType in {"MOTOR_COMPREHENSIVE", "MOTOR_THIRD_PARTY", "MOTOR_FIRE_THEFT"}
    requires zone in {"ZONE_1", "ZONE_2", "ZONE_3", "ZONE_4", "ZONE_5"}
    requires 0 <= idv <= 1000000000000
    ensures var k :=
        if productType == "MOTOR_COMPREHENSIVE" then (if zone == "ZONE_1" then 445 else if zone == "ZONE_2" then 802 else 561)
        else if productType == "MOTOR_THIRD_PARTY" then 103
        else if zone == "ZONE_1" then 350 else if zone == "ZONE_2" then 550 else 430;
      var r := CalcPremium(Round, productType, zone, idv);
      && r.Success? && r.value.adminFee == 150000 && r.value.stampDuty == 10000
      && r.value.total == r.value.basePremium + 160000
      && r.value.basePremium ==
         idv * k / 20000 - (if k == 561 && idv % 20000 == 0 && MissesFloor(ZONE_THREE, idv) then 1 else 0)
  {
    var k :=
      if productType == "MOTOR_COMPREHENSIVE" then (if zone == "ZONE_1" then 445 else if zone == "ZONE_2" then 802 else 561)
      else if productType == "MOTOR_THIRD_PARTY" then 103
      else if zone == "ZONE_1" then 350 else if zone == "ZONE_2" then 550 else 430;
    TariffExactly(productType, zone, idv);
    RateHundredths(productType, zone, k);
    ExactFloor(OJK_RATES[productType][zone], k, idv);
  }

  lemma RateHundredths(productType: string, zone: string, k: int)
    requires productType in {"MOTOR_COMPREHENSIVE", "MOTOR_THIRD_PARTY", "MOTOR_FIRE_THEFT"}
    requires zone in {"ZONE_1", "ZONE_2", "ZONE_3", "ZONE_4", "ZONE_5"}
    requires k ==
      if productType == "MOTOR_COMPREHENSIVE" then (if zone == "ZONE_1" then 445 else if zone == "ZONE_2" then 802 else 561)
      else if productType == "MOTOR_THIRD_PARTY" then 103
      else if zone == "ZONE_1" then 350 else if zone == "ZONE_2" then 550 else 430
    ensures productType in OJK_RATES && zone in OJK_RATES[productType]
    ensures InHundredths(OJK_RATES[productType][zone], k)
    ensures OJK_RATES[productType][zone] == ZONE_THREE <==> k == 561
  {
  }

  lemma ExactFloor(rate: Rate, k: int, idv: int)
    requires InHundredths(rate, k)
    ensures ExactBase(rate, idv).Floor == idv * k / 20000
  {
    ExactIs(rate, k, idv);
    DivideReal(idv * k);
    FloorIs(ExactBase(rate, idv), idv * k / 20000);
  }
}
