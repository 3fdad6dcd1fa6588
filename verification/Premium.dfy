/** The OJK tariff table and the premium calculation, in rounded arithmetic. */
module Premium {
  import opened Float64

  datatype Rate = Rate(min: real, max: real)

  datatype PremiumBreakup = PremiumBreakup(basePremium: int, adminFee: int, stampDuty: int, total: int)

  datatype Result = Success(value: PremiumBreakup) | UnknownProduct | UnknownZone

  const ADMIN_FEE := 150000
  const STAMP_DUTY := 10000

  const ZONES := {"ZONE_1", "ZONE_2", "ZONE_3", "ZONE_4", "ZONE_5"}

  const OJK_RATES: map<string, map<string, Rate>> := map[
    "MOTOR_COMPREHENSIVE" := map[
      "ZONE_1" := Rate(1.80, 2.65),
      "ZONE_2" := Rate(3.82, 4.20),
      "ZONE_3" := Rate(2.53, 3.08),
      "ZONE_4" := Rate(2.53, 3.08),
      "ZONE_5" := Rate(2.53, 3.08)
    ],
    "MOTOR_THIRD_PARTY" := map[
      "ZONE_1" := Rate(0.47, 0.56),
      "ZONE_2" := Rate(0.47, 0.56),
      "ZONE_3" := Rate(0.47, 0.56),
      "ZONE_4" := Rate(0.47, 0.56),
      "ZONE_5" := Rate(0.47, 0.56)
    ],
    "MOTOR_FIRE_THEFT" := map[
      "ZONE_1" := Rate(1.40, 2.10),
      "ZONE_2" := Rate(2.50, 3.00),
      "ZONE_3" := Rate(1.80, 2.50),
      "ZONE_4" := Rate(1.80, 2.50),
      "ZONE_5" := Rate(1.80, 2.50)
    ]]

  /** Conversion of a float to int64: truncation toward zero. */
  function Truncate(x: real): int {
    if x >= 0.0 then x.Floor else -((-x).Floor)
  }

  /** The midpoint rate: both literals, their sum and its half are rounded. */
  function MidRate(rnd: real -> real, rate: Rate): real {
    rnd(rnd(rnd(rate.min) + rnd(rate.max)) / 2.0)
  }

  /** The quotient before truncation. */
  function RawBase(rnd: real -> real, rate: Rate, idv: int): real {
    rnd(rnd(Times(rnd(idv as real), MidRate(rnd, rate))) / 100.0)
  }

  function BasePremium(rnd: real -> real, rate: Rate, idv: int): int {
    Truncate(RawBase(rnd, rate, idv))
  }

  function CalcPremium(rnd: real -> real, productType: string, zone: string, idv: int): Result {
    if productType !in OJK_RATES then UnknownProduct
    else if zone !in OJK_RATES[productType] then UnknownZone
    else
      var base := BasePremium(rnd, OJK_RATES[productType][zone], idv);
      Success(PremiumBreakup(base, ADMIN_FEE, STAMP_DUTY, base + ADMIN_FEE + STAMP_DUTY))
  }

  /** The amount the init, confirm and reconcile handlers quote. */
  function QuoteTotal(idv: int): int {
    match CalcPremium(Round, "MOTOR_COMPREHENSIVE", "ZONE_3", idv)
    case Success(b) => b.total
    case _ => 0
  }

  predicate Plausible(rate: Rate) {
    0.0 < rate.min <= rate.max <= 4.2
  }

  /** Every product is priced in all five zones, and nowhere else. */
  lemma TariffTable(productType: string, zone: string)
    ensures CalcPremium(Round, productType, zone, 0).Success? <==>
      productType in {"MOTOR_COMPREHENSIVE", "MOTOR_THIRD_PARTY", "MOTOR_FIRE_THEFT"} && zone in ZONES
    ensures productType in OJK_RATES && zone in OJK_RATES[productType] ==> Plausible(OJK_RATES[productType][zone])
  {
  }

  /** y is x up to k units of relative error. */
  ghost predicate Near(x: real, y: real, k: real) {
    Abs(y - x) * TWO53 <= k * x
  }

  lemma MidRateError(rnd: real -> real, rate: Rate)
    requires Faithful(rnd) && Plausible(rate)
    ensures var mid := MidRate(rnd, rate);
      mid > 0.0 && Near((rate.min + rate.max) / 2.0, mid, 3.1)
  {
    var a := RoundNear(rnd, rate.min);
    var b := RoundNear(rnd, rate.max);
    var s := RoundNear(rnd, a + b);
    var mid := RoundNear(rnd, s / 2.0);
  }

  lemma RoundNear(rnd: real -> real, x: real) returns (y: real)
    requires Faithful(rnd) && x > 0.0
    ensures y == rnd(x) && y > 0.0 && Near(x, y, 1.0)
  {
    y := rnd(x);
    assert WithinUnit(rnd, x);
  }

  lemma ScaleNear(f: real, x: real, y: real)
    requires f >= 0.0 && Near(x, y, 3.1)
    ensures Near(Times(f, x), Times(f, y), 3.1)
  {
    MulMonotone(f, Abs(y - x) * TWO53, 3.1 * x);
    Distribute(f, x, y);
    assert f * (Abs(y - x) * TWO53) == Abs(f * y - f * x) * TWO53;
  }

  lemma Distribute(f: real, x: real, y: real)
    requires f >= 0.0
    ensures Abs(f * y - f * x) == f * Abs(y - x)
  {
    assert f * y - f * x == f * (y - x);
  }

  lemma MulMonotone(f: real, x: real, y: real)
    requires f >= 0.0 && x <= y
    ensures f * x <= f * y && Times(x, f) <= Times(y, f)
  {
  }

  /** The exact premium, a rational number of rupiah. */
  function ExactBase(rate: Rate, idv: int): real {
    Times(idv as real, (rate.min + rate.max) / 2.0) / 100.0
  }

  /** The rounded premium before truncation is less than one rupiah away from the exact one. */
  lemma RoundedPremiumError(rnd: real -> real, rate: Rate, idv: int)
    requires Faithful(rnd) && Plausible(rate) && 0 < idv <= 9007199254740992
    ensures var r := RawBase(rnd, rate, idv);
      && r > 0.0 && Near(ExactBase(rate, idv), r, 5.2)
      && Abs(r - ExactBase(rate, idv)) < 1.0
  {
    var f, exact, mid := idv as real, (rate.min + rate.max) / 2.0, MidRate(rnd, rate);
    assert rnd(f) == f by { assert KeepsInteger(rnd, idv); }
    MidRateError(rnd, rate);
    ScaleNear(f, exact, mid);
    MulMonotone(mid, 1.0, f);
    var p := RoundNear(rnd, Times(f, mid));
    var r := RoundNear(rnd, p / 100.0);
    MulMonotone(f, exact, 4.2);
    Accumulate(Times(f, exact), Times(f, mid), p, r);
  }

  /** The accumulated error of the rate, the product and the quotient, for products below 4.2 * 2^53. */
  lemma Accumulate(exact: real, product: real, p: real, r: real)
    requires 0.0 < exact <= 4.2 * TWO53 && Near(exact, product, 3.1)
    requires Near(product, p, 1.0) && Near(p / 100.0, r, 1.0)
    ensures Abs(r - exact / 100.0) < 1.0 && Near(exact / 100.0, r, 5.2)
  {
  }

  /** Floating point moves the truncated base premium by at most one rupiah,
      and the total is always the base plus the two fixed fees. */
  lemma PremiumWithinOneRupiah(rnd: real -> real, productType: string, zone: string, idv: int)
    requires Faithful(rnd)
    requires productType in OJK_RATES && zone in ZONES
    requires 0 <= idv <= 9007199254740992
    ensures zone in OJK_RATES[productType]
    ensures var r := CalcPremium(rnd, productType, zone, idv);
      && r.Success?
      && -1 <= r.value.basePremium - ExactBase(OJK_RATES[productType][zone], idv).Floor <= 1
      && r.value.total == r.value.basePremium + 160000
  {
    TariffTable(productType, zone);
    BaseWithinOne(rnd, OJK_RATES[productType][zone], idv);
  }

  lemma BaseWithinOne(rnd: real -> real, rate: Rate, idv: int)
    requires Faithful(rnd) && Plausible(rate) && 0 <= idv <= 9007199254740992
    ensures -1 <= BasePremium(rnd, rate, idv) - ExactBase(rate, idv).Floor <= 1
  {
    if idv == 0 {
      assert KeepsInteger(rnd, 0);
      MulZero(MidRate(rnd, rate));
      MulZero((rate.min + rate.max) / 2.0);
    } else {
      RoundedPremiumError(rnd, rate, idv);
    }
  }

  lemma MulZero(x: real)
    ensures Times(0.0, x) == 0.0
  {
  }

  /** A larger insured value never costs less, whatever monotone rounding is used. */
  lemma PremiumMonotone(rnd: real -> real, productType: string, zone: string, idv: int, larger: int)
    requires Monotone(rnd) && rnd(0.0) == 0.0
    requires idv <= larger
    requires CalcPremium(rnd, productType, zone, idv).Success?
    ensures var r := CalcPremium(rnd, productType, zone, larger);
      && r.Success?
      && CalcPremium(rnd, productType, zone, idv).value.total <= r.value.total
  {
    TariffTable(productType, zone);
    BaseMonotone(rnd, OJK_RATES[productType][zone], idv, larger);
  }

  lemma BaseMonotone(rnd: real -> real, rate: Rate, idv: int, larger: int)
    requires Monotone(rnd) && rnd(0.0) == 0.0 && Plausible(rate) && idv <= larger
    ensures BasePremium(rnd, rate, idv) <= BasePremium(rnd, rate, larger)
  {
    var mid := MidRate(rnd, rate);
    var a, b := rnd(rate.min), rnd(rate.max);
    assert KeepsOrder(rnd, 0.0, rate.min) && KeepsOrder(rnd, 0.0, rate.max);
    assert KeepsOrder(rnd, 0.0, a + b);
    assert KeepsOrder(rnd, 0.0, rnd(a + b) / 2.0);
    var x, y := rnd(idv as real), rnd(larger as real);
    assert KeepsOrder(rnd, idv as real, larger as real);
    MulMonotone(mid, x, y);
    assert KeepsOrder(rnd, Times(x, mid), Times(y, mid));
    assert KeepsOrder(rnd, rnd(Times(x, mid)) / 100.0, rnd(Times(y, mid)) / 100.0);
    TruncateMonotone(rnd(rnd(Times(x, mid)) / 100.0), rnd(rnd(Times(y, mid)) / 100.0));
  }

  lemma TruncateMonotone(x: real, y: real)
    requires x <= y
    ensures Truncate(x) <= Truncate(y)
  {
  }

  /** What the handlers quote is never zero for a non-negative insured value. */
  lemma QuotePositive(idv: int)
    requires idv >= 0
    ensures QuoteTotal(idv) >= 160000
  {
    RoundIsFaithful();
    PremiumMonotone(Round, "MOTOR_COMPREHENSIVE", "ZONE_3", 0, idv);
    assert KeepsInteger(Round, 0);
    MulZero(MidRate(Round, Rate(2.53, 3.08)));
  }

  /** The repository's sample amount: an insured value of 210 million costs 6,050,499,
      although the exact premium plus fees is the integer 6,050,500. */
  lemma SampleAmount()
    ensures QuoteTotal(210000000) == 6050499
    ensures ExactBase(Rate(2.53, 3.08), 210000000) == 5890500.0
  {
    var a, b := 5697053528623677.0 / 2251799813685248.0, 6935543426150564.0 / 2251799813685248.0;
    assert RoundPositive(2.53) == a by { Scaled51(2.53, 5697053528623677); }
    assert RoundPositive(3.08) == b by { Scaled51(3.08, 6935543426150564); }
    var s := 6316298477387120.0 / 1125899906842624.0;
    assert RoundPositive(a + b) == s by { Scaled50(a + b, 6316298477387120); }
    assert RoundPositive(s / 2.0) == s / 2.0 by { Scaled51(s / 2.0, 6316298477387120); }
    IntegersExact(210000000);
    var p := 4941309542399999.0 / 8388608.0;
    assert RoundPositive(210000000.0 * (s / 2.0)) == p by { Scaled23(210000000.0 * (s / 2.0), 4941309542399999); }
    var q := 6324876214271999.0 / 1073741824.0;
    assert RoundPositive(p / 100.0) == q by { Scaled30(p / 100.0, 6324876214271999); }
    assert q.Floor == 5890499;
  }

  /** y lies in the binade of 53-bit integers and m is the one it rounds to. */
  predicate Rounds(y: real, m: int) {
    && TWO52 <= y < TWO53
    && (m as real - 0.5 < y < m as real + 0.5 || (m % 2 == 0 && Abs(y - m as real) == 0.5))
  }

  /** The significand of x is m when x lies within half a unit of m at scale 2^-k. */
  lemma Scaled30(x: real, m: int)
    requires Rounds(1073741824.0 * x, m)
    ensures RoundPositive(x) == m as real / 1073741824.0
  {
    ScaleBy30(x);
    NearestIs(1073741824.0 * x, m);
  }

  lemma Scaled23(x: real, m: int)
    requires Rounds(8388608.0 * x, m)
    ensures RoundPositive(x) == m as real / 8388608.0
  {
    ScaleBy20(x);
    ScaleBy8(1048576.0 * x);
    NearestIs(8388608.0 * x, m);
  }

  lemma Scaled50(x: real, m: int)
    requires Rounds(1125899906842624.0 * x, m)
    ensures RoundPositive(x) == m as real / 1125899906842624.0
  {
    ScaleBy20(x);
    ScaleBy30(1048576.0 * x);
    NearestIs(1125899906842624.0 * x, m);
  }

  lemma Scaled51(x: real, m: int)
    requires Rounds(2251799813685248.0 * x, m)
    ensures RoundPositive(x) == m as real / 2251799813685248.0
  {
    ScaleBy20(x);
    ScaleBy30(1048576.0 * x);
    ScaleByTwo(1125899906842624.0 * x);
    NearestIs(2251799813685248.0 * x, m);
  }

  lemma NearestIs(y: real, m: int)
    requires Rounds(y, m)
    ensures RoundPositive(y) == m as real
  {
    var low := y.Floor;
    if y < m as real {
      assert low == m - 1;
    } else {
      assert low == m;
    }
  }
}
