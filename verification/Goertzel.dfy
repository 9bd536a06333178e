/** The Goertzel filter of the DTMF detector: one resonator over a window of
    samples, followed by a 16-bit evaluation of its squared magnitude. */
module Goertzel {
  import opened Arithmetic
  import opened FixedPoint
  import opened Resonator
  import Spectrum
  import Response

  /** Eighteen filter coefficients: the eight dial tones, two in-band guards, and
      eight out-of-band tones that a valid key must dominate. */
  const CONSTANTS: seq<int> :=
    [27860, 26745, 25529, 24216, 19747, 16384, 12773, 8967, 21319,
     29769, 32706, 32210, 31778, 31226, -1009, -12772, -22811, -30555]

  const REST := Osc(0, 0)

  const WINDOW := 102  // the standard window length

  /** The state of the filter after a window. */
  function Filter(k: int, w: seq<int>): Osc {
    Run(k, w, REST)
  }

  /** Both values of a state without their ten low bits. */
  function Scaled(s: Osc): Osc {
    Osc(s.v1 / 0x400, s.v2 / 0x400)
  }

  /** The magnitude of a scaled state, with the code's 16-bit conversions. */
  function Magnitude(k: int, s: Osc): int {
    var a, b := Wrap16(s.v1), Wrap16(s.v2);
    var m := Wrap16(Mpy48sr(k, Wrap32(2 * s.v1)));
    Wrap32(Wrap32(a * a + b * b) - m * b)
  }

  /** What one filter reports for a window. */
  function Power(k: int, w: seq<int>): int {
    Magnitude(k, Scaled(Filter(k, w)))
  }

  /** The quadratic form that the magnitude of a scaled state stands for. */
  function Form(k: int, s: Osc): int {
    s.v1 * s.v1 + s.v2 * s.v2 - Round15(k, 2 * s.v1) * s.v2
  }

  /** None of the 16-bit conversions in Magnitude changes its operand. */
  predicate CastsExact(k: int, s: Osc) {
    IsInt16(s.v1) && IsInt16(s.v2) && IsInt16(Round15(k, 2 * s.v1))
  }

  ghost predicate IsWindow(w: seq<int>) {
    forall n | 0 <= n < |w| :: IsInt16(w[n])
  }

  // ---------------------------------------------------------------------------
  // 32-bit exactness of the filter loop
  // ---------------------------------------------------------------------------

  /** For every coefficient and every window of up to 2014 samples, no operation
      of the loop overflows 32 bits: the filter is the ideal resonator. */
  lemma FilterNeverOverflows(k: int, w: seq<int>)
    requires k in CONSTANTS && IsWindow(w) && |w| <= 2014
    ensures RunExact(k, w, REST)
    ensures Filter(k, w) == IdealRun(k, w, REST)
    ensures Within(Filter(k, w), 1073335963)
  {
    assert 2014 * Growth(0x8000) == 2162549030912;
    assert Confines(32706, 2162549030912, 1073335963);
    assert -32706 <= k <= 32706;
    hide *;
    ConfinesSmaller(k, 32706, 2162549030912, 1073335963);
    FilterBound(k, w, 2014, 1073335963);
  }

  /** The energy bound for windows of n samples, given the resulting limit v. */
  lemma FilterBound(k: int, w: seq<int>, n: nat, v: int)
    requires IsWindow(w) && |w| <= n && v <= 0x3FFF_BFFF
    requires Confines(k, n * Growth(0x8000), v)
    ensures RunExact(k, w, REST)
    ensures Filter(k, w) == IdealRun(k, w, REST)
    ensures Within(Filter(k, w), v)
    ensures Calm(k, Filter(k, w), |w| * Growth(0x8000))
  {
    assert Energy(k, REST) == 0;
    assert Bounded(w, 0x8000);
    ReachIsLinear(0, Growth(0x8000), n);
    ReachIsLinear(0, Growth(0x8000), |w|);
    hide *;
    RunIsIdeal(k, w, REST, 0, 0x8000, v, n);
  }

  // ---------------------------------------------------------------------------
  // 16-bit exactness of the magnitude
  // ---------------------------------------------------------------------------

  /** Rounding 2c * a never exceeds 2 * |a| in magnitude. */
  lemma RoundBelowDouble(k: int, a: int, v: int)
    requires -ONE <= k <= ONE && -v <= a <= v
    ensures -2 * v <= Round15(k, 2 * a) <= 2 * v
  {
    ScaledProduct(k, a, v);
    assert k * (2 * a) == 2 * (k * a);
    var r := Round15(k, 2 * a);
    assert -0x4000 <= 0x8000 * r - 2 * (k * a) <= 0x4000;
  }

  lemma ScaledProduct(k: int, a: int, v: int)
    requires -ONE <= k <= ONE && -v <= a <= v
    ensures -(ONE * v) <= k * a <= ONE * v
  {
    AbsProduct(k, a, ONE, v);
    AbsProduct(-k, a, ONE, v);
  }

  /** For scaled values within 16383 every conversion is exact, the magnitude is
      the quadratic form it stands for, and it is not negative. */
  lemma MagnitudeExact(k: int, s: Osc, v: int)
    requires -ONE < k < ONE && Within(s, v) && v <= 16383
    ensures CastsExact(k, s)
    ensures Magnitude(k, s) == Form(k, s)
    ensures 0 <= Magnitude(k, s) <= 4 * (v * v)
  {
    RoundBelowDouble(k, s.v1, v);
    RoundBelowDouble(k, s.v1, if s.v1 < 0 then -s.v1 else s.v1);
    Mpy48srRounds(k, 2 * s.v1);
    var m := Round15(k, 2 * s.v1);
    assert Mpy48sr(k, Wrap32(2 * s.v1)) == m;
    hide Round15, Mpy48sr, Wrap16, Wrap32;
    FormRange(s.v1, s.v2, m, v);
  }

  /** a^2 + b^2 - m * b lies between 0 and 4 * v^2 whenever |m| <= 2 * |a|. */
  lemma FormRange(a: int, b: int, m: int, v: int)
    requires -v <= a <= v && -v <= b <= v && v <= 16383
    requires -2 * a <= m <= 2 * a || 2 * a <= m <= -2 * a
    ensures 0 <= a * a + b * b <= 0x3FFF_FFFF
    ensures 0 <= a * a + b * b - m * b <= 4 * (v * v) <= 0x3FFF_FFFF
  {
    SquaresWithin(a, b, v);
    CrossTerm(a, b, m);
  }

  lemma SquaresWithin(a: int, b: int, v: int)
    requires -v <= a <= v && -v <= b <= v && v <= 16383
    ensures a * a + b * b <= 2 * (v * v) <= 2 * (16383 * 16383)
  {
    SquareOrder'(a, v);
    SquareOrder'(b, v);
    SquareOrder'(v, 16383);
  }

  lemma CrossTerm(a: int, b: int, m: int)
    requires -2 * a <= m <= 2 * a || 2 * a <= m <= -2 * a
    ensures -(a * a + b * b) <= m * b <= a * a + b * b
  {
    var p, q := if a < 0 then -a else a, if b < 0 then -b else b;
    AbsProduct(m, b, 2 * p, q);
    AbsProduct(-m, b, 2 * p, q);
    SquareNonNegative(p - q);
    assert p * p == a * a && q * q == b * b;
    hide *;
    Squared(p, q);
  }

  lemma Squared(p: int, q: int)
    ensures (p - q) * (p - q) == p * p - 2 * p * q + q * q
  {
  }

  /** A window of up to 102 samples keeps the scaled values of every filter but
      that of coefficient 32706 within 16383. */
  lemma ScaledValues(k: int, w: seq<int>)
    requires k in CONSTANTS && k != 32706 && IsWindow(w) && |w| <= WINDOW
    ensures Within(Scaled(Filter(k, w)), 16383)
  {
    if k == 32210 {
      NarrowFilter(w);
      if w == [] {
        assert Filter(k, w) == REST;
      } else {
        var init := w[..|w| - 1];
        NarrowFilter(init);
        assert Filter(k, w).v2 == Filter(k, init).v1;
      }
    } else {
      assert -31778 <= k <= 31778;
      LimitedScaled(k, w, 31778, 13701068, 13380);
    }
  }

  /** Energy bounds the scaled values for coefficients up to a limit. */
  lemma LimitedScaled(k: int, w: seq<int>, limit: int, v: int, u: int)
    requires IsWindow(w) && |w| <= WINDOW && -limit <= k <= limit
    requires Confines(limit, 109523337216, v) && v <= 0x3FFF_BFFF && v <= 0x400 * u
    ensures Within(Scaled(Filter(k, w)), u)
  {
    assert 102 * Growth(0x8000) == 109523337216;
    ConfinesSmaller(k, limit, 109523337216, v);
    FilterBound(k, w, 102, v);
  }

  /** For coefficient 32210 energy is not enough; the impulse response is. */
  lemma NarrowFilter(w: seq<int>)
    requires IsWindow(w) && |w| <= WINDOW
    ensures -13810000 <= Filter(32210, w).v1 <= 13810000
  {
    FilterNeverOverflows(32210, w);
    assert Bounded(w, 0x8000);
    Response.PeakBound(32210, w, 0x8000);
    GainOfNarrow(|w|);
    hide Filter, IdealRun, Response.Gain, Spectrum.Cosine;
  }

  lemma GainOfNarrow(n: nat)
    requires n <= WINDOW
    ensures Response.Gain(Spectrum.Cosine(32210), n) <= 421.2
  {
    var c := 16105.0 / 16384.0;
    assert Spectrum.Cosine(32210) == c;
    Response.GainBound(c, 9064431.0 / 268435456.0, n, 4.0);
    hide Response.Gain, Spectrum.Cosine;
    LimitOfNarrow(n, Response.Gain(c, n));
  }

  lemma LimitOfNarrow(n: nat, gain: real)
    requires n <= WINDOW && Response.GainLimit(9064431.0 / 268435456.0, n, 4.0, gain)
    ensures gain <= 421.2
  {
  }

  // ---------------------------------------------------------------------------
  // The one coefficient whose conversions can fail
  // ---------------------------------------------------------------------------

  const WIDE_COSINE := 16353.0 / 16384.0  // of coefficient 32706

  /** Forty-eight turns come close to a half circle (modulo full circles). */
  lemma FortyEightTurns()
    ensures Response.CosineOf(WIDE_COSINE, 48) <= -0.95
  {
    TurnsDoubled(WIDE_COSINE);
  }

  lemma TurnsDoubled(c: real)
    requires 0.9981 <= c <= 0.99811
    ensures Response.CosineOf(c, 48) <= -0.95
  {
    Response.CosineFirst(c);
    hide *;
    Response.CosineDoubled(c, 1);
    Response.CosineDoubled(c, 2);
    Response.CosineDoubled(c, 4);
    Response.CosineDoubled(c, 8);
    Response.CosineDoubled(c, 16);
    Response.CosineProducts(c, 32, 16);
    var t2, t4, t8, t16, t32 := Response.CosineOf(c, 2), Response.CosineOf(c, 4),
      Response.CosineOf(c, 8), Response.CosineOf(c, 16), Response.CosineOf(c, 32);
    SquareRange(c, 0.9981, 0.99811);
    SquareRange(t2, 0.9924, 0.99246);
    SquareRange(t4, 0.9697, 0.96996);
    SquareRange(t8, 0.8806, 0.8817);
    SquareRange(t16, 0.5509, 0.5548);
    LastProduct(t32, t16);
  }

  lemma SquareRange(t: real, lo: real, hi: real)
    requires 0.0 <= lo <= t <= hi
    ensures lo * lo <= Response.Product(t, t) <= hi * hi
  {
    Spectrum.ProductSign(t - lo, t + lo);
    Spectrum.ProductSign(hi - t, hi + t);
    assert (t - lo) * (t + lo) == t * t - lo * lo;
    assert (hi - t) * (hi + t) == hi * hi - t * t;
  }

  lemma LastProduct(t32: real, t16: real)
    requires t32 <= -0.384 && 0.55 <= t16
    ensures 2.0 * Response.Product(t32, t16) - t16 <= -0.95
  {
    Spectrum.ProductSign(-0.384 - t32, t16);
  }

  /** A state whose energy is at most 576 has both values within 400. */
  lemma SmallDeviation(d: Spectrum.Wave)
    requires Spectrum.EnergyOf(WIDE_COSINE, d) <= 576.0
    ensures -400.0 <= d.v1 <= 400.0 && -400.0 <= d.v2 <= 400.0
  {
    var c := WIDE_COSINE;
    assert (d.v1 - c * d.v2) * (d.v1 - c * d.v2) == d.v1 * d.v1 - 2.0 * c * (d.v1 * d.v2) + c * c * (d.v2 * d.v2);
    assert (d.v2 - c * d.v1) * (d.v2 - c * d.v1) == d.v2 * d.v2 - 2.0 * c * (d.v1 * d.v2) + c * c * (d.v1 * d.v1);
    Response.SquareOfReal(d.v1 - c * d.v2);
    Response.SquareOfReal(d.v2 - c * d.v1);
    Spectrum.RootOrder(d.v1, 400.0);
    Spectrum.RootOrder(d.v2, 400.0);
  }

  /** The two last values after 48 full-scale negative samples. */
  lemma ConstantDrive()
    ensures var s := IdealRun(32706, Response.Constant(-0x8000, 48), REST);
            s.v1 + s.v2 <= -33700000
  {
    var w := Response.Constant(-0x8000, 48);
    var s := IdealRun(32706, w, REST);
    var e, d := Spectrum.Exact(WIDE_COSINE, w), Spectrum.Deviation(32706, w);
    assert Spectrum.Cosine(32706) == WIDE_COSINE;
    assert s.v1 as real == e.v1 + d.v1 && s.v2 as real == e.v2 + d.v2;
    assert 0.5 * |w| as real == 24.0;
    Response.ConstantResponse(WIDE_COSINE, -0x8000, 48);
    FortyEightTurns();
    Spectrum.DeviationBound(32706, w);
    hide Spectrum.Deviation, Spectrum.Exact, IdealRun, Response.CosineOf, Response.Constant, Spectrum.Cosine;
    SmallDeviation(d);
    SumOfConstant(e, Response.CosineOf(WIDE_COSINE, 48), Response.CosineOf(WIDE_COSINE, 47));
  }

  lemma SumOfConstant(e: Spectrum.Wave, t0: real, t1: real)
    requires Response.Turned(WIDE_COSINE, (-0x8000) as real, e, t0, t1) && t0 <= -0.95
    ensures e.v1 + e.v2 <= -33770000.0
  {
  }

  lemma ConstantStep(k: int, x: int, n: nat)
    requires n > 0
    ensures Filter(k, Response.Constant(x, n)) == Step(k, x, Filter(k, Response.Constant(x, n - 1)))
  {
    hide Step;
    assert Response.Constant(x, n)[..n - 1] == Response.Constant(x, n - 1);
  }

  lemma {:induction false} ZerosKeepRest(k: int, n: nat)
    requires -ONE <= k < ONE
    ensures Filter(k, Response.Constant(0, n)) == REST
  {
    hide Step;
    if n > 0 {
      hide *;
      ConstantStep(k, 0, n);
      ZerosKeepRest(k, n - 1);
      RestStays(k);
    }
  }

  lemma RestStays(k: int)
    requires -ONE <= k < ONE
    ensures Step(k, 0, REST) == REST
  {
    Mpy48srRounds(k, 0);
    hide Mpy48sr, Wrap32;
  }

  lemma TooWide(s: Osc)
    requires s.v1 <= -16850000
    ensures !CastsExact(32706, Scaled(s))
  {
    assert Scaled(s).v1 <= -16455;
  }

  const SHORT_ROOT := 51540393984  // the root energy that 48 samples can reach

  /** After up to 48 samples, the energy keeps both values within 16 bits once scaled, and
      a low newest value keeps the older one low. */
  lemma ShortDrive(w: seq<int>)
    requires IsWindow(w) && |w| <= 48 && Filter(32706, w).v1 <= -16850000
    ensures Calm(32706, Filter(32706, w), SHORT_ROOT)
    ensures var s := Scaled(Filter(32706, w)); -25000 <= s.v1 <= -16455 && -25000 <= s.v2 < 0
  {
    hide *;
    var s := Filter(32706, w);
    ShortConfined();
    FilterBound(32706, w, 48, 25600000);
    MulMonotone(|w|, 48, Growth(0x8000));
    CalmLonger(32706, s, |w| * Growth(0x8000), SHORT_ROOT);
    OlderFollows(s);
  }

  lemma ShortConfined()
    ensures 48 * Growth(0x8000) == SHORT_ROOT && Growth(0x8000) >= 0
    ensures Confines(32706, SHORT_ROOT, 25600000)
  {
  }

  lemma CalmLonger(k: int, s: Osc, e: int, e': int)
    requires Calm(k, s, e) && 0 <= e <= e'
    ensures Calm(k, s, e')
  {
    SquareOrder'(e, e');
  }

  lemma OlderFollows(s: Osc)
    requires Calm(32706, s, SHORT_ROOT) && Within(s, 25600000) && s.v1 <= -16850000
    ensures -25000 <= Scaled(s).v1 <= -16455 && -25000 <= Scaled(s).v2 < 0
  {
    VelocityBelowEnergy(32706, s);
    SquareOrder(Velocity(32706, s), SHORT_ROOT);
    hide Energy;
  }

  /** When rounding 2c * a leaves 16 bits, the conversion changes it by 2^16, which no
      later conversion can undo. */
  lemma CastShows(k: int, s: Osc)
    requires -ONE < k < ONE && IsInt16(s.v1) && IsInt16(s.v2) && s.v2 != 0 && !CastsExact(k, s)
    ensures Magnitude(k, s) != Form(k, s)
  {
    hide *;
    var b, m := s.v2, Round15(k, 2 * s.v1);
    CastLeaves(k, s);
    CastMoves(m);
    ProductMoves(m, Wrap16(m), b);
    WrapsDiffer(s.v1 * s.v1 + b * b, Wrap16(m) * b, m * b, b);
  }

  lemma CastLeaves(k: int, s: Osc)
    requires -ONE < k < ONE && IsInt16(s.v1) && IsInt16(s.v2) && !CastsExact(k, s)
    ensures var m := Round15(k, 2 * s.v1);
            && !IsInt16(m) && -0x1_0000 <= m <= 0x1_0000
            && Magnitude(k, s) == Wrap32(Wrap32(s.v1 * s.v1 + s.v2 * s.v2) - Wrap16(m) * s.v2)
            && Form(k, s) == s.v1 * s.v1 + s.v2 * s.v2 - m * s.v2
  {
    hide Mpy48sr, Round15, Wrap16, Wrap32;
    Mpy48srRounds(k, 2 * s.v1);
    RoundBelowDouble(k, s.v1, 0x8000);
    assert Mpy48sr(k, Wrap32(2 * s.v1)) == Round15(k, 2 * s.v1);
  }

  lemma CastMoves(m: int)
    requires !IsInt16(m) && -0x1_0000 <= m <= 0x1_0000
    ensures Wrap16(m) == m - 0x1_0000 || Wrap16(m) == m + 0x1_0000
  {
  }

  lemma ProductMoves(m: int, n: int, b: int)
    requires n == m - 0x1_0000 || n == m + 0x1_0000
    ensures n * b == m * b - 0x1_0000 * b || n * b == m * b + 0x1_0000 * b
  {
  }

  lemma WrapsDiffer(x: int, p: int, q: int, b: int)
    requires (p == q - 0x1_0000 * b || p == q + 0x1_0000 * b) && IsInt16(b) && b != 0
    ensures Wrap32(Wrap32(x) - p) != x - q
  {
  }

  /** For such a state the failed conversion makes the reported power large. */
  lemma CastRaises(s: Osc)
    requires -25000 <= s.v1 <= -16455 && -25000 <= s.v2 < 0
    ensures Magnitude(32706, s) >= 270000000
  {
    assert IsInt16(s.v1) && IsInt16(s.v2);
    hide *;
    LargeRound(s);
    CastLeaves(32706, s);
    RaisedForm(s.v1, s.v2, Wrap16(Round15(32706, 2 * s.v1)));
  }

  lemma LargeRound(s: Osc)
    requires s.v1 <= -16455 && IsInt16(s.v1)
    ensures !CastsExact(32706, s) && 0 <= Wrap16(Round15(32706, 2 * s.v1)) < 0x8000
  {
    RoundBelowDouble(32706, s.v1, 0x8000);
    assert Round15(32706, 2 * s.v1) < -0x8000;
    hide Round15;
  }

  lemma RaisedForm(a: int, b: int, n: int)
    requires -25000 <= a <= -16455 && -25000 <= b < 0 && 0 <= n < 0x8000
    ensures Wrap32(Wrap32(a * a + b * b) - n * b) >= 270000000
  {
    hide Wrap32;
    SquareBelow(-25000, -16455, a);
    SquareBelow(-25000, 0, b);
    AbsProduct(n, -b, 0x8000, 25000);
    MulMonotone(0, -b, n);
    NegatedProduct(n, b);
  }

  lemma NegatedProduct(n: int, b: int)
    ensures -b * n == -(n * b) && n * -b == -(n * b)
  {
  }

  lemma SquareBelow(lo: int, hi: int, a: int)
    requires lo <= a <= hi <= 0
    ensures hi * hi <= a * a <= lo * lo
  {
    SquareOrder'(a, -lo);
    SquareOrder'(hi, -a);
  }

  /** A state's older value is the newest value one sample earlier. */
  lemma OlderValue(k: int, x: int, n: nat)
    requires n > 0
    ensures Filter(k, Response.Constant(x, n)).v2 == Filter(k, Response.Constant(x, n - 1)).v1
  {
    ConstantStep(k, x, n);
  }

  /** Leading silence does not change what a window does to the filter. */
  lemma LeadingSilence(k: int, n: nat, w: seq<int>)
    requires -ONE <= k < ONE
    ensures Filter(k, Response.Constant(0, n) + w) == Filter(k, w)
  {
    ZerosKeepRest(k, n);
    RunConcat(k, Response.Constant(0, n), w, REST);
  }

  /** Silence that ends in n full-scale negative samples. */
  function Burst(n: nat): (w: seq<int>)
    requires n <= WINDOW
    ensures |w| == WINDOW && IsWindow(w)
  {
    Response.Constant(0, WINDOW - n) + Response.Constant(-0x8000, n)
  }

  /** For coefficient 32706 the conversions do fail, and falsify the power: a window
      that ends in 48 (or 47) full-scale equal samples drives the filter too far. */
  lemma WideFilter() returns (n: nat)
    ensures n == 47 || n == 48
    ensures !CastsExact(32706, Scaled(Filter(32706, Burst(n))))
    ensures Power(32706, Burst(n)) != Form(32706, Scaled(Filter(32706, Burst(n))))
    ensures Power(32706, Burst(n)) >= 270000000 && Calm(32706, Filter(32706, Burst(n)), SHORT_ROOT)
  {
    var d := Response.Constant(-0x8000, 48);
    ConstantDrive();
    FilterNeverOverflows(32706, d);
    OlderValue(32706, -0x8000, 48);
    n := if Filter(32706, d).v1 <= -16850000 then 48 else 47;
    var e := Response.Constant(-0x8000, n);
    assert IsWindow(e);
    LeadingSilence(32706, WINDOW - n, e);
    assert Power(32706, Burst(n)) == Magnitude(32706, Scaled(Filter(32706, Burst(n))));
    hide IdealRun, Filter, CastsExact, Scaled, IsWindow, Response.Constant, Magnitude, Form, Power, Calm, SHORT_ROOT;
    TooWide(Filter(32706, e));
    ShortDrive(e);
    CastRaises(Scaled(Filter(32706, e)));
    CastShows(32706, Scaled(Filter(32706, e)));
  }

  // ---------------------------------------------------------------------------
  // Main results
  // ---------------------------------------------------------------------------

  /** Of every coefficient but 32706, each window's conversions are exact, and the power
      reported is exactly the quadratic form of the scaled state, and non-negative. */
  lemma PowerExact(k: int, w: seq<int>)
    requires k in CONSTANTS && k != 32706 && IsWindow(w) && |w| <= WINDOW
    ensures CastsExact(k, Scaled(Filter(k, w)))
    ensures Power(k, w) == Form(k, Scaled(Filter(k, w)))
    ensures 0 <= Power(k, w) <= 4 * (16383 * 16383)
  {
    ScaledValues(k, w);
    assert Power(k, w) == Magnitude(k, Scaled(Filter(k, w)));
    hide Magnitude, Scaled, Filter, Within, Form, CastsExact;
    MagnitudeExact(k, Scaled(Filter(k, w)), 16383);
  }

  /** The sum of the ten in-band powers that the decision averages. */
  function InBandSum(w: seq<int>, n: nat): int
    requires n <= 10
  {
    if n == 0 then 0 else InBandSum(w, n - 1) + Power(CONSTANTS[n - 1], w)
  }

  /** No in-band power is large enough for the running sum to overflow. */
  lemma {:induction false} InBandSumFits(w: seq<int>, n: nat)
    requires IsWindow(w) && |w| <= WINDOW && n <= 10
    ensures 0 <= InBandSum(w, n) <= 153809604 * n + (if n == 10 then 90174796 else 0)
    ensures IsInt32(InBandSum(w, n))
  {
    hide InBandSum, Power, IsWindow, CONSTANTS;
    InBandNext(w, n);
    if n > 0 {
      InBandSumFits(w, n - 1);
      InBandPower(w, n - 1);
    }
  }

  lemma InBandNext(w: seq<int>, n: nat)
    requires n <= 10
    ensures InBandSum(w, n) == if n == 0 then 0 else InBandSum(w, n - 1) + Power(CONSTANTS[n - 1], w)
  {
    hide Power, CONSTANTS;
  }

  lemma InBandPower(w: seq<int>, i: nat)
    requires IsWindow(w) && |w| <= WINDOW && i < 10
    ensures 0 <= Power(CONSTANTS[i], w) <= if i == 9 then 243984400 else 153809604
  {
    var k := CONSTANTS[i];
    assert Power(k, w) == Magnitude(k, Scaled(Filter(k, w)));
    assert if i == 9 then k == 29769 else 0 <= k <= 27860;
    hide Magnitude, Scaled, Filter, IsWindow, Within;
    if i == 9 {
      LimitedScaled(k, w, 29769, 7997421, 7810);
      MagnitudeExact(k, Scaled(Filter(k, w)), 7810);
    } else {
      LimitedScaled(k, w, 27860, 6349182, 6201);
      MagnitudeExact(k, Scaled(Filter(k, w)), 6201);
    }
  }
}
