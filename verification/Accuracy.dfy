/** How well the power that a filter reports follows the window's Fourier sum: the whole
    way from the exact recurrence over rounding, the dropped bits and the 16-bit
    evaluation. */
module Accuracy {
  import opened FixedPoint
  import opened Resonator
  import opened Goertzel
  import opened Normalisation
  import opened Detection
  import Spectrum
  import Response

  // ---------------------------------------------------------------------------
  // The root of the energy is a seminorm
  // ---------------------------------------------------------------------------

  function Sum(x: Spectrum.Wave, y: Spectrum.Wave): Spectrum.Wave {
    Spectrum.Wave(x.v1 + y.v1, x.v2 + y.v2)
  }

  function Scale(a: real, x: Spectrum.Wave): Spectrum.Wave {
    Spectrum.Wave(a * x.v1, a * x.v2)
  }

  /** The bilinear form that belongs to the energy. */
  function Dot(c: real, x: Spectrum.Wave, y: Spectrum.Wave): real {
    x.v1 * y.v1 + x.v2 * y.v2 - c * (x.v1 * y.v2 + x.v2 * y.v1)
  }

  lemma EnergyOfSum(c: real, x: Spectrum.Wave, y: Spectrum.Wave)
    ensures Spectrum.EnergyOf(c, Sum(x, y)) ==
            Spectrum.EnergyOf(c, x) + 2.0 * Dot(c, x, y) + Spectrum.EnergyOf(c, y)
  {
    SquareOfSum(x.v1, y.v1);
    SquareOfSum(x.v2, y.v2);
    assert (x.v1 + y.v1) * (x.v2 + y.v2) == x.v1 * x.v2 + (x.v1 * y.v2 + x.v2 * y.v1) + y.v1 * y.v2;
    var p, q, r := x.v1 * x.v2, x.v1 * y.v2 + x.v2 * y.v1, y.v1 * y.v2;
    assert c * (p + q + r) == c * p + c * q + c * r;
  }

  lemma SquareOfSum(a: real, b: real)
    ensures (a + b) * (a + b) == a * a + 2.0 * (a * b) + b * b
  {
  }

  lemma EnergyOfScale(c: real, a: real, x: Spectrum.Wave)
    ensures Spectrum.EnergyOf(c, Scale(a, x)) == a * a * Spectrum.EnergyOf(c, x)
  {
    var p, q, r := x.v1 * x.v1, x.v2 * x.v2, x.v1 * x.v2;
    assert (a * x.v1) * (a * x.v1) == a * a * p;
    assert (a * x.v2) * (a * x.v2) == a * a * q;
    assert (a * x.v1) * (a * x.v2) == a * a * r;
    var s := a * a;
    assert s * (p + q - 2.0 * c * r) == s * p + s * q - 2.0 * c * (s * r);
  }

  /** Energy and bilinear form in coordinates in which they are diagonal. */
  lemma Diagonal(c: real, x: Spectrum.Wave, y: Spectrum.Wave)
    ensures Dot(c, x, y) == (x.v1 - c * x.v2) * (y.v1 - c * y.v2) + (1.0 - c * c) * (x.v2 * y.v2)
    ensures Spectrum.EnergyOf(c, x) == (x.v1 - c * x.v2) * (x.v1 - c * x.v2) + (1.0 - c * c) * (x.v2 * x.v2)
  {
    DiagonalProduct(c, x.v1, x.v2, y.v1, y.v2);
    DiagonalProduct(c, x.v1, x.v2, x.v1, x.v2);
  }

  lemma DiagonalProduct(c: real, a: real, b: real, d: real, e: real)
    ensures (a - c * b) * (d - c * e) + (1.0 - c * c) * (b * e) == a * d + b * e - c * (a * e + b * d)
  {
    assert (a - c * b) * (d - c * e) == a * d - c * (a * e) - c * (b * d) + c * c * (b * e);
  }

  lemma CauchySchwarz(c: real, x: Spectrum.Wave, y: Spectrum.Wave)
    requires -1.0 <= c <= 1.0
    ensures Response.Product(Dot(c, x, y), Dot(c, x, y))
         <= Response.Product(Spectrum.EnergyOf(c, x), Spectrum.EnergyOf(c, y))
    ensures 0.0 <= Spectrum.EnergyOf(c, x)
  {
    Diagonal(c, x, y);
    Diagonal(c, y, x);
    Response.SineSquared(c);
    hide Dot, Spectrum.EnergyOf;
    WeightedCauchy(1.0 - c * c, x.v1 - c * x.v2, x.v2, y.v1 - c * y.v2, y.v2);
  }

  lemma WeightedCauchy(q: real, a: real, b: real, d: real, e: real)
    requires 0.0 <= q
    ensures Response.Product(a * d + q * (b * e), a * d + q * (b * e))
         <= Response.Product(a * a + q * (b * b), d * d + q * (e * e))
    ensures 0.0 <= a * a + q * (b * b)
  {
    var m, n := a * d, b * e;
    assert (m + q * n) * (m + q * n) == m * m + 2.0 * q * (m * n) + q * q * (n * n);
    assert (a * a + q * (b * b)) * (d * d + q * (e * e))
        == (a * a) * (d * d) + q * ((a * a) * (e * e) + (b * b) * (d * d)) + q * q * ((b * b) * (e * e));
    assert (a * a) * (d * d) == m * m && (b * b) * (e * e) == n * n;
    CrossSquares(a, b, d, e);
    Response.SquareOfReal(a * e - b * d);
    Spectrum.ProductSign(q, (a * e - b * d) * (a * e - b * d));
    Spectrum.ProductSign(q, b * b);
  }

  lemma CrossSquares(a: real, b: real, d: real, e: real)
    ensures (a * a) * (e * e) + (b * b) * (d * d) == (a * e - b * d) * (a * e - b * d) + 2.0 * ((a * d) * (b * e))
  {
  }

  /** Products of bounds on roots bound the bilinear form. */
  lemma DotBound(c: real, x: Spectrum.Wave, y: Spectrum.Wave, a: real, b: real)
    requires -1.0 <= c <= 1.0 && 0.0 <= a && 0.0 <= b
    requires Spectrum.Calm(c, x, a) && Spectrum.Calm(c, y, b)
    ensures Dot(c, x, y) <= a * b
  {
    CauchySchwarz(c, x, y);
    CauchySchwarz(c, y, x);
    var d, e, f := Dot(c, x, y), Spectrum.EnergyOf(c, x), Spectrum.EnergyOf(c, y);
    hide Dot, Spectrum.EnergyOf;
    ProductOrder(e, a * a, f, b * b);
    assert (a * a) * (b * b) == (a * b) * (a * b);
    Spectrum.ProductSign(a, b);
    Spectrum.RootOrder(d, a * b);
  }

  lemma ProductOrder(e: real, a: real, f: real, b: real)
    requires 0.0 <= e <= a && 0.0 <= f <= b
    ensures e * f <= a * b
  {
    Spectrum.ProductSign(a - e, f);
    Spectrum.ProductSign(a, b - f);
    assert a * b - e * f == (a - e) * f + a * (b - f);
  }

  /** The triangle inequality, and its strict form. */
  lemma Triangle(c: real, x: Spectrum.Wave, y: Spectrum.Wave, a: real, b: real)
    requires -1.0 <= c <= 1.0 && 0.0 <= a && 0.0 <= b
    requires Spectrum.Calm(c, x, a) && Spectrum.Calm(c, y, b)
    ensures Spectrum.Calm(c, Sum(x, y), a + b)
    ensures Spectrum.EnergyOf(c, x) < a * a ==> Spectrum.EnergyOf(c, Sum(x, y)) < (a + b) * (a + b)
  {
    EnergyOfSum(c, x, y);
    DotBound(c, x, y, a, b);
    hide Dot, Spectrum.EnergyOf, Sum;
    SquareOfSum(a, b);
  }

  // ---------------------------------------------------------------------------
  // From the exact state to the scaled integer state
  // ---------------------------------------------------------------------------

  /** The energy of the exact recurrence after a window. */
  function SpectralEnergy(k: int, w: seq<int>): real {
    Spectrum.EnergyOf(Spectrum.Cosine(k), Spectrum.Exact(Spectrum.Cosine(k), w))
  }

  /** The bits that scaling drops. */
  function Dropped(s: Osc): Spectrum.Wave {
    Spectrum.Wave((s.v1 % 0x400) as real, (s.v2 % 0x400) as real)
  }

  lemma ScaledPlusDropped(s: Osc)
    ensures Response.AsWave(s) == Sum(Scale(1024.0, Response.AsWave(Scaled(s))), Dropped(s))
  {
    DividedBy1024(s.v1);
    DividedBy1024(s.v2);
  }

  lemma DividedBy1024(x: int)
    ensures x as real == 1024.0 * (x / 0x400) as real + (x % 0x400) as real
  {
    assert x == 0x400 * (x / 0x400) + x % 0x400;
  }

  lemma DroppedEnergy(c: real, s: Osc)
    requires -1.0 <= c <= 1.0
    ensures Spectrum.Calm(c, Dropped(s), 2048.0)
  {
    var a, b := (s.v1 % 0x400) as real, (s.v2 % 0x400) as real;
    assert 0.0 <= a <= 1023.0 && 0.0 <= b <= 1023.0;
    ProductOrder(a, 1023.0, a, 1023.0);
    ProductOrder(b, 1023.0, b, 1023.0);
    ProductOrder(a, 1023.0, b, 1023.0);
    Spectrum.ProductSign(a, b);
    Spectrum.ProductSign(1.0 + c, a * b);
    assert 2.0 * c * (a * b) == 2.0 * ((1.0 + c) * (a * b)) - 2.0 * (a * b);
  }

  /** How far the scaled state, times 1024, can be from the exact state. */
  function Slack(n: nat): (q: real)
    ensures 2048.0 <= q
  {
    0.5 * n as real + 2048.0
  }

  lemma Negated(c: real, x: Spectrum.Wave, b: real)
    requires Spectrum.Calm(c, x, b)
    ensures Spectrum.Calm(c, Scale(-1.0, x), b)
  {
    EnergyOfScale(c, -1.0, x);
    hide Spectrum.EnergyOf;
  }

  /** The error of the scaled state with respect to the exact one. */
  function Error(k: int, w: seq<int>): Spectrum.Wave {
    Sum(Spectrum.Deviation(k, w), Scale(-1.0, Dropped(IdealRun(k, w, Osc(0, 0)))))
  }

  lemma ErrorCalm(k: int, w: seq<int>)
    requires -ONE <= k <= ONE
    ensures Spectrum.Calm(Spectrum.Cosine(k), Error(k, w), Slack(|w|))
  {
    var c, s := Spectrum.Cosine(k), IdealRun(k, w, Osc(0, 0));
    assert -1.0 <= c <= 1.0;
    hide *;
    assert Error(k, w) == Sum(Spectrum.Deviation(k, w), Scale(-1.0, Dropped(s))) by { ErrorIs(k, w); }
    Spectrum.DeviationBound(k, w);
    DroppedEnergy(c, s);
    Negated(c, Dropped(s), 2048.0);
    Triangle(c, Spectrum.Deviation(k, w), Scale(-1.0, Dropped(s)), 0.5 * |w| as real, 2048.0);
    SlackIs(|w|);
  }

  lemma ErrorIs(k: int, w: seq<int>)
    ensures Error(k, w) == Sum(Spectrum.Deviation(k, w), Scale(-1.0, Dropped(IdealRun(k, w, Osc(0, 0)))))
  {
  }

  lemma SlackIs(n: nat)
    ensures Slack(n) == 0.5 * n as real + 2048.0
  {
  }

  /** The scaled state, times 1024, and the exact state differ by the error. */
  lemma ErrorSplits(k: int, w: seq<int>)
    ensures var e := Spectrum.Exact(Spectrum.Cosine(k), w);
            var t := Scale(1024.0, Response.AsWave(Scaled(IdealRun(k, w, Osc(0, 0)))));
            && t == Sum(e, Error(k, w))
            && e == Sum(t, Scale(-1.0, Error(k, w)))
  {
    ScaledPlusDropped(IdealRun(k, w, Osc(0, 0)));
    hide IdealRun, Spectrum.Exact, Scaled, Dropped;
  }

  // ---------------------------------------------------------------------------
  // From the scaled state to the power
  // ---------------------------------------------------------------------------

  /** The quadratic form in integers differs from the energy by one rounding. */
  lemma FormError(k: int, s: Osc, v: int)
    requires -v <= s.v2 <= v
    ensures var d := Form(k, s) as real - Spectrum.EnergyOf(Spectrum.Cosine(k), Response.AsWave(s));
            -0.5 * v as real <= d <= 0.5 * v as real
  {
    var a, b, r, c := s.v1, s.v2, Round15(k, 2 * s.v1), Spectrum.Cosine(k);
    Spectrum.ProductAsReal(a, a);
    Spectrum.ProductAsReal(b, b);
    Spectrum.ProductAsReal(r, b);
    Spectrum.RoundingError(k, a);
    var e := r as real - 2.0 * c * a as real;
    assert Form(k, s) as real == a as real * a as real + b as real * b as real - r as real * b as real;
    assert r as real * b as real == e * b as real + 2.0 * c * (a as real * b as real);
    hide Round15, Spectrum.Cosine;
    Spectrum.HalfTimes(e, b as real, v as real);
    Spectrum.HalfTimes(-e, b as real, v as real);
  }

  /** What 8192 units of power are at the scale of the window. */
  const FORM_SLACK := 8192.0 * 1048576.0

  /** A reported power follows an energy: at the scale of the window its root is within
      the slack of the energy's root, up to the rounding of the quadratic form. Roots
      are written as bounds p. */
  ghost predicate Tracks(energy: real, power: int, n: nat) {
    forall p: real :: TracksAt(energy, power, n, p)
  }

  ghost predicate TracksAt(energy: real, power: int, n: nat, p: real) {
    0.0 <= p ==>
      && (energy <= p * p ==>
            1048576.0 * power as real <= (p + Slack(n)) * (p + Slack(n)) + FORM_SLACK)
      && (Slack(n) <= p && p * p <= energy ==>
            (p - Slack(n)) * (p - Slack(n)) - FORM_SLACK <= 1048576.0 * power as real)
  }

  /** The scaled state follows the exact one in both directions. */
  lemma ScaledTracks(c: real, e: Spectrum.Wave, t: Spectrum.Wave, d: Spectrum.Wave, q: real, p: real)
    requires -1.0 <= c <= 1.0 && 0.0 <= p && 0.0 <= q && Spectrum.Calm(c, d, q)
    requires t == Sum(e, d) && e == Sum(t, Scale(-1.0, d))
    ensures Spectrum.EnergyOf(c, e) <= p * p ==> Spectrum.EnergyOf(c, t) <= (p + q) * (p + q)
    ensures q <= p && p * p <= Spectrum.EnergyOf(c, e) ==> (p - q) * (p - q) <= Spectrum.EnergyOf(c, t)
  {
    hide *;
    Negated(c, d, q);
    if Spectrum.EnergyOf(c, e) <= p * p {
      CalmBy(c, e, p);
      Triangle(c, e, d, p, q);
      CalmMeans(c, t, p + q);
    }
    if q <= p {
      StaysAbove(c, t, Scale(-1.0, d), q, p - q);
      RootsAdd(p, q);
    }
  }

  lemma CalmBy(c: real, x: Spectrum.Wave, b: real)
    requires Spectrum.EnergyOf(c, x) <= b * b
    ensures Spectrum.Calm(c, x, b)
  {
  }

  lemma CalmMeans(c: real, x: Spectrum.Wave, b: real)
    requires Spectrum.Calm(c, x, b)
    ensures Spectrum.EnergyOf(c, x) <= b * b
  {
  }

  lemma RootsAdd(p: real, q: real)
    ensures (p - q + q) * (p - q + q) == p * p
  {
  }

  lemma StaysAbove(c: real, x: Spectrum.Wave, y: Spectrum.Wave, q: real, r: real)
    requires -1.0 <= c <= 1.0 && 0.0 <= r && 0.0 <= q && Spectrum.Calm(c, y, q)
    ensures (r + q) * (r + q) <= Spectrum.EnergyOf(c, Sum(x, y)) ==> r * r <= Spectrum.EnergyOf(c, x)
  {
    hide *;
    if Spectrum.EnergyOf(c, x) < r * r {
      CalmBy(c, x, r);
      Triangle(c, x, y, r, q);
    }
  }

  /** For every coefficient but 32706, each filter's power follows the energy of the exact
      recurrence. */
  lemma PowerTracks(k: int, w: seq<int>)
    requires k in CONSTANTS && k != 32706 && IsWindow(w) && |w| <= WINDOW
    ensures Tracks(SpectralEnergy(k, w), Power(k, w), |w|)
  {
    forall p: real ensures TracksAt(SpectralEnergy(k, w), Power(k, w), |w|, p) {
      if 0.0 <= p {
        PowerTracksAt(k, w, p);
      }
    }
    hide SpectralEnergy, Power;
  }

  lemma PowerTracksAt(k: int, w: seq<int>, p: real)
    requires k in CONSTANTS && k != 32706 && IsWindow(w) && |w| <= WINDOW && 0.0 <= p
    ensures TracksAt(SpectralEnergy(k, w), Power(k, w), |w|, p)
  {
    hide *;
    var c, s := Spectrum.Cosine(k), Filter(k, w);
    PowerFacts(k, w);
    var e, t := Spectrum.Exact(c, w), Response.AsWave(Scaled(s));
    ErrorSplits(k, w);
    ErrorCalm(k, w);
    ScaledTracks(c, e, Scale(1024.0, t), Error(k, w), Slack(|w|), p);
    EnergyOfScale(c, 1024.0, t);
    FormError(k, Scaled(s), 16383);
    TracksBy(SpectralEnergy(k, w), Power(k, w), |w|, p, Spectrum.EnergyOf(c, t));
  }

  lemma PowerFacts(k: int, w: seq<int>)
    requires k in CONSTANTS && k != 32706 && IsWindow(w) && |w| <= WINDOW
    ensures -ONE <= k <= ONE && -1.0 <= Spectrum.Cosine(k) <= 1.0
    ensures Filter(k, w) == IdealRun(k, w, Osc(0, 0))
    ensures Power(k, w) == Form(k, Scaled(Filter(k, w)))
    ensures -16383 <= Scaled(Filter(k, w)).v2 <= 16383
    ensures SpectralEnergy(k, w) == Spectrum.EnergyOf(Spectrum.Cosine(k), Spectrum.Exact(Spectrum.Cosine(k), w))
  {
    assert -ONE <= k <= ONE && -1.0 <= Spectrum.Cosine(k) <= 1.0;
    hide Power, Form, Scaled, Filter, IdealRun, IsWindow, CONSTANTS, Spectrum.EnergyOf, Spectrum.Exact, CastsExact;
    FilterNeverOverflows(k, w);
    ScaledValues(k, w);
    PowerExact(k, w);
  }

  lemma TracksBy(energy: real, power: int, n: nat, p: real, scaled: real)
    requires energy <= p * p ==> 1024.0 * 1024.0 * scaled <= (p + Slack(n)) * (p + Slack(n))
    requires Slack(n) <= p && p * p <= energy ==> (p - Slack(n)) * (p - Slack(n)) <= 1024.0 * 1024.0 * scaled
    requires -0.5 * 16383.0 <= power as real - scaled <= 0.5 * 16383.0
    ensures TracksAt(energy, power, n, p)
  {
    hide Slack;
  }

  // ---------------------------------------------------------------------------
  // The coefficient whose power does not follow
  // ---------------------------------------------------------------------------

  /** The integer energy, in units of 2^30, is the energy of the state as a wave. */
  lemma EnergyAsReal(k: int, s: Osc)
    ensures Energy(k, s) as real == 1073741824.0 * Spectrum.EnergyOf(Spectrum.Cosine(k), Response.AsWave(s))
  {
    var a, b := s.v1, s.v2;
    Spectrum.ProductAsReal(a, a);
    Spectrum.ProductAsReal(b, b);
    Spectrum.ProductAsReal(a, b);
    Spectrum.ProductAsReal(k, a * b);
    var x, y, z := (a * a) as real, (b * b) as real, (a * b) as real;
    assert k as real == 32768.0 * Spectrum.Cosine(k);
    assert Energy(k, s) == 32768 * (32768 * (a * a + b * b) - 2 * (k * (a * b)));
    assert Energy(k, s) as real == 32768.0 * (32768.0 * (x + y) - 2.0 * (k as real * z));
    hide Energy, Spectrum.Cosine;
  }

  /** The failing windows carry little energy at the filter's frequency. */
  lemma BurstEnergy(w: seq<int>)
    requires IsWindow(w) && |w| == WINDOW && Calm(32706, Filter(32706, w), SHORT_ROOT)
    ensures SpectralEnergy(32706, w) <= 1572939.0 * 1572939.0
  {
    hide *;
    var c, s, d := Spectrum.Cosine(32706), Filter(32706, w), Spectrum.Deviation(32706, w);
    BurstFacts(w);
    ShortEnergy(s);
    Spectrum.DeviationBound(32706, w);
    Negated(c, d, 51.0);
    Triangle(c, Response.AsWave(s), Scale(-1.0, d), 1572888.0, 51.0);
    CalmMeans(c, Sum(Response.AsWave(s), Scale(-1.0, d)), 1572939.0);
  }

  lemma BurstFacts(w: seq<int>)
    requires IsWindow(w) && |w| == WINDOW
    ensures var c := Spectrum.Cosine(32706);
            && -1.0 <= c <= 1.0 && -ONE <= 32706 <= ONE && 0.5 * |w| as real == 51.0
            && SpectralEnergy(32706, w) == Spectrum.EnergyOf(c,
                 Sum(Response.AsWave(Filter(32706, w)), Scale(-1.0, Spectrum.Deviation(32706, w))))
  {
    FilterNeverOverflows(32706, w);
    var c := Spectrum.Cosine(32706);
    assert -1.0 <= c <= 1.0;
    hide Filter, Spectrum.EnergyOf, Spectrum.Exact, IdealRun;
    assert Spectrum.Exact(c, w) == Sum(Response.AsWave(Filter(32706, w)), Scale(-1.0, Spectrum.Deviation(32706, w)));
  }

  lemma ShortEnergy(s: Osc)
    requires Calm(32706, s, SHORT_ROOT)
    ensures Spectrum.Calm(Spectrum.Cosine(32706), Response.AsWave(s), 1572888.0)
  {
    EnergyAsReal(32706, s);
    hide Energy, Spectrum.EnergyOf, Spectrum.Cosine;
  }

  lemma DoesNotTrack(energy: real, power: int)
    requires energy <= 1572939.0 * 1572939.0 && power >= 270000000
    ensures !Tracks(energy, power, WINDOW)
  {
    assert !TracksAt(energy, power, WINDOW, 1572939.0);
  }

  // ---------------------------------------------------------------------------
  // Main results
  // ---------------------------------------------------------------------------

  /** Over all standard windows that reach the filters, the power a filter reports always
      follows the energy of the window at the filter's frequency if and only if its
      coefficient is not 32706. */
  lemma TracksIff(k: int)
    requires k in CONSTANTS
    ensures (forall w: seq<int> | Arrives(w) :: Tracks(SpectralEnergy(k, Normalised(w)), Power(k, Normalised(w)), WINDOW))
            <==> k != 32706
  {
    if k == 32706 {
      var n := WideFilter();
      BurstArrives(n);
      assert Arrives(Burst(n));
      BurstEnergy(Burst(n));
      DoesNotTrack(SpectralEnergy(k, Burst(n)), Power(k, Burst(n)));
    } else {
      forall w: seq<int> | Arrives(w)
        ensures Tracks(SpectralEnergy(k, Normalised(w)), Power(k, Normalised(w)), WINDOW)
      {
        PowerTracks(k, Normalised(w));
        hide *;
      }
    }
    hide *;
  }

  /** That energy is the squared modulus of the window's Fourier sum: so a reported power is
      the spectral power of the window, within the stated slack in both directions. */
  lemma PowerIsSpectral(k: int, w: seq<int>, z: Spectrum.Complex)
    requires k in CONSTANTS && k != 32706 && IsWindow(w) && |w| <= WINDOW
    requires z.re == Spectrum.Cosine(k) && Spectrum.SquaredModulus(z) == 1.0
    ensures Tracks(Spectrum.SquaredModulus(Spectrum.Fourier(z, w)), Power(k, w), |w|)
  {
    PowerTracks(k, w);
    assert SpectralEnergy(k, w) == Spectrum.EnergyOf(z.re, Spectrum.Exact(z.re, w));
    hide *;
    Spectrum.EnergyIsSpectralPower(z, w);
  }
}
