/** What the integer resonator computes: up to half a unit of rounding per sample
    it is the exact recurrence over the reals, whose energy is the squared modulus
    of the window's Fourier sum at the resonator's frequency. */
module Spectrum {
  import opened FixedPoint
  import opened Resonator

  datatype Wave = Wave(v1: real, v2: real)

  /** One exact step with c the cosine of the angle per sample. */
  function Turn(c: real, u: real, s: Wave): Wave {
    Wave(2.0 * c * s.v1 - s.v2 + u, s.v1)
  }

  const SILENCE := Wave(0.0, 0.0)

  /** The exact response to a window, starting at rest. */
  function Exact(c: real, w: seq<int>): Wave {
    if w == [] then SILENCE else Turn(c, w[|w| - 1] as real, Exact(c, w[..|w| - 1]))
  }

  function EnergyOf(c: real, s: Wave): real {
    s.v1 * s.v1 + s.v2 * s.v2 - 2.0 * c * (s.v1 * s.v2)
  }

  // ---------------------------------------------------------------------------
  // The exact recurrence computes one Fourier coefficient
  // ---------------------------------------------------------------------------

  datatype Complex = Complex(re: real, im: real)

  function Times(a: Complex, b: Complex): Complex {
    Complex(a.re * b.re - a.im * b.im, a.re * b.im + a.im * b.re)
  }

  function Plus(a: Complex, b: Complex): Complex {
    Complex(a.re + b.re, a.im + b.im)
  }

  function Scale(x: real, a: Complex): Complex {
    Complex(x * a.re, x * a.im)
  }

  function Power(z: Complex, n: nat): Complex {
    if n == 0 then Complex(1.0, 0.0) else Times(Power(z, n - 1), z)
  }

  function SquaredModulus(a: Complex): real {
    a.re * a.re + a.im * a.im
  }

  /** The Fourier sum of a window: the sum over j of w[j] * z^(n - 1 - j). */
  function Fourier(z: Complex, w: seq<int>): Complex {
    if w == [] then Complex(0.0, 0.0)
    else Plus(Scale(w[0] as real, Power(z, |w| - 1)), Fourier(z, w[1..]))
  }

  lemma TimesDistributes(x: real, p: Complex, q: Complex, z: Complex)
    ensures Times(Plus(Scale(x, p), q), z) == Plus(Scale(x, Times(p, z)), Times(q, z))
  {
    assert (x * p.re + q.re) * z.re == x * (p.re * z.re) + q.re * z.re;
    assert (x * p.re + q.re) * z.im == x * (p.re * z.im) + q.re * z.im;
    assert (x * p.im + q.im) * z.re == x * (p.im * z.re) + q.im * z.re;
    assert (x * p.im + q.im) * z.im == x * (p.im * z.im) + q.im * z.im;
  }

  /** One more sample turns the sum so far by z and adds the sample. */
  lemma {:induction false} FourierAppend(z: Complex, w: seq<int>, x: int)
    ensures Fourier(z, w + [x]) == Plus(Times(Fourier(z, w), z), Complex(x as real, 0.0))
  {
    if w == [] {
      assert Fourier(z, [x]) == Plus(Scale(x as real, Power(z, 0)), Fourier(z, []));
    } else {
      assert (w + [x])[1..] == w[1..] + [x];
      FourierAppend(z, w[1..], x);
      TimesDistributes(w[0] as real, Power(z, |w| - 1), Fourier(z, w[1..]), z);
      PlusAssociates(Scale(w[0] as real, Power(z, |w|)), Times(Fourier(z, w[1..]), z), Complex(x as real, 0.0));
    }
  }

  lemma PlusAssociates(a: Complex, b: Complex, d: Complex)
    ensures Plus(a, Plus(b, d)) == Plus(Plus(a, b), d)
  {
  }

  /** The complex number that a state of the recurrence stands for. */
  function Coordinates(z: Complex, s: Wave): Complex {
    Complex(s.v1 - z.re * s.v2, z.im * s.v2)
  }

  lemma {:induction false} ExactIsFourier(z: Complex, w: seq<int>)
    requires SquaredModulus(z) == 1.0
    ensures Fourier(z, w) == Coordinates(z, Exact(z.re, w))
  {
    if w != [] {
      var init, x := w[..|w| - 1], w[|w| - 1];
      assert Exact(z.re, w) == Turn(z.re, x as real, Exact(z.re, init));
      hide Coordinates, Turn, Fourier, Plus, Times, Exact, SquaredModulus;
      ExactIsFourier(z, init);
      FourierAppend(z, init, x);
      TurnIsRotation(z, x as real, Exact(z.re, init));
      assert w == init + [x];
    }
  }

  lemma TurnIsRotation(z: Complex, x: real, s: Wave)
    requires SquaredModulus(z) == 1.0
    ensures Plus(Times(Coordinates(z, s), z), Complex(x, 0.0)) == Coordinates(z, Turn(z.re, x, s))
  {
    var a, b := s.v1, s.v2;
    assert (a - z.re * b) * z.re - (z.im * b) * z.im == a * z.re - b * (z.re * z.re + z.im * z.im);
    assert (a - z.re * b) * z.im + (z.im * b) * z.re == z.im * a;
  }

  /** The energy of the exact recurrence is the power of the window at the
      frequency whose cosine is z.re. */
  lemma EnergyIsSpectralPower(z: Complex, w: seq<int>)
    requires SquaredModulus(z) == 1.0
    ensures EnergyOf(z.re, Exact(z.re, w)) == SquaredModulus(Fourier(z, w))
  {
    ExactIsFourier(z, w);
    hide Exact, Fourier;
    EnergyOfCoordinates(z, Exact(z.re, w));
  }

  lemma EnergyOfCoordinates(z: Complex, s: Wave)
    requires SquaredModulus(z) == 1.0
    ensures EnergyOf(z.re, s) == SquaredModulus(Coordinates(z, s))
  {
    var a, b, c := s.v1, s.v2, z.re;
    assert (a - c * b) * (a - c * b) == a * a - 2.0 * c * (a * b) + (c * c) * (b * b);
    assert (z.im * b) * (z.im * b) == (1.0 - c * c) * (b * b);
  }

  // ---------------------------------------------------------------------------
  // How far rounding takes the integer recurrence from the exact one
  // ---------------------------------------------------------------------------

  function Cosine(k: int): real {
    k as real / 32768.0
  }

  /** The difference between the integer state and the exact state. */
  function Deviation(k: int, w: seq<int>): Wave {
    var i, e := IdealRun(k, w, Osc(0, 0)), Exact(Cosine(k), w);
    Wave(i.v1 as real - e.v1, i.v2 as real - e.v2)
  }

  lemma {:induction false} ProductAsReal(a: int, b: int)
    ensures (a * b) as real == a as real * b as real
    decreases if a < 0 then -a else a
  {
    if a > 0 {
      ProductAsReal(a - 1, b);
      assert a * b == (a - 1) * b + b;
      assert a as real * b as real == (a - 1) as real * b as real + b as real;
    } else if a < 0 {
      ProductAsReal(a + 1, b);
      assert a * b == (a + 1) * b - b;
      assert a as real * b as real == (a + 1) as real * b as real - b as real;
    }
  }

  /** One rounding error: at most one half. */
  lemma RoundingError(k: int, v: int)
    ensures -0.5 <= Round15(k, 2 * v) as real - 2.0 * Cosine(k) * v as real <= 0.5
  {
    var r := Round15(k, 2 * v);
    ProductAsReal(k, v);
    assert -0x4000 <= 0x8000 * r - 2 * (k * v) <= 0x4000;
    assert (k * v) as real == 32768.0 * (Cosine(k) * v as real);
  }

  /** The deviation follows the same recurrence, driven by rounding errors only. */
  lemma DeviationStep(k: int, w: seq<int>, x: int) returns (r: real)
    ensures -0.5 <= r <= 0.5
    ensures Deviation(k, w + [x]) == Turn(Cosine(k), r, Deviation(k, w))
  {
    var i, e, c := IdealRun(k, w, Osc(0, 0)), Exact(Cosine(k), w), Cosine(k);
    r := Round15(k, 2 * i.v1) as real - 2.0 * c * i.v1 as real;
    RoundingError(k, i.v1);
    assert (w + [x])[..|w|] == w;
    assert IdealRun(k, w + [x], Osc(0, 0)) == IdealStep(k, x, i);
    assert Exact(c, w + [x]) == Turn(c, x as real, e);
    hide IdealRun, Exact, Cosine, Round15;
    assert 2.0 * c * (i.v1 as real - e.v1) == 2.0 * c * i.v1 as real - 2.0 * c * e.v1;
  }

  /** The energy is at most b^2. */
  ghost predicate Calm(c: real, s: Wave, b: real) {
    EnergyOf(c, s) <= b * b
  }

  /** A drive of at most one half raises the root energy by at most one half. */
  lemma TurnEnergy(c: real, r: real, s: Wave, b: real)
    requires -1.0 <= c <= 1.0 && -0.5 <= r <= 0.5 && 0.0 <= b
    requires Calm(c, s, b)
    ensures Calm(c, Turn(c, r, s), b + 0.5)
  {
    var a := c * s.v1 - s.v2;
    EnergyOfTurn(c, r, s);
    assert a * a <= b * b;
    RootOrder(a, b);
    hide EnergyOf, Turn;
    assert r * a <= 0.5 * b by { HalfTimes(r, a, b); }
    assert r * r <= 0.25 by { HalfTimes(r, r, 0.5); }
    assert (b + 0.5) * (b + 0.5) == b * b + b + 0.25;
  }

  lemma EnergyOfTurn(c: real, r: real, s: Wave)
    requires -1.0 <= c <= 1.0
    ensures var a := c * s.v1 - s.v2;
            && EnergyOf(c, Turn(c, r, s)) == EnergyOf(c, s) + 2.0 * (r * a) + r * r
            && a * a <= EnergyOf(c, s)
  {
    var p, q := c * s.v1, s.v2;
    var t := Turn(c, r, s);
    assert t.v1 == 2.0 * p - q + r;
    assert EnergyOf(c, t) == t.v1 * t.v1 + s.v1 * s.v1 - 2.0 * (t.v1 * p);
    assert EnergyOf(c, s) == s.v1 * s.v1 + q * q - 2.0 * (p * q);
    assert p * p == (c * c) * (s.v1 * s.v1);
    assert (1.0 - c) * (1.0 + c) == 1.0 - c * c;
    ProductSign(1.0 - c, 1.0 + c);
    ProductSign(1.0 - c * c, s.v1 * s.v1);
  }

  lemma ProductSign(p: real, q: real)
    requires 0.0 <= p && 0.0 <= q
    ensures 0.0 <= p * q
  {
  }

  lemma ProductSign'(p: real, q: real)
    requires 0.0 < p && 0.0 < q
    ensures 0.0 < p * q
  {
  }

  lemma RootOrder(a: real, b: real)
    requires 0.0 <= b && a * a <= b * b
    ensures -b <= a <= b
  {
    assert (a - b) * (a + b) == a * a - b * b;
    if a > b {
      ProductSign'(a - b, a + b);
    } else if a < -b {
      assert (-b - a) * (b - a) == (a - b) * (a + b);
      ProductSign'(-b - a, b - a);
    }
  }

  lemma HalfTimes(r: real, a: real, b: real)
    requires -0.5 <= r <= 0.5 && -b <= a <= b
    ensures r * a <= 0.5 * b
  {
    assert (0.5 - r) * (b + a) >= 0.0;
    assert (0.5 + r) * (b - a) >= 0.0;
  }

  /** After n samples the integer state deviates from the exact state by a root
      energy of at most n / 2, whatever the samples are. */
  lemma {:induction false} DeviationBound(k: int, w: seq<int>)
    requires -ONE <= k <= ONE
    ensures Calm(Cosine(k), Deviation(k, w), 0.5 * |w| as real)
  {
    if w == [] {
      assert Deviation(k, w) == SILENCE;
      assert Calm(Cosine(k), SILENCE, 0.0);
    } else {
      var init, x := w[..|w| - 1], w[|w| - 1];
      var r := DeviationStep(k, init, x);
      assert -1.0 <= Cosine(k) <= 1.0;
      assert init + [x] == w;
      hide *;
      DeviationBound(k, init);
      TurnEnergy(Cosine(k), r, Deviation(k, init), 0.5 * |init| as real);
      assert 0.5 * |w| as real == 0.5 * |init| as real + 0.5;
    }
  }
}
