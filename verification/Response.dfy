/** Impulse and step response of the exact recurrence: how large a window can
    drive the filter, and how large a constant window does drive it. */
module Response {
  import opened FixedPoint
  import opened Resonator
  import opened Spectrum

  /** The response to a unit impulse after j further silent steps. */
  function Impulse(c: real, j: nat): Wave {
    if j == 0 then Wave(1.0, 0.0) else Turn(c, 0.0, Impulse(c, j - 1))
  }

  function Abs(x: real): (r: real)
    ensures 0.0 <= r && -r <= x <= r
  {
    if x < 0.0 then -x else x
  }

  /** The sum of the magnitudes of the first n values of the impulse response. */
  function Gain(c: real, n: nat): (g: real)
    ensures 0.0 <= g
  {
    if n == 0 then 0.0 else Gain(c, n - 1) + Abs(Impulse(c, n - 1).v1)
  }

  /** The sum of the squares of the first n values of the impulse response. */
  function SquareSum(c: real, n: nat): real {
    if n == 0 then 0.0 else SquareSum(c, n - 1) + Impulse(c, n - 1).v1 * Impulse(c, n - 1).v1
  }

  // ---------------------------------------------------------------------------
  // No window drives the filter beyond the gain
  // ---------------------------------------------------------------------------

  /** An integer state seen as a state over the reals. */
  function AsWave(s: Osc): Wave {
    Wave(s.v1 as real, s.v2 as real)
  }

  /** What state s contributes to the value that impulse response g weighs. */
  function Contribution(g: Wave, s: Wave): real {
    g.v1 * s.v1 - g.v2 * s.v2
  }

  /** Multiplication under a name, so that proofs can set it aside. */
  function Product(a: real, b: real): real {
    a * b
  }

  lemma ContributionStep(c: real, u: real, g: Wave, s: Wave)
    ensures Contribution(g, Turn(c, u, s)) == Contribution(Turn(c, 0.0, g), s) + Product(g.v1, u)
  {
    assert g.v1 * (2.0 * c * s.v1 - s.v2 + u) == 2.0 * c * (g.v1 * s.v1) - g.v1 * s.v2 + g.v1 * u;
    assert (2.0 * c * g.v1 - g.v2 + 0.0) * s.v1 == 2.0 * c * (g.v1 * s.v1) - g.v2 * s.v1;
  }

  /** The integer step is an exact step whose drive is the sample plus rounding. */
  lemma StepAsTurn(k: int, x: int, s: Osc) returns (u: real)
    ensures x as real - 0.5 <= u <= x as real + 0.5
    ensures AsWave(IdealStep(k, x, s)) == Turn(Cosine(k), u, AsWave(s))
  {
    u := Round15(k, 2 * s.v1) as real - 2.0 * Cosine(k) * s.v1 as real + x as real;
    RoundingError(k, s.v1);
  }

  lemma AbsProduct(h: real, u: real, d: real)
    requires -d <= u <= d
    ensures -Product(d, Abs(h)) <= Product(h, u) <= Product(d, Abs(h))
  {
    if h >= 0.0 {
      ProductSign(h, d - u);
      ProductSign(h, d + u);
    } else {
      ProductSign(-h, d - u);
      ProductSign(-h, d + u);
    }
  }

  /** With j samples to go, what the prefix contributes to the final value is
      bounded by the part of the impulse response it has used. */
  lemma {:induction false} PrefixBound(k: int, w: seq<int>, j: nat, m: int, d: real)
    requires Bounded(w, m) && m as real + 0.5 <= d
    ensures Abs(Contribution(Impulse(Cosine(k), j), AsWave(IdealRun(k, w, Osc(0, 0)))))
            <= Product(d, Gain(Cosine(k), j + |w|) - Gain(Cosine(k), j))
    decreases |w|
  {
    var c := Cosine(k);
    var s, g := IdealRun(k, w, Osc(0, 0)), Impulse(c, j);
    if w == [] {
      assert AsWave(s) == SILENCE;
      hide *;
      NothingContributed(g, d);
    } else {
      var init, x := w[..|w| - 1], w[|w| - 1];
      var t := IdealRun(k, init, Osc(0, 0));
      var u := StepAsTurn(k, x, t);
      assert s == IdealStep(k, x, t);
      assert Turn(c, 0.0, g) == Impulse(c, j + 1);
      assert Gain(c, j + 1) == Gain(c, j) + Abs(g.v1);
      PrefixBound(k, init, j + 1, m, d);
      hide *;
      ContributionStep(c, u, g, AsWave(t));
      AbsProduct(g.v1, u, d);
      AddBounds(d, Gain(c, j), Abs(g.v1), Gain(c, j + |w|), Contribution(Impulse(c, j + 1), AsWave(t)), Product(g.v1, u));
    }
  }

  lemma NothingContributed(g: Wave, d: real)
    ensures Abs(Contribution(g, SILENCE)) == 0.0 && Product(d, 0.0) == 0.0
  {
  }

  lemma AddBounds(d: real, g: real, h: real, total: real, p: real, q: real)
    requires Abs(p) <= Product(d, total - (g + h))
    requires -Product(d, h) <= q <= Product(d, h)
    ensures Abs(p + q) <= Product(d, total - g)
  {
    assert d * (total - g) == d * (total - (g + h)) + d * h;
  }

  /** The newest value after a window of samples within m is at most m + 1/2 times
      the gain of the impulse response. */
  lemma PeakBound(k: int, w: seq<int>, m: int)
    requires Bounded(w, m)
    ensures Abs(IdealRun(k, w, Osc(0, 0)).v1 as real) <= Product(m as real + 0.5, Gain(Cosine(k), |w|))
  {
    var c := Cosine(k);
    assert Impulse(c, 0) == Wave(1.0, 0.0);
    assert Gain(c, 0) == 0.0;
    ValueOfState(IdealRun(k, w, Osc(0, 0)));
    hide *;
    PrefixBound(k, w, 0, m, m as real + 0.5);
  }

  lemma ValueOfState(s: Osc)
    ensures Contribution(Wave(1.0, 0.0), AsWave(s)) == s.v1 as real
  {
  }

  // ---------------------------------------------------------------------------
  // A closed form for the squares, and from it a bound on the gain
  // ---------------------------------------------------------------------------

  /** The impulse response keeps unit energy. */
  lemma {:induction false} ImpulseEnergy(c: real, j: nat)
    requires -1.0 <= c <= 1.0
    ensures EnergyOf(c, Impulse(c, j)) == 1.0
  {
    if j > 0 {
      ImpulseEnergy(c, j - 1);
      EnergyOfTurn(c, 0.0, Impulse(c, j - 1));
    }
  }

  /** The boundary term of the closed form below. */
  function Boundary(g: Wave): real {
    0.5 * (g.v2 * g.v2 - g.v1 * g.v1)
  }

  /** Twice the sum of squares times 1 - c^2 is n, up to a boundary term. */
  lemma {:induction false} SquareSumClosed(c: real, q: real, n: nat)
    requires -1.0 <= c <= 1.0 && q == 1.0 - c * c
    ensures 2.0 * Product(q, SquareSum(c, n)) == n as real + Boundary(Impulse(c, n)) + 0.5
  {
    if n > 0 {
      var g := Impulse(c, n - 1);
      assert Impulse(c, n) == Turn(c, 0.0, g);
      assert SquareSum(c, n) == SquareSum(c, n - 1) + g.v1 * g.v1;
      SquareSumClosed(c, q, n - 1);
      ImpulseEnergy(c, n - 1);
      SquaresStep(c, g);
      hide *;
      Distribute(q, SquareSum(c, n - 1), g.v1 * g.v1);
    }
  }

  lemma Distribute(q: real, a: real, b: real)
    ensures Product(q, a + b) == Product(q, a) + Product(q, b)
  {
  }

  lemma SquaresStep(c: real, g: Wave)
    requires EnergyOf(c, g) == 1.0
    ensures 2.0 * Product(1.0 - c * c, g.v1 * g.v1) == 1.0 + Boundary(Turn(c, 0.0, g)) - Boundary(g)
  {
    var p := c * g.v1;
    var t := Turn(c, 0.0, g);
    assert t.v1 == 2.0 * p - g.v2;
    assert t.v1 * t.v1 == 4.0 * (p * p) - 4.0 * (p * g.v2) + g.v2 * g.v2;
    assert p * p == (c * c) * (g.v1 * g.v1);
    assert p * g.v2 == c * (g.v1 * g.v2);
  }

  /** The arithmetic-geometric inequality turns squares into magnitudes. */
  lemma {:induction false} GainFromSquares(c: real, n: nat, l: real)
    ensures 2.0 * Product(l, Gain(c, n)) <= SquareSum(c, n) + Product(l * l, n as real)
  {
    if n > 0 {
      var h := Impulse(c, n - 1).v1;
      assert Gain(c, n) == Gain(c, n - 1) + Abs(h);
      assert SquareSum(c, n) == SquareSum(c, n - 1) + Product(h, h);
      AbsSquare(h);
      hide *;
      GainFromSquares(c, n - 1, l);
      MeanInequality(l, Abs(h));
      Distribute(l, Gain(c, n - 1), Abs(h));
      Distribute(l * l, (n - 1) as real, 1.0);
      assert n as real == (n - 1) as real + 1.0;
    }
  }

  lemma AbsSquare(h: real)
    ensures Product(Abs(h), Abs(h)) == Product(h, h)
  {
  }

  lemma MeanInequality(l: real, a: real)
    ensures 2.0 * Product(l, a) <= Product(a, a) + Product(l * l, 1.0)
  {
    assert (a - l) * (a - l) == a * a - 2.0 * (l * a) + l * l;
  }

  /** Every value of the impulse response satisfies (1 - c^2) * h^2 <= 1. */
  lemma HeightFromEnergy(c: real, g: Wave)
    requires EnergyOf(c, g) == 1.0
    ensures Product(1.0 - c * c, g.v2 * g.v2) <= 1.0
  {
    var a := g.v1 - c * g.v2;
    assert a * a == g.v1 * g.v1 - 2.0 * c * (g.v1 * g.v2) + (c * c) * (g.v2 * g.v2);
  }

  lemma SquareOfReal(a: real)
    ensures 0.0 <= a * a
  {
  }

  lemma SineSquared(c: real)
    requires -1.0 <= c <= 1.0
    ensures 0.0 <= 1.0 - c * c
  {
    ProductSign(1.0 - c, 1.0 + c);
    assert (1.0 - c) * (1.0 + c) == 1.0 - c * c;
  }

  /** A limit on the gain over n samples, for q = 1 - c^2 and any level l:
      4 * q^2 * l * gain is at most q * (n + 1/2) + 1/2 + 2 * q^2 * l^2 * n. */
  ghost predicate GainLimit(q: real, n: nat, l: real, gain: real) {
    4.0 * (q * q * Product(l, gain)) <= q * (n as real + 0.5) + 0.5 + 2.0 * (q * q * Product(l * l, n as real))
  }

  lemma GainBound(c: real, q: real, n: nat, l: real)
    requires -1.0 <= c <= 1.0 && q == 1.0 - c * c
    ensures GainLimit(q, n, l, Gain(c, n))
  {
    var g := Impulse(c, n);
    SquareSumClosed(c, q, n);
    ImpulseEnergy(c, n);
    HeightFromEnergy(c, g);
    GainFromSquares(c, n, l);
    SineSquared(c);
    hide *;
    GainAlgebra(q, Gain(c, n), SquareSum(c, n), l, n, g);
  }

  lemma GainAlgebra(q: real, gain: real, squares: real, l: real, n: nat, g: Wave)
    requires 0.0 <= q && Product(q, g.v2 * g.v2) <= 1.0
    requires 2.0 * Product(q, squares) == n as real + Boundary(g) + 0.5
    requires 2.0 * Product(l, gain) <= squares + Product(l * l, n as real)
    ensures GainLimit(q, n, l, gain)
  {
    var a, b := g.v1 * g.v1, g.v2 * g.v2;
    assert q * b <= 1.0 && 2.0 * (q * squares) == n as real + 0.5 * (b - a) + 0.5;
    var weighted, level := Product(l, gain), Product(l * l, n as real);
    hide Product;
    Combine(q, n as real, a, b, squares, weighted, level);
  }

  lemma Combine(q: real, t: real, a: real, b: real, squares: real, weighted: real, level: real)
    requires 0.0 <= q && 0.0 <= a && q * b <= 1.0
    requires 2.0 * (q * squares) == t + 0.5 * (b - a) + 0.5
    requires 2.0 * weighted <= squares + level
    ensures 4.0 * (q * q * weighted) <= q * (t + 0.5) + 0.5 + 2.0 * (q * q * level)
  {
    ProductSign(q, a);
    assert 2.0 * (q * (q * squares)) == q * (t + 0.5) + 0.5 * (q * b) - 0.5 * (q * a);
    ProductSign(q, q);
    ProductSign(q * q, squares + level - 2.0 * weighted);
  }

  // ---------------------------------------------------------------------------
  // What a constant window does
  // ---------------------------------------------------------------------------

  /** The cosine of n times the angle whose cosine is c. */
  function CosineOf(c: real, n: nat): real {
    if n == 0 then 1.0 else if n == 1 then c else 2.0 * c * CosineOf(c, n - 1) - CosineOf(c, n - 2)
  }

  lemma {:induction false} CosineProducts(c: real, m: nat, n: nat)
    requires n <= m
    ensures CosineOf(c, m + n) + CosineOf(c, m - n) == 2.0 * Product(CosineOf(c, m), CosineOf(c, n))
  {
    if n <= 1 {
      assert CosineOf(c, 0) == 1.0 && CosineOf(c, 1) == c;
      if n == 1 {
        CosineRecurs(c, m + 1);
      }
      hide *;
      ProductUnits(c, CosineOf(c, m));
    } else {
      CosineProducts(c, m, n - 1);
      CosineProducts(c, m, n - 2);
      CosineRecurs(c, m + n);
      CosineRecurs(c, m - n + 2);
      CosineRecurs(c, n);
      hide *;
      ProductRecurs(c, CosineOf(c, m), CosineOf(c, n - 1), CosineOf(c, n - 2));
      Distribute(2.0 * c, CosineOf(c, m + n - 1), CosineOf(c, m - n + 1));
    }
  }

  lemma CosineRecurs(c: real, n: nat)
    requires n > 1
    ensures CosineOf(c, n) == Product(2.0 * c, CosineOf(c, n - 1)) - CosineOf(c, n - 2)
  {
  }

  lemma ProductUnits(c: real, t: real)
    ensures Product(t, 1.0) == t
    ensures Product(2.0 * c, t) == 2.0 * Product(t, c)
  {
  }

  lemma ProductRecurs(c: real, t: real, p: real, q: real)
    ensures Product(t, Product(2.0 * c, p) - q) == Product(c, 2.0 * Product(t, p)) - Product(t, q)
    ensures Product(2.0 * c, 2.0 * Product(t, p)) == 2.0 * Product(c, 2.0 * Product(t, p))
  {
    assert t * (2.0 * c * p - q) == c * (2.0 * (t * p)) - t * q;
  }

  lemma CosineFirst(c: real)
    ensures CosineOf(c, 1) == c
  {
  }

  lemma CosineDoubled(c: real, n: nat)
    ensures CosineOf(c, 2 * n) == 2.0 * Product(CosineOf(c, n), CosineOf(c, n)) - 1.0
  {
    CosineProducts(c, n, n);
    assert CosineOf(c, 0) == 1.0;
  }

  function Constant(x: int, n: nat): (w: seq<int>)
    ensures |w| == n
  {
    seq(n, _ => x)
  }

  /** Two equations that fix a state in terms of two consecutive cosines. */
  ghost predicate Turned(c: real, x: real, s: Wave, t0: real, t1: real) {
    && (1.0 - c) * (s.v1 + s.v2) == x * (1.0 - t0)
    && (1.0 - c) * ((1.0 + 2.0 * c) * s.v2 - s.v1 + x) == x * (1.0 - t1)
  }

  lemma TurnedFirst(c: real, x: real)
    ensures Turned(c, x, Turn(c, x, SILENCE), c, 1.0)
  {
    assert Turn(c, x, SILENCE) == Wave(x, 0.0);
  }

  lemma TurnedAgain(c: real, x: real, s: Wave, t0: real, t1: real)
    requires Turned(c, x, s, t0, t1)
    ensures Turned(c, x, Turn(c, x, s), Product(2.0 * c, t0) - t1, t0)
  {
    var a, b := s.v1, s.v2;
    assert (1.0 - c) * (2.0 * c * a - b + x + a)
        == 2.0 * c * ((1.0 - c) * (a + b)) - (1.0 - c) * ((1.0 + 2.0 * c) * b - a + x) + 2.0 * (1.0 - c) * x;
    assert 2.0 * c * (x * (1.0 - t0)) == 2.0 * c * x - x * (2.0 * c * t0);
    assert (1.0 + 2.0 * c) * a - (2.0 * c * a - b + x) + x == a + b;
  }

  /** After n equal samples x, (1 - c) * (v1 + v2) is x * (1 - cosine of n turns). */
  lemma {:induction false} ConstantResponse(c: real, x: int, n: nat)
    requires n > 0
    ensures Turned(c, x as real, Exact(c, Constant(x, n)), CosineOf(c, n), CosineOf(c, n - 1))
  {
    var w := Constant(x, n);
    assert w[..n - 1] == Constant(x, n - 1);
    assert Exact(c, w) == Turn(c, x as real, Exact(c, Constant(x, n - 1)));
    if n == 1 {
      assert Exact(c, Constant(x, 0)) == SILENCE;
      assert CosineOf(c, 1) == c && CosineOf(c, 0) == 1.0;
      hide *;
      TurnedFirst(c, x as real);
    } else {
      CosineRecurs(c, n);
      ConstantResponse(c, x, n - 1);
      hide *;
      TurnedAgain(c, x as real, Exact(c, Constant(x, n - 1)), CosineOf(c, n - 1), CosineOf(c, n - 2));
    }
  }
}
