/** The second-order integer recurrence at the heart of both the Goertzel filter
    and the tone oscillator: v' = round(2c * v1) - v2 + x with c = k / 2^15. */
module Resonator {
  import opened Arithmetic
  import opened FixedPoint

  const ONE := 0x8000  // the fixed-point representation of 1.0

  /** The two latest values of the recurrence, the newest first. */
  datatype Osc = Osc(v1: int, v2: int)

  /** One step as the code performs it, each operation converted to 32 bits. */
  function Step(k: int, x: int, s: Osc): Osc {
    Osc(Wrap32(Wrap32(Mpy48sr(k, Wrap32(2 * s.v1)) - s.v2) + x), s.v1)
  }

  function Run(k: int, xs: seq<int>, s: Osc): Osc {
    if xs == [] then s else Step(k, xs[|xs| - 1], Run(k, xs[..|xs| - 1], s))
  }

  /** The same step over unbounded integers. */
  function IdealStep(k: int, x: int, s: Osc): Osc {
    Osc(Round15(k, 2 * s.v1) - s.v2 + x, s.v1)
  }

  function IdealRun(k: int, xs: seq<int>, s: Osc): Osc {
    if xs == [] then s else IdealStep(k, xs[|xs| - 1], IdealRun(k, xs[..|xs| - 1], s))
  }

  /** No intermediate value of the step leaves the 32-bit range. */
  predicate StepExact(k: int, x: int, s: Osc) {
    && IsInt32(2 * s.v1)
    && IsInt32(Round15(k, 2 * s.v1))
    && IsInt32(Round15(k, 2 * s.v1) - s.v2)
    && IsInt32(Round15(k, 2 * s.v1) - s.v2 + x)
  }

  /** No step of a run leaves the 32-bit range. */
  ghost predicate RunExact(k: int, xs: seq<int>, s: Osc) {
    forall n | 0 <= n < |xs| :: StepExact(k, xs[n], Run(k, xs[..n], s))
  }

  lemma ExactStepIsIdeal(k: int, x: int, s: Osc)
    requires -ONE < k < ONE && StepExact(k, x, s)
    ensures Step(k, x, s) == IdealStep(k, x, s)
  {
    Mpy48srRounds(k, 2 * s.v1);
  }

  /** Running over a concatenation is running over one part after the other. */
  lemma {:induction false} RunConcat(k: int, xs: seq<int>, ys: seq<int>, s: Osc)
    ensures Run(k, xs + ys, s) == Run(k, ys, Run(k, xs, s))
  {
    if ys == [] {
      assert xs + ys == xs;
    } else {
      RunConcat(k, xs, ys[..|ys| - 1], s);
      assert (xs + ys)[..|xs + ys| - 1] == xs + ys[..|ys| - 1];
    }
  }

  // ---------------------------------------------------------------------------
  // The energy argument
  // ---------------------------------------------------------------------------

  /** v1^2 + v2^2 - 2c * v1 * v2, scaled by 2^30 to stay an integer. */
  ghost function Energy(k: int, s: Osc): int {
    ONE * (ONE * (s.v1 * s.v1 + s.v2 * s.v2) - 2 * k * (s.v1 * s.v2))
  }

  /** The energy is at most e^2. */
  ghost predicate Calm(k: int, s: Osc, e: int) {
    Energy(k, s) <= e * e
  }

  /** The scaled amount by which a step deviates from the pure rotation. */
  ghost function Drive(k: int, s: Osc, v: int): int {
    ONE * v - 2 * k * s.v1 + ONE * s.v2
  }

  /** The scaled velocity k * v1 - ONE * v2 of a state. */
  ghost function Velocity(k: int, s: Osc): int {
    k * s.v1 - ONE * s.v2
  }

  /** Energy is the square of the velocity plus a non-negative multiple of the
      square of the newest value; so it bounds both. */
  lemma EnergySplits(k: int, s: Osc)
    ensures Energy(k, s) == Velocity(k, s) * Velocity(k, s) + (ONE * ONE - k * k) * (s.v1 * s.v1)
    ensures Energy(k, s) == Energy(k, Osc(s.v2, s.v1))
  {
    var a, b := k * s.v1, ONE * s.v2;
    assert (a - b) * (a - b) == a * a - 2 * (a * b) + b * b;
    assert a * a == (k * k) * (s.v1 * s.v1);
    assert a * b == ONE * (k * (s.v1 * s.v2));
    assert b * b == ONE * ONE * (s.v2 * s.v2);
    assert (ONE * ONE - k * k) * (s.v1 * s.v1) == ONE * ONE * (s.v1 * s.v1) - (k * k) * (s.v1 * s.v1);
  }

  /** How one step changes the energy. */
  lemma EnergyStep(k: int, s: Osc, v: int)
    ensures Energy(k, Osc(v, s.v1)) ==
            Energy(k, s) + 2 * (Drive(k, s, v) * Velocity(k, s)) + Drive(k, s, v) * Drive(k, s, v)
  {
    // Both sides split with respect to s.v1, the value the two states share.
    var u, a := Drive(k, s, v), Velocity(k, s);
    EnergySplits(k, s);
    EnergySplits(k, Osc(s.v1, v));
    assert Velocity(k, Osc(s.v1, v)) == -(u + a);
    var b := Velocity(k, Osc(s.v1, v));
    hide *;
    SquareOfSum(u, a, b);
  }

  lemma SquareOfSum(u: int, a: int, b: int)
    requires b == -(u + a)
    ensures b * b == a * a + 2 * (u * a) + u * u
  {
  }

  /** If the energy is at most b^2 and the drive at most d, then the energy after
      the step is at most (b + d)^2. */
  lemma EnergyGrowth(e: int, a: int, u: int, b: int, d: int)
    requires 0 <= b && 0 <= d && -d <= u <= d
    requires a * a <= e <= b * b
    ensures e + 2 * (u * a) + u * u <= (b + d) * (b + d)
  {
    SquareOrder(a, b);
    SquareOrder'(u, d);
    assert u * a <= d * b by { AbsProduct(u, a, d, b); }
    assert (b + d) * (b + d) == b * b + 2 * (d * b) + d * d;
  }

  lemma SquareOrder(a: int, b: int)
    requires 0 <= b && a * a <= b * b
    ensures -b <= a <= b
  {
    if a > b {
      MulMonotone(b + 1, a, a);
      MulMonotone(b + 1, a, b + 1);
    } else if a < -b {
      MulMonotone(b + 1, -a, -a);
      MulMonotone(b + 1, -a, b + 1);
    }
  }

  lemma SquareOrder'(u: int, d: int)
    requires -d <= u <= d
    ensures u * u <= d * d
  {
    assert d * d - u * u == (d - u) * (d + u);
  }

  lemma AbsProduct(u: int, a: int, d: int, b: int)
    requires -d <= u <= d && -b <= a <= b
    ensures u * a <= d * b
  {
    if u >= 0 {
      MulMonotone(a, b, u);
      MulMonotone(u, d, b);
    } else {
      MulMonotone(-a, b, -u);
      MulMonotone(-u, d, b);
    }
  }

  /** How much the (scaled) square root of the energy can grow per sample when
      the samples are bounded by m: rounding adds one half. */
  function Growth(m: int): int {
    0x4000 * (2 * m + 1)
  }

  /** One ideal step under an input bounded by m: rounding adds at most one half,
      so the square root of the energy grows by at most m + 1/2. */
  lemma StepEnergy(k: int, x: int, s: Osc, b: int, m: int)
    requires -ONE <= k <= ONE && 0 <= b && -m <= x <= m
    requires Calm(k, s, b)
    ensures Calm(k, IdealStep(k, x, s), b + Growth(m))
  {
    var v := IdealStep(k, x, s).v1;
    var r := Round15(k, 2 * s.v1);
    assert k * (2 * s.v1) == 2 * k * s.v1;
    assert Drive(k, s, v) == 0x8000 * r - k * (2 * s.v1) + 0x8000 * x;
    EnergyStep(k, s, v);
    VelocityBelowEnergy(k, s);
    EnergyGrowth(Energy(k, s), Velocity(k, s), Drive(k, s, v), b, 0x4000 * (2 * m + 1));
  }

  lemma VelocityBelowEnergy(k: int, s: Osc)
    requires -ONE <= k <= ONE
    ensures Velocity(k, s) * Velocity(k, s) <= Energy(k, s)
    ensures (ONE * ONE - k * k) * (s.v1 * s.v1) <= Energy(k, s)
    ensures (ONE * ONE - k * k) * (s.v2 * s.v2) <= Energy(k, s)
  {
    EnergySplits(k, s);
    EnergySplits(k, Osc(s.v2, s.v1));
    SquareOrder'(k, ONE);
    SquareNonNegative(s.v1);
    SquareNonNegative(s.v2);
    SquareNonNegative(Velocity(k, s));
    SquareNonNegative(Velocity(k, Osc(s.v2, s.v1)));
    MulMonotone(0, ONE * ONE - k * k, s.v1 * s.v1);
    MulMonotone(0, ONE * ONE - k * k, s.v2 * s.v2);
  }

  lemma SquareNonNegative(a: int)
    ensures 0 <= a * a
  {
  }

  // ---------------------------------------------------------------------------
  // Runs stay exact
  // ---------------------------------------------------------------------------

  /** Every sample lies in -m..m. */
  ghost predicate Bounded(xs: seq<int>, m: int) {
    forall n | 0 <= n < |xs| :: -m <= xs[n] <= m
  }

  /** A state of energy at most e^2 has both values within v. */
  ghost predicate Confines(k: int, e: int, v: int) {
    -ONE < k < ONE && 0 <= v && e * e < (ONE * ONE - k * k) * ((v + 1) * (v + 1))
  }

  ghost predicate Within(s: Osc, v: int) {
    -v <= s.v1 <= v && -v <= s.v2 <= v
  }

  lemma ConfinedState(k: int, e: int, v: int, s: Osc)
    requires Confines(k, e, v) && Calm(k, s, e)
    ensures Within(s, v)
  {
    VelocityBelowEnergy(k, s);
    ConfinedValue(ONE * ONE - k * k, s.v1, v);
    ConfinedValue(ONE * ONE - k * k, s.v2, v);
  }

  lemma ConfinedValue(q: int, a: int, v: int)
    requires 0 <= v && q * (a * a) < q * ((v + 1) * (v + 1))
    requires 0 <= q
    ensures -v <= a <= v
  {
    if (v + 1) * (v + 1) <= a * a {
      MulMonotone((v + 1) * (v + 1), a * a, q);
    }
    SquareOrder(a, v + 1);
    assert a != v + 1 && a != -(v + 1);
  }

  /** One step of the induction: from a confined exact state to the next. */
  lemma StepIsIdeal(k: int, x: int, s: Osc, e: int, m: int, v: int)
    requires -m <= x <= m && 0 <= e && Within(s, v) && 2 * v + m < 0x8000_0000
    requires Calm(k, s, e) && Confines(k, e + Growth(m), v)
    ensures StepExact(k, x, s)
    ensures Step(k, x, s) == IdealStep(k, x, s)
    ensures Calm(k, Step(k, x, s), e + Growth(m))
    ensures Within(Step(k, x, s), v)
  {
    StepEnergy(k, x, s, e, m);
    var t := IdealStep(k, x, s);
    ConfinedState(k, e + Growth(m), v, t);
    assert StepExact(k, x, s) by {
      assert t.v1 == Round15(k, 2 * s.v1) - s.v2 + x;
    }
    ExactStepIsIdeal(k, x, s);
  }

  lemma ConfinesLess(k: int, e: int, e': int, v: int)
    requires 0 <= e' <= e && Confines(k, e, v)
    ensures Confines(k, e', v)
  {
    SquareOrder'(e', e);
  }

  /** A coefficient closer to zero confines at least as well. */
  lemma ConfinesSmaller(k: int, limit: int, e: int, v: int)
    requires -limit <= k <= limit && Confines(limit, e, v)
    ensures Confines(k, e, v)
  {
    SquareOrder'(k, limit);
    SquareNonNegative(v + 1);
    MulMonotone(ONE * ONE - limit * limit, ONE * ONE - k * k, (v + 1) * (v + 1));
  }

  /** The root energy after n samples: b at the start, g more each sample. */
  function Reach(b: int, g: int, n: nat): int {
    if n == 0 then b else Reach(b, g, n - 1) + g
  }

  lemma {:induction false} ReachIsLinear(b: int, g: int, n: nat)
    ensures Reach(b, g, n) == b + n * g
  {
    if n > 0 {
      ReachIsLinear(b, g, n - 1);
    }
  }

  lemma {:induction false} ReachGrows(b: int, g: int, m: nat, n: nat)
    requires 0 <= b && 0 <= g && m <= n
    ensures 0 <= Reach(b, g, m) <= Reach(b, g, n)
  {
    if m < n {
      ReachGrows(b, g, m, n - 1);
    } else if n > 0 {
      ReachGrows(b, g, m - 1, n - 1);
    }
  }

  lemma RunExactExtends(k: int, xs: seq<int>, x: int, s: Osc)
    requires RunExact(k, xs, s) && StepExact(k, x, Run(k, xs, s))
    ensures RunExact(k, xs + [x], s)
  {
    hide StepExact, Run;
    var ys := xs + [x];
    assert forall n | 0 <= n <= |xs| :: ys[..n] == xs[..n];
  }

  /** As long as the accumulated energy confines the state to v, with room for
      one more input, the 32-bit run is the ideal run: nothing overflows. */
  lemma {:induction false} RunIsIdeal(k: int, xs: seq<int>, s: Osc, b: int, m: int, v: int, n: nat)
    requires 0 <= b && 0 <= m && Bounded(xs, m) && |xs| <= n
    requires Calm(k, s, b) && Confines(k, Reach(b, Growth(m), n), v)
    requires 2 * v + m < 0x8000_0000
    ensures RunExact(k, xs, s)
    ensures Run(k, xs, s) == IdealRun(k, xs, s)
    ensures Calm(k, Run(k, xs, s), Reach(b, Growth(m), |xs|))
    ensures Within(Run(k, xs, s), v)
    decreases |xs|
  {
    assert 0 <= Growth(m);
    var e := Reach(b, Growth(m), |xs|);
    hide Calm, Confines, StepExact, Growth, Step, IdealStep, Within, RunExact;
    ReachGrows(b, Growth(m), |xs|, n);
    ConfinesLess(k, Reach(b, Growth(m), n), e, v);
    if xs == [] {
      ConfinedState(k, e, v, s);
      NothingToRun(k, s);
    } else {
      var init, x := xs[..|xs| - 1], xs[|xs| - 1];
      RunIsIdeal(k, init, s, b, m, v, n);
      ReachGrows(b, Growth(m), |init|, n);
      StepIsIdeal(k, x, Run(k, init, s), Reach(b, Growth(m), |init|), m, v);
      RunExactExtends(k, init, x, s);
      assert init + [x] == xs;
    }
  }

  lemma NothingToRun(k: int, s: Osc)
    ensures RunExact(k, [], s)
  {
  }
}
