/** Block floating point: the detector shifts a window left by as many bits as its
    loudest sample allows before filtering it. */
module Normalisation {
  import opened Arithmetic
  import opened FixedPoint
  import opened Goertzel

  function Pow2(n: nat): (p: int)
    ensures 0 < p
  {
    if n == 0 then 1 else 2 * Pow2(n - 1)
  }

  /** The magnitude bits of x: the complement of a negative number. */
  function Bits(x: int): int {
    if x < 0 then -x - 1 else x
  }

  /** How often y can be doubled before it reaches 2^30. */
  function Doublings(y: int): nat
    requires 0 < y
    decreases 0x4000_0000 - y
  {
    if y >= 0x4000_0000 then 0 else 1 + Doublings(2 * y)
  }

  /** The number of redundant sign bits of a 32-bit number, 0 for zero. */
  function Norm(x: int): nat {
    if x == 0 then 0 else if x == -1 then 31 else Doublings(Bits(x))
  }

  /** The loop of norm_l; it ends for every 32-bit number, and no shift overflows. */
  method NormL(x: int) returns (n: nat)
    requires IsInt32(x)
    ensures n == Norm(x)
  {
    if x == 0 {
      n := 0;
    } else if x == -1 {
      n := 31;
    } else {
      var y := if x < 0 then -x - 1 else x;
      n := 0;
      while y < 0x4000_0000
        invariant 0 < y <= 0x7FFF_FFFF
        invariant n + Doublings(y) == Norm(x)
        decreases 0x4000_0000 - y
      {
        y := 2 * y;
        n := n + 1;
      }
    }
  }

  /** Doublings(y) is the number n with 2^30 <= y * 2^n < 2^31. */
  lemma {:induction false} DoublingsRange(y: int)
    requires 0 < y <= 0x7FFF_FFFF
    ensures 0x4000_0000 <= y * Pow2(Doublings(y)) <= 0x7FFF_FFFF
    decreases 0x4000_0000 - y
  {
    if y < 0x4000_0000 {
      DoublingsRange(2 * y);
      assert y * (2 * Pow2(Doublings(2 * y))) == 2 * y * Pow2(Doublings(2 * y));
    }
  }

  /** Numbers of at most m bits can be doubled at least 31 - m times. */
  lemma {:induction false} DoublingsBound(y: int, m: nat)
    requires 0 < y <= 0x7FFF_FFFF && m <= 31
    ensures y < Pow2(m) <==> 31 - m <= Doublings(y)
    decreases 31 - m
  {
    PowValues();
    if m < 31 {
      if y >= 0x4000_0000 {
        PowOrder(m, 30);
      } else {
        DoublingsBound(2 * y, m + 1);
      }
    }
  }

  /** Doublings(y) counts the leading zeros among 31 bits. */
  lemma DoublingsExact(y: int, n: nat)
    requires 0 < y <= 0x7FFF_FFFF && n <= 30
    ensures Doublings(y) == n <==> Pow2(30 - n) <= y < Pow2(31 - n)
  {
    DoublingsBound(y, 30 - n);
    DoublingsBound(y, 31 - n);
  }

  lemma DoublingsSmall(y: int)
    requires 0 < y <= 0x7FFF_FFFF
    ensures Doublings(y) <= 30
  {
    DoublingsBound(y, 0);
  }

  lemma {:induction false} PowOrder(m: nat, n: nat)
    requires m <= n
    ensures Pow2(m) <= Pow2(n)
  {
    if m < n {
      PowOrder(m, n - 1);
    }
  }

  lemma {:induction false} PowDivides(m: nat, n: nat)
    requires m <= n
    ensures Pow2(m) * Pow2(n - m) == Pow2(n)
  {
    if m > 0 {
      PowDivides(m - 1, n - 1);
      assert 2 * Pow2(m - 1) * Pow2(n - m) == 2 * (Pow2(m - 1) * Pow2(n - m));
    }
  }

  lemma PowValues()
    ensures Pow2(8) == 0x100 && Pow2(15) == 0x8000 && Pow2(16) == 0x1_0000
    ensures Pow2(30) == 0x4000_0000 && Pow2(31) == 0x8000_0000
  {
    assert Pow2(8) == 0x100;
    PowDivides(8, 16);
    PowDivides(15, 30);
  }

  /** Doubling a number costs exactly one redundant sign bit. */
  lemma NormOfDouble(x: int)
    requires x != 0 && IsInt32(x) && IsInt32(2 * x)
    ensures Norm(2 * x) == Norm(x) - 1
  {
    if x == -1 {
      DoublingsExact(1, 30);
    } else if x < 0 {
      // The bits of 2 * x are 2 * y + 1, which has no more bits than 2 * y.
      var y := Bits(x);
      var n := Doublings(2 * y);
      DoublingsSmall(2 * y);
      DoublingsExact(2 * y, n);
      assert Pow2(31 - n) == 2 * Pow2(30 - n);
      DoublingsExact(2 * y + 1, n);
    }
  }

  /** Norm(x) is how many bits a non-zero 32-bit number can be shifted left without
      overflow. */
  lemma NormMeans(x: int, n: nat)
    requires x != 0 && IsInt32(x) && n <= 31
    ensures IsInt32(x * Pow2(n)) <==> n <= Norm(x)
    ensures Norm(x) <= 31 && Norm(0) == 0
  {
    PowValues();
    PowDivides(n, 31);
    if x == -1 {
      PowOrder(n, 31);
    } else {
      DoublingsSmall(Bits(x));
      DoublingsBound(Bits(x), 31 - n);
    }
    Fits32(x, Pow2(n), Pow2(31 - n));
  }

  lemma Fits32(x: int, p: int, q: int)
    requires 0 < p && 0 < q && p * q == 0x8000_0000
    ensures IsInt32(x * p) <==> -q <= x < q
  {
    if x < -q {
      MulMonotone(x, -q - 1, p);
    } else if x < q {
      MulMonotone(-q, x, p);
      MulMonotone(x, q - 1, p);
    } else {
      MulMonotone(q, x, p);
    }
  }

  // ---------------------------------------------------------------------------
  // The shift of a window
  // ---------------------------------------------------------------------------

  /** The least Norm among the non-zero samples, 32 if there are none. */
  function LeastNorm(w: seq<int>): nat {
    if w == [] then 32
    else
      var d, x := LeastNorm(w[..|w| - 1]), w[|w| - 1];
      if x != 0 && d > Norm(x) then Norm(x) else d
  }

  lemma {:induction false} LeastNormIsLeast(w: seq<int>)
    ensures forall i | 0 <= i < |w| && w[i] != 0 :: LeastNorm(w) <= Norm(w[i])
    ensures LeastNorm(w) == 32 || exists i | 0 <= i < |w| && w[i] != 0 :: LeastNorm(w) == Norm(w[i])
  {
    if w != [] {
      hide Norm;
      var init := w[..|w| - 1];
      LeastNormIsLeast(init);
      assert forall i | 0 <= i < |init| :: w[i] == init[i];
    }
  }

  /** The norm of a 16-bit sample is at least 16, so the shift is not negative. */
  lemma NormOfSample(x: int)
    requires IsInt16(x) && x != 0
    ensures 16 <= Norm(x) <= 31
    ensures x != -1 ==> Norm(x) <= 30
    ensures x <= -328 || 328 <= x ==> Norm(x) <= 22
  {
    if x != -1 {
      PowValues();
      DoublingsBound(Bits(x), 15);
      DoublingsSmall(Bits(x));
      DoublingsBound(Bits(x), 8);
    }
  }

  /** The left shift applied to a window. */
  function Shift(w: seq<int>): (s: nat)
    requires IsWindow(w)
    ensures s <= 16
  {
    assert 16 <= LeastNorm(w) <= 32 by {
      LeastNormIsLeast(w);
      forall i | 0 <= i < |w| && w[i] != 0 ensures 16 <= Norm(w[i]) <= 31 {
        NormOfSample(w[i]);
      }
    }
    LeastNorm(w) - 16
  }

  /** A sample after the code's left shift and conversion to 16 bits. */
  function Shifted(x: int, s: nat): int {
    Wrap16(Wrap32(x * Pow2(s)))
  }

  function Normalised(w: seq<int>): (r: seq<int>)
    requires IsWindow(w)
    ensures |r| == |w| && IsWindow(r)
  {
    seq(|w|, i requires 0 <= i < |w| => Shifted(w[i], Shift(w)))
  }

  // ---------------------------------------------------------------------------
  // The power gate
  // ---------------------------------------------------------------------------

  const POWER_THRESHOLD := 328

  function Magnitude(x: int): nat {
    if x < 0 then -x else x
  }

  function AbsSum(w: seq<int>): nat {
    if w == [] then 0 else AbsSum(w[..|w| - 1]) + Magnitude(w[|w| - 1])
  }

  /** The mean magnitude of the window, truncated, reaches the threshold. */
  predicate PassesGate(w: seq<int>) {
    w != [] && POWER_THRESHOLD <= AbsSum(w) / |w|
  }

  lemma {:induction false} AbsSumBound(w: seq<int>, m: nat)
    requires forall i | 0 <= i < |w| :: Magnitude(w[i]) <= m
    ensures AbsSum(w) <= |w| * m
  {
    if w != [] {
      AbsSumBound(w[..|w| - 1], m);
      assert |w| * m == (|w| - 1) * m + m;
    }
  }

  /** The plain sum of a window. */
  function Total(w: seq<int>): int {
    if w == [] then 0 else w[0] + Total(w[1..])
  }

  lemma {:induction false} TotalAppend(w: seq<int>, x: int)
    ensures Total(w + [x]) == Total(w) + x
  {
    if w != [] {
      assert (w + [x])[1..] == w[1..] + [x];
      TotalAppend(w[1..], x);
    }
  }

  /** Both windows have the same samples up to their signs. */
  ghost predicate SameUpToSigns(v: seq<int>, w: seq<int>) {
    |v| == |w| && forall i | 0 <= i < |v| :: v[i] == w[i] || v[i] == -w[i]
  }

  /** What the gate sums: the plain sum of the window once its signs are removed. */
  lemma {:induction false} AbsSumIsTotal(w: seq<int>, v: seq<int>)
    requires SameUpToSigns(v, w) && forall i | 0 <= i < |v| :: 0 <= v[i]
    ensures AbsSum(w) == Total(v)
  {
    if w != [] {
      var n := |w| - 1;
      AbsSumIsTotal(w[..n], v[..n]);
      TotalAppend(v[..n], v[n]);
      assert v == v[..n] + [v[n]];
    }
  }

  function WithoutSigns(w: seq<int>): (v: seq<int>)
    ensures SameUpToSigns(v, w) && forall i | 0 <= i < |v| :: 0 <= v[i]
  {
    seq(|w|, i requires 0 <= i < |w| => if w[i] < 0 then -w[i] else w[i])
  }

  /** A window passes the gate if and only if its samples, without their signs, sum to at
      least 328 a piece. */
  lemma GateIff(w: seq<int>, v: seq<int>)
    requires SameUpToSigns(v, w) && forall i | 0 <= i < |v| :: 0 <= v[i]
    ensures PassesGate(w) <==> w != [] && 328 * |w| <= Total(v)
  {
    AbsSumIsTotal(w, v);
    if w != [] {
      MeanReaches(AbsSum(w), |w|);
    }
    hide AbsSum;
  }

  lemma MeanReaches(a: nat, n: nat)
    requires 0 < n
    ensures 328 <= a / n <==> 328 * n <= a
  {
    var q := a / n;
    assert a == q * n + a % n;
    if 328 <= q {
      MulMonotone(328, q, n);
    } else {
      MulMonotone(q + 1, 328, n);
    }
  }

  /** The gate ignores signs. */
  lemma GateIgnoresSigns(v: seq<int>, w: seq<int>)
    requires SameUpToSigns(v, w)
    ensures PassesGate(v) <==> PassesGate(w)
  {
    var u := WithoutSigns(w);
    assert SameUpToSigns(u, v);
    hide PassesGate;
    GateIff(w, u);
    GateIff(v, u);
  }

  /** A window of one magnitude passes if and only if that is at least 328. */
  lemma ConstantGate(w: seq<int>, a: int)
    requires 0 <= a && w != [] && forall i | 0 <= i < |w| :: w[i] == a || w[i] == -a
    ensures PassesGate(w) <==> 328 <= a
  {
    var v := seq(|w|, _ => a);
    ConstantTotal(v, a);
    hide PassesGate, Total;
    GateIff(w, v);
    ProductReaches(a, |w|);
  }

  lemma ProductReaches(a: nat, n: nat)
    requires 0 < n
    ensures 328 * n <= n * a <==> 328 <= a
  {
    if 328 <= a {
      MulMonotone(328, a, n);
    } else {
      MulMonotone(a + 1, 328, n);
    }
    assert n * a == a * n;
  }

  lemma {:induction false} ConstantTotal(v: seq<int>, a: int)
    requires forall i | 0 <= i < |v| :: v[i] == a
    ensures Total(v) == |v| * a
  {
    if v != [] {
      ConstantTotal(v[1..], a);
      assert |v| * a == a + (|v| - 1) * a;
    }
  }

  /** A window that passes the gate has a sample of at least the threshold. */
  lemma LoudSample(w: seq<int>) returns (i: nat)
    requires PassesGate(w)
    ensures i < |w| && POWER_THRESHOLD <= Magnitude(w[i])
  {
    if j :| 0 <= j < |w| && POWER_THRESHOLD <= Magnitude(w[j]) {
      i := j;
    } else {
      AbsSumBound(w, POWER_THRESHOLD - 1);
      assert false;
    }
  }

  // ---------------------------------------------------------------------------
  // Normalisation is lossless and maximal
  // ---------------------------------------------------------------------------

  /** A shift of s keeps x within 16 bits exactly when s + 16 is at most Norm(x). */
  lemma ShiftFits(x: int, s: nat)
    requires IsInt16(x) && x != 0 && s <= 15
    ensures IsInt16(x * Pow2(s)) <==> s + 16 <= Norm(x)
  {
    PowValues();
    PowDivides(s, 15);
    var p, q := Pow2(s), Pow2(15 - s);
    assert p * q == 0x8000;
    if x != -1 {
      DoublingsBound(Bits(x), 15 - s);
    }
    FitsByOrder(x, p, q);
  }

  lemma FitsByOrder(x: int, p: int, q: int)
    requires 0 < p && 0 < q && p * q == 0x8000
    ensures IsInt16(x * p) <==> -q <= x < q
  {
    if x < -q {
      MulMonotone(x, -q - 1, p);
    } else if x < q {
      MulMonotone(-q, x, p);
      MulMonotone(x, q - 1, p);
    } else {
      MulMonotone(q, x, p);
    }
  }

  lemma LoudWindow(w: seq<int>)
    requires IsWindow(w) && PassesGate(w)
    ensures 16 <= LeastNorm(w) <= 22
  {
    var loud := LoudSample(w);
    LeastNormIsLeast(w);
    NormOfSample(w[loud]);
    assert Shift(w) + 16 == LeastNorm(w);
  }

  /** When the gate passes, the shift is between 0 and 6, no sample loses a bit,
      and one more bit would overflow some sample. */
  lemma LosslessAndMaximal(w: seq<int>)
    requires IsWindow(w) && PassesGate(w)
    ensures Shift(w) <= 6
    ensures forall i | 0 <= i < |w| :: Normalised(w)[i] == w[i] * Pow2(Shift(w))
    ensures exists i | 0 <= i < |w| :: !IsInt16(w[i] * Pow2(Shift(w) + 1))
  {
    var least := ShiftIsLeast(w);
    hide *;
    ShiftFits(w[least], Shift(w) + 1);
    forall i | 0 <= i < |w| ensures Normalised(w)[i] == w[i] * Pow2(Shift(w)) {
      NormalisedAt(w, i);
      ShiftedExact(w[i], Shift(w));
    }
  }

  lemma ShiftIsLeast(w: seq<int>) returns (least: nat)
    requires IsWindow(w) && PassesGate(w)
    ensures Shift(w) <= 6
    ensures forall i | 0 <= i < |w| :: IsInt16(w[i]) && (w[i] != 0 ==> Shift(w) + 16 <= Norm(w[i]))
    ensures least < |w| && w[least] != 0 && IsInt16(w[least]) && Norm(w[least]) == Shift(w) + 16
  {
    LoudWindow(w);
    assert Shift(w) + 16 == LeastNorm(w);
    hide LeastNorm, PassesGate, Shift, Norm;
    LeastNormIsLeast(w);
    least :| 0 <= least < |w| && w[least] != 0 && LeastNorm(w) == Norm(w[least]);
  }

  lemma ShiftedExact(x: int, s: nat)
    requires IsInt16(x) && s <= 15 && (x != 0 ==> s + 16 <= Norm(x))
    ensures Shifted(x, s) == x * Pow2(s)
  {
    hide Norm;
    if x != 0 {
      ShiftFits(x, s);
    }
  }

  // ---------------------------------------------------------------------------
  // Doubling the window changes nothing
  // ---------------------------------------------------------------------------

  function Amplified(w: seq<int>, k: nat): (r: seq<int>)
    ensures |r| == |w|
  {
    seq(|w|, i requires 0 <= i < |w| => w[i] * Pow2(k))
  }

  lemma {:induction false} AbsSumOfDouble(w: seq<int>)
    ensures AbsSum(Amplified(w, 1)) == 2 * AbsSum(w)
  {
    assert Pow2(1) == 2;
    if w != [] {
      AbsSumOfDouble(w[..|w| - 1]);
      assert Amplified(w, 1)[..|w| - 1] == Amplified(w[..|w| - 1], 1);
    }
  }

  lemma {:induction false} LeastNormOfDouble(w: seq<int>)
    requires IsWindow(w) && IsWindow(Amplified(w, 1))
    ensures LeastNorm(Amplified(w, 1)) == if LeastNorm(w) == 32 then 32 else LeastNorm(w) - 1
  {
    assert Pow2(1) == 2;
    if w != [] {
      var init, x := w[..|w| - 1], w[|w| - 1];
      var twice := Amplified(w, 1);
      assert twice[..|w| - 1] == Amplified(init, 1);
      assert twice[|w| - 1] == 2 * x;
      assert IsWindow(Amplified(init, 1)) by {
        assert forall i | 0 <= i < |init| :: Amplified(init, 1)[i] == twice[i];
      }
      LeastNormOfDouble(init);
      LeastNormIsLeast(init);
      if x != 0 {
        NormOfDouble(x);
        NormOfSample(x);
      }
    }
  }

  /** Doubling a window that passes the gate, when it still fits 16 bits, leaves the
      normalised window identical. */
  lemma DoubledNormalises(w: seq<int>)
    requires IsWindow(w) && PassesGate(w) && IsWindow(Amplified(w, 1))
    ensures PassesGate(Amplified(w, 1))
    ensures Normalised(Amplified(w, 1)) == Normalised(w)
  {
    var twice, s := Amplified(w, 1), Shift(w);
    DoubledGate(w);
    LeastNormOfDouble(w);
    LoudWindow(w);
    LoudWindow(twice);
    assert Shift(twice) == s - 1;
    forall i | 0 <= i < |w| ensures Normalised(twice)[i] == Normalised(w)[i] {
      hide *;
      NormalisedAt(w, i);
      NormalisedAt(twice, i);
      DoubledShift(w[i], s);
    }
  }

  lemma DoubledGate(w: seq<int>)
    requires PassesGate(w)
    ensures PassesGate(Amplified(w, 1))
  {
    AbsSumOfDouble(w);
    hide AbsSum;
    DoubledMean(AbsSum(w), |w|);
  }

  lemma DoubledMean(a: nat, n: nat)
    requires 0 < n && POWER_THRESHOLD <= a / n
    ensures POWER_THRESHOLD <= 2 * a / n
  {
    assert 2 * a / n >= a / n by {
      if 2 * a / n < a / n {
        MulMonotone(2 * a / n + 1, a / n, n);
      }
    }
  }

  lemma NormalisedAt(w: seq<int>, i: nat)
    requires IsWindow(w) && i < |w|
    ensures Normalised(w)[i] == Shifted(w[i], Shift(w))
  {
  }

  lemma DoubledShift(x: int, s: nat)
    requires 0 < s
    ensures Shifted(x * Pow2(1), s - 1) == Shifted(x, s)
  {
    assert Pow2(1) == 2;
    assert x * 2 * Pow2(s - 1) == x * Pow2(s);
  }
}
