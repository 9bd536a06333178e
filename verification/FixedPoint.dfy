/** C integer arithmetic as the fixed-point code uses it: two's-complement
    conversions, the arithmetic right shift, truncating division, and the
    48-bit multiply MPY48SR shared by the DTMF detector and generator. */
module FixedPoint {
  import opened Arithmetic

  predicate IsInt16(x: int) { -0x8000 <= x < 0x8000 }

  predicate IsInt32(x: int) { -0x8000_0000 <= x < 0x8000_0000 }

  /** Conversion to a 16-bit signed integer. */
  function Wrap16(x: int): (r: int)
    ensures IsInt16(r)
    ensures IsInt16(x) ==> r == x
  {
    (x + 0x8000) % 0x1_0000 - 0x8000
  }

  /** Conversion to a 32-bit signed integer. */
  function Wrap32(x: int): (r: int)
    ensures IsInt32(r)
    ensures IsInt32(x) ==> r == x
  {
    (x + 0x8000_0000) % 0x1_0000_0000 - 0x8000_0000
  }

  /** Conversion to a 32-bit unsigned integer. */
  function UWrap32(x: int): (r: int)
    ensures 0 <= r < 0x1_0000_0000
  {
    x % 0x1_0000_0000
  }

  /** Division as C performs it: the quotient is truncated towards zero. */
  function DivTrunc(a: int, b: int): (q: int)
    requires b != 0
  {
    if a >= 0 then
      if b > 0 then a / b else -(a / -b)
    else
      if b > 0 then -(-a / b) else -a / -b
  }

  /** The remainder that goes with the truncated quotient is smaller than the divisor and
      has the sign of the dividend. */
  lemma TruncatedDivision(a: int, b: int)
    requires b != 0
    ensures var r := a - DivTrunc(a, b) * b;
            && (if b < 0 then b < r < -b else -b < r < b)
            && (0 <= a ==> 0 <= r) && (a <= 0 ==> r <= 0)
  {
    var p, q := if a < 0 then -a else a, if b < 0 then -b else b;
    var m := p / q;
    assert p == m * q + p % q;
    assert DivTrunc(a, b) * b == if a < 0 then -(m * q) else m * q;
  }

  /** Multiplies a 16-bit by a 32-bit number and keeps the product shifted right
      by fifteen, assembled from two 16-bit halves and added modulo 2^32. */
  function Mpy48sr(o16: int, o32: int): (r: int)
    ensures IsInt32(r)
  {
    var temp0 := UWrap32((o32 % 0x1_0000 * o16 + 0x4000) / 0x8000);
    var temp1 := Wrap16(o32 / 0x1_0000) * o16;
    Wrap32(UWrap32(Wrap32(temp1 * 2)) + temp0)
  }

  /** The rounded quotient that MPY48SR is meant to compute: k * b / 2^15,
      rounded to the nearest integer with ties going up. */
  function Round15(k: int, b: int): (r: int)
    ensures -0x4000 <= 0x8000 * r - k * b <= 0x4000
  {
    (k * b + 0x4000) / 0x8000
  }

  /** The two halves of the operand recombine to the exact rounded quotient. */
  lemma HalvesRecombine(k: int, hi: int, lo: int)
    ensures Round15(k, hi * 0x1_0000 + lo) == hi * k * 2 + (lo * k + 0x4000) / 0x8000
  {
    var p, q := hi * k, lo * k;
    assert k * (hi * 0x1_0000 + lo) == p * 0x1_0000 + q;
    assert (p * 0x1_0000 + q + 0x4000) / 0x8000 == p * 2 + (q + 0x4000) / 0x8000;
  }

  /** Modular additions of the pieces agree with one conversion at the end. */
  lemma WrapsCollapse(a: int, b: int)
    ensures Wrap32(UWrap32(Wrap32(a)) + UWrap32(b)) == Wrap32(a + b)
  {
    var m := 0x1_0000_0000;
    var w := Wrap32(a);
    var d := (a + 0x8000_0000) / m;
    assert w == a - d * m;
    var e, f := w / m, b / m;
    assert UWrap32(w) + UWrap32(b) == a + b - (d + e + f) * m;
    ShiftedWrap(a + b, -(d + e + f));
  }

  lemma ShiftedWrap(x: int, n: int)
    ensures Wrap32(x + n * 0x1_0000_0000) == Wrap32(x)
  {
    assert (x + n * 0x1_0000_0000 + 0x8000_0000) % 0x1_0000_0000 == (x + 0x8000_0000) % 0x1_0000_0000;
  }

  lemma ProductRange(k: int, b: int)
    requires IsInt16(k) && IsInt32(b)
    ensures -0x8000 * 0x8000_0000 + 0x8000 <= k * b <= 0x8000 * 0x8000_0000
    ensures k != -0x8000 || b != -0x8000_0000 ==> k * b <= 0x8000 * 0x8000_0000 - 0x8000
  {
    if k >= 0 {
      MulMonotone(-0x8000_0000, b, k);
      MulMonotone(b, 0x7FFF_FFFF, k);
    } else {
      MulMonotone(-0x8000_0000, b, -k);
      MulMonotone(b, 0x7FFF_FFFF, -k);
    }
  }

  /** MPY48SR is exact rounding on every pair of operands but one: only the two
      most negative operands together overflow the result. */
  lemma Mpy48srRounds(k: int, b: int)
    requires IsInt16(k) && IsInt32(b)
    ensures Mpy48sr(k, b) == Wrap32(Round15(k, b))
    ensures Mpy48sr(k, b) == Round15(k, b) <==> !(k == -0x8000 && b == -0x8000_0000)
  {
    var hi, lo := b / 0x1_0000, b % 0x1_0000;
    assert Mpy48sr(k, b) == Wrap32(Round15(k, b)) by {
      HalvesRecombine(k, hi, lo);
      assert b == hi * 0x1_0000 + lo && IsInt16(hi);
      var h := hi * k;
      WrapsCollapse(h * 2, (lo * k + 0x4000) / 0x8000);
    }
    RoundRange(k, b);
  }

  lemma RoundRange(k: int, b: int)
    requires IsInt16(k) && IsInt32(b)
    ensures -0x8000_0000 < Round15(k, b)
    ensures if k == -0x8000 && b == -0x8000_0000 then Round15(k, b) == 0x8000_0000 else Round15(k, b) < 0x8000_0000
  {
    ProductRange(k, b);
    var p := k * b;
    var r := Round15(k, b);
    assert -0x4000 <= 0x8000 * r - p <= 0x4000;
  }
}
