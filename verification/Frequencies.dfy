/** Which tone each coefficient stands for: the generator's are the eight frequencies of
    ITU-T Recommendation Q.23 at 8000 samples a second, the detector's are whole
    multiples of the frequency that turns once in 102 samples. */
module Frequencies {
  import opened Goertzel
  import opened Detection
  import Response
  import Spectrum
  import Tones

  // ---------------------------------------------------------------------------
  // Cosines of multiples of one angle, in fixed point
  // ---------------------------------------------------------------------------

  const SCALE := 1_000_000_000_000

  /** The cosine of the angle that turns once in 102 samples, scaled. */
  const BIN := 998_103_328_737

  const BIN_COSINE := 0.998103328737

  /** The cosine of n times that angle. */
  function CosineOfBin(n: nat): real {
    Response.CosineOf(BIN_COSINE, n)
  }

  /** A cosine is not larger than one. */
  lemma {:induction false} CosineEnergy(c: real, n: nat)
    requires -1.0 <= c <= 1.0 && n > 0
    ensures Spectrum.EnergyOf(c, Spectrum.Wave(Response.CosineOf(c, n), Response.CosineOf(c, n - 1))) == 1.0 - c * c
  {
    if n == 1 {
      Response.CosineFirst(c);
      assert Response.CosineOf(c, 0) == 1.0;
    } else {
      CosineEnergy(c, n - 1);
      var s := Spectrum.Wave(Response.CosineOf(c, n - 1), Response.CosineOf(c, n - 2));
      Response.CosineRecurs(c, n);
      assert Spectrum.Wave(Response.CosineOf(c, n), Response.CosineOf(c, n - 1)) == Spectrum.Turn(c, 0.0, s);
      hide Response.CosineOf, Spectrum.EnergyOf, Spectrum.Turn;
      Spectrum.EnergyOfTurn(c, 0.0, s);
    }
  }

  lemma CosineRange(c: real, n: nat)
    requires -1.0 < c < 1.0
    ensures -1.0 <= Response.CosineOf(c, n) <= 1.0
  {
    CosineEnergy(c, n + 1);
    var a, b := Response.CosineOf(c, n + 1), Response.CosineOf(c, n);
    hide Response.CosineOf;
    BoundedByEnergy(c, a, b);
  }

  lemma BoundedByEnergy(c: real, a: real, b: real)
    requires -1.0 < c < 1.0 && Spectrum.EnergyOf(c, Spectrum.Wave(a, b)) == 1.0 - c * c
    ensures -1.0 <= b <= 1.0
  {
    var d, q := a - c * b, 1.0 - c * c;
    assert d * d == a * a - 2.0 * c * (a * b) + (c * c) * (b * b);
    assert d * d + q * (b * b) == q;
    Response.SquareOfReal(d);
    Spectrum.ProductSign'(1.0 - c, 1.0 + c);
    assert (1.0 - c) * (1.0 + c) == q;
    if b * b > 1.0 {
      Spectrum.ProductSign'(q, b * b - 1.0);
      assert q * (b * b - 1.0) == q * (b * b) - q;
    }
    Spectrum.RootOrder(b, 1.0);
  }

  /** Two approximate factors give an approximate product. */
  lemma ProductError(a: int, b: int, t: real, u: real, e: nat)
    requires -1.0 <= t <= 1.0 && -1.0 <= u <= 1.0 && 2 * e <= SCALE
    requires NearTo(a, t, e) && NearTo(b, u, e)
    ensures NearTo(2 * a * b / SCALE, 2.0 * Response.Product(t, u), 5 * e + 1)
  {
    assert 0 < SCALE && e as real <= 500000000000.0;
    hide *;
    var p := 2 * a * b / SCALE;
    ScaledQuotient(a, b);
    NearMeans(a, t, e);
    NearMeans(b, u, e);
    RealProductError(p as real, a as real, b as real, t, u, e as real);
    NearBy(p, 2.0 * Response.Product(t, u), 5 * e + 1);
  }

  lemma NearMeans(a: int, t: real, e: nat)
    requires NearTo(a, t, e)
    ensures -(e as real) <= a as real - 1000000000000.0 * t <= e as real
  {
  }

  lemma NearBy(a: int, t: real, e: nat)
    requires -(e as real) <= a as real - 1000000000000.0 * t <= e as real
    ensures NearTo(a, t, e)
  {
  }

  lemma ScaledQuotient(a: int, b: int)
    ensures var p := (2 * a * b / SCALE) as real;
            1000000000000.0 * p <= 2.0 * (a as real * b as real) <= 1000000000000.0 * p + 1000000000000.0
  {
    var p := 2 * a * b / SCALE;
    assert 2 * a * b == 2 * (a * b);
    assert SCALE * p <= 2 * (a * b) < SCALE * p + SCALE;
    Spectrum.ProductAsReal(a, b);
  }

  lemma RealProductError(p: real, a: real, b: real, t: real, u: real, e: real)
    requires 0.0 <= e <= 500000000000.0 && -1.0 <= t <= 1.0 && -1.0 <= u <= 1.0
    requires -e <= a - 1000000000000.0 * t <= e && -e <= b - 1000000000000.0 * u <= e
    requires 1000000000000.0 * p <= 2.0 * (a * b) <= 1000000000000.0 * p + 1000000000000.0
    ensures -(5.0 * e + 1.0) <= p - 1000000000000.0 * (2.0 * Response.Product(t, u)) <= 5.0 * e + 1.0
  {
    var s := 1000000000000.0;
    var x, y := a - s * t, b - s * u;
    assert Response.Product(t, u) == t * u;
    hide *;
    ExpandProduct(s, t, u, x, y);
    ProductWithin(t, y, 1.0, e);
    ProductWithin(u, x, 1.0, e);
    ProductWithin(x, y, e, e);
    HalfSquare(e);
    assert a == s * t + x && b == s * u + y;
    Conclude(p, a * b, t * u, t * y, u * x, x * y, e);
  }

  lemma HalfSquare(e: real)
    requires 0.0 <= e <= 500000000000.0
    ensures e * e <= 500000000000.0 * e
  {
    Spectrum.ProductSign(500000000000.0 - e, e);
  }

  lemma ExpandProduct(s: real, t: real, u: real, x: real, y: real)
    ensures (s * t + x) * (s * u + y) == s * s * (t * u) + s * (t * y) + s * (u * x) + x * y
  {
  }

  lemma ProductWithin(x: real, y: real, a: real, b: real)
    requires -a <= x <= a && -b <= y <= b
    ensures -(a * b) <= x * y <= a * b
  {
    Spectrum.ProductSign(a - x, b + y);
    Spectrum.ProductSign(a + x, b - y);
    Spectrum.ProductSign(a - x, b - y);
    Spectrum.ProductSign(a + x, b + y);
  }

  lemma Conclude(p: real, ab: real, tu: real, ty: real, ux: real, xy: real, e: real)
    requires ab == 1000000000000000000000000.0 * tu + 1000000000000.0 * ty + 1000000000000.0 * ux + xy
    requires 1000000000000.0 * p <= 2.0 * ab <= 1000000000000.0 * p + 1000000000000.0
    requires -e <= ty <= e && -e <= ux <= e && -500000000000.0 * e <= xy <= 500000000000.0 * e
    ensures -(5.0 * e + 1.0) <= p - 1000000000000.0 * (2.0 * tu) <= 5.0 * e + 1.0
  {
  }

  /** The scaled number is within e of the real one. */
  ghost predicate NearTo(a: int, t: real, e: nat) {
    -(e as real) <= a as real - 1000000000000.0 * t <= e as real
  }

  /** Numbers within e of the cosines of n and of n + 1 times the angle, scaled. */
  ghost predicate At(n: nat, a: int, b: int, e: nat) {
    NearTo(a, CosineOfBin(n), e) && NearTo(b, CosineOfBin(n + 1), e)
  }

  lemma AtStart()
    ensures At(0, SCALE, BIN, 0)
  {
    Response.CosineFirst(BIN_COSINE);
    assert CosineOfBin(0) == 1.0;
  }

  /** Approximations of the cosines of an angle r, scaled c, and of two multiples t and u that
      follow each other give approximations at twice the multiples. */
  lemma DoubledNear(c: int, r: real, a: int, b: int, t: real, u: real, e: nat)
    requires c as real == 1000000000000.0 * r && -1.0 <= t <= 1.0 && -1.0 <= u <= 1.0 && 2 * e <= SCALE
    requires NearTo(a, t, e) && NearTo(b, u, e)
    ensures NearTo(2 * a * a / SCALE - SCALE, 2.0 * Response.Product(t, t) - 1.0, 5 * e + 1)
    ensures NearTo(2 * a * b / SCALE - c, 2.0 * Response.Product(t, u) - r, 5 * e + 1)
    ensures NearTo(2 * b * b / SCALE - SCALE, 2.0 * Response.Product(u, u) - 1.0, 5 * e + 1)
  {
    assert 0 < SCALE && SCALE as real == 1000000000000.0 * 1.0;
    hide NearTo, Response.Product;
    ProductError(a, a, t, t, e);
    ProductError(b, b, u, u, e);
    ProductError(a, b, t, u, e);
    NearMinus(2 * a * a / SCALE, 2.0 * Response.Product(t, t), SCALE, 1.0, 5 * e + 1);
    NearMinus(2 * b * b / SCALE, 2.0 * Response.Product(u, u), SCALE, 1.0, 5 * e + 1);
    NearMinus(2 * a * b / SCALE, 2.0 * Response.Product(t, u), c, r, 5 * e + 1);
  }

  /** The cosines of 2n, 2n + 1 and 2n + 2 times the angle in terms of the two of n. */
  lemma BinUnfolds(n: nat)
    ensures var t, u := CosineOfBin(n), CosineOfBin(n + 1);
            && -1.0 <= t <= 1.0 && -1.0 <= u <= 1.0
            && CosineOfBin(2 * n) == 2.0 * Response.Product(t, t) - 1.0
            && CosineOfBin(2 * n + 1) == 2.0 * Response.Product(t, u) - BIN_COSINE
            && CosineOfBin(2 * n + 2) == 2.0 * Response.Product(u, u) - 1.0
  {
    var r := BIN_COSINE;
    assert -1.0 < r < 1.0;
    CosineUnfolds(r, n);
    CosineRange(r, n);
    CosineRange(r, n + 1);
    hide Response.CosineOf, Response.Product;
  }

  lemma CosineUnfolds(r: real, m: nat)
    ensures var t, u := Response.CosineOf(r, m), Response.CosineOf(r, m + 1);
            && Response.CosineOf(r, 2 * m) == 2.0 * Response.Product(t, t) - 1.0
            && Response.CosineOf(r, 2 * m + 1) == 2.0 * Response.Product(t, u) - r
            && Response.CosineOf(r, 2 * m + 2) == 2.0 * Response.Product(u, u) - 1.0
  {
    Response.CosineDoubled(r, m);
    Response.CosineDoubled(r, m + 1);
    Response.CosineProducts(r, m + 1, m);
    Response.CosineFirst(r);
    Commutes(Response.CosineOf(r, m), Response.CosineOf(r, m + 1));
    hide Response.CosineOf, Response.Product;
    assert m + 1 + m == 2 * m + 1 && 2 * (m + 1) == 2 * m + 2;
  }

  lemma NearMinus(x: int, t: real, c: int, r: real, e: nat)
    requires NearTo(x, t, e) && c as real == 1000000000000.0 * r
    ensures NearTo(x - c, t - r, e)
  {
  }

  lemma Commutes(t: real, u: real)
    ensures Response.Product(t, u) == Response.Product(u, t)
  {
  }

  // ---------------------------------------------------------------------------
  // The tables
  // ---------------------------------------------------------------------------

  /** The frequency of each of the detector's filters, in turns per 102 samples. */
  const BINS: seq<nat> := [9, 10, 11, 12, 15, 17, 19, 21, 14, 7, 1, 3, 4, 5, 26, 32, 38, 45]

  /** The cosines at all these multiples, from one doubling to the next. */
  lemma LowCosines()
    ensures At(1, 998_103_328_737, 992_420_509_671, 1)
    ensures At(2, 992_420_509_671, 982_973_099_681, 6)
    ensures At(3, 982_973_099_681, 969_796_936_031, 6)
    ensures At(4, 969_796_936_031, 952_942_000_419, 31)
    ensures At(5, 952_942_000_419, 932_472_229_392, 31)
    ensures At(6, 932_472_229_392, 908_465_271_806, 31)
    ensures At(7, 908_465_271_806, 881_012_194_270, 31)
  {
    hide NearTo, CosineOfBin, Response.Product;
    AtStart();
    BinUnfolds(0);
    DoubledNear(BIN, BIN_COSINE, 1_000_000_000_000, 998_103_328_737, CosineOfBin(0), CosineOfBin(0 + 1), 0);
    BinUnfolds(1);
    DoubledNear(BIN, BIN_COSINE, 998_103_328_737, 992_420_509_671, CosineOfBin(1), CosineOfBin(1 + 1), 1);
    BinUnfolds(2);
    DoubledNear(BIN, BIN_COSINE, 992_420_509_671, 982_973_099_681, CosineOfBin(2), CosineOfBin(2 + 1), 6);
    BinUnfolds(3);
    DoubledNear(BIN, BIN_COSINE, 982_973_099_681, 969_796_936_031, CosineOfBin(3), CosineOfBin(3 + 1), 6);
  }

  lemma MiddleCosines()
    ensures At(8, 881_012_194_270, 850_217_135_706, 156)
    ensures At(9, 850_217_135_706, 816_196_912_325, 156)
    ensures At(10, 816_196_912_325, 779_080_574_486, 156)
    ensures At(11, 779_080_574_486, 739_008_917_174, 156)
    ensures At(13, 696_133_945_915, 650_618_300_155, 156)
    ensures At(14, 650_618_300_155, 602_634_636_326, 156)
  {
    hide NearTo, CosineOfBin, Response.Product;
    LowCosines();
    BinUnfolds(4);
    DoubledNear(BIN, BIN_COSINE, 969_796_936_031, 952_942_000_419, CosineOfBin(4), CosineOfBin(4 + 1), 31);
    BinUnfolds(5);
    DoubledNear(BIN, BIN_COSINE, 952_942_000_419, 932_472_229_392, CosineOfBin(5), CosineOfBin(5 + 1), 31);
    BinUnfolds(6);
    DoubledNear(BIN, BIN_COSINE, 932_472_229_392, 908_465_271_806, CosineOfBin(6), CosineOfBin(6 + 1), 31);
    BinUnfolds(7);
    DoubledNear(BIN, BIN_COSINE, 908_465_271_806, 881_012_194_270, CosineOfBin(7), CosineOfBin(7 + 1), 31);
  }

  lemma UpperCosines()
    ensures At(16, 552_364_972_904, 499_999_999_931, 781)
    ensures At(17, 499_999_999_931, 445_738_355_696, 781)
    ensures At(19, 389_785_873_201, 332_354_799_377, 781)
    ensures At(21, 273_662_989_958, 213_933_083_082, 781)
    ensures At(22, 213_933_083_082, 153_391_654_747, 781)
    ensures At(26, -30_795_058_690, -92_268_359_595, 781)
  {
    hide NearTo, CosineOfBin, Response.Product;
    MiddleCosines();
    BinUnfolds(8);
    DoubledNear(BIN, BIN_COSINE, 881_012_194_270, 850_217_135_706, CosineOfBin(8), CosineOfBin(8 + 1), 156);
    BinUnfolds(9);
    DoubledNear(BIN, BIN_COSINE, 850_217_135_706, 816_196_912_325, CosineOfBin(9), CosineOfBin(9 + 1), 156);
    BinUnfolds(10);
    DoubledNear(BIN, BIN_COSINE, 816_196_912_325, 779_080_574_486, CosineOfBin(10), CosineOfBin(10 + 1), 156);
    BinUnfolds(11);
    DoubledNear(BIN, BIN_COSINE, 779_080_574_486, 739_008_917_174, CosineOfBin(11), CosineOfBin(11 + 1), 156);
    BinUnfolds(13);
    DoubledNear(BIN, BIN_COSINE, 696_133_945_915, 650_618_300_155, CosineOfBin(13), CosineOfBin(13 + 1), 156);
  }

  lemma TopCosines()
    ensures At(32, -389_785_873_418, -445_738_355_910, 3906)
    ensures At(38, -696_133_946_106, -739_008_917_362, 3906)
    ensures At(45, -932_472_229_499, -952_942_000_508, 3906)
  {
    hide NearTo, CosineOfBin, Response.Product;
    UpperCosines();
    BinUnfolds(16);
    DoubledNear(BIN, BIN_COSINE, 552_364_972_904, 499_999_999_931, CosineOfBin(16), CosineOfBin(16 + 1), 781);
    BinUnfolds(19);
    DoubledNear(BIN, BIN_COSINE, 389_785_873_201, 332_354_799_377, CosineOfBin(19), CosineOfBin(19 + 1), 781);
    BinUnfolds(22);
    DoubledNear(BIN, BIN_COSINE, 213_933_083_082, 153_391_654_747, CosineOfBin(22), CosineOfBin(22 + 1), 781);
  }

  /** The angle is a turn in 102 samples: it is small, and seventeen of it are a sixth of
      a circle. */
  lemma BinAngle()
    ensures 0.99 < CosineOfBin(1) < 1.0
    ensures 0.49999999 <= CosineOfBin(17) <= 0.50000001
  {
    LowCosines();
    MiddleCosines();
    UpperCosines();
    TopCosines();
    hide CosineOfBin;
  }

  function Distance(x: real, y: real): real {
    if x < y then y - x else x - y
  }

  /** A coefficient is the cosine of the n-th multiple of the angle, rounded. */
  ghost predicate Listens(k: int, n: nat) {
    Distance(k as real, 32768.0 * CosineOfBin(n)) <= 0.51
  }

  /** Each filter's coefficient is the cosine of its frequency. */
  lemma FilterBins(i: nat)
    requires i < 18
    ensures Listens(CONSTANTS[i], BINS[i])
  {
    LowCosines();
    MiddleCosines();
    UpperCosines();
    TopCosines();
    hide CosineOfBin;
  }

  /** Among the filters, the nearest to a tone of the generator is the one at the same
      index; and both tables go from the lowest tone to the highest. */
  lemma NearestFilter(i: nat, j: nat)
    requires i < 8 && j < 18 && i != j
    ensures Distance(CONSTANTS[i] as real, Tones.COEFFICIENTS[i] as real)
          < Distance(CONSTANTS[j] as real, Tones.COEFFICIENTS[i] as real)
    ensures i < j < 8 ==> CONSTANTS[i] > CONSTANTS[j] && Tones.COEFFICIENTS[i] > Tones.COEFFICIENTS[j]
  {
  }

  /** So the first eight powers of a window are those of the filters nearest to the row
      and column tones, in this order. */
  lemma DialPowers(w: seq<int>, i: nat, k: int)
    requires i < 8 && k in CONSTANTS
    requires forall l | l in CONSTANTS ::
               Distance(k as real, Tones.COEFFICIENTS[i] as real) <= Distance(l as real, Tones.COEFFICIENTS[i] as real)
    ensures Powers(w)[i] == Power(k, w)
  {
    hide Power, CONSTANTS, Distance, Tones.COEFFICIENTS;
    var j :| 0 <= j < |CONSTANTS| && CONSTANTS[j] == k;
    assert |CONSTANTS| == 18 by { TableSize(); }
    assert CONSTANTS[i] in CONSTANTS;
    if j != i {
      NearestFilter(i, j);
    }
  }

  lemma TableSize()
    ensures |CONSTANTS| == 18
  {
  }

  /** And each of the eighteen is the power of the filter that listens at its frequency. */
  lemma BinPowers(w: seq<int>, i: nat, k: int)
    requires i < 18 && k in CONSTANTS && Listens(k, BINS[i])
    ensures Powers(w)[i] == Power(k, w)
  {
    FilterBins(i);
    TablesApart(i, k);
    hide Power, CONSTANTS, BINS, CosineOfBin;
  }

  lemma TablesApart(i: nat, k: int)
    requires i < 18 && k in CONSTANTS
    ensures k == CONSTANTS[i] || k < CONSTANTS[i] - 1 || CONSTANTS[i] + 1 < k
  {
  }
}
