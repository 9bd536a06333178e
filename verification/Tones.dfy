/** The two-tone oscillator of the DTMF generator. */
module Tones {
  import opened FixedPoint
  import opened Resonator
  import Decision
  import Response
  import Spectrum

  /** Coefficients of the four row tones and the four column tones. */
  const COEFFICIENTS: seq<int> := [27980, 26956, 25701, 24218, 19073, 16325, 13085, 9315]

  const START_LEVEL := 31000

  /** Two oscillators that run side by side. */
  datatype Tone = Tone(k1: int, k2: int, o1: Osc, o2: Osc)

  const SILENT := Tone(0, 0, Osc(0, 0), Osc(0, 0))

  function ToneAt(row: nat, column: nat): Tone
    requires row < 4 && column < 4
  {
    var k1, k2 := COEFFICIENTS[row], COEFFICIENTS[4 + column];
    Tone(k1, k2, Osc(k1, START_LEVEL), Osc(k2, START_LEVEL))
  }

  /** The tone that the generator loads for a key; silence for any other byte. */
  function ToneOf(key: char): Tone {
    match key
    case '1' => ToneAt(0, 0) case '2' => ToneAt(0, 1) case '3' => ToneAt(0, 2) case 'A' => ToneAt(0, 3)
    case '4' => ToneAt(1, 0) case '5' => ToneAt(1, 1) case '6' => ToneAt(1, 2) case 'B' => ToneAt(1, 3)
    case '7' => ToneAt(2, 0) case '8' => ToneAt(2, 1) case '9' => ToneAt(2, 2) case 'C' => ToneAt(2, 3)
    case '*' => ToneAt(3, 0) case '0' => ToneAt(3, 1) case '#' => ToneAt(3, 2) case 'D' => ToneAt(3, 3)
    case _ => SILENT
  }

  /** The generator's switch agrees with the keypad the detector uses: the key at a
      row and column gets that row's and that column's tone. */
  lemma ToneOfKey(r: nat, c: nat)
    requires r < 4 && c < 4
    ensures ToneOf(Decision.KEYS[4 * r + c]) == ToneAt(r, c)
  {
    hide ToneAt;
  }

  /** What each key sounds: the oscillator of its row and that of its column, both
      started at level 31000. */
  lemma KeyTone(r: nat, c: nat)
    requires r < 4 && c < 4
    ensures var t := ToneOf(Decision.KEYS[4 * r + c]);
            && t.k1 == [27980, 26956, 25701, 24218][r] && t.o1 == Osc(t.k1, 31000)
            && t.k2 == [19073, 16325, 13085, 9315][c] && t.o2 == Osc(t.k2, 31000)
  {
    ToneOfKey(r, c);
    hide ToneOf;
  }

  /** Two keys share the first oscillator exactly if they share the row, and the second
      exactly if they share the column. */
  lemma TonesDiffer(r: nat, c: nat, r': nat, c': nat)
    requires r < 4 && c < 4 && r' < 4 && c' < 4
    ensures var t, t' := ToneOf(Decision.KEYS[4 * r + c]), ToneOf(Decision.KEYS[4 * r' + c']);
            && (t.k1 == t'.k1 <==> r == r') && (t.k2 == t'.k2 <==> c == c')
  {
    KeyTone(r, c);
    KeyTone(r', c');
    hide ToneOf;
  }

  lemma PositionOfKey(key: char) returns (r: nat, c: nat)
    requires key in Decision.KEYS
    ensures r < 4 && c < 4 && key == Decision.KEYS[4 * r + c]
  {
    var i :| 0 <= i < 16 && Decision.KEYS[i] == key;
    r, c := i / 4, i % 4;
  }

  /** Any byte that is not a key is silent. */
  lemma SilentUnlessKey(key: char)
    ensures key !in Decision.KEYS <==> ToneOf(key) == SILENT
  {
    if key in Decision.KEYS {
      var r, c := PositionOfKey(key);
      ToneOfKey(r, c);
      assert ToneAt(r, c).k1 != 0;
    }
    hide ToneAt;
  }

  /** One oscillator after n steps without input. */
  function Spin(k: int, s: Osc, n: nat): Osc {
    if n == 0 then s else Step(k, 0, Spin(k, s, n - 1))
  }

  /** Both oscillators after n steps. */
  function Advance(t: Tone, n: nat): Tone {
    t.(o1 := Spin(t.k1, t.o1, n), o2 := Spin(t.k2, t.o2, n))
  }

  /** The sample put out for the current values: their sum, halved when there are
      two tones, converted to 16 bits. */
  function Output(t: Tone): int {
    var sum := Wrap32(t.o1.v1 + t.o2.v1);
    Wrap16(if t.k1 * t.k2 != 0 then sum / 2 else sum)
  }

  /** The first n samples of a tone. */
  function Samples(t: Tone, n: nat): (y: seq<int>)
    ensures |y| == n
  {
    if n == 0 then [] else Samples(t, n - 1) + [Output(Advance(t, n))]
  }

  lemma {:induction false} SpinTwice(k: int, s: Osc, a: nat, b: nat)
    ensures Spin(k, s, a + b) == Spin(k, Spin(k, s, a), b)
  {
    hide Step;
    if b > 0 {
      SpinTwice(k, s, a, b - 1);
    }
  }

  lemma AdvanceTwice(t: Tone, a: nat, b: nat)
    ensures Advance(t, a + b) == Advance(Advance(t, a), b)
  {
    SpinTwice(t.k1, t.o1, a, b);
    SpinTwice(t.k2, t.o2, a, b);
    hide Spin;
  }

  /** Running the oscillator for a and then b samples is running it for a + b, so
      cutting a tone into frames is invisible in the samples. */
  lemma {:induction false} FrameBoundaryInvisible(t: Tone, a: nat, b: nat)
    ensures Advance(t, a + b) == Advance(Advance(t, a), b)
    ensures Samples(t, a + b) == Samples(t, a) + Samples(Advance(t, a), b)
  {
    AdvanceTwice(t, a, b);
    hide Advance, Output;
    if b > 0 {
      FrameBoundaryInvisible(t, a, b - 1);
    }
  }

  // ---------------------------------------------------------------------------
  // The output never wraps
  // ---------------------------------------------------------------------------

  /** A tone length, in samples, for which the energy bound covers every key. */
  const REACH := 1698

  function Zeros(n: nat): (z: seq<int>)
    ensures |z| == n && forall i | 0 <= i < n :: z[i] == 0
  {
    seq(n, _ => 0)
  }

  lemma {:induction false} SpinIsRun(k: int, s: Osc, n: nat)
    ensures Spin(k, s, n) == Run(k, Zeros(n), s)
  {
    hide Step;
    if n > 0 {
      SpinIsRun(k, s, n - 1);
      assert Zeros(n)[..n - 1] == Zeros(n - 1);
    }
  }

  /** The root energy at which an oscillator of coefficient k starts, rounded up. */
  function StartRoot(k: int): int
    requires k in COEFFICIENTS
  {
    if k == 27980 then 531003743
    else if k == 26956 then 579525387
    else if k == 25701 then 631783462
    else if k == 24218 then 685610422
    else if k == 19073 then 826686802
    else if k == 16325 then 881241759
    else if k == 13085 then 931590755
    else 974038959
  }

  lemma RootPositive(k: int)
    requires k in COEFFICIENTS
    ensures 0 <= StartRoot(k) && Growth(0) == 0x4000
  {
  }

  /** Each oscillator starts with so little energy that 1698 samples of rounding
      cannot push it out of the 16-bit range. */
  lemma StartConfined(k: int)
    requires k in COEFFICIENTS
    ensures Calm(k, Osc(k, START_LEVEL), StartRoot(k))
    ensures Confines(k, StartRoot(k) + REACH * Growth(0), 32767)
  {
  }

  /** Up to the reach, an oscillator does not overflow and stays within 16 bits. */
  lemma OscillatorStays(k: int, n: nat)
    requires k in COEFFICIENTS && n <= REACH
    ensures RunExact(k, Zeros(n), Osc(k, START_LEVEL))
    ensures Within(Spin(k, Osc(k, START_LEVEL), n), 32767)
  {
    StartConfined(k);
    ReachIsLinear(StartRoot(k), Growth(0), REACH);
    SpinIsRun(k, Osc(k, START_LEVEL), n);
    assert Bounded(Zeros(n), 0);
    RootPositive(k);
    hide *;
    RunIsIdeal(k, Zeros(n), Osc(k, START_LEVEL), StartRoot(k), 0, 32767, REACH);
  }

  lemma ExactMean(t: Tone)
    requires Within(t.o1, 32767) && Within(t.o2, 32767) && 0 < t.k1 && 0 < t.k2
    ensures Output(t) == (t.o1.v1 + t.o2.v1) / 2
  {
    assert t.k1 * t.k2 != 0;
  }

  /** For every key and any tone of at most 1698 samples, each output sample is the
      exact mean of the two oscillator values, rounded down: nothing wraps. */
  lemma ToneNeverWraps(key: char, n: nat)
    requires key in Decision.KEYS && n <= REACH
    ensures var t := Advance(ToneOf(key), n);
            && Within(t.o1, 32767) && Within(t.o2, 32767)
            && Output(t) == (t.o1.v1 + t.o2.v1) / 2
  {
    var r, c := PositionOfKey(key);
    ToneOfKey(r, c);
    var k1, k2 := COEFFICIENTS[r], COEFFICIENTS[4 + c];
    assert 0 < k1 && 0 < k2;
    var t := ToneAt(r, c);
    assert t == Tone(k1, k2, Osc(k1, START_LEVEL), Osc(k2, START_LEVEL));
    hide ToneOf, ToneAt, COEFFICIENTS, Spin, Within, Output;
    OscillatorStays(k1, n);
    OscillatorStays(k2, n);
    ExactMean(Advance(t, n));
  }

  lemma {:induction false} SampleAt(t: Tone, n: nat, i: nat)
    requires i < n
    ensures Samples(t, n)[i] == Output(Advance(t, i + 1))
  {
    hide Output, Advance;
    if i < n - 1 {
      SampleAt(t, n - 1, i);
    }
  }

  /** So every sample of such a tone is the mean of two resonators that ran without
      any overflow from the key's two start states. */
  lemma ToneSamples(key: char, n: nat, i: nat)
    requires key in Decision.KEYS && i < n <= REACH
    ensures var t := Advance(ToneOf(key), i + 1);
            Samples(ToneOf(key), n)[i] == (t.o1.v1 + t.o2.v1) / 2 && IsInt16(t.o1.v1) && IsInt16(t.o2.v1)
  {
    hide ToneOf, Advance, Output;
    ToneNeverWraps(key, i + 1);
    SampleAt(ToneOf(key), n, i);
  }

  // ---------------------------------------------------------------------------
  // Each oscillator is a pure tone
  // ---------------------------------------------------------------------------

  /** The exact oscillation of an angle with cosine c, after n samples. */
  function Turned(c: real, s: Spectrum.Wave, n: nat): Spectrum.Wave {
    if n == 0 then s else Spectrum.Turn(c, 0.0, Turned(c, s, n - 1))
  }

  function Minus(x: Spectrum.Wave, y: Spectrum.Wave): Spectrum.Wave {
    Spectrum.Wave(x.v1 - y.v1, x.v2 - y.v2)
  }

  /** One exact step of an oscillator differs from a pure turn by one rounding, and so does
      its deviation from the exact oscillation. */
  lemma TurnsPurely(k: int, s: Osc, e: Spectrum.Wave) returns (r: real)
    requires -ONE < k < ONE && StepExact(k, 0, s)
    ensures -0.5 <= r <= 0.5
    ensures Minus(Response.AsWave(Step(k, 0, s)), Spectrum.Turn(Spectrum.Cosine(k), 0.0, e))
         == Spectrum.Turn(Spectrum.Cosine(k), r, Minus(Response.AsWave(s), e))
  {
    ExactStepIsIdeal(k, 0, s);
    hide Step, StepExact, Spectrum.Cosine, Round15;
    r := Response.StepAsTurn(k, 0, s);
    var c := Spectrum.Cosine(k);
    assert 2.0 * c * (s.v1 as real - e.v1) == 2.0 * c * s.v1 as real - 2.0 * c * e.v1;
  }

  /** How an oscillator of coefficient k, started at (k, 31000), deviates from the exact
      oscillation after n samples. */
  function Impurity(k: int, n: nat): Spectrum.Wave {
    var s := Osc(k, START_LEVEL);
    Minus(Response.AsWave(Spin(k, s, n)), Turned(Spectrum.Cosine(k), Response.AsWave(s), n))
  }

  lemma PureAtStart(k: int)
    ensures Spectrum.Calm(Spectrum.Cosine(k), Impurity(k, 0), 0.5 * 0 as real)
  {
    assert Impurity(k, 0) == Spectrum.SILENCE;
  }

  lemma StaysExact(k: int, n: nat)
    requires k in COEFFICIENTS && 0 < n <= REACH
    ensures StepExact(k, 0, Spin(k, Osc(k, START_LEVEL), n - 1))
  {
    hide StepExact, Spin, COEFFICIENTS, Run;
    OscillatorStays(k, n);
    SpinIsRun(k, Osc(k, START_LEVEL), n - 1);
    assert Zeros(n)[..n - 1] == Zeros(n - 1);
  }

  lemma ImpurityTurns(k: int, n: nat) returns (r: real)
    requires k in COEFFICIENTS && 0 < n <= REACH
    ensures -0.5 <= r <= 0.5 && Impurity(k, n) == Spectrum.Turn(Spectrum.Cosine(k), r, Impurity(k, n - 1))
  {
    var c, s := Spectrum.Cosine(k), Osc(k, START_LEVEL);
    CoefficientRange(k);
    StaysExact(k, n);
    hide COEFFICIENTS, Step, StepExact, Spectrum.Cosine, Spectrum.Turn;
    r := TurnsPurely(k, Spin(k, s, n - 1), Turned(c, Response.AsWave(s), n - 1));
  }

  /** Up to the reach, n samples into the tone an oscillator deviates from the exact
      oscillation of its frequency by a root energy of at most n / 2. */
  lemma {:induction false} OscillatorIsPure(k: int, n: nat)
    requires k in COEFFICIENTS && n <= REACH
    ensures Spectrum.Calm(Spectrum.Cosine(k), Impurity(k, n), 0.5 * n as real)
  {
    hide *;
    if n == 0 {
      PureAtStart(k);
    } else {
      OscillatorIsPure(k, n - 1);
      CoefficientRange(k);
      var r := ImpurityTurns(k, n);
      Spectrum.TurnEnergy(Spectrum.Cosine(k), r, Impurity(k, n - 1), 0.5 * (n - 1) as real);
      assert 0.5 * (n - 1) as real + 0.5 == 0.5 * n as real;
    }
  }

  lemma CoefficientRange(k: int)
    requires k in COEFFICIENTS
    ensures -ONE < k < ONE && -1.0 <= Spectrum.Cosine(k) <= 1.0
  {
  }

  /** Both oscillators of a key, n samples into its tone, are pure tones of the row's and
      the column's coefficient. */
  lemma KeySounds(r: nat, c: nat, n: nat)
    requires r < 4 && c < 4 && n <= REACH
    ensures var t := Advance(ToneOf(Decision.KEYS[4 * r + c]), n);
            && IsPure([27980, 26956, 25701, 24218][r], t.o1, n)
            && IsPure([19073, 16325, 13085, 9315][c], t.o2, n)
  {
    KeyTone(r, c);
    var k1, k2 := [27980, 26956, 25701, 24218][r], [19073, 16325, 13085, 9315][c];
    assert k1 in COEFFICIENTS && k2 in COEFFICIENTS;
    hide ToneOf, Spin, Turned, COEFFICIENTS, Spectrum.Calm;
    OscillatorIsPure(k1, n);
    OscillatorIsPure(k2, n);
  }

  /** A state that deviates little from the exact oscillation started at (k, 31000). */
  ghost predicate IsPure(k: int, s: Osc, n: nat) {
    var c := Spectrum.Cosine(k);
    Spectrum.Calm(c, Minus(Response.AsWave(s), Turned(c, Response.AsWave(Osc(k, 31000)), n)), 0.5 * n as real)
  }

  /** An output sample that is the exact mean of a key's two oscillators, both within 16
      bits, n samples into its tone. */
  ghost predicate IsMeanOf(y: int, key: char, n: nat) {
    var t := Advance(ToneOf(key), n);
    key in Decision.KEYS && IsInt16(t.o1.v1) && IsInt16(t.o2.v1) && y == (t.o1.v1 + t.o2.v1) / 2
  }

  lemma {:induction false} SilenceStays(n: nat)
    ensures Advance(SILENT, n) == SILENT
  {
    hide Step;
    if n > 0 {
      SilenceStays(n - 1);
      ZeroStep();
    }
  }

  lemma ZeroStep()
    ensures Step(0, 0, Osc(0, 0)) == Osc(0, 0)
  {
    hide Mpy48sr, Wrap32;
    Mpy48srRounds(0, 0);
    assert Wrap32(2 * 0) == 0;
  }

  /** A byte that is not a key sounds like a pause. */
  lemma SilentSample(key: char, n: nat, i: nat)
    requires key !in Decision.KEYS && i < n
    ensures Samples(ToneOf(key), n)[i] == 0
  {
    SilentUnlessKey(key);
    hide ToneOf, Advance;
    SampleAt(ToneOf(key), n, i);
    SilenceStays(i + 1);
    assert Output(SILENT) == 0;
  }
}
