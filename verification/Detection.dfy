/** What the detector computes, as functions: the key of one window, and the key
    log and left-over samples after any stream of frames. */
module Detection {
  import opened Arithmetic
  import opened FixedPoint
  import opened Goertzel
  import opened Normalisation
  import opened Decision
  import Debounce

  /** The eighteen tone powers of a window. */
  function Powers(w: seq<int>): (t: seq<int>)
    ensures |t| == TONES
  {
    seq(TONES, i requires 0 <= i < TONES => Power(CONSTANTS[i], w))
  }

  /** The key found in one window, or NO_KEY. */
  function Detect(w: seq<int>): char
    requires IsWindow(w)
  {
    if PassesGate(w) then Decide(Powers(Normalised(w))) else NO_KEY
  }

  // ---------------------------------------------------------------------------
  // One window
  // ---------------------------------------------------------------------------

  lemma {:induction false} InBandSumIsSum(w: seq<int>, n: nat)
    requires n <= 10
    ensures SumTo(Powers(w), n) == InBandSum(w, n)
  {
    hide Power;
    if n > 0 {
      InBandSumIsSum(w, n - 1);
    }
  }

  /** On a window of up to 102 samples the in-band powers are sound: none negative, no overflow
      of their sum. */
  lemma PowersSound(w: seq<int>)
    requires IsWindow(w) && |w| <= WINDOW
    ensures InBandSound(Powers(w))
  {
    var t := Powers(w);
    InBandSumIsSum(w, 10);
    InBandSumFits(w, 10);
    assert forall i | 0 <= i < 10 :: t[i] == Power(CONSTANTS[i], w);
    hide *;
    forall i | 0 <= i < 10 ensures 0 <= t[i] {
      InBandPower(w, i);
    }
    SoundBy(t);
  }

  lemma SoundBy(t: seq<int>)
    requires |t| == TONES && (forall i | 0 <= i < 10 :: 0 <= t[i]) && IsInt32(SumTo(t, 10))
    ensures InBandSound(t)
  {
  }

  /** On a window of up to 102 samples a key is reported exactly when the window is loud enough
      and the key's row and column meet every acceptance condition on the powers of
      the normalised window. */
  lemma DetectIff(w: seq<int>, r: nat, c: nat)
    requires IsWindow(w) && |w| <= WINDOW && r < 4 <= c < 8
    ensures Detect(w) == KEYS[4 * r + c - 4] <==> PassesGate(w) && Accepts(Powers(Normalised(w)), r, c)
  {
    Keypad(r, c, r, c);
    PowersSound(Normalised(w));
    hide PassesGate, Powers, Normalised, Accepts, Decide, InBandSound;
    DecideIff(Powers(Normalised(w)), r, c);
  }

  /** On such a window nothing is reported exactly when it is not loud enough or no row and
      column meet the conditions. */
  lemma BlankIff(w: seq<int>)
    requires IsWindow(w) && |w| <= WINDOW
    ensures Detect(w) == ' ' <==>
              !PassesGate(w) || forall r: nat, c: nat | r < 4 <= c < 8 :: !Accepts(Powers(Normalised(w)), r, c)
  {
    PowersSound(Normalised(w));
    hide PassesGate, Powers, Normalised, Accepts, Decide, InBandSound;
    NoKeyIff(Powers(Normalised(w)));
  }

  // ---------------------------------------------------------------------------
  // Which powers are exact
  // ---------------------------------------------------------------------------

  lemma {:induction false} BurstSum(w: seq<int>, m: nat)
    requires m <= |w| && forall i | m <= i < |w| :: w[i] == -0x8000
    ensures AbsSum(w) >= 0x8000 * (|w| - m)
  {
    if |w| > m {
      BurstSum(w[..|w| - 1], m);
    }
  }

  lemma BurstPasses(n: nat)
    requires 2 <= n <= WINDOW
    ensures PassesGate(Burst(n))
  {
    BurstSum(Burst(n), WINDOW - n);
    hide AbsSum;
    assert AbsSum(Burst(n)) >= 0x1_0000;
  }

  /** A window with a full-scale sample is not shifted. */
  lemma FullScaleUnshifted(w: seq<int>, i: nat)
    requires IsWindow(w) && PassesGate(w) && i < |w| && w[i] == -0x8000
    ensures Normalised(w) == w
  {
    hide Norm, AbsSum, LeastNorm, PassesGate, Normalised;
    LosslessAndMaximal(w);
    LeastNormIsLeast(w);
    FullScaleNorm();
    assert Shift(w) == LeastNorm(w) - 16;
    assert Shift(w) == 0 && Pow2(0) == 1;
    assert |Normalised(w)| == |w|;
    forall j | 0 <= j < |w| ensures Normalised(w)[j] == w[j] {
      assert Normalised(w)[j] == w[j] * 1;
    }
  }

  /** The failing windows are windows that the filters do receive: they pass the gate and
      are not changed by normalisation. */
  lemma BurstArrives(n: nat)
    requires 2 <= n <= WINDOW
    ensures PassesGate(Burst(n)) && Normalised(Burst(n)) == Burst(n)
  {
    BurstPasses(n);
    assert Burst(n)[WINDOW - 1] == -0x8000;
    hide *;
    FullScaleUnshifted(Burst(n), WINDOW - 1);
  }

  lemma FullScaleNorm()
    ensures Norm(-0x8000) == 16
  {
    PowValues();
    assert Pow2(14) == 0x4000;
    DoublingsExact(0x7FFF, 16);
  }

  /** Over all standard windows that reach the filters, a filter's 16-bit conversions are
      all exact if and only if its coefficient is not 32706. */
  lemma CastsExactIff(k: int)
    requires k in CONSTANTS
    ensures (forall w: seq<int> | Arrives(w) :: CastsExact(k, Scaled(Filter(k, Normalised(w))))) <==> k != 32706
  {
    if k == 32706 {
      var n := WideFilter();
      BurstArrives(n);
      assert Arrives(Burst(n));
    } else {
      forall w: seq<int> | Arrives(w) ensures CastsExact(k, Scaled(Filter(k, Normalised(w)))) {
        PowerExact(k, Normalised(w));
        hide *;
      }
    }
    hide *;
  }

  /** A standard window that passes the gate. */
  ghost predicate Arrives(w: seq<int>) {
    IsWindow(w) && |w| == WINDOW && PassesGate(w)
  }

  /** Over the same windows, a filter always reports exactly the quadratic form of its
      scaled state if and only if its coefficient is not 32706. */
  lemma PowerExactIff(k: int)
    requires k in CONSTANTS
    ensures (forall w: seq<int> | Arrives(w) ::
              Power(k, Normalised(w)) == Form(k, Scaled(Filter(k, Normalised(w))))) <==> k != 32706
  {
    if k == 32706 {
      var n := WideFilter();
      BurstArrives(n);
      assert Arrives(Burst(n));
    } else {
      forall w: seq<int> | Arrives(w) ensures Power(k, Normalised(w)) == Form(k, Scaled(Filter(k, Normalised(w)))) {
        PowerExact(k, Normalised(w));
        hide *;
      }
    }
    hide *;
  }

  // ---------------------------------------------------------------------------
  // Gain
  // ---------------------------------------------------------------------------

  lemma AmplifiedTwice(w: seq<int>, k: nat)
    requires 0 < k && IsWindow(Amplified(w, k))
    ensures Amplified(w, k) == Amplified(Amplified(w, k - 1), 1)
    ensures IsWindow(Amplified(w, k - 1))
  {
    var v := Amplified(w, k - 1);
    forall i | 0 <= i < |w|
      ensures Amplified(w, k)[i] == Amplified(v, 1)[i] && IsInt16(v[i])
    {
      assert IsInt16(Amplified(w, k)[i]);
      DoubledSample(w[i], k);
      assert Amplified(v, 1)[i] == v[i] * Pow2(1) && v[i] == w[i] * Pow2(k - 1);
    }
  }

  lemma DoubledSample(x: int, k: nat)
    requires 0 < k
    ensures x * Pow2(k) == x * Pow2(k - 1) * Pow2(1)
    ensures IsInt16(x * Pow2(k)) ==> IsInt16(x * Pow2(k - 1))
  {
    assert Pow2(1) == 2;
    assert x * (2 * Pow2(k - 1)) == 2 * (x * Pow2(k - 1));
  }

  lemma NotAmplified(w: seq<int>)
    ensures Amplified(w, 0) == w
  {
    assert Pow2(0) == 1;
    assert forall i | 0 <= i < |w| :: Amplified(w, 0)[i] == w[i] * 1;
  }

  /** Gain invariance: amplifying a window that passes the gate by a power of two,
      as long as it still fits 16 bits, changes neither the normalised window nor
      the reported key. */
  lemma {:induction false} GainInvariance(w: seq<int>, k: nat)
    requires IsWindow(w) && PassesGate(w) && IsWindow(Amplified(w, k))
    ensures PassesGate(Amplified(w, k))
    ensures Normalised(Amplified(w, k)) == Normalised(w)
    ensures Detect(Amplified(w, k)) == Detect(w)
  {
    hide PassesGate, Normalised, IsWindow, Decide, Powers;
    if k == 0 {
      NotAmplified(w);
    } else {
      hide Amplified;
      AmplifiedTwice(w, k);
      GainInvariance(w, k - 1);
      DoubledNormalises(Amplified(w, k - 1));
    }
  }

  // ---------------------------------------------------------------------------
  // A stream of frames
  // ---------------------------------------------------------------------------

  /** Samples not yet analysed, and the debouncer with its key log. */
  datatype Stream = Stream(pending: seq<int>, log: Debounce.State)

  lemma SubWindow(s: seq<int>, i: nat, j: nat)
    requires IsWindow(s) && i <= j <= |s|
    ensures IsWindow(s[i..j])
  {
    assert forall n | 0 <= n < j - i :: s[i..j][n] == s[i + n];
  }

  lemma JoinedWindow(a: seq<int>, b: seq<int>)
    requires IsWindow(a) && IsWindow(b)
    ensures IsWindow(a + b)
  {
    assert forall n | 0 <= n < |a + b| :: (a + b)[n] == if n < |a| then a[n] else b[n - |a|];
  }

  /** Analyses whole windows of n samples from the front while there are any. */
  function Process(n: nat, log: Debounce.State, s: seq<int>): (r: Stream)
    requires 0 < n && log.Valid() && IsWindow(s)
    ensures r.log.Valid() && |r.pending| < n && IsWindow(r.pending)
    decreases |s|
  {
    if |s| < n then Stream(s, log)
    else
      SubWindow(s, 0, n);
      SubWindow(s, n, |s|);
      Process(n, Debounce.Observe(log, Detect(s[..n])), s[n..])
  }

  /** One step of Process, on the part of a buffer that is still to be analysed. */
  lemma ProcessSlice(n: nat, log: Debounce.State, buffer: seq<int>, from: nat, end: nat)
    requires 0 < n && log.Valid() && from + n <= end <= |buffer| && IsWindow(buffer[from..end])
    ensures IsWindow(buffer[from..from + n]) && IsWindow(buffer[from + n..end])
    ensures Process(n, log, buffer[from..end])
         == Process(n, Debounce.Observe(log, Detect(buffer[from..from + n])), buffer[from + n..end])
  {
    hide Detect, Debounce.Observe;
    var rest := buffer[from..end];
    SubWindow(rest, 0, n);
    SubWindow(rest, n, |rest|);
    assert rest[..n] == buffer[from..from + n];
    assert rest[n..] == buffer[from + n..end];
  }

  /** The effect of one call with one frame. */
  function Feed(n: nat, s: Stream, frame: seq<int>): (r: Stream)
    requires 0 < n && s.log.Valid() && IsWindow(s.pending) && IsWindow(frame)
    ensures r.log.Valid() && |r.pending| < n && IsWindow(r.pending)
  {
    JoinedWindow(s.pending, frame);
    Process(n, s.log, s.pending + frame)
  }

  ghost predicate AreWindows(frames: seq<seq<int>>) {
    forall i | 0 <= i < |frames| :: IsWindow(frames[i])
  }

  function FeedAll(n: nat, s: Stream, frames: seq<seq<int>>): (r: Stream)
    requires 0 < n && s.log.Valid() && IsWindow(s.pending) && |s.pending| < n && AreWindows(frames)
    ensures r.log.Valid() && |r.pending| < n && IsWindow(r.pending)
    decreases |frames|
  {
    if frames == [] then s
    else
      assert IsWindow(frames[0]) && AreWindows(frames[1..]);
      FeedAll(n, Feed(n, s, frames[0]), frames[1..])
  }

  function Flatten(frames: seq<seq<int>>): seq<int> {
    if frames == [] then [] else frames[0] + Flatten(frames[1..])
  }

  lemma {:induction false} FlattenWindows(frames: seq<seq<int>>)
    requires AreWindows(frames)
    ensures IsWindow(Flatten(frames))
    decreases |frames|
  {
    if frames != [] {
      assert IsWindow(frames[0]) && AreWindows(frames[1..]);
      FlattenWindows(frames[1..]);
      JoinedWindow(frames[0], Flatten(frames[1..]));
    }
  }

  /** Processing in two portions is processing at once. */
  lemma {:induction false} ProcessTwice(n: nat, log: Debounce.State, a: seq<int>, b: seq<int>)
    requires 0 < n && log.Valid() && IsWindow(a) && IsWindow(b)
    ensures IsWindow(a + b)
    ensures Process(n, log, a + b) == Feed(n, Process(n, log, a), b)
    decreases |a|
  {
    JoinedWindow(a, b);
    hide IsWindow, Detect, Debounce.Observe;
    if |a| >= n {
      SubWindow(a, 0, n);
      SubWindow(a, n, |a|);
      assert (a + b)[..n] == a[..n] && (a + b)[n..] == a[n..] + b;
      ProcessTwice(n, Debounce.Observe(log, Detect(a[..n])), a[n..], b);
    }
  }

  /** Re-blocking: after any sequence of frames the state is a function of the
      concatenated samples alone. */
  lemma {:induction false} Reblocking(n: nat, s: Stream, frames: seq<seq<int>>)
    requires 0 < n && s.log.Valid() && IsWindow(s.pending) && |s.pending| < n && AreWindows(frames)
    ensures IsWindow(s.pending + Flatten(frames))
    ensures FeedAll(n, s, frames) == Process(n, s.log, s.pending + Flatten(frames))
    decreases |frames|
  {
    FlattenWindows(frames);
    JoinedWindow(s.pending, Flatten(frames));
    if frames == [] {
      assert s.pending + [] == s.pending;
    } else {
      assert IsWindow(frames[0]) && AreWindows(frames[1..]);
      FlattenWindows(frames[1..]);
      hide IsWindow, Process;
      var t := Feed(n, s, frames[0]);
      Reblocking(n, t, frames[1..]);
      JoinedWindow(s.pending, frames[0]);
      ProcessTwice(n, s.log, s.pending + frames[0], Flatten(frames[1..]));
      assert s.pending + frames[0] + Flatten(frames[1..]) == s.pending + Flatten(frames);
    }
  }

  /** How the samples are cut into frames does not matter. */
  lemma FramingInvisible(n: nat, s: Stream, f: seq<seq<int>>, g: seq<seq<int>>)
    requires 0 < n && s.log.Valid() && IsWindow(s.pending) && |s.pending| < n
    requires AreWindows(f) && AreWindows(g) && Flatten(f) == Flatten(g)
    ensures FeedAll(n, s, f) == FeedAll(n, s, g)
  {
    Reblocking(n, s, f);
    Reblocking(n, s, g);
  }

  // ---------------------------------------------------------------------------
  // The windows are the consecutive blocks of the stream
  // ---------------------------------------------------------------------------

  /** The i-th block of n samples. */
  function Block(n: nat, s: seq<int>, i: nat): (w: seq<int>)
    requires Times(i + 1, n) <= |s| && IsWindow(s)
    ensures IsWindow(w) && |w| == n
  {
    SubWindow(s, Times(i, n), Times(i + 1, n));
    s[Times(i, n)..Times(i + 1, n)]
  }

  /** The keys found in the first m blocks. */
  function BlockResults(n: nat, s: seq<int>, m: nat): (r: seq<char>)
    requires Times(m, n) <= |s| && IsWindow(s)
    ensures |r| == m
  {
    if m == 0 then [] else BlockResults(n, s, m - 1) + [Detect(Block(n, s, m - 1))]
  }

  lemma {:induction false} StartShifts(n: nat, i: nat)
    ensures Times(i + 1, n) == n + Times(i, n)
  {
    if i > 0 {
      StartShifts(n, i - 1);
    }
  }

  /** After dropping the first block, the others move up by one. */
  lemma {:induction false} DropBlock(n: nat, s: seq<int>, m: nat)
    requires Times(m + 1, n) <= |s| && n <= |s| && IsWindow(s) && IsWindow(s[n..]) && Times(m, n) <= |s[n..]|
    ensures BlockResults(n, s, m + 1) == [Detect(Block(n, s, 0))] + BlockResults(n, s[n..], m)
  {
    hide Detect, IsWindow;
    if m == 0 {
      assert BlockResults(n, s, 1) == BlockResults(n, s, 0) + [Detect(Block(n, s, 0))];
    } else {
      DropBlock(n, s, m - 1);
      StartShifts(n, m - 1);
      StartShifts(n, m);
      assert s[n..][Times(m - 1, n)..Times(m, n)] == s[Times(m, n)..Times(m + 1, n)];
      assert Block(n, s[n..], m - 1) == Block(n, s, m);
    }
  }

  /** Processing a stream of m whole blocks and a rest observes the key of each
      block in turn, and keeps the rest. */
  lemma {:induction false} ProcessBlocks(n: nat, log: Debounce.State, s: seq<int>, m: nat)
    requires 0 < n && log.Valid() && IsWindow(s) && Times(m, n) <= |s| < Times(m + 1, n)
    ensures Process(n, log, s) == Stream(s[Times(m, n)..], Debounce.ObserveAll(log, BlockResults(n, s, m)))
    decreases m
  {
    if m == 0 {
      assert s[0..] == s && BlockResults(n, s, 0) == [];
    } else {
      var m', t := m - 1, s[n..];
      StartShifts(n, m');
      StartShifts(n, m);
      SubWindow(s, 0, n);
      SubWindow(s, n, |s|);
      var k := Detect(s[..n]);
      assert Process(n, log, s) == Process(n, Debounce.Observe(log, k), t);
      assert Block(n, s, 0) == s[..n];
      assert t[Times(m', n)..] == s[Times(m, n)..];
      hide Detect, IsWindow, Debounce.Observe, Process, Block, BlockResults;
      ProcessBlocks(n, Debounce.Observe(log, k), t, m');
      DropBlock(n, s, m');
      ObserveFirst(log, k, BlockResults(n, t, m'));
    }
  }

  /** A stream of any length consists of |s| / n whole blocks and a rest. */
  lemma WholeBlocks(n: nat, a: nat)
    requires 0 < n
    ensures Times(a / n, n) <= a < Times(a / n + 1, n)
  {
    TimesIsProduct(a / n, n);
    assert a == a / n * n + a % n;
  }

  lemma ObserveFirst(log: Debounce.State, k: char, results: seq<char>)
    requires log.Valid()
    ensures Debounce.ObserveAll(log, [k] + results) == Debounce.ObserveAll(Debounce.Observe(log, k), results)
  {
    Debounce.ObserveConcat(log, [k], results);
    assert Debounce.ObserveAll(log, []) == log && [k][..0] == [];
    hide Debounce.Observe;
    assert Debounce.ObserveAll(log, [k]) == Debounce.Observe(log, k);
  }

  /** The whole detector: fed with any frames from a fresh start, the log holds the
      second key of each maximal run of non-blank blocks of the sample stream, and
      the buffer holds the samples after the last whole block. */
  lemma DetectorLog(n: nat, log: Debounce.State, frames: seq<seq<int>>, m: nat)
    requires 0 < n && log.Valid() && log.previous == NO_KEY && !log.permission && AreWindows(frames)
    requires m == |Flatten(frames)| / n
    ensures IsWindow(Flatten(frames)) && Times(m, n) <= |Flatten(frames)|
    ensures var keys := Debounce.SecondOfEachRun(BlockResults(n, Flatten(frames), m));
            var end := FeedAll(n, Stream([], log), frames);
            && end.pending == Flatten(frames)[Times(m, n)..]
            && end.log.buttons == Debounce.StoreAll(log, keys).buttons
            && end.log.index == Debounce.StoreAll(log, keys).index
  {
    var s := Flatten(frames);
    FlattenWindows(frames);
    Reblocking(n, Stream([], log), frames);
    assert [] + s == s;
    WholeBlocks(n, |s|);
    hide IsWindow, Process, FeedAll, Detect, Flatten;
    ProcessBlocks(n, log, s, m);
    var results := BlockResults(n, s, m);
    Debounce.DebounceClosedForm(log, results);
    Debounce.StoredIsSecondOfEachRun(results);
  }
}
