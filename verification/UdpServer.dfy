/** The UDP receiver: it counts lost packets, replaces them by filler lists, and
    splits each frame into one list entry per channel. */
module UdpServer {
  import opened Arithmetic
  import opened FixedPoint

  const FRAME_SAMPLES := 512
  const SIGNALS := 64

  /** A received frame: its 32-bit counter, its samples, and one signal byte per
      channel. */
  datatype Frame = Frame(counter: int, data: seq<int>, signals: seq<int>)
  {
    predicate Valid() {
      0 <= counter < 0x1_0000_0000 && |data| == FRAME_SAMPLES && |signals| == SIGNALS
    }
  }

  /** A datagram of the right size is a frame; any other is only reported. Memory is what
      a newly allocated sample array happens to hold while the frame is handled. */
  datatype Datagram = Packet(frame: Frame, memory: seq<int>) | WrongSize
  {
    predicate Valid() {
      Packet? ==> frame.Valid() && |memory| == FRAME_SAMPLES
    }
  }

  /** An entry of a list passed to put_data. */
  datatype ChannelData = ChannelData(signal: int, samples: seq<int>)

  type DataList = seq<ChannelData>

  /** Channels and samples per channel; whether frames are passed on whole; and whether
      the last plug-in of the chain clears the lists it is given. */
  datatype Config = Config(channels: nat, n: nat, singleFile: bool, clears: bool)
  {
    /** All channels' samples lie within the sample array, and there is a signal byte for
        each channel that is split off. */
    predicate Fits() {
      channels * n <= FRAME_SAMPLES && (singleFile || channels <= SIGNALS)
    }
  }

  /** The connection counters, all 32-bit unsigned. */
  datatype Conn = Conn(packetCounter: int, desynchCounter: int, totalLost: int, onetimeSynch: bool)

  const FRESH := Conn(0, 0, 0, false)

  // ---------------------------------------------------------------------------
  // De-interleaving
  // ---------------------------------------------------------------------------

  lemma IndexInFrame(channels: nat, n: nat, i: nat, j: nat)
    requires i < channels && j < n
    ensures 0 <= j * channels + i < channels * n
  {
    MulMonotone(j + 1, n, channels);
    assert (j + 1) * channels == j * channels + channels;
    assert n * channels == channels * n;
  }

  /** Every channels-th sample, starting with the i-th. */
  function Channel(data: seq<int>, channels: nat, n: nat, i: nat): (s: seq<int>)
    requires channels * n <= |data| && i < channels
    ensures |s| == n
  {
    seq(n, j requires 0 <= j < n => IndexInFrame(channels, n, i, j); data[j * channels + i])
  }

  function Deinterleave(data: seq<int>, channels: nat, n: nat): (ls: seq<seq<int>>)
    requires channels * n <= |data|
    ensures |ls| == channels && forall i | 0 <= i < channels :: |ls[i]| == n
  {
    seq(channels, i requires 0 <= i < channels => Channel(data, channels, n, i))
  }

  lemma SplitIndex(channels: nat, n: nat, k: nat)
    requires 0 < channels && k < channels * n
    ensures k % channels < channels && k / channels < n
    ensures k == k / channels * channels + k % channels
  {
    assert k == k / channels * channels + k % channels;
    if n <= k / channels {
      MulMonotone(n, k / channels, channels);
    }
  }

  /** The inverse: takes one sample of each channel in turn. */
  function Interleave(ls: seq<seq<int>>, n: nat): (data: seq<int>)
    requires forall i | 0 <= i < |ls| :: |ls[i]| == n
    ensures |data| == |ls| * n
  {
    if ls == [] then [] else
    seq(|ls| * n, k requires 0 <= k < |ls| * n => SplitIndex(|ls|, n, k); ls[k % |ls|][k / |ls|])
  }

  /** De-interleaving loses and repeats nothing: interleaving the channels again
      gives the frame's prefix back. */
  lemma InterleaveAfterDeinterleave(data: seq<int>, channels: nat, n: nat)
    requires channels * n <= |data|
    ensures Interleave(Deinterleave(data, channels, n), n) == data[..channels * n]
  {
    var ls := Deinterleave(data, channels, n);
    forall k | 0 <= k < channels * n ensures Interleave(ls, n)[k] == data[k] {
      SplitIndex(channels, n, k);
      IndexInFrame(channels, n, k % channels, k / channels);
      assert Interleave(ls, n)[k] == Channel(data, channels, n, k % channels)[k / channels];
    }
  }

  /** ... and every list of channels arises from exactly one prefix. */
  lemma DeinterleaveAfterInterleave(ls: seq<seq<int>>, n: nat)
    requires forall i | 0 <= i < |ls| :: |ls[i]| == n
    ensures Deinterleave(Interleave(ls, n), |ls|, n) == ls
  {
    var channels, data := |ls|, Interleave(ls, n);
    forall i | 0 <= i < channels ensures Channel(data, channels, n, i) == ls[i] {
      forall j | 0 <= j < n ensures Channel(data, channels, n, i)[j] == ls[i][j] {
        IndexInFrame(channels, n, i, j);
        DivisionUnique(j * channels + i, channels, j, i);
        assert data[j * channels + i] == ls[i][j];
      }
    }
  }

  // ---------------------------------------------------------------------------
  // What is passed on for a frame that arrived in turn
  // ---------------------------------------------------------------------------

  /** The entries of the list for the channels of a frame. */
  function Channels(f: Frame, channels: nat, n: nat): DataList
    requires f.Valid() && channels <= SIGNALS && channels * n <= FRAME_SAMPLES
  {
    seq(channels, i requires 0 <= i < channels => ChannelData(f.signals[i], Deinterleave(f.data, channels, n)[i]))
  }

  /** The list passed on for a frame as a whole: the code copies 512 bytes, which are 256
      samples, into a new array of 512 samples. */
  function Whole(f: Frame, memory: seq<int>): DataList
    requires f.Valid() && |memory| == FRAME_SAMPLES
  {
    [ChannelData(1, f.data[..FRAME_SAMPLES / 2] + memory[FRAME_SAMPLES / 2..])]
  }

  /** Half of a frame passed on as a whole is always right; the other half is, if and only
      if the new memory happens to hold it. */
  lemma WholeIff(f: Frame, memory: seq<int>)
    requires f.Valid() && |memory| == FRAME_SAMPLES
    ensures var s := Whole(f, memory)[0].samples;
            && |s| == FRAME_SAMPLES && s[..FRAME_SAMPLES / 2] == f.data[..FRAME_SAMPLES / 2]
            && (s == f.data <==> memory[FRAME_SAMPLES / 2..] == f.data[FRAME_SAMPLES / 2..])
  {
    var h := FRAME_SAMPLES / 2;
    var s := Whole(f, memory)[0].samples;
    assert s[h..] == memory[h..] && f.data == f.data[..h] + f.data[h..];
  }

  // ---------------------------------------------------------------------------
  // Filler for missing frames
  // ---------------------------------------------------------------------------

  const FILLER := 32000

  /** The sample array of the frame that stands for a missing one. */
  function ErrorData(channels: nat, n: nat): (data: seq<int>)
    ensures |data| == FRAME_SAMPLES
  {
    seq(FRAME_SAMPLES, k => if k < channels * n then FILLER else 0)
  }

  /** One entry per channel, without a signal and of constant samples. */
  function ErrorList(channels: nat, n: nat): (ls: DataList)
    ensures |ls| == channels
  {
    seq(channels, _ => ChannelData(0, seq(n, _ => FILLER)))
  }

  /** Splitting the error frame's sample array gives those entries. */
  lemma ErrorChannel(channels: nat, n: nat, i: nat)
    requires i < channels && channels * n <= FRAME_SAMPLES
    ensures ChannelData(0, Channel(ErrorData(channels, n), channels, n, i)) == ErrorList(channels, n)[i]
  {
    forall j | 0 <= j < n ensures Channel(ErrorData(channels, n), channels, n, i)[j] == FILLER {
      IndexInFrame(channels, n, i, j);
    }
  }

  /** What the list holds when put_data gets it for the k-th time (from 1): it is not
      emptied between the calls unless the receiver does so. */
  function ErrorListAt(c: Config, k: nat): DataList {
    if k == 0 then []
    else (if c.clears then [] else ErrorListAt(c, k - 1)) + ErrorList(c.channels, c.n)
  }

  /** The lists of k calls in a row. */
  function ErrorLists(c: Config, k: nat): (ls: seq<DataList>)
    ensures |ls| == k
  {
    if k == 0 then [] else ErrorLists(c, k - 1) + [ErrorListAt(c, k)]
  }

  lemma {:induction false} ErrorListSize(c: Config, k: nat)
    ensures |ErrorListAt(c, k)| == if c.clears && k > 0 then c.channels else Times(k, c.channels)
  {
    if k > 0 {
      ErrorListSize(c, k - 1);
    }
  }

  lemma {:induction false} ErrorListIs(c: Config, k: nat, i: nat)
    requires i < k
    ensures ErrorLists(c, k)[i] == ErrorListAt(c, i + 1)
  {
    if i < k - 1 {
      ErrorListIs(c, k - 1, i);
    }
  }

  /** Each missing frame is passed on as one entry per channel if and only if the chain
      clears its lists, or the gap is a single frame (or there are no channels). */
  lemma FillersIff(c: Config, k: nat)
    ensures (forall i | 0 <= i < k :: ErrorLists(c, k)[i] == ErrorList(c.channels, c.n)) <==>
              c.clears || k <= 1 || c.channels == 0
  {
    if c.clears || k <= 1 || c.channels == 0 {
      forall i | 0 <= i < k ensures ErrorLists(c, k)[i] == ErrorList(c.channels, c.n) {
        ErrorListIs(c, k, i);
        ErrorListSize(c, i);
        NoEntries(i);
        assert [] + ErrorList(c.channels, c.n) == ErrorList(c.channels, c.n);
      }
    } else {
      ErrorListIs(c, k, 1);
      ErrorListSize(c, 2);
      TimesIsProduct(2, c.channels);
      assert |ErrorLists(c, k)[1]| != |ErrorList(c.channels, c.n)|;
    }
  }

  lemma {:induction false} NoEntries(k: nat)
    ensures Times(k, 0) == 0
  {
    if k > 0 {
      NoEntries(k - 1);
    }
  }

  // ---------------------------------------------------------------------------
  // One datagram
  // ---------------------------------------------------------------------------

  /** The difference between a frame's counter and the expected one, as the code's
      signed 32-bit number. */
  function Errors(c: Conn, counter: int): int {
    Wrap32(counter - UWrap32(c.packetCounter + 1))
  }

  function Counted(c: Conn, counter: int): Conn {
    var expected := UWrap32(c.packetCounter + 1);
    if counter != expected then
      Conn(counter, UWrap32(c.desynchCounter + 1), UWrap32(c.totalLost + Errors(c, counter)), true)
    else
      c.(packetCounter := expected)
  }

  /** How many filler lists a frame out of turn causes. */
  function Fillers(c: Conn, counter: int): nat {
    if !c.onetimeSynch then 1 else if Errors(c, counter) > 0 then Errors(c, counter) else 0
  }

  /** The lists given to put_data for a frame. */
  function Passed(c: Conn, f: Frame, memory: seq<int>, cfg: Config): seq<DataList>
    requires f.Valid() && |memory| == FRAME_SAMPLES && cfg.Fits()
  {
    if f.counter != UWrap32(c.packetCounter + 1) then ErrorLists(cfg, Fillers(c, f.counter))
    else if cfg.singleFile then [Whole(f, memory)]
    else [Channels(f, cfg.channels, cfg.n)]
  }

  // ---------------------------------------------------------------------------
  // Conservation
  // ---------------------------------------------------------------------------

  /** The counters of the frames among some datagrams. */
  function Counters(ds: seq<Datagram>): seq<int> {
    if ds == [] then []
    else
      var init, d := ds[..|ds| - 1], ds[|ds| - 1];
      if d == WrongSize then Counters(init) else Counters(init) + [d.frame.counter]
  }

  function CountAll(c: Conn, counters: seq<int>): Conn {
    if counters == [] then c else Counted(CountAll(c, counters[..|counters| - 1]), counters[|counters| - 1])
  }

  ghost predicate AreCounters(counters: seq<int>) {
    forall i | 0 <= i < |counters| :: 0 <= counters[i] < 0x1_0000_0000
  }

  lemma ModularShift(a: int, n: int)
    ensures UWrap32(a + n * 0x1_0000_0000) == UWrap32(a)
  {
  }

  lemma CountedBalances(c: Conn, counter: int, received: nat)
    requires 0 <= counter < 0x1_0000_0000 && 0 <= c.packetCounter < 0x1_0000_0000
    requires UWrap32(received + c.totalLost) == c.packetCounter
    ensures UWrap32(received + 1 + Counted(c, counter).totalLost) == Counted(c, counter).packetCounter
  {
    var m := 0x1_0000_0000;
    var expected := UWrap32(c.packetCounter + 1);
    var q := (received + c.totalLost) / m;
    assert received + c.totalLost == q * m + c.packetCounter;
    var p := (c.packetCounter + 1) / m;
    assert c.packetCounter + 1 == p * m + expected;
    if counter != expected {
      var d := counter - expected;
      var e := Errors(c, counter);
      var r := (d + 0x8000_0000) / m;
      assert e == d - r * m;
      var u := (c.totalLost + e) / m;
      assert UWrap32(c.totalLost + e) == c.totalLost + e - u * m;
      assert received + 1 + UWrap32(c.totalLost + e) == counter + (q + p - r - u) * m;
      ModularShift(counter, q + p - r - u);
    } else {
      assert received + 1 + c.totalLost == expected + (q + p) * m;
      ModularShift(expected, q + p);
    }
  }

  /** Since the last reset, frames received plus total lost is the last counter, modulo
      2^32, for every sequence of counters - reordered, repeated or wrapped. */
  lemma {:induction false} LossConservation(counters: seq<int>)
    requires AreCounters(counters)
    ensures var c := CountAll(FRESH, counters);
            && UWrap32(|counters| + c.totalLost) == c.packetCounter
            && c.packetCounter == if counters == [] then 0 else counters[|counters| - 1]
  {
    if counters != [] {
      var init := counters[..|counters| - 1];
      LossConservation(init);
      CountedBalances(CountAll(FRESH, init), counters[|counters| - 1], |init|);
    }
  }

  // ---------------------------------------------------------------------------
  // In-order streams: the loss is exact
  // ---------------------------------------------------------------------------

  ghost predicate Increasing(counters: seq<int>) {
    forall i, j | 0 <= i < j < |counters| :: counters[i] < counters[j]
  }

  /** The counters up to the last one that never arrived. */
  ghost function Missing(counters: seq<int>): set<int>
    requires counters != []
  {
    set k | 1 <= k <= counters[|counters| - 1] && k !in counters
  }

  /** The integers from lo up to but not including hi. */
  ghost function Range(lo: int, hi: int): (r: set<int>)
    requires lo <= hi
    ensures forall k :: k in r <==> lo <= k < hi
    ensures |r| == hi - lo
    decreases hi - lo
  {
    if lo == hi then {} else Range(lo, hi - 1) + {hi - 1}
  }

  lemma {:induction false} MissingSize(counters: seq<int>)
    requires counters != [] && Increasing(counters) && 0 <= counters[0]
    ensures |Missing(counters)| == counters[|counters| - 1] - |counters| + if counters[0] == 0 then 1 else 0
  {
    var n := |counters| - 1;
    var last := counters[n];
    if n == 0 {
      assert Missing(counters) == Range(1, if last == 0 then 1 else last);
    } else {
      MissingSize(counters[..n]);
      MissingMore(counters);
      hide Missing, Increasing;
    }
  }

  /** The gap before the last counter adds to what is missing. */
  lemma MissingMore(counters: seq<int>)
    requires |counters| > 1 && Increasing(counters) && 0 <= counters[0]
    ensures var n := |counters| - 1;
            && counters[n - 1] < counters[n]
            && |Missing(counters)| == |Missing(counters[..n])| + counters[n] - counters[n - 1] - 1
  {
    var n := |counters| - 1;
    var init, last := counters[..n], counters[n];
    var gap := Range(init[n - 1] + 1, last);
    assert counters == init + [last];
    assert Missing(counters) == Missing(init) + gap;
    assert Missing(init) !! gap;
  }

  /** For counters that arrive in increasing order, the total loss is exactly the number
      of counters that are missing, if and only if the first is not 0. */
  lemma LossIsMissing(counters: seq<int>)
    requires counters != [] && AreCounters(counters) && Increasing(counters)
    ensures CountAll(FRESH, counters).totalLost == |Missing(counters)| <==> 1 <= counters[0]
    ensures counters[0] == 0 ==> CountAll(FRESH, counters).totalLost == UWrap32(|Missing(counters)| - 1)
  {
    LossConservation(counters);
    MissingSize(counters);
    LostInRange(counters);
    var c := CountAll(FRESH, counters);
    hide CountAll, Missing;
    LossFromTotal(|counters|, c.totalLost, counters[|counters| - 1]);
  }

  /** What conservation says of the loss when the last counter is known. */
  lemma LossFromTotal(received: nat, lost: int, last: int)
    requires UWrap32(received + lost) == last && 0 <= lost < 0x1_0000_0000
    ensures lost == UWrap32(last - received)
  {
    var m := 0x1_0000_0000;
    var q := (received + lost) / m;
    assert last - received == lost - q * m;
    ModularShift(lost, -q);
  }

  /** The code starts by expecting 1: a first counter of 0 counts as 2^32 - 1 lost frames,
      although none is missing. */
  lemma FirstCounterZero()
    ensures CountAll(FRESH, [0]).totalLost == 0xFFFF_FFFF && Missing([0]) == {}
  {
    assert CountAll(FRESH, [0]) == Counted(FRESH, 0);
  }

  lemma {:induction false} LostInRange(counters: seq<int>)
    ensures 0 <= CountAll(FRESH, counters).totalLost < 0x1_0000_0000
  {
    if counters != [] {
      LostInRange(counters[..|counters| - 1]);
    }
  }

  // ---------------------------------------------------------------------------
  // Calls passed on
  // ---------------------------------------------------------------------------

  /** By how much a frame's counter is ahead of the last one, modulo 2^32. */
  function Ahead(c: Conn, counter: int): int {
    UWrap32(counter - c.packetCounter)
  }

  /** How often put_data is called for a frame. */
  function CallsFor(c: Conn, counter: int): nat {
    if counter != UWrap32(c.packetCounter + 1) then Fillers(c, counter) else 1
  }

  function Desynched(c: Conn, counter: int): nat {
    if counter != UWrap32(c.packetCounter + 1) then 1 else 0
  }

  /** The number of calls, case by case: one for a frame in turn and for the first frame out
      of turn; then one for each frame missing, and none for a frame that is late, repeated
      or more than 2^31 ahead. */
  lemma CallsExactly(c: Conn, counter: int)
    requires 0 <= counter < 0x1_0000_0000 && 0 <= c.packetCounter < 0x1_0000_0000
    ensures var ahead := (counter - c.packetCounter) % 0x1_0000_0000;
            CallsFor(c, counter) ==
              if ahead == 1 || !c.onetimeSynch then 1
              else if 2 <= ahead <= 0x8000_0000 then ahead - 1
              else 0
  {
  }

  /** The desynchronisation counter counts the frames out of turn, and the first of them
      synchronises. */
  lemma {:induction false} DesynchsCounted(c: Conn, counters: seq<int>)
    requires AreCounters(counters) && 0 <= c.desynchCounter < 0x1_0000_0000 && 0 <= c.packetCounter < 0x1_0000_0000
    ensures var d := CountAll(c, counters);
            && d.desynchCounter == (c.desynchCounter + TotalDesynchs(c, counters)) % 0x1_0000_0000
            && (d.onetimeSynch <==> c.onetimeSynch || TotalDesynchs(c, counters) > 0)
            && 0 <= d.packetCounter < 0x1_0000_0000
  {
    if counters != [] {
      var init := counters[..|counters| - 1];
      DesynchsCounted(c, init);
      NextModulo(c.desynchCounter + TotalDesynchs(c, init));
    }
  }

  lemma NextModulo(x: int)
    ensures (x % 0x1_0000_0000 + 1) % 0x1_0000_0000 == (x + 1) % 0x1_0000_0000
  {
  }

  /** Once synchronised, a frame causes as many calls as its counter is ahead, less
      one if it is out of turn, exactly when it is between 1 and 2^31 ahead. */
  lemma CallsIff(c: Conn, counter: int)
    requires c.onetimeSynch && 0 <= counter < 0x1_0000_0000 && 0 <= c.packetCounter < 0x1_0000_0000
    ensures CallsFor(c, counter) == Ahead(c, counter) - Desynched(c, counter) <==> 1 <= Ahead(c, counter) <= 0x8000_0000
  {
  }

  ghost predicate MovesForward(c: Conn, counters: seq<int>) {
    forall i | 0 <= i < |counters| :: 1 <= Ahead(CountAll(c, counters[..i]), counters[i]) <= 0x8000_0000
  }

  /** Calls, total advance and desynchronisations over a run. */
  function TotalCalls(c: Conn, counters: seq<int>): nat {
    if counters == [] then 0
    else
      var n := |counters| - 1;
      TotalCalls(c, counters[..n]) + CallsFor(CountAll(c, counters[..n]), counters[n])
  }

  function TotalAhead(c: Conn, counters: seq<int>): int {
    if counters == [] then 0
    else
      var n := |counters| - 1;
      TotalAhead(c, counters[..n]) + Ahead(CountAll(c, counters[..n]), counters[n])
  }

  function TotalDesynchs(c: Conn, counters: seq<int>): nat {
    if counters == [] then 0
    else
      var n := |counters| - 1;
      TotalDesynchs(c, counters[..n]) + Desynched(CountAll(c, counters[..n]), counters[n])
  }

  /** After the first mismatch, as long as counters move forward: calls equal the
      counter advance minus the desynchronisation events. */
  lemma {:induction false} CallsConservation(c: Conn, counters: seq<int>)
    requires c.onetimeSynch && 0 <= c.packetCounter < 0x1_0000_0000
    requires AreCounters(counters) && MovesForward(c, counters)
    ensures TotalCalls(c, counters) == TotalAhead(c, counters) - TotalDesynchs(c, counters)
    ensures CountAll(c, counters).onetimeSynch && 0 <= CountAll(c, counters).packetCounter < 0x1_0000_0000
  {
    if counters != [] {
      var n := |counters| - 1;
      var init := counters[..n];
      assert forall i | 0 <= i < n :: init[..i] == counters[..i];
      assert MovesForward(c, init);
      CallsConservation(c, init);
      var d := CountAll(c, init);
      CallsIff(d, counters[n]);
      assert 1 <= Ahead(d, counters[n]) <= 0x8000_0000;
      hide CallsFor, Ahead, Desynched, MovesForward;
    }
  }

  // ---------------------------------------------------------------------------
  // The server object
  // ---------------------------------------------------------------------------

  /** Everything passed on for some datagrams, in order. */
  function AllPassed(c: Conn, ds: seq<Datagram>, cfg: Config): seq<DataList>
    requires cfg.Fits() && AreValid(ds)
  {
    if ds == [] then []
    else
      var init, d := ds[..|ds| - 1], ds[|ds| - 1];
      assert AreValid(init);
      AllPassed(c, init, cfg) +
      if d == WrongSize then [] else Passed(CountAll(c, Counters(init)), d.frame, d.memory, cfg)
  }

  predicate AreValid(ds: seq<Datagram>) {
    forall i | 0 <= i < |ds| :: ds[i].Valid()
  }

  /** The calls counted in the conservation laws are the lists passed on. */
  lemma {:induction false} PassedAreCalls(c: Conn, ds: seq<Datagram>, cfg: Config)
    requires cfg.Fits() && AreValid(ds)
    ensures |AllPassed(c, ds, cfg)| == TotalCalls(c, Counters(ds))
  {
    if ds != [] {
      var init, d := ds[..|ds| - 1], ds[|ds| - 1];
      assert AreValid(init) && d.Valid();
      PassedAreCalls(c, init, cfg);
      if d.Packet? {
        assert Counters(ds)[..|Counters(init)|] == Counters(init);
      }
      hide CountAll, Fillers;
    }
  }

  // ---------------------------------------------------------------------------
  // What the lists contain
  // ---------------------------------------------------------------------------

  function SamplesOf(ls: DataList): (s: seq<seq<int>>)
    ensures |s| == |ls|
  {
    seq(|ls|, i requires 0 <= i < |ls| => ls[i].samples)
  }

  ghost predicate AllOfLength(s: seq<seq<int>>, n: nat) {
    forall i | 0 <= i < |s| :: |s[i]| == n
  }

  /** The samples of a list whose entries all have n of them, one of each entry in turn. */
  ghost function Joined(ls: DataList, n: nat): seq<int> {
    if AllOfLength(SamplesOf(ls), n) then Interleave(SamplesOf(ls), n) else []
  }

  /** Entry i has the signal of channel i and every channels-th sample from the i-th on. */
  ghost predicate CarriesChannel(e: ChannelData, f: Frame, channels: nat, n: nat, i: nat) {
    && i < |f.signals| && e.signal == f.signals[i] && |e.samples| == n
    && forall j | 0 <= j < n :: 0 <= j * channels + i < |f.data| && e.samples[j] == f.data[j * channels + i]
  }

  /** A list that carries a frame: an entry for each channel; interleaved, the entries give
      the frame's samples. */
  ghost predicate Carries(ls: DataList, f: Frame, channels: nat, n: nat) {
    && |ls| == channels && channels * n <= |f.data|
    && (forall i | 0 <= i < channels :: CarriesChannel(ls[i], f, channels, n, i))
    && Joined(ls, n) == f.data[..channels * n]
  }

  lemma ChannelCarries(f: Frame, channels: nat, n: nat, i: nat)
    requires f.Valid() && channels <= SIGNALS && channels * n <= FRAME_SAMPLES && i < channels
    ensures CarriesChannel(Channels(f, channels, n)[i], f, channels, n, i)
  {
    var e := Channels(f, channels, n)[i];
    assert e == ChannelData(f.signals[i], Deinterleave(f.data, channels, n)[i]);
    assert Deinterleave(f.data, channels, n)[i] == Channel(f.data, channels, n, i);
    forall j | 0 <= j < n
      ensures 0 <= j * channels + i < |f.data| && e.samples[j] == f.data[j * channels + i]
    {
      IndexInFrame(channels, n, i, j);
    }
  }

  lemma ChannelsJoin(f: Frame, channels: nat, n: nat)
    requires f.Valid() && channels <= SIGNALS && channels * n <= FRAME_SAMPLES
    ensures Joined(Channels(f, channels, n), n) == f.data[..channels * n]
  {
    InterleaveAfterDeinterleave(f.data, channels, n);
    var s, t := SamplesOf(Channels(f, channels, n)), Deinterleave(f.data, channels, n);
    assert |s| == |t| == channels;
    assert forall i | 0 <= i < channels :: s[i] == Channels(f, channels, n)[i].samples == t[i];
    assert s == t;
    hide Interleave;
  }

  lemma ChannelsCarry(f: Frame, channels: nat, n: nat)
    requires f.Valid() && channels <= SIGNALS && channels * n <= FRAME_SAMPLES
    ensures Carries(Channels(f, channels, n), f, channels, n)
  {
    assert |Channels(f, channels, n)| == channels;
    ChannelsJoin(f, channels, n);
    forall i | 0 <= i < channels ensures CarriesChannel(Channels(f, channels, n)[i], f, channels, n, i) {
      ChannelCarries(f, channels, n, i);
    }
    hide CarriesChannel, Joined, Channels;
  }

  /** For a frame whose counter follows the last one, modulo 2^32, exactly one list is
      passed on, and it carries the frame. */
  lemma InTurnCarries(c: Conn, f: Frame, memory: seq<int>, cfg: Config)
    requires f.Valid() && |memory| == FRAME_SAMPLES && cfg.Fits() && !cfg.singleFile
    requires f.counter == (c.packetCounter + 1) % 0x1_0000_0000
    ensures |Passed(c, f, memory, cfg)| == 1 && Carries(Passed(c, f, memory, cfg)[0], f, cfg.channels, cfg.n)
  {
    ChannelsCarry(f, cfg.channels, cfg.n);
    hide Carries, Channels;
  }

  /** When frames are passed on whole: one list of one entry, with signal 1 and 512 samples
      of which the first 256 are the frame's. */
  lemma InTurnWhole(c: Conn, f: Frame, memory: seq<int>, cfg: Config)
    requires f.Valid() && |memory| == FRAME_SAMPLES && cfg.Fits() && cfg.singleFile
    requires f.counter == (c.packetCounter + 1) % 0x1_0000_0000
    ensures |Passed(c, f, memory, cfg)| == 1
    ensures var ls := Passed(c, f, memory, cfg)[0];
            && |ls| == 1 && ls[0].signal == 1 && |ls[0].samples| == 512
            && ls[0].samples[..256] == f.data[..256] && ls[0].samples[256..] == memory[256..]
  {
  }

  /** Every entry of every list passed on for a frame out of turn is without a signal and
      has n samples of 32000. */
  lemma OutOfTurnFills(c: Conn, f: Frame, memory: seq<int>, cfg: Config, i: nat, j: nat)
    requires f.Valid() && |memory| == FRAME_SAMPLES && cfg.Fits()
    requires f.counter != (c.packetCounter + 1) % 0x1_0000_0000
    requires i < |Passed(c, f, memory, cfg)| && j < |Passed(c, f, memory, cfg)[i]|
    ensures var e := Passed(c, f, memory, cfg)[i][j];
            e.signal == 0 && |e.samples| == cfg.n && forall m | 0 <= m < cfg.n :: e.samples[m] == 32000
  {
    ErrorListIs(cfg, Fillers(c, f.counter), i);
    ErrorEntry(cfg, i + 1, j);
  }

  lemma {:induction false} ErrorEntry(c: Config, k: nat, j: nat)
    requires j < |ErrorListAt(c, k)|
    ensures ErrorListAt(c, k)[j] == ChannelData(0, seq(c.n, _ => 32000))
  {
    if k > 0 && !c.clears && j < |ErrorListAt(c, k - 1)| {
      ErrorEntry(c, k - 1, j);
    }
  }

  /** The counter of the last frame. */
  function LastCounter(last: int, ds: seq<Datagram>): int {
    if ds == [] then last
    else
      var d := ds[|ds| - 1];
      if d.Packet? then d.frame.counter else LastCounter(last, ds[..|ds| - 1])
  }

  /** A frame whose counter follows the last one. */
  predicate InTurn(last: int, d: Datagram) {
    d.Packet? && d.frame.counter == (last + 1) % 0x1_0000_0000
  }

  /** The first samples of all frames that arrived in turn, in order. */
  function InTurnData(last: int, ds: seq<Datagram>, size: nat): seq<int>
    requires AreValid(ds) && size <= FRAME_SAMPLES
  {
    if ds == [] then []
    else
      var init, d := ds[..|ds| - 1], ds[|ds| - 1];
      assert AreValid(init) && d.Valid();
      InTurnData(last, init, size) + if InTurn(LastCounter(last, init), d) then d.frame.data[..size] else []
  }

  /** What the receiver of the lists gets by joining, after each frame that arrived in turn,
      the list passed on last. */
  ghost function Delivered(c: Conn, ds: seq<Datagram>, cfg: Config): seq<int>
    requires cfg.Fits() && AreValid(ds)
  {
    if ds == [] then []
    else
      var init, d := ds[..|ds| - 1], ds[|ds| - 1];
      assert AreValid(init);
      var sent := AllPassed(c, ds, cfg);
      Delivered(c, init, cfg)
      + if InTurn(LastCounter(c.packetCounter, init), d) && sent != [] then Joined(sent[|sent| - 1], cfg.n) else []
  }

  lemma {:induction false} CounterIsLast(c: Conn, ds: seq<Datagram>)
    requires AreValid(ds)
    ensures CountAll(c, Counters(ds)).packetCounter == LastCounter(c.packetCounter, ds)
  {
    if ds != [] {
      var init, d := ds[..|ds| - 1], ds[|ds| - 1];
      assert AreValid(init) && d.Valid();
      CounterIsLast(c, init);
      CountMore(c, init, d);
      assert init + [d] == ds;
    }
  }

  /** Over every run of datagrams, the lists passed on for the frames in turn interleave to
      exactly those frames' samples, in order. */
  lemma {:induction false} AudioDelivered(c: Conn, ds: seq<Datagram>, cfg: Config)
    requires cfg.Fits() && !cfg.singleFile && AreValid(ds)
    ensures Delivered(c, ds, cfg) == InTurnData(c.packetCounter, ds, cfg.channels * cfg.n)
  {
    if ds != [] {
      var init, d := ds[..|ds| - 1], ds[|ds| - 1];
      assert AreValid(init) && d.Valid();
      hide Config.Fits, Joined, AllPassed;
      AudioDelivered(c, init, cfg);
      if InTurn(LastCounter(c.packetCounter, init), d) {
        LastPassed(c, init, d, cfg);
        assert init + [d] == ds;
      }
    }
  }

  /** The list passed on last after a frame in turn is that frame's. */
  lemma LastPassed(c: Conn, init: seq<Datagram>, d: Datagram, cfg: Config)
    requires cfg.Fits() && !cfg.singleFile && AreValid(init) && d.Valid()
    requires InTurn(LastCounter(c.packetCounter, init), d)
    ensures AreValid(init + [d])
    ensures var sent := AllPassed(c, init + [d], cfg);
            sent != [] && Joined(sent[|sent| - 1], cfg.n) == d.frame.data[..cfg.channels * cfg.n]
  {
    CounterIsLast(c, init);
    PassMore(c, init, d, cfg);
    InTurnCarries(CountAll(c, Counters(init)), d.frame, d.memory, cfg);
    hide Passed, AllPassed, CountAll, Joined, Counters, LastCounter, CarriesChannel;
  }

  class Server {
    const cfg: Config
    const errData: seq<int>  // the sample array of the error frame
    var paketCounter: int
    var desynchCounter: int
    var totalLost: int
    var onetimeSynch: bool
    var sent: seq<DataList>  // the lists given to put_data so far

    function State(): Conn
      reads this
    {
      Conn(paketCounter, desynchCounter, totalLost, onetimeSynch)
    }

    predicate Valid()
      reads this
    {
      cfg.Fits() && errData == ErrorData(cfg.channels, cfg.n)
    }

    constructor (cfg: Config)
      requires cfg.Fits()
      ensures Valid() && this.cfg == cfg && State() == FRESH && sent == []
    {
      this.cfg := cfg;
      var data := FillErrorFrame(cfg.channels, cfg.n);
      errData := data;
      paketCounter, desynchCounter, totalLost, onetimeSynch := 0, 0, 0, false;
      sent := [];
    }

    /** Sets up the error frame, sample by sample. */
    static method FillErrorFrame(channels: nat, n: nat) returns (data: seq<int>)
      requires channels * n <= FRAME_SAMPLES
      ensures data == ErrorData(channels, n)
    {
      data := seq(FRAME_SAMPLES, _ => 0);
      var i := 0;
      while i < n
        invariant 0 <= i <= n && |data| == FRAME_SAMPLES
        invariant forall k | 0 <= k < FRAME_SAMPLES :: data[k] == if k < i * channels then FILLER else 0
      {
        MulMonotone(i + 1, n, channels);
        assert (i + 1) * channels == i * channels + channels && n * channels == channels * n;
        var start := i * channels;
        var j := 0;
        while j < channels
          invariant 0 <= j <= channels && |data| == FRAME_SAMPLES
          invariant forall k | 0 <= k < FRAME_SAMPLES :: data[k] == if k < start + j then FILLER else 0
        {
          data := data[start + j := FILLER];
          j := j + 1;
        }
        i := i + 1;
      }
      assert n * channels == channels * n;
    }

    method Disconnected()
      modifies this`paketCounter, this`desynchCounter, this`totalLost, this`onetimeSynch
      ensures State() == FRESH
    {
      desynchCounter := 0;
      paketCounter := 0;
      totalLost := 0;
      onetimeSynch := false;
    }

    /** Handles all pending datagrams; without any, the connection counts as lost. */
    method ReadyReadUdp(pending: seq<Datagram>)
      requires Valid() && AreValid(pending)
      modifies this
      ensures Valid()
      ensures if pending == [] then State() == FRESH && sent == old(sent)
              else && State() == CountAll(old(State()), Counters(pending))
                   && sent == old(sent) + AllPassed(old(State()), pending, cfg)
    {
      assert cfg.Fits();
      hide *;
      if pending == [] {
        Disconnected();
        return;
      }
      ghost var before, start, done := sent, State(), [];
      NothingYet(start, cfg);
      var i := 0;
      while i < |pending|
        invariant 0 <= i <= |pending| && done == pending[..i]
        invariant Valid() && cfg.Fits() && AreValid(done)
        invariant State() == CountAll(start, Counters(done))
        invariant sent == before + AllPassed(start, done, cfg)
      {
        ValidAt(pending, i);
        OneMore(start, done, pending[i], cfg, before);
        HandleDatagram(pending[i]);
        done := done + [pending[i]];
        i := i + 1;
      }
      assert done == pending;
    }

    method HandleDatagram(d: Datagram)
      requires Valid() && d.Valid()
      modifies this
      ensures Valid()
      ensures State() == if d == WrongSize then old(State()) else Counted(old(State()), d.frame.counter)
      ensures sent == old(sent) + if d == WrongSize then [] else Passed(old(State()), d.frame, d.memory, cfg)
    {
      hide Passed, Counted;
      if d.Packet? {
        HandleFrame(d.frame, d.memory);
      }
    }

    method HandleFrame(f: Frame, memory: seq<int>)
      requires Valid() && f.Valid() && |memory| == FRAME_SAMPLES
      modifies this
      ensures Valid()
      ensures State() == Counted(old(State()), f.counter)
      ensures sent == old(sent) + Passed(old(State()), f, memory, cfg)
    {
      hide ErrorList, ErrorListAt, ErrorLists, ErrorData, Channels, Whole, Wrap32, UWrap32, Config.Fits;
      ghost var before := State();
      paketCounter := UWrap32(paketCounter + 1);
      if f.counter != paketCounter {
        desynchCounter := UWrap32(desynchCounter + 1);
        var errs := Wrap32(f.counter - paketCounter);
        totalLost := UWrap32(totalLost + errs);
        paketCounter := f.counter;
        if !onetimeSynch {
          onetimeSynch := true;
          PassErrors(1);
        } else {
          PassErrors(errs);
        }
      } else {
        PassFrame(f, memory);
      }
    }

    method PassFrame(f: Frame, memory: seq<int>)
      requires Valid() && f.Valid() && |memory| == FRAME_SAMPLES
      modifies this`sent
      ensures cfg.Fits()
      ensures sent == old(sent) + [if cfg.singleFile then Whole(f, memory) else Channels(f, cfg.channels, cfg.n)]
    {
      var ls: DataList := [];
      if !cfg.singleFile {
        ls := SplitChannels(f);
      } else {
        ls := [ChannelData(1, f.data[..256] + memory[256..])];
      }
      sent := sent + [ls];
    }

    /** Passes on the error list again and again, adding the channels of the error frame
        each time. */
    method PassErrors(errs: int)
      requires Valid()
      modifies this`sent
      ensures sent == old(sent) + ErrorLists(cfg, if errs > 0 then errs else 0)
    {
      hide ErrorList, ErrorData, ErrorLists, ErrorListAt, Config.Fits;
      NoErrorLists(cfg);
      var errLs: DataList := [];
      var i := 0;
      while i < errs
        invariant 0 <= i <= (if errs > 0 then errs else 0)
        invariant errLs == if cfg.clears then [] else ErrorListAt(cfg, i)
        invariant sent == old(sent) + ErrorLists(cfg, i)
      {
        var more := ErrorEntries();
        NextErrorList(cfg, i);
        errLs := errLs + more;
        sent := sent + [errLs];
        if cfg.clears {
          errLs := [];
        }
        i := i + 1;
      }
    }

    /** The nested loops over channels and samples of the error frame. */
    method ErrorEntries() returns (ls: DataList)
      requires Valid()
      ensures ls == ErrorList(cfg.channels, cfg.n)
    {
      ls := [];
      var j := 0;
      while j < cfg.channels
        invariant 0 <= j <= cfg.channels && |ls| == j
        invariant forall k | 0 <= k < j :: ls[k] == ErrorList(cfg.channels, cfg.n)[k]
      {
        var samples := OneChannel(errData, j);
        ErrorChannel(cfg.channels, cfg.n, j);
        ls := ls + [ChannelData(0, samples)];
        j := j + 1;
      }
    }

    /** The inner loop: every channels-th sample. */
    method OneChannel(data: seq<int>, i: nat) returns (samples: seq<int>)
      requires Valid() && |data| == FRAME_SAMPLES && i < cfg.channels
      ensures samples == Channel(data, cfg.channels, cfg.n, i)
    {
      samples := [];
      var j := 0;
      while j < cfg.n
        invariant 0 <= j <= cfg.n
        invariant samples == Channel(data, cfg.channels, cfg.n, i)[..j]
      {
        IndexInFrame(cfg.channels, cfg.n, i, j);
        var index := j * cfg.channels + i;
        samples := samples + [data[index]];
        j := j + 1;
      }
    }

    /** The nested loops over channels and samples of a frame. */
    method SplitChannels(f: Frame) returns (ls: DataList)
      requires Valid() && !cfg.singleFile && f.Valid()
      ensures ls == Channels(f, cfg.channels, cfg.n)
    {
      ls := [];
      var i := 0;
      while i < cfg.channels
        invariant 0 <= i <= cfg.channels && |ls| == i
        invariant forall k | 0 <= k < i :: ls[k] == Channels(f, cfg.channels, cfg.n)[k]
      {
        var samples := OneChannel(f.data, i);
        assert samples == Deinterleave(f.data, cfg.channels, cfg.n)[i];
        ls := ls + [ChannelData(f.signals[i], samples)];
        i := i + 1;
      }
    }
  }

  lemma NoErrorLists(c: Config)
    ensures ErrorListAt(c, 0) == [] && ErrorLists(c, 0) == []
  {
  }

  lemma NextErrorList(c: Config, i: nat)
    ensures ErrorListAt(c, i + 1) == (if c.clears then [] else ErrorListAt(c, i)) + ErrorList(c.channels, c.n)
    ensures ErrorLists(c, i + 1) == ErrorLists(c, i) + [ErrorListAt(c, i + 1)]
  {
  }

  lemma ValidAt(ds: seq<Datagram>, i: nat)
    requires AreValid(ds) && i < |ds|
    ensures ds[i].Valid()
  {
  }

  lemma NothingYet(c: Conn, cfg: Config)
    requires cfg.Fits()
    ensures AreValid([]) && CountAll(c, Counters([])) == c && AllPassed(c, [], cfg) == []
  {
  }

  lemma CountMore(c: Conn, ds: seq<Datagram>, d: Datagram)
    ensures var k := CountAll(c, Counters(ds));
            CountAll(c, Counters(ds + [d])) == if d == WrongSize then k else Counted(k, d.frame.counter)
  {
    hide Counted;
    assert (ds + [d])[..|ds|] == ds;
    if d.Packet? {
      assert (Counters(ds) + [d.frame.counter])[..|Counters(ds)|] == Counters(ds);
    }
  }

  lemma PassMore(c: Conn, ds: seq<Datagram>, d: Datagram, cfg: Config)
    requires cfg.Fits() && AreValid(ds) && d.Valid()
    ensures AreValid(ds + [d])
    ensures var more := if d == WrongSize then [] else Passed(CountAll(c, Counters(ds)), d.frame, d.memory, cfg);
            AllPassed(c, ds + [d], cfg) == AllPassed(c, ds, cfg) + more
  {
    hide Passed, CountAll, Counters, Config.Fits, Datagram.Valid;
    assert (ds + [d])[..|ds|] == ds;
  }

  lemma Associates(a: seq<DataList>, b: seq<DataList>, c: seq<DataList>)
    ensures a + (b + c) == a + b + c
  {
  }

  lemma OneMore(c: Conn, ds: seq<Datagram>, d: Datagram, cfg: Config, before: seq<DataList>)
    requires cfg.Fits() && AreValid(ds) && d.Valid()
    ensures AreValid(ds + [d])
    ensures var k := CountAll(c, Counters(ds));
            && CountAll(c, Counters(ds + [d])) == (if d == WrongSize then k else Counted(k, d.frame.counter))
            && before + AllPassed(c, ds + [d], cfg) ==
               before + AllPassed(c, ds, cfg) + if d == WrongSize then [] else Passed(k, d.frame, d.memory, cfg)
  {
    assert d.Packet? ==> d.frame.Valid() && |d.memory| == FRAME_SAMPLES;
    hide *;
    CountMore(c, ds, d);
    PassMore(c, ds, d, cfg);
    var more := if d == WrongSize then [] else Passed(CountAll(c, Counters(ds)), d.frame, d.memory, cfg);
    Associates(before, AllPassed(c, ds, cfg), more);
  }
}
