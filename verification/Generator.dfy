/** The DTMF generator: a scheduler that emits one frame per call, a fixed number of
    tone frames and then of silent frames for each button. */
module Generator {
  import opened Arithmetic
  import opened Tones
  import Decision

  const MAX_BUTTONS := 20

  /** All fields of the generator; push and pause are the frames per tone and per pause. */
  datatype Gen = Gen(
    push: nat, pause: nat, size: nat,
    tempPush: nat, tempPause: nat,
    ready: bool,
    buttons: seq<char>, remaining: nat, count: nat,
    tone: Tone)
  {
    predicate Valid() {
      && 0 < push && 0 < pause && 0 < size <= 0xFFFF
      && |buttons| == MAX_BUTTONS
      && (!ready ==> count + remaining <= MAX_BUTTONS)
    }
  }

  /** Frames per phase for a duration in milliseconds at 8 samples per millisecond. */
  function FrameCount(frameSize: nat, duration: nat): (p: nat)
    requires 0 < frameSize
    ensures 8 * duration < p * frameSize <= 8 * duration + frameSize
  {
    var q := duration * 8 / frameSize;
    assert duration * 8 == q * frameSize + duration * 8 % frameSize;
    assert (q + 1) * frameSize == q * frameSize + frameSize;
    q + 1
  }

  /** What a call does to the output array. */
  datatype Emission = Nothing | Frame(samples: seq<int>)

  /** The key being transmitted (count never runs past the array in a valid state). */
  function Key(g: Gen): char {
    if g.count < |g.buttons| then g.buttons[g.count] else ' '
  }

  /** The state with the current key's tone loaded, if its first frame is due. */
  function Loaded(g: Gen): Gen {
    if g.push == g.tempPush then g.(tone := ToneOf(Key(g))) else g
  }

  /** One call that finds the generator not ready. */
  function Schedule(g: Gen): (Gen, Emission)
    decreases g.remaining
  {
    if g.remaining == 0 then (g.(ready := true), Nothing)
    else
      var h := Loaded(g);
      if h.tempPush > 0 then
        (h.(tempPush := h.tempPush - 1, tone := Advance(h.tone, h.size)), Frame(Samples(h.tone, h.size)))
      else if h.tempPause > 0 then
        (h.(tempPause := h.tempPause - 1), Frame(Zeros(h.size)))
      else
        Schedule(h.(tempPush := h.push, tempPause := h.pause, count := h.count + 1, remaining := h.remaining - 1))
  }

  /** The cases of a scheduling step. */
  lemma ScheduleTone(g: Gen)
    requires g.remaining > 0 && g.tempPush > 0
    ensures var h := Loaded(g);
            Schedule(g) == (h.(tempPush := g.tempPush - 1, tone := Advance(h.tone, g.size)), Frame(Samples(h.tone, g.size)))
  {
    hide ToneOf, Advance, Samples, Zeros;
  }

  lemma SchedulePause(g: Gen)
    requires g.remaining > 0 && g.tempPush == 0 && g.tempPause > 0
    ensures Schedule(g) == (Loaded(g).(tempPause := g.tempPause - 1), Frame(Zeros(g.size)))
  {
    hide ToneOf, Advance, Samples, Zeros;
  }

  lemma ScheduleNext(g: Gen)
    requires g.remaining > 0 && g.tempPush == 0 && g.tempPause == 0
    ensures Schedule(g) ==
            Schedule(Loaded(g).(tempPush := g.push, tempPause := g.pause, count := g.count + 1, remaining := g.remaining - 1))
  {
    hide ToneOf, Advance, Samples, Zeros;
  }

  lemma ScheduleEnd(g: Gen)
    requires g.remaining == 0
    ensures Schedule(g) == (g.(ready := true), Nothing)
  {
  }

  function Call(g: Gen): (Gen, Emission) {
    if g.ready then (g, Nothing) else Schedule(g)
  }

  /** Requests the transmission of some keys; refused unless the generator is ready. */
  function Transmit(g: Gen, keys: seq<char>): (r: (Gen, bool))
    requires |g.buttons| == MAX_BUTTONS
    ensures g.Valid() ==> r.0.Valid()
  {
    if !g.ready then (g, false)
    else if keys == [] then (g.(remaining := 0, count := 0, ready := true), true)
    else
      var n := if |keys| > MAX_BUTTONS then MAX_BUTTONS else |keys|;
      (g.(remaining := n, buttons := keys[..n] + g.buttons[n..], tempPush := g.push, tempPause := g.pause,
          count := 0, ready := false), true)
  }

  function Reset(g: Gen): (r: Gen)
    ensures g.Valid() ==> r.Valid()
  {
    g.(remaining := 0, count := 0, ready := true)
  }

  /** Both phases of the current button are over. */
  predicate Exhausted(g: Gen) {
    g.Valid() && !g.ready && g.remaining > 0 && g.tempPush == 0 && g.tempPause == 0
  }

  /** The same state, moved on to the next button. */
  function NextButton(g: Gen): Gen {
    g.(tempPush := g.push, tempPause := g.pause, count := g.count + 1,
       remaining := if g.remaining > 0 then g.remaining - 1 else 0)
  }

  /** A call after both phases is a call at the start of the next button. */
  lemma ExhaustedMovesOn(g: Gen)
    requires Exhausted(g)
    ensures NextButton(g).Valid() && Call(g) == Call(NextButton(g))
  {
    hide ToneOf, Advance, Samples;
  }

  // ---------------------------------------------------------------------------
  // Runs of calls
  // ---------------------------------------------------------------------------

  lemma {:induction false} ScheduleValid(g: Gen)
    requires g.Valid() && !g.ready
    ensures Schedule(g).0.Valid()
    ensures Schedule(g).0.push == g.push && Schedule(g).0.pause == g.pause && Schedule(g).0.size == g.size
    ensures Schedule(g).0.buttons == g.buttons
    decreases g.remaining
  {
    hide ToneOf, Advance, Samples;
    if g.remaining > 0 && g.tempPush == 0 && g.tempPause == 0 {
      ScheduleValid(g.(tempPush := g.push, tempPause := g.pause, count := g.count + 1, remaining := g.remaining - 1));
    }
  }

  lemma CallValid(g: Gen)
    requires g.Valid()
    ensures Call(g).0.Valid()
  {
    if !g.ready {
      ScheduleValid(g);
    }
  }

  /** The output array after a call. */
  function Written(before: seq<int>, e: Emission): seq<int> {
    if e.Nothing? then before else e.samples
  }

  function Emitted(e: Emission): seq<int> {
    if e.Nothing? then [] else e.samples
  }

  /** State and concatenated output after k calls. */
  function Calls(g: Gen, k: nat): (Gen, seq<int>) {
    if k == 0 then (g, [])
    else
      var (h, y) := Calls(g, k - 1);
      (Call(h).0, y + Emitted(Call(h).1))
  }

  lemma {:induction false} CallsValid(g: Gen, k: nat)
    requires g.Valid()
    ensures Calls(g, k).0.Valid()
  {
    if k > 0 {
      hide Call;
      CallsValid(g, k - 1);
      CallValid(Calls(g, k - 1).0);
    }
  }

  lemma CallsFirst(g: Gen)
    ensures Calls(g, 0) == (g, [])
    ensures Calls(g, 1) == (Call(g).0, Emitted(Call(g).1))
  {
    hide Call;
    assert Calls(g, 0) == (g, []);
    assert [] + Emitted(Call(g).1) == Emitted(Call(g).1);
  }

  lemma CallsNext(g: Gen, k: nat)
    ensures Calls(g, k + 1) == (Call(Calls(g, k).0).0, Calls(g, k).1 + Emitted(Call(Calls(g, k).0).1))
  {
  }

  lemma {:induction false} CallsConcat(g: Gen, a: nat, b: nat)
    ensures var (h, y) := Calls(g, a);
            Calls(g, a + b) == (Calls(h, b).0, y + Calls(h, b).1)
  {
    hide Call;
    var (h, y) := Calls(g, a);
    if b > 0 {
      CallsConcat(g, a, b - 1);
      var (t, z) := Calls(h, b - 1);
      assert y + (z + Emitted(Call(t).1)) == y + z + Emitted(Call(t).1);
    } else {
      assert y + [] == y;
    }
  }

  // ---------------------------------------------------------------------------
  // The countdown
  // ---------------------------------------------------------------------------

  /** How many more calls until the generator is ready again. */
  function CallsLeft(g: Gen): nat {
    if g.ready then 0
    else if g.remaining == 0 then 1
    else g.tempPush + g.tempPause + Times(g.remaining - 1, g.push + g.pause) + 1
  }

  lemma NextButtonSmaller(g: Gen)
    requires Exhausted(g)
    ensures !NextButton(g).ready && NextButton(g).remaining < g.remaining
    ensures CallsLeft(NextButton(g)) == CallsLeft(g)
  {
  }

  /** A call emits nothing exactly when it ends the transmission. */
  lemma {:induction false} NothingWhenDone(g: Gen)
    requires g.Valid() && !g.ready
    ensures Call(g).1 == Nothing <==> Call(g).0.ready
    decreases g.remaining
  {
    if Exhausted(g) {
      hide *;
      NextButtonSmaller(g);
      ExhaustedMovesOn(g);
      NothingWhenDone(NextButton(g));
    } else {
      hide ToneOf, Advance, Samples, Zeros;
    }
  }

  /** Every call takes exactly one off the countdown. */
  lemma {:induction false} CallCountsDown(g: Gen)
    requires g.Valid() && !g.ready
    ensures Call(g).0.Valid() && CallsLeft(Call(g).0) == CallsLeft(g) - 1
    decreases g.remaining
  {
    hide Call, CallsLeft, ToneOf, Advance, Samples, Zeros, Times;
    if Exhausted(g) {
      NextButtonSmaller(g);
      ExhaustedMovesOn(g);
      CallCountsDown(NextButton(g));
    } else {
      CallCountsOne(g);
    }
  }

  lemma CallCountsOne(g: Gen)
    requires g.Valid() && !g.ready && !Exhausted(g)
    ensures Call(g).0.Valid() && CallsLeft(Call(g).0) == CallsLeft(g) - 1
  {
    hide ToneOf, Advance, Samples, Zeros, Times;
    CallValid(g);
  }

  lemma ReadyWhenDone(g: Gen)
    requires g.Valid()
    ensures g.ready <==> CallsLeft(g) == 0
  {
  }

  /** After k calls, k fewer are left; so the generator becomes ready with exactly
      the last of them. */
  lemma {:induction false} CountdownOverRuns(g: Gen, k: nat)
    requires g.Valid() && k <= CallsLeft(g)
    ensures CallsLeft(Calls(g, k).0) == CallsLeft(g) - k
    ensures Calls(g, k).0.ready <==> k == CallsLeft(g)
  {
    hide *;
    CallsValid(g, k);
    ReadyWhenDone(Calls(g, k).0);
    if k > 0 {
      CallsValid(g, k - 1);
      ReadyWhenDone(Calls(g, k - 1).0);
      CallsNext(g, k - 1);
      CountdownOverRuns(g, k - 1);
      CallCountsDown(Calls(g, k - 1).0);
    } else {
      CallsFirst(g);
    }
  }

  // ---------------------------------------------------------------------------
  // The whole transmission
  // ---------------------------------------------------------------------------

  /** What the keys sound like: for each, the frames of its tone and of its pause. */
  function Transmission(push: nat, pause: nat, size: nat, keys: seq<char>): seq<int> {
    if keys == [] then []
    else
      Samples(ToneOf(keys[0]), Times(push, size)) + Zeros(Times(pause, size))
      + Transmission(push, pause, size, keys[1..])
  }

  lemma FirstKey(push: nat, pause: nat, size: nat, keys: seq<char>)
    requires keys != []
    ensures Transmission(push, pause, size, keys) ==
            ButtonSound(push, size, keys[0], pause) + Transmission(push, pause, size, keys[1..])
  {
  }

  /** About to emit the first frame of a button. */
  predicate AtButton(g: Gen) {
    g.Valid() && !g.ready && g.remaining > 0 && g.tempPush == g.push && g.tempPause == g.pause
  }

  /** The state after j tone frames of the current button. */
  function DuringTone(g: Gen, j: nat): Gen {
    g.(tempPush := if j <= g.push then g.push - j else 0, tone := Advance(ToneOf(Key(g)), Times(j, g.size)))
  }

  lemma FirstToneCall(g: Gen)
    requires AtButton(g)
    ensures Call(g) == (DuringTone(g, 1), Frame(Samples(ToneOf(Key(g)), g.size)))
  {
    hide ToneOf, Advance, Samples;
    assert Times(1, g.size) == Times(0, g.size) + g.size;
  }

  lemma LaterToneCall(g: Gen, j: nat)
    requires AtButton(g) && 0 < j < g.push
    ensures Call(DuringTone(g, j)) == (DuringTone(g, j + 1), Frame(Samples(DuringTone(g, j).tone, g.size)))
  {
    hide ToneOf, Advance, Samples;
    AdvanceTwice(ToneOf(Key(g)), Times(j, g.size), g.size);
  }

  lemma {:induction false} TonePhase(g: Gen, j: nat)
    requires AtButton(g) && 0 < j <= g.push
    ensures Calls(g, j) == (DuringTone(g, j), Samples(ToneOf(Key(g)), Times(j, g.size)))
  {
    hide *;
    if j == 1 {
      FirstToneFrame(g);
    } else {
      var i := j - 1;
      TonePhase(g, i);
      LaterToneCall(g, i);
      CallsNext(g, i);
      MoreTone(g, i);
    }
  }

  lemma FirstToneFrame(g: Gen)
    requires AtButton(g)
    ensures Calls(g, 1) == (DuringTone(g, 1), Samples(ToneOf(Key(g)), Times(1, g.size)))
  {
    FirstToneCall(g);
    CallsFirst(g);
    hide DuringTone, Call, Calls, Samples, ToneOf;
    assert Times(1, g.size) == Times(0, g.size) + g.size && Times(0, g.size) == 0;
  }

  lemma MoreTone(g: Gen, i: nat)
    requires AtButton(g) && i < g.push
    ensures var t := ToneOf(Key(g));
            Samples(t, Times(i + 1, g.size)) ==
            Samples(t, Times(i, g.size)) + Emitted(Frame(Samples(DuringTone(g, i).tone, g.size)))
  {
    hide Samples, ToneOf, Advance;
    FrameBoundaryInvisible(ToneOf(Key(g)), Times(i, g.size), g.size);
  }

  /** The state after the tone and j silent frames of the current button. */
  function DuringPause(g: Gen, j: nat): Gen {
    DuringTone(g, g.push).(tempPause := if j <= g.pause then g.pause - j else 0)
  }

  lemma PauseCall(g: Gen, j: nat)
    requires AtButton(g) && j < g.pause
    ensures Call(DuringPause(g, j)) == (DuringPause(g, j + 1), Frame(Zeros(g.size)))
  {
    hide ToneOf, Advance, Samples, Zeros, Times;
  }

  /** The sound of one button after j silent frames. */
  function ButtonSound(push: nat, size: nat, key: char, j: nat): seq<int> {
    Samples(ToneOf(key), Times(push, size)) + Zeros(Times(j, size))
  }

  lemma MoreSilence(push: nat, size: nat, key: char, j: nat)
    ensures ButtonSound(push, size, key, 0) == Samples(ToneOf(key), Times(push, size))
    ensures ButtonSound(push, size, key, j + 1) == ButtonSound(push, size, key, j) + Zeros(size)
  {
    hide Samples, ToneOf;
    assert Times(0, size) == 0;
    assert Zeros(Times(j, size)) + Zeros(size) == Zeros(Times(j + 1, size));
  }

  lemma {:induction false} PausePhase(g: Gen, j: nat)
    requires AtButton(g) && j <= g.pause
    ensures Calls(g, g.push + j) == (DuringPause(g, j), ButtonSound(g.push, g.size, Key(g), j))
  {
    if j == 0 {
      hide *;
      PauseBegins(g);
      MoreSilence(g.push, g.size, Key(g), 0);
    } else {
      hide *;
      PausePhase(g, j - 1);
      OnePause(g, j - 1);
    }
  }

  lemma OnePause(g: Gen, j: nat)
    requires AtButton(g) && j < g.pause
    requires Calls(g, g.push + j) == (DuringPause(g, j), ButtonSound(g.push, g.size, Key(g), j))
    ensures Calls(g, g.push + j + 1) == (DuringPause(g, j + 1), ButtonSound(g.push, g.size, Key(g), j + 1))
  {
    hide *;
    PauseCall(g, j);
    MoreSilence(g.push, g.size, Key(g), j);
    CallsNext(g, g.push + j);
    EmittedFrame(Zeros(g.size));
  }

  lemma PauseBegins(g: Gen)
    requires AtButton(g)
    ensures DuringPause(g, 0) == DuringTone(g, g.push)
    ensures Calls(g, g.push) == (DuringTone(g, g.push), Samples(ToneOf(Key(g)), Times(g.push, g.size)))
  {
    hide ToneOf, Advance, Samples, Calls;
    TonePhase(g, g.push);
  }

  lemma EmittedFrame(y: seq<int>)
    ensures Emitted(Frame(y)) == y
  {
  }

  /** From an exhausted button on, calls do what they do from the next button on. */
  lemma CallsFromExhausted(g: Gen, k: nat)
    requires Exhausted(g) && 0 < k
    ensures Calls(g, k) == Calls(NextButton(g), k)
  {
    hide Call, Calls, NextButton;
    var h := NextButton(g);
    ExhaustedMovesOn(g);
    CallsFirst(g);
    CallsFirst(h);
    CallsConcat(g, 1, k - 1);
    CallsConcat(h, 1, k - 1);
  }

  /** The state at the end of the current button's pause. */
  function ButtonEnd(g: Gen): Gen {
    DuringPause(g, g.pause)
  }

  /** At the end of a button's pause: either the next button is due, or the next
      call ends the transmission. */
  lemma ButtonEnds(g: Gen)
    requires AtButton(g)
    ensures Exhausted(ButtonEnd(g))
    ensures if g.remaining == 1 then Ending(ButtonEnd(g)) else AtButton(NextButton(ButtonEnd(g)))
    ensures 0 < g.push && NextButton(ButtonEnd(g)).Valid()
    ensures var h := NextButton(ButtonEnd(g));
            && h.push == g.push && h.pause == g.pause && h.size == g.size
            && h.remaining == g.remaining - 1 && Upcoming(g) != [] && Upcoming(h) == Upcoming(g)[1..]
  {
    hide ToneOf, Advance, Samples;
    ExhaustedMovesOn(ButtonEnd(g));
  }

  /** The keys still to be transmitted, the current one included. */
  function Upcoming(g: Gen): seq<char> {
    if g.count + g.remaining <= |g.buttons| then g.buttons[g.count..g.count + g.remaining] else []
  }

  /** The next call emits nothing and makes the generator ready. */
  predicate Ending(g: Gen) {
    !g.ready && Call(g).1 == Nothing && Call(g).0.ready
  }

  /** The number of calls that emit a frame. */
  function FramesLeft(g: Gen): nat {
    Times(g.remaining, g.push + g.pause)
  }

  /** Everything emitted from the start of a button to the end. */
  function Sound(g: Gen): seq<int> {
    Calls(g, FramesLeft(g)).1
  }

  function Final(g: Gen): Gen {
    Calls(g, FramesLeft(g)).0
  }

  lemma FirstUpcoming(g: Gen)
    requires AtButton(g)
    ensures Upcoming(g) != [] && Upcoming(g)[0] == Key(g) && (g.remaining == 1 ==> Upcoming(g)[1..] == [])
  {
  }

  lemma OneButton(g: Gen)
    requires AtButton(g)
    ensures Calls(g, g.push + g.pause) == (ButtonEnd(g), ButtonSound(g.push, g.size, Key(g), g.pause))
  {
    hide DuringPause, Calls, ButtonSound;
    PausePhase(g, g.pause);
  }

  lemma LastButton(g: Gen)
    requires AtButton(g) && g.remaining == 1
    ensures Final(g) == ButtonEnd(g) && Sound(g) == ButtonSound(g.push, g.size, Key(g), g.pause)
  {
    hide ButtonEnd, Calls, ButtonSound, Upcoming;
    TimesFirst(1, g.push + g.pause);
    TimesFirst(0, g.push + g.pause);
    OneButton(g);
  }

  lemma EarlierButton(g: Gen)
    requires AtButton(g) && g.remaining > 1
    ensures Final(g) == Final(NextButton(ButtonEnd(g)))
    ensures Sound(g) == ButtonSound(g.push, g.size, Key(g), g.pause) + Sound(NextButton(ButtonEnd(g)))
  {
    hide *;
    var h, c := NextButton(ButtonEnd(g)), g.push + g.pause;
    ButtonEnds(g);
    var m := h.remaining;
    CallsOfAll(g, m + 1, c);
    CallsOfAll(h, m, c);
    TimesFirst(m + 1, c);
    TimesFirst(m, c);
    AfterOneButton(g, Times(m, c));
  }

  lemma AfterOneButton(g: Gen, k: nat)
    requires AtButton(g) && 0 < k
    ensures var h := NextButton(ButtonEnd(g));
            Calls(g, g.push + g.pause + k) == (Calls(h, k).0, ButtonSound(g.push, g.size, Key(g), g.pause) + Calls(h, k).1)
  {
    hide *;
    ButtonEnds(g);
    OneButton(g);
    CallsConcat(g, g.push + g.pause, k);
    CallsFromExhausted(ButtonEnd(g), k);
  }

  lemma CallsOfAll(g: Gen, n: nat, c: nat)
    requires n == g.remaining && c == g.push + g.pause
    ensures Calls(g, Times(n, c)) == (Final(g), Sound(g))
  {
    hide Calls, Times;
  }

  /** From the start of a button on, the frames of the remaining buttons together
      are the transmission of the remaining keys, after which the next call emits
      nothing and makes the generator ready. */
  lemma {:induction false} RemainingButtons(g: Gen)
    requires AtButton(g)
    ensures Sound(g) == Transmission(g.push, g.pause, g.size, Upcoming(g))
    ensures Ending(Final(g))
    decreases g.remaining
  {
    assert g.remaining > 0;
    hide *;
    ButtonEnds(g);
    FirstUpcoming(g);
    FirstKey(g.push, g.pause, g.size, Upcoming(g));
    if g.remaining == 1 {
      LastButton(g);
      NoKeys(g.push, g.pause, g.size, Upcoming(g)[1..]);
    } else {
      EarlierButton(g);
      RemainingButtons(NextButton(ButtonEnd(g)));
    }
  }

  lemma NoKeys(push: nat, pause: nat, size: nat, keys: seq<char>)
    requires keys == []
    ensures Transmission(push, pause, size, keys) == []
  {
  }

  lemma {:induction false} TimesFirst(n: nat, c: nat)
    ensures if n == 0 then Times(n, c) == 0 else Times(n, c) == Times(n - 1, c) + c
  {
  }

  function Clamped(keys: seq<char>): seq<char> {
    if |keys| > MAX_BUTTONS then keys[..MAX_BUTTONS] else keys
  }

  lemma Accepted(g: Gen, keys: seq<char>)
    requires g.Valid() && g.ready && keys != []
    ensures var (h, accepted) := Transmit(g, keys);
            && accepted && AtButton(h)
            && h.push == g.push && h.pause == g.pause && h.size == g.size
            && h.remaining == |Clamped(keys)| && Upcoming(h) == Clamped(keys)
            && CallsLeft(h) == FramesLeft(h) + 1
  {
    TimesFirst(|Clamped(keys)|, g.push + g.pause);
    hide Times;
  }

  /** A ready generator accepts any keys and transmits the first twenty of them, in as
      many frames each as tone and pause take: together the frames are the transmission,
      the call after them emits nothing, and with exactly that call it becomes ready
      again. */
  lemma WholeTransmission(g: Gen, keys: seq<char>)
    requires g.Valid() && g.ready && keys != []
    ensures Transmit(g, keys).1 && FramesLeft(Transmit(g, keys).0) == |Clamped(keys)| * (g.push + g.pause)
    ensures Sound(Transmit(g, keys).0) == Transmission(g.push, g.pause, g.size, Clamped(keys))
    ensures Ending(Final(Transmit(g, keys).0))
    ensures forall k: nat | k <= FramesLeft(Transmit(g, keys).0) + 1 ::
              Calls(Transmit(g, keys).0, k).0.ready <==> k == FramesLeft(Transmit(g, keys).0) + 1
  {
    var h := Transmit(g, keys).0;
    Accepted(g, keys);
    TimesIsProduct(|Clamped(keys)|, g.push + g.pause);
    assert FramesLeft(h) == Times(h.remaining, g.push + g.pause);
    hide *;
    RemainingButtons(h);
    forall k: nat | k <= FramesLeft(h) + 1 ensures Calls(h, k).0.ready <==> k == FramesLeft(h) + 1 {
      CountdownOverRuns(h, k);
    }
  }

  /** The call that ends the transmission adds nothing to the output. */
  lemma SoundAtEnd(g: Gen)
    requires Ending(Final(g))
    ensures Calls(g, FramesLeft(g) + 1).1 == Sound(g)
  {
    hide Calls, Call, FramesLeft;
    CallsNext(g, FramesLeft(g));
    assert Sound(g) + [] == Sound(g);
  }

  /** At most twenty keys are sent, the first ones. */
  lemma TwentyKeys(keys: seq<char>)
    ensures Clamped(keys) == if |keys| > 20 then keys[..20] else keys
  {
  }

  // ---------------------------------------------------------------------------
  // Requests that send nothing
  // ---------------------------------------------------------------------------

  /** A request is accepted exactly by a ready generator; a refused one changes nothing of
      what is still to be emitted. */
  lemma TransmitIff(g: Gen, keys: seq<char>, k: nat)
    requires |g.buttons| == MAX_BUTTONS
    ensures Transmit(g, keys).1 <==> g.ready
    ensures !g.ready ==> Transmit(g, keys).0 == g && Calls(Transmit(g, keys).0, k) == Calls(g, k)
  {
  }

  /** A ready generator emits nothing and stays as it is, however often it is called. */
  lemma {:induction false} IdleEmitsNothing(g: Gen, k: nat)
    requires g.ready
    ensures Call(g) == (g, Nothing) && Calls(g, k) == (g, [])
  {
    CallsFirst(g);
    if k > 0 {
      IdleEmitsNothing(g, k - 1);
      CallsNext(g, k - 1);
    }
  }

  /** A request of no keys is accepted by a ready generator, which stays ready and emits
      nothing. */
  lemma EmptyRequest(g: Gen, k: nat)
    requires g.Valid() && g.ready
    ensures var h := Transmit(g, []).0;
            Transmit(g, []).1 && h.ready && CallsLeft(h) == 0 && Calls(h, k) == (h, [])
  {
    IdleEmitsNothing(Transmit(g, []).0, k);
    hide Calls;
  }

  // ---------------------------------------------------------------------------
  // Call by call
  // ---------------------------------------------------------------------------

  /** The frame of call k (from 0) of a transmission: of button k div (push + pause), a piece
      of its tone in the first calls and silence in the others. */
  function FrameAt(push: nat, pause: nat, size: nat, keys: seq<char>, k: nat): Emission
    requires 0 < push + pause && k / (push + pause) < |keys|
  {
    var key, j := keys[k / (push + pause)], k % (push + pause);
    Frame(if j < push then Samples(Advance(ToneOf(key), Times(j, size)), size) else Zeros(size))
  }

  lemma ToneCallAt(g: Gen, j: nat)
    requires AtButton(g) && j < g.push
    ensures Call(Calls(g, j).0).1 == Frame(Samples(Advance(ToneOf(Key(g)), Times(j, g.size)), g.size))
  {
    hide ToneOf, Samples, Spin, Call;
    if j == 0 {
      FirstToneCall(g);
      CallsFirst(g);
      assert Times(0, g.size) == 0 && Advance(ToneOf(Key(g)), 0) == ToneOf(Key(g)) by { NotAdvanced(ToneOf(Key(g))); }
    } else {
      TonePhase(g, j);
      LaterToneCall(g, j);
    }
  }

  lemma NotAdvanced(t: Tone)
    ensures Advance(t, 0) == t
  {
  }

  lemma PauseCallAt(g: Gen, j: nat)
    requires AtButton(g) && j < g.pause
    ensures Call(Calls(g, g.push + j).0).1 == Frame(Zeros(g.size))
  {
    hide *;
    PausePhase(g, j);
    PauseCall(g, j);
  }

  lemma {:induction false} CallAt(g: Gen, k: nat, b: nat, j: nat)
    requires AtButton(g) && b < |Upcoming(g)| == g.remaining && j < g.push + g.pause
    requires k == Times(b, g.push + g.pause) + j
    ensures Call(Calls(g, k).0).1 == ButtonFrame(g, Upcoming(g)[b], j)
    decreases b
  {
    if b == 0 {
      FirstUpcoming(g);
      TimesFirst(0, g.push + g.pause);
      hide ToneOf, Samples, Advance, Zeros, Call, Calls, Upcoming, Times;
      if j < g.push {
        ToneCallAt(g, j);
      } else {
        PauseCallAt(g, j - g.push);
      }
    } else {
      TimesFirst(b, g.push + g.pause);
      LaterCallAt(g, k, b, j);
    }
  }

  /** The frame of call j of a button. */
  function ButtonFrame(g: Gen, key: char, j: nat): Emission {
    Frame(if j < g.push then Samples(Advance(ToneOf(key), Times(j, g.size)), g.size) else Zeros(g.size))
  }

  lemma LaterCallAt(g: Gen, k: nat, b: nat, j: nat)
    requires AtButton(g) && 0 < b < |Upcoming(g)| == g.remaining && j < g.push + g.pause
    requires k == Times(b - 1, g.push + g.pause) + (g.push + g.pause) + j
    ensures Call(Calls(g, k).0).1 == ButtonFrame(g, Upcoming(g)[b], j)
    decreases b, 0
  {
    hide *;
    var h, i := NextButton(ButtonEnd(g)), k - (g.push + g.pause);
    ButtonEnds(g);
    UpcomingSize(h);
    SameFrames(g, h, Upcoming(g)[b], j);
    CallAt(h, i, b - 1, j);
    if i == 0 {
      OneButton(g);
      ExhaustedMovesOn(ButtonEnd(g));
      CallsFirst(h);
    } else {
      AfterOneButton(g, i);
    }
    assert k == g.push + g.pause + i;
  }

  lemma SameFrames(g: Gen, h: Gen, key: char, j: nat)
    requires h.push == g.push && h.pause == g.pause && h.size == g.size
    ensures ButtonFrame(g, key, j) == ButtonFrame(h, key, j)
  {
  }

  lemma UpcomingSize(g: Gen)
    requires AtButton(g)
    ensures |Upcoming(g)| == g.remaining
  {
  }

  /** The whole schedule, call by call: of n keys sent, call k < n * (push + pause) emits
      a frame of button k div (push + pause), its tone from the point reached in the first
      push calls of the button and silence in the others. */
  lemma CallEmits(g: Gen, keys: seq<char>, k: nat)
    requires g.Valid() && g.ready && k < |Clamped(keys)| * (g.push + g.pause)
    ensures k / (g.push + g.pause) < |Clamped(keys)|
    ensures Call(Calls(Transmit(g, keys).0, k).0).1 == FrameAt(g.push, g.pause, g.size, Clamped(keys), k)
  {
    assert 0 < g.push + g.pause && (keys == [] ==> Clamped(keys) == []);
    hide *;
    var c, h := g.push + g.pause, Transmit(g, keys).0;
    var b, j := k / c, k % c;
    Quotient(k, c, |Clamped(keys)|);
    Accepted(g, keys);
    UpcomingSize(h);
    TimesIsProduct(b, c);
    CallAt(h, k, b, j);
    FrameIs(h, Clamped(keys), k, b, j);
  }

  lemma FrameIs(g: Gen, keys: seq<char>, k: nat, b: nat, j: nat)
    requires 0 < g.push + g.pause && b == k / (g.push + g.pause) && j == k % (g.push + g.pause) && b < |keys|
    ensures ButtonFrame(g, keys[b], j) == FrameAt(g.push, g.pause, g.size, keys, k)
  {
    hide Samples, ToneOf, Zeros, Advance, Times;
  }

  lemma Quotient(k: nat, c: nat, n: nat)
    requires 0 < c && k < n * c
    ensures k / c < n && k == k / c * c + k % c
  {
    if n <= k / c {
      MulMonotone(n, k / c, c);
    }
  }

  // ---------------------------------------------------------------------------
  // Stopping early
  // ---------------------------------------------------------------------------

  /** Every call emits one whole frame, except the one that ends the transmission. */
  lemma {:induction false} FrameSized(g: Gen)
    requires g.Valid() && !g.ready
    ensures |Emitted(Call(g).1)| == if Call(g).0.ready then 0 else g.size
    ensures Call(g).0.size == g.size
    decreases g.remaining
  {
    if Exhausted(g) {
      NextSize(g);
      hide *;
      NextButtonSmaller(g);
      ExhaustedMovesOn(g);
      FrameSized(NextButton(g));
    } else {
      hide ToneOf, Advance, Samples, Zeros;
    }
  }

  lemma NextSize(g: Gen)
    ensures NextButton(g).size == g.size
  {
  }

  /** So k calls emit k frames, as long as they do not end the transmission. */
  lemma {:induction false} OutputLength(g: Gen, k: nat)
    requires g.Valid() && k <= CallsLeft(g)
    ensures Calls(g, k).0.size == g.size
    ensures |Calls(g, k).1| == Times(if k < CallsLeft(g) || k == 0 then k else k - 1, g.size)
  {
    hide Call, CallsLeft, Emitted;
    if k > 0 {
      OutputLength(g, k - 1);
      CountdownOverRuns(g, k - 1);
      CountdownOverRuns(g, k);
      CallsValid(g, k - 1);
      CallsNext(g, k - 1);
      FrameSized(Calls(g, k - 1).0);
      hide Calls;
    }
  }

  /** What the first k calls emit begins what all calls emit. */
  lemma OutputBegins(g: Gen, k: nat)
    requires g.Valid() && k <= CallsLeft(g)
    ensures Calls(g, k).1 <= Calls(g, CallsLeft(g)).1
  {
    hide Calls, CallsLeft;
    CallsConcat(g, k, CallsLeft(g) - k);
  }

  /** What a ready generator puts out for some keys. */
  function Played(g: Gen, keys: seq<char>): seq<int>
    requires |g.buttons| == MAX_BUTTONS
  {
    Sound(Transmit(g, keys).0)
  }

  /** A reset in the middle of a transmission leaves no trace in the next one. */
  lemma ResetLeavesNoTrace(g: Gen, idle: Gen, keys: seq<char>)
    requires g.Valid() && idle.Valid() && idle.ready && keys != []
    requires g.push == idle.push && g.pause == idle.pause && g.size == idle.size
    ensures Played(Reset(g), keys) == Played(idle, keys)
  {
    hide Sound, Transmit, Transmission, Clamped, Calls, Final, Ending, FramesLeft;
    WholeTransmission(Reset(g), keys);
    WholeTransmission(idle, keys);
  }

  // ---------------------------------------------------------------------------
  // Nothing wraps in a whole transmission
  // ---------------------------------------------------------------------------

  /** A sample of silence, or an exact mean of one of the keys' oscillators. */
  ghost predicate Unwrapped(y: int, keys: seq<char>) {
    y == 0 || exists key, n :: key in keys && IsMeanOf(y, key, n)
  }

  lemma ToneUnwrapped(key: char, n: nat, i: nat, keys: seq<char>)
    requires i < n <= REACH && key in keys
    ensures Unwrapped(Samples(ToneOf(key), n)[i], keys)
  {
    hide Samples, ToneOf, Advance;
    if key in Decision.KEYS {
      ToneSamples(key, n, i);
      assert IsMeanOf(Samples(ToneOf(key), n)[i], key, i + 1);
    } else {
      SilentSample(key, n, i);
    }
  }

  lemma {:induction false} TransmissionUnwrapped(push: nat, pause: nat, size: nat, keys: seq<char>, i: nat)
    requires Times(push, size) <= REACH && i < |Transmission(push, pause, size, keys)|
    ensures Unwrapped(Transmission(push, pause, size, keys)[i], keys)
    decreases |keys|
  {
    hide Samples, ToneOf, Zeros, Times, IsMeanOf;
    var n, m := Times(push, size), Times(pause, size);
    if i < n {
      ToneUnwrapped(keys[0], n, i, keys);
    } else if i >= n + m {
      TransmissionUnwrapped(push, pause, size, keys[1..], i - n - m);
    }
  }

  /** If a tone, rounded up to whole frames, is within the reach of the energy bound, then
      every sample of every transmission is silence or the exact mean of two 16-bit
      values: nothing wraps, whatever keys are sent. */
  lemma TransmissionNeverWraps(g: Gen, keys: seq<char>, duration: nat, i: nat)
    requires g.Valid() && g.ready && keys != []
    requires g.push == FrameCount(g.size, duration) && 8 * duration + g.size <= REACH
    requires i < |Played(g, keys)|
    ensures Unwrapped(Played(g, keys)[i], Clamped(keys))
  {
    hide Sound, Transmit, Transmission, Clamped, Calls, Final, Ending, FramesLeft, Unwrapped, FrameCount;
    WholeTransmission(g, keys);
    TimesIsProduct(g.push, g.size);
    TransmissionUnwrapped(g.push, g.pause, g.size, Clamped(keys), i);
  }
}
