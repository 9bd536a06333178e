/** The generator object, updated in place by each call. */
module GeneratorObject {
  import opened Arithmetic
  import opened FixedPoint
  import opened Resonator
  import opened Tones
  import opened Generator

  /** Runs both oscillators for count samples and returns their final states. */
  method FrequencyOscillator(k1: int, k2: int, y: array<int>, count: nat, y1_0: int, y1_1: int, y2_0: int, y2_1: int)
    returns (z1_0: int, z1_1: int, z2_0: int, z2_1: int)
    requires count <= y.Length && count <= 0xFFFF
    modifies y
    ensures var t := Tone(k1, k2, Osc(y1_0, y2_0), Osc(y1_1, y2_1));
            && y[..count] == Samples(t, count)
            && Tone(k1, k2, Osc(z1_0, z2_0), Osc(z1_1, z2_1)) == Advance(t, count)
    ensures y[count..] == old(y[count..])
  {
    hide Mpy48sr, Wrap32, Wrap16;
    ghost var t := Tone(k1, k2, Osc(y1_0, y2_0), Osc(y1_1, y2_1));
    z1_0, z1_1, z2_0, z2_1 := y1_0, y1_1, y2_0, y2_1;
    var subject := k1 * k2;
    var ii := 0;
    while ii < count
      invariant 0 <= ii <= count
      invariant Tone(k1, k2, Osc(z1_0, z2_0), Osc(z1_1, z2_1)) == Advance(t, ii)
      invariant y[..ii] == Samples(t, ii)
      invariant y[count..] == old(y[count..])
    {
      var temp0 := Wrap32(Mpy48sr(k1, Wrap32(2 * z1_0)) - z2_0);
      var temp1 := Wrap32(Mpy48sr(k2, Wrap32(2 * z1_1)) - z2_1);
      z2_0, z2_1 := z1_0, z1_1;
      z1_0, z1_1 := temp0, temp1;
      temp0 := Wrap32(temp0 + temp1);
      if subject != 0 {
        temp0 := temp0 / 2;
      }
      y[ii] := Wrap16(temp0);
      ii := ii + 1;
      assert y[..ii] == y[..ii - 1] + [y[ii - 1]];
    }
  }

  class DtmfGenerator {
    const countDurationPushButton: nat
    const countDurationPause: nat
    const sizeOfFrame: nat
    const pushDialButtons: array<char>
    var tempCountDurationPushButton: nat
    var tempCountDurationPause: nat
    var readyFlag: bool
    var countLengthDialButtonsArray: nat
    var count: nat
    var tempCoeff1: int
    var tempCoeff2: int
    var y1_1: int
    var y1_2: int
    var y2_1: int
    var y2_2: int

    /** The fields as one value. */
    ghost function State(): Gen
      reads this, pushDialButtons
    {
      Gen(countDurationPushButton, countDurationPause, sizeOfFrame,
          tempCountDurationPushButton, tempCountDurationPause, readyFlag,
          pushDialButtons[..], countLengthDialButtonsArray, count,
          Tone(tempCoeff1, tempCoeff2, Osc(y1_1, y2_1), Osc(y1_2, y2_2)))
    }

    ghost predicate Valid()
      reads this, pushDialButtons
    {
      State().Valid()
    }

    /** Durations are in milliseconds. */
    constructor (frameSize: nat, durationPush: nat, durationPause: nat)
      requires 0 < frameSize <= 0xFFFF
      ensures Valid() && fresh(pushDialButtons)
      ensures var g := State();
              && g.ready && g.size == frameSize
              && g.push == FrameCount(frameSize, durationPush) && g.pause == FrameCount(frameSize, durationPause)
    {
      countDurationPushButton := FrameCount(frameSize, durationPush);
      countDurationPause := FrameCount(frameSize, durationPause);
      sizeOfFrame := frameSize;
      readyFlag := true;
      countLengthDialButtonsArray := 0;
      pushDialButtons := new char[MAX_BUTTONS];
      new;
    }

    function GetReadyFlag(): (ready: bool)
      reads this, pushDialButtons
      ensures ready == State().ready
    {
      readyFlag
    }

    /** Stops the current transmission. */
    method DtmfGeneratorReset()
      requires Valid()
      modifies this
      ensures Valid() && State() == Reset(old(State()))
    {
      countLengthDialButtonsArray := 0;
      count := 0;
      readyFlag := true;
    }

    /** Starts a transmission; of a longer array only the first twenty keys are read. */
    method TransmitNewDialButtonsArray(dialButtonsArray: array<char>, length: nat) returns (accepted: bool)
      requires Valid() && dialButtonsArray != pushDialButtons
      requires length <= dialButtonsArray.Length || MAX_BUTTONS <= dialButtonsArray.Length
      modifies this, pushDialButtons
      ensures var keys := dialButtonsArray[..if length > MAX_BUTTONS then MAX_BUTTONS else length];
              Valid() && (State(), accepted) == Transmit(old(State()), keys)
    {
      if !GetReadyFlag() {
        return false;
      }
      if length == 0 {
        countLengthDialButtonsArray := 0;
        count := 0;
        readyFlag := true;
        return true;
      }
      countLengthDialButtonsArray := length;
      if length > MAX_BUTTONS {
        countLengthDialButtonsArray := MAX_BUTTONS;
      }
      CopyButtons(dialButtonsArray, countLengthDialButtonsArray);
      tempCountDurationPushButton := countDurationPushButton;
      tempCountDurationPause := countDurationPause;
      count := 0;
      readyFlag := false;
      ghost var n := countLengthDialButtonsArray;
      assert dialButtonsArray[..n][..n] == dialButtonsArray[..n];
      return true;
    }

    method CopyButtons(dialButtonsArray: array<char>, n: nat)
      requires n <= pushDialButtons.Length && n <= dialButtonsArray.Length && dialButtonsArray != pushDialButtons
      modifies pushDialButtons
      ensures pushDialButtons[..] == dialButtonsArray[..n] + old(pushDialButtons[n..])
    {
      var ii := 0;
      while ii < n
        invariant 0 <= ii <= n
        invariant forall j | 0 <= j < ii :: pushDialButtons[j] == dialButtonsArray[j]
        invariant forall j | ii <= j < pushDialButtons.Length :: pushDialButtons[j] == old(pushDialButtons[j])
      {
        pushDialButtons[ii] := dialButtonsArray[ii];
        ii := ii + 1;
      }
    }

    /** Fills one frame: nothing is written once the transmission is over. */
    method DtmfGenerating(y: array<int>)
      requires Valid() && y.Length == sizeOfFrame
      modifies this, y
      ensures Valid() && State() == Call(old(State())).0
      ensures y[..] == Written(old(y[..]), Call(old(State())).1)
    {
      hide Samples, Advance, ToneOf, Zeros, Schedule, Loaded;
      if readyFlag {
        return;
      }
      ghost var start := State();
      ScheduleValid(start);
      while countLengthDialButtonsArray > 0
        invariant Valid() && !readyFlag
        invariant Schedule(State()) == Schedule(start)
        invariant y[..] == old(y[..])
        decreases countLengthDialButtonsArray
      {
        ghost var before := State();
        if countDurationPushButton == tempCountDurationPushButton {
          LoadTone(pushDialButtons[count]);
        }
        LoadedIs(before);
        if tempCountDurationPushButton > 0 {
          ScheduleTone(before);
          ToneFrame(y);
          return;
        }
        if tempCountDurationPause > 0 {
          SchedulePause(before);
          tempCountDurationPause := tempCountDurationPause - 1;
          Silence(y);
          return;
        }
        ScheduleNext(before);
        tempCountDurationPushButton := countDurationPushButton;
        tempCountDurationPause := countDurationPause;
        count := count + 1;
        countLengthDialButtonsArray := countLengthDialButtonsArray - 1;
      }
      ScheduleEnd(State());
      readyFlag := true;
    }

    /** Emits one frame of the current tone. */
    method ToneFrame(y: array<int>)
      requires y.Length == sizeOfFrame <= 0xFFFF && tempCountDurationPushButton > 0
      modifies this, y
      ensures var g := old(State());
              && State() == g.(tempPush := g.tempPush - 1, tone := Advance(g.tone, g.size))
              && y[..] == Samples(g.tone, g.size)
    {
      hide Samples, Advance;
      tempCountDurationPushButton := tempCountDurationPushButton - 1;
      y1_1, y1_2, y2_1, y2_2 := FrequencyOscillator(tempCoeff1, tempCoeff2, y, sizeOfFrame, y1_1, y1_2, y2_1, y2_2);
      assert y[..] == y[..sizeOfFrame];
    }

    /** The switch over the current key. */
    method LoadTone(key: char)
      modifies this`tempCoeff1, this`tempCoeff2, this`y1_1, this`y1_2, this`y2_1, this`y2_2
      ensures State() == old(State()).(tone := ToneOf(key))
    {
      match key
      case '1' => LoadPair(0, 0); case '2' => LoadPair(0, 1); case '3' => LoadPair(0, 2); case 'A' => LoadPair(0, 3);
      case '4' => LoadPair(1, 0); case '5' => LoadPair(1, 1); case '6' => LoadPair(1, 2); case 'B' => LoadPair(1, 3);
      case '7' => LoadPair(2, 0); case '8' => LoadPair(2, 1); case '9' => LoadPair(2, 2); case 'C' => LoadPair(2, 3);
      case '*' => LoadPair(3, 0); case '0' => LoadPair(3, 1); case '#' => LoadPair(3, 2); case 'D' => LoadPair(3, 3);
      case _ =>
        tempCoeff1, tempCoeff2 := 0, 0;
        y1_1, y2_1, y1_2, y2_2 := 0, 0, 0, 0;
    }

    method LoadPair(row: nat, column: nat)
      requires row < 4 && column < 4
      modifies this`tempCoeff1, this`tempCoeff2, this`y1_1, this`y1_2, this`y2_1, this`y2_2
      ensures State() == old(State()).(tone := ToneAt(row, column))
    {
      tempCoeff1, tempCoeff2 := COEFFICIENTS[row], COEFFICIENTS[4 + column];
      y1_1, y2_1 := COEFFICIENTS[row], START_LEVEL;
      y1_2, y2_2 := COEFFICIENTS[4 + column], START_LEVEL;
    }

    method Silence(y: array<int>)
      requires y.Length == sizeOfFrame
      modifies y
      ensures y[..] == Zeros(sizeOfFrame)
    {
      var ii := 0;
      while ii < sizeOfFrame
        invariant 0 <= ii <= sizeOfFrame
        invariant forall j | 0 <= j < ii :: y[j] == 0
      {
        y[ii] := 0;
        ii := ii + 1;
      }
    }
  }

  lemma LoadedIs(g: Gen)
    ensures Loaded(g) == if g.push == g.tempPush then g.(tone := ToneOf(Key(g))) else g
  {
  }

  /** The drive loop of the generator's documentation, with the external event that breaks
      off a transmission after a call. It terminates; it makes calls until the first such
      event or the end of the transmission; and the frames it collects are the beginning
      of the transmission, or all of it. */
  method Drive(g: DtmfGenerator, keys: array<char>, breaks: nat -> bool) returns (output: seq<int>, calls: nat)
    requires g.Valid() && g.readyFlag && 0 < keys.Length && keys != g.pushDialButtons
    modifies g, g.pushDialButtons
    ensures g.Valid() && g.readyFlag
    ensures var idle := old(g.State());
            var total := |Clamped(keys[..])| * (idle.push + idle.pause);
            && 0 < calls <= total + 1
            && (forall i | 0 <= i < calls - 1 :: !breaks(i))
            && (calls == total + 1 || breaks(calls - 1))
            && IsStart(output, Transmission(idle.push, idle.pause, idle.size, Clamped(keys[..])), calls, total, idle.size)
  {
    hide Call, Calls, CallsLeft, Emitted, Written, Transmit, Transmission, Clamped;
    ghost var idle := g.State();
    KeysRead(idle, keys[..]);
    assert keys[..keys.Length] == keys[..];
    var accepted := g.TransmitNewDialButtonsArray(keys, keys.Length);
    ghost var start := g.State();
    assert start == Transmit(idle, keys[..]).0;
    assert !start.ready by { Accepted(idle, keys[..]); }
    CallsFirst(start);
    var y := new int[g.sizeOfFrame];
    output, calls := [], 0;
    while !g.GetReadyFlag()
      invariant fresh(y) && y.Length == g.sizeOfFrame && g.Valid()
      invariant calls <= CallsLeft(start) && output == Calls(start, calls).1
      invariant !g.readyFlag ==> Calls(start, calls).0 == g.State() && calls + CallsLeft(g.State()) == CallsLeft(start)
      invariant forall i | 0 <= i < (if g.readyFlag then calls - 1 else calls) :: !breaks(i)
      invariant g.readyFlag ==> 0 < calls && (calls == CallsLeft(start) || breaks(calls - 1))
      decreases CallsLeft(g.State())
    {
      ghost var s := g.State();
      assert s.Valid() && !s.ready;
      OneCall(start, calls, s, output);
      ReadyWhenDone(s);
      g.DtmfGenerating(y);
      if !g.GetReadyFlag() {
        output := output + y[..];
      }
      ReadyWhenDone(g.State());
      if breaks(calls) {
        g.DtmfGeneratorReset();
        ReadyWhenDone(g.State());
      }
      calls := calls + 1;
    }
    OutputIsStart(idle, keys[..], calls);
  }

  /** Transmitting reads no key beyond the twentieth. */
  lemma KeysRead(g: Gen, keys: seq<char>)
    requires g.Valid()
    ensures Transmit(g, keys[..if |keys| > MAX_BUTTONS then MAX_BUTTONS else |keys|]) == Transmit(g, keys)
  {
    if |keys| > MAX_BUTTONS {
      assert keys[..MAX_BUTTONS][..MAX_BUTTONS] == keys[..MAX_BUTTONS];
    } else {
      assert keys[..|keys|] == keys;
    }
  }

  /** The frames of the given number of calls, where the call after total emits none. */
  ghost predicate IsStart(output: seq<int>, whole: seq<int>, calls: nat, total: nat, size: nat) {
    output <= whole && |output| == Times(if calls <= total then calls else total, size)
    && (calls > total ==> output == whole)
  }

  lemma OutputIsStart(idle: Gen, keys: seq<char>, k: nat)
    requires idle.Valid() && idle.ready && keys != []
    requires k <= CallsLeft(Transmit(idle, keys).0)
    ensures var start, total := Transmit(idle, keys).0, |Clamped(keys)| * (idle.push + idle.pause);
            && CallsLeft(start) == total + 1
            && IsStart(Calls(start, k).1, Transmission(idle.push, idle.pause, idle.size, Clamped(keys)), k, total, idle.size)
  {
    hide Call, Calls, Transmission, Transmit, Sound, Final, Ending, FramesLeft, CallsLeft, Clamped;
    var start := Transmit(idle, keys).0;
    WholeTransmission(idle, keys);
    Accepted(idle, keys);
    WholeOutput(idle, keys);
    OutputLength(start, k);
    OutputBegins(start, k);
  }

  /** One turn of the drive loop. */
  lemma OneCall(start: Gen, k: nat, s: Gen, output: seq<int>)
    requires s.Valid() && !s.ready && Calls(start, k) == (s, output)
    ensures CallsLeft(Call(s).0) == CallsLeft(s) - 1
    ensures Calls(start, k + 1) ==
            (Call(s).0, if Call(s).0.ready then output else output + Written([], Call(s).1))
    ensures !Call(s).0.ready ==> forall before :: Written(before, Call(s).1) == Written([], Call(s).1)
  {
    CallCountsDown(s);
    NothingWhenDone(s);
    CallsNext(start, k);
    assert output + [] == output;
    hide Call, Calls, CallsLeft;
  }

  /** Everything emitted by all calls after a transmission was accepted. */
  lemma WholeOutput(idle: Gen, keys: seq<char>)
    requires idle.Valid() && idle.ready && keys != []
    ensures var start := Transmit(idle, keys).0;
            Calls(start, CallsLeft(start)).1 == Transmission(idle.push, idle.pause, idle.size, Clamped(keys))
  {
    hide Call, Calls, Transmission, Sound, Final, Ending, FramesLeft, CallsLeft, Clamped, Transmit;
    WholeTransmission(idle, keys);
    Accepted(idle, keys);
    SoundAtEnd(Transmit(idle, keys).0);
  }
}
