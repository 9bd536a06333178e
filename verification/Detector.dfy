/** The detector object: buffers frames, analyses windows in place, logs keys. */
module Detector {
  import opened FixedPoint
  import opened Goertzel
  import opened Normalisation
  import opened Decision
  import opened Detection
  import Resonator
  import Debounce

  /** The loop of goertzel_filter: two resonators side by side over one window. */
  method GoertzelFilter(k0: int, k1: int, samples: array<int>, count: nat) returns (magnitude0: int, magnitude1: int)
    requires count <= samples.Length
    ensures magnitude0 == Power(k0, samples[..count])
    ensures magnitude1 == Power(k1, samples[..count])
  {
    hide Mpy48sr, Wrap32, Wrap16;
    var vk1_0, vk2_0, vk1_1, vk2_1 := 0, 0, 0, 0;
    var ii := 0;
    while ii < count
      invariant 0 <= ii <= count
      invariant Resonator.Osc(vk1_0, vk2_0) == Filter(k0, samples[..ii])
      invariant Resonator.Osc(vk1_1, vk2_1) == Filter(k1, samples[..ii])
    {
      var temp0 := Wrap32(Wrap32(Mpy48sr(k0, Wrap32(2 * vk1_0)) - vk2_0) + samples[ii]);
      var temp1 := Wrap32(Wrap32(Mpy48sr(k1, Wrap32(2 * vk1_1)) - vk2_1) + samples[ii]);
      assert samples[..ii + 1][..ii] == samples[..ii];
      vk2_0, vk2_1 := vk1_0, vk1_1;
      vk1_0, vk1_1 := temp0, temp1;
      ii := ii + 1;
    }
    vk1_0, vk1_1, vk2_0, vk2_1 := vk1_0 / 0x400, vk1_1 / 0x400, vk2_0 / 0x400, vk2_1 / 0x400;
    var temp0 := Wrap16(Mpy48sr(k0, Wrap32(2 * vk1_0))) * Wrap16(vk2_0);
    var temp1 := Wrap16(Mpy48sr(k1, Wrap32(2 * vk1_1))) * Wrap16(vk2_1);
    magnitude0 := Wrap32(Wrap32(Wrap16(vk1_0) * Wrap16(vk1_0) + Wrap16(vk2_0) * Wrap16(vk2_0)) - temp0);
    magnitude1 := Wrap32(Wrap32(Wrap16(vk1_1) * Wrap16(vk1_1) + Wrap16(vk2_1) * Wrap16(vk2_1)) - temp1);
  }

  lemma RunningSum(a: int, b: int)
    ensures Wrap32(Wrap32(a) + b) == Wrap32(a + b)
  {
    ShiftedWrap(a + b, -((a + 0x8000_0000) / 0x1_0000_0000));
  }

  class DtmfDetector {
    const frameSize: nat
    const samples: nat
    const pArraySamples: array<int>
    const internalArray: array<int>
    const tones: array<int>
    const dialButtons: array<char>
    var frameCount: nat
    var prevDialButton: char
    var permissionFlag: bool
    var indexForDialButtons: nat

    ghost predicate Shape()
      reads this
    {
      && 0 < frameSize && 0 < samples <= 0xFFFF
      && pArraySamples.Length == frameSize + samples
      && internalArray.Length == samples
      && tones.Length == TONES
      && dialButtons.Length == Debounce.NUMBER_OF_BUTTONS
      && pArraySamples != internalArray && pArraySamples != tones && internalArray != tones
      && indexForDialButtons < Debounce.CAPACITY
    }

    ghost predicate Valid()
      reads this, pArraySamples
    {
      Shape() && frameCount < samples && IsWindow(pArraySamples[..frameCount])
    }

    /** The debouncer's part of the state. */
    ghost function Log(): (s: Debounce.State)
      requires Shape()
      reads this, dialButtons
      ensures s.Valid()
    {
      Debounce.State(prevDialButton, permissionFlag, indexForDialButtons, dialButtons[..])
    }

    /** The whole abstract state: nothing else of the object matters to later calls. */
    ghost function Contents(): (s: Stream)
      requires Valid()
      reads this, pArraySamples, dialButtons
    {
      Stream(pArraySamples[..frameCount], Log())
    }

    constructor (frameSize: nat, samples: nat)
      requires 0 < frameSize && 0 < samples <= 0xFFFF
      ensures Valid() && this.frameSize == frameSize && this.samples == samples
      ensures Contents().pending == []
      ensures Log().previous == NO_KEY && !Log().permission && Log().index == 0
      ensures dialButtons[0] == Debounce.TERMINATOR
      ensures fresh(pArraySamples) && fresh(internalArray) && fresh(tones) && fresh(dialButtons)
    {
      this.frameSize, this.samples := frameSize, samples;
      pArraySamples := new int[frameSize + samples];
      internalArray := new int[samples];
      tones := new int[TONES];
      dialButtons := new char[Debounce.NUMBER_OF_BUTTONS];
      frameCount := 0;
      prevDialButton := NO_KEY;
      permissionFlag := false;
      indexForDialButtons := 0;
      new;
      dialButtons[0] := Debounce.TERMINATOR;
    }

    /** The number of keys in the log. */
    function GetIndexDialButtons(): (n: nat)
      requires Shape()
      reads this, dialButtons
      ensures n == Log().index
    {
      indexForDialButtons
    }

    /** Empties the log without touching what is being debounced. */
    method ZerosIndexDialButton()
      requires Valid()
      modifies this`indexForDialButtons
      ensures Valid()
      ensures Contents() == old(Contents()).(log := old(Log()).(index := 0))
    {
      indexForDialButtons := 0;
    }

    /** Accepts one frame: buffers it, analyses every complete window, and keeps the
        remainder at the front of the buffer. */
    method DtmfDetecting(input: array<int>)
      requires Valid() && input.Length == frameSize && IsWindow(input[..])
      requires input != pArraySamples && input != internalArray && input != tones
      modifies this`frameCount, this`prevDialButton, this`permissionFlag, this`indexForDialButtons
      modifies pArraySamples, internalArray, tones, dialButtons
      ensures Valid()
      ensures Contents() == Feed(samples, old(Contents()), old(input[..]))
    {
      hide Detect, Debounce.Observe, IsWindow, Process;
      JoinedWindow(pArraySamples[..frameCount], input[..]);
      Append(input);
      frameCount := frameCount + frameSize;
      var tempIndex := AnalyseWindows();
      MoveDown(tempIndex);
    }

    /** Analyses every complete window in the buffer and leaves the buffer as it is; the
        samples from tempIndex on remain. */
    method AnalyseWindows() returns (tempIndex: nat)
      requires Shape() && frameCount <= pArraySamples.Length && IsWindow(pArraySamples[..frameCount])
      modifies this`frameCount, this`prevDialButton, this`permissionFlag, this`indexForDialButtons
      modifies internalArray, tones, dialButtons
      ensures Shape() && frameCount < samples && tempIndex + frameCount <= pArraySamples.Length
      ensures IsWindow(pArraySamples[tempIndex..tempIndex + frameCount])
      ensures Stream(pArraySamples[tempIndex..tempIndex + frameCount], Log()) ==
              Process(samples, old(Log()), old(pArraySamples[..frameCount]))
    {
      hide Detect, Debounce.Observe, IsWindow;
      ghost var log, buffer, end := Log(), pArraySamples[..], frameCount;
      ghost var stream := buffer[..end];
      tempIndex := 0;
      while frameCount >= samples
        invariant Shape() && pArraySamples[..] == buffer
        invariant tempIndex + frameCount == end <= |buffer| && IsWindow(buffer[tempIndex..end])
        invariant Process(samples, Log(), buffer[tempIndex..end]) == Process(samples, log, stream)
        decreases frameCount
      {
        ProcessSlice(samples, Log(), buffer, tempIndex, end);
        var key := DtmfDetection(tempIndex);
        ObserveKey(key);
        tempIndex := tempIndex + samples;
        frameCount := frameCount - samples;
      }
    }

    /** Copies the frame behind the samples already buffered. */
    method Append(input: array<int>)
      requires Shape() && frameCount < samples && input.Length == frameSize && input != pArraySamples
      modifies pArraySamples
      ensures pArraySamples[..frameCount + frameSize] == old(pArraySamples[..frameCount]) + input[..]
    {
      var ii := 0;
      while ii < frameSize
        invariant 0 <= ii <= frameSize
        invariant pArraySamples[..frameCount] == old(pArraySamples[..frameCount])
        invariant forall j | 0 <= j < ii :: pArraySamples[frameCount + j] == input[j]
      {
        pArraySamples[ii + frameCount] := input[ii];
        ii := ii + 1;
      }
    }

    /** Moves the unanalysed samples to the front of the buffer. */
    method MoveDown(tempIndex: nat)
      requires Shape() && tempIndex + frameCount <= pArraySamples.Length
      modifies pArraySamples
      ensures pArraySamples[..frameCount] == old(pArraySamples[tempIndex..tempIndex + frameCount])
    {
      var ii := 0;
      while ii < frameCount
        invariant 0 <= ii <= frameCount
        invariant forall j | 0 <= j < ii :: pArraySamples[j] == old(pArraySamples[j + tempIndex])
        invariant forall j | ii <= j < pArraySamples.Length :: pArraySamples[j] == old(pArraySamples[j])
      {
        pArraySamples[ii] := pArraySamples[ii + tempIndex];
        ii := ii + 1;
      }
    }

    /** Debounces one window's result. */
    method ObserveKey(key: char)
      requires Shape()
      modifies this`prevDialButton, this`permissionFlag, this`indexForDialButtons, dialButtons
      ensures Shape() && Log() == Debounce.Observe(old(Log()), key)
    {
      if permissionFlag {
        if key != NO_KEY {
          dialButtons[indexForDialButtons] := key;
          indexForDialButtons := indexForDialButtons + 1;
          dialButtons[indexForDialButtons] := Debounce.TERMINATOR;
          if indexForDialButtons >= Debounce.CAPACITY {
            indexForDialButtons := 0;
          }
        }
        permissionFlag := false;
      }
      if key != NO_KEY && prevDialButton == NO_KEY {
        permissionFlag := true;
      }
      prevDialButton := key;
    }

    /** Finds the key of the window that starts at the given offset. Whatever the
        scratch arrays held before has no influence. */
    method DtmfDetection(offset: nat) returns (key: char)
      requires Shape() && offset + samples <= pArraySamples.Length
      requires IsWindow(pArraySamples[offset..offset + samples])
      modifies internalArray, tones
      ensures key == Detect(pArraySamples[offset..offset + samples])
    {
      ghost var w := pArraySamples[offset..offset + samples];
      var sum := SumOfMagnitudes(offset);
      if sum / samples < POWER_THRESHOLD {
        return NO_KEY;
      }
      var dial := CommonShift(offset);
      ShiftWindow(offset, dial);
      assert internalArray[..samples] == Normalised(w);
      FilterBank();
      key := DecideKey();
    }

    method SumOfMagnitudes(offset: nat) returns (sum: nat)
      requires Shape() && offset + samples <= pArraySamples.Length
      requires IsWindow(pArraySamples[offset..offset + samples])
      ensures sum == AbsSum(pArraySamples[offset..offset + samples])
    {
      ghost var w := pArraySamples[offset..offset + samples];
      sum := 0;
      var ii := 0;
      while ii < samples
        invariant 0 <= ii <= samples
        invariant sum == AbsSum(w[..ii]) <= 0x8000 * ii
      {
        var x := pArraySamples[offset + ii];
        assert w[ii] == x;
        assert w[..ii + 1][..ii] == w[..ii];
        if x >= 0 {
          sum := sum + x;
        } else {
          sum := sum - x;
        }
        ii := ii + 1;
      }
      assert w[..samples] == w;
    }

    method CommonShift(offset: nat) returns (dial: nat)
      requires Shape() && offset + samples <= pArraySamples.Length
      requires IsWindow(pArraySamples[offset..offset + samples])
      modifies tones
      ensures dial == Shift(pArraySamples[offset..offset + samples])
    {
      ghost var w := pArraySamples[offset..offset + samples];
      var least := 32;
      var ii := 0;
      while ii < samples
        invariant 0 <= ii <= samples
        invariant least == LeastNorm(w[..ii])
      {
        tones[0] := pArraySamples[offset + ii];
        assert w[ii] == tones[0];
        assert w[..ii + 1][..ii] == w[..ii];
        if tones[0] != 0 {
          var n := NormL(tones[0]);
          if least > n {
            least := n;
          }
        }
        ii := ii + 1;
      }
      assert w[..samples] == w;
      assert Shift(w) == LeastNorm(w) - 16;
      dial := least - 16;
    }

    method ShiftWindow(offset: nat, dial: nat)
      requires Shape() && offset + samples <= pArraySamples.Length
      requires IsWindow(pArraySamples[offset..offset + samples])
      requires dial == Shift(pArraySamples[offset..offset + samples])
      modifies internalArray, tones
      ensures internalArray[..samples] == Normalised(pArraySamples[offset..offset + samples])
    {
      var ii := 0;
      while ii < samples
        invariant 0 <= ii <= samples
        invariant forall j | 0 <= j < ii :: internalArray[j] == Shifted(pArraySamples[offset + j], dial)
      {
        tones[0] := pArraySamples[offset + ii];
        internalArray[ii] := Wrap16(Wrap32(tones[0] * Pow2(dial)));
        ii := ii + 1;
      }
    }

    /** Runs the nine pairs of filters. */
    method FilterBank()
      requires Shape()
      modifies tones
      ensures tones[..] == Powers(internalArray[..samples])
    {
      hide Power, CONSTANTS;
      FilterPair(0);
      FilterPair(2);
      FilterPair(4);
      FilterPair(6);
      FilterPair(8);
      FilterPair(10);
      FilterPair(12);
      FilterPair(14);
      FilterPair(16);
    }

    /** Runs two filters over the normalised window. */
    method FilterPair(i: nat)
      requires Shape() && i + 1 < TONES
      modifies tones
      ensures tones[i] == Power(CONSTANTS[i], internalArray[..samples])
      ensures tones[i + 1] == Power(CONSTANTS[i + 1], internalArray[..samples])
      ensures forall j | 0 <= j < TONES && j != i && j != i + 1 :: tones[j] == old(tones[j])
    {
      hide Power;
      var m0, m1 := GoertzelFilter(CONSTANTS[i], CONSTANTS[i + 1], internalArray, samples);
      tones[i], tones[i + 1] := m0, m1;
    }

    /** Scans a group of powers for its first largest positive one. */
    method ScanLoudest(lo: nat, hi: nat, default: nat) returns (index: nat)
      requires Shape() && lo <= hi <= TONES
      ensures index == Loudest(tones[..], lo, hi, default).0
    {
      index := default;
      var temp := 0;
      var ii := lo;
      while ii < hi
        invariant lo <= ii <= hi
        invariant (index, temp) == Loudest(tones[..], lo, ii, default)
      {
        if temp < tones[ii] {
          index := ii;
          temp := tones[ii];
        }
        ii := ii + 1;
      }
    }

    /** The tests on the powers, in the code's order. */
    method DecideKey() returns (key: char)
      requires Shape()
      modifies tones
      ensures key == Decide(old(tones[..]))
    {
      ghost var t := tones[..];
      hide DivTrunc, Loudest, Average, KeyAt, BeatsOthers, BeatsDials;
      LoudestInRange(t, 0, 4, 0);
      LoudestInRange(t, 4, 8, 4);
      var row := ScanLoudest(0, 4, 0);
      var column := ScanLoudest(4, 8, 4);
      var sum := AverageOfRest(row, column);
      if DivTrunc(tones[row], sum) < TO_DIAL_TONES {
        return NO_KEY;
      }
      if DivTrunc(tones[column], sum) < TO_DIAL_TONES {
        return NO_KEY;
      }
      if tones[row] < tones[column] / 4 {
        return NO_KEY;
      }
      if tones[column] < tones[row] / 2 - tones[row] / 8 {
        return NO_KEY;
      }
      assert StandOut(t, row, column);
      LiftZeros();
      var passed := PassesOthers(row, column);
      if !passed {
        return NO_KEY;
      }
      passed := PassesDial(row, column);
      if !passed {
        return NO_KEY;
      }
      key := KeyAt(row, column);
    }

    /** Both winners against the out-of-band tones. */
    method PassesOthers(row: nat, column: nat) returns (passed: bool)
      requires Shape() && row < TONES && column < TONES
      requires forall i | 0 <= i < TONES :: tones[i] != 0
      ensures passed <==> BeatsOthers(tones[..], row, column)
    {
      hide DivTrunc;
      ghost var u := tones[..];
      var ii := 10;
      while ii < TONES
        invariant 10 <= ii <= TONES
        invariant forall i | 10 <= i < ii :: BeatsOther(u, row, column, i)
      {
        if DivTrunc(tones[row], tones[ii]) < TO_OTHER_TONES {
          assert !BeatsOther(u, row, column, ii);
          return false;
        }
        if DivTrunc(tones[column], tones[ii]) < TO_OTHER_TONES {
          assert !BeatsOther(u, row, column, ii);
          return false;
        }
        ii := ii + 1;
      }
      passed := true;
    }

    /** Both winners against the other in-band tones. */
    method PassesDial(row: nat, column: nat) returns (passed: bool)
      requires Shape() && row < TONES && column < TONES
      requires forall i | 0 <= i < TONES :: tones[i] != 0
      ensures passed <==> BeatsDials(tones[..], row, column)
    {
      hide DivTrunc;
      ghost var u := tones[..];
      var ii := 0;
      while ii < 10
        invariant 0 <= ii <= 10
        invariant forall i | 0 <= i < ii :: BeatsDial(u, row, column, i)
      {
        if tones[ii] != tones[column] {
          if tones[ii] != tones[row] {
            if DivTrunc(tones[row], tones[ii]) < TO_DIAL_TONES {
              assert !BeatsDial(u, row, column, ii);
              return false;
            }
            if column != 4 {
              if DivTrunc(tones[column], tones[ii]) < TO_DIAL_TONES {
                assert !BeatsDial(u, row, column, ii);
                return false;
              }
            } else {
              if DivTrunc(tones[column], tones[ii]) < TO_DIAL_TONES / 3 {
                assert !BeatsDial(u, row, column, ii);
                return false;
              }
            }
          }
        }
        ii := ii + 1;
      }
      passed := true;
    }

    method AverageOfRest(row: nat, column: nat) returns (sum: int)
      requires Shape() && row < TONES && column < TONES
      ensures sum == Average(tones[..], row, column)
    {
      ghost var t := tones[..];
      sum := 0;
      var ii := 0;
      while ii < 10
        invariant 0 <= ii <= 10
        invariant sum == Wrap32(SumTo(t, ii))
      {
        RunningSum(SumTo(t, ii), tones[ii]);
        sum := Wrap32(sum + tones[ii]);
        ii := ii + 1;
      }
      RunningSum(SumTo(t, 10), -tones[row]);
      sum := Wrap32(sum - tones[row]);
      RunningSum(SumTo(t, 10) - tones[row], -tones[column]);
      sum := Wrap32(sum - tones[column]);
      sum := sum / 8;
      if sum == 0 {
        sum := 1;
      }
    }

    method LiftZeros()
      requires Shape()
      modifies tones
      ensures tones[..] == Lifted(old(tones[..]))
    {
      var ii := 0;
      while ii < TONES
        invariant 0 <= ii <= TONES
        invariant forall i | 0 <= i < ii :: tones[i] == Lifted(old(tones[..]))[i]
        invariant forall i | ii <= i < TONES :: tones[i] == old(tones[i])
      {
        if tones[ii] == 0 {
          tones[ii] := 1;
        }
        ii := ii + 1;
      }
    }
  }
}
