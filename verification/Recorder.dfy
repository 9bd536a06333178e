/** The recorder object: an array of file objects that are written, closed and
    replaced in place. */
module Recorder {
  import opened FixedPoint
  import opened WavFile
  import opened Recording

  class RecorderObject {
    const wavs: array<WavObject>
    var uid: int
    var params: Params
    var sizeBased: bool
    var maxFileSize: nat
    ghost var rec: Rec  // the same as a value, with the files replaced so far

    ghost predicate Valid()
      reads this, wavs, wavs[..]
    {
      && |rec.slots| == wavs.Length
      && (forall i | 0 <= i < wavs.Length :: wavs[i].State() == rec.slots[i] && wavs[i].Valid())
      && (forall i, j | 0 <= i < j < wavs.Length :: wavs[i] != wavs[j])
      && rec.uid == uid && rec.params == params && rec.sizeBased == sizeBased && rec.maxFileSize == maxFileSize
    }

    /** Creates the slots' file objects, named by slot and serial number and set up, but
        not yet opened. */
    constructor (params: Params, channels: nat, sizeBased: bool, maxFileSize: nat)
      ensures Valid() && wavs.Length == channels && fresh(wavs)
      ensures forall i | 0 <= i < wavs.Length :: fresh(wavs[i])
      ensures rec == Initial(params, channels, sizeBased, maxFileSize)
    {
      var files := MakeFiles(params, channels);
      wavs := files;
      uid := channels;
      this.params, this.sizeBased, this.maxFileSize := params, sizeBased, maxFileSize;
      rec := Initial(params, channels, sizeBased, maxFileSize);
    }

    static method MakeFiles(params: Params, channels: nat) returns (wavs: array<WavObject>)
      ensures fresh(wavs) && wavs.Length == channels
      ensures forall i | 0 <= i < channels ::
                fresh(wavs[i]) && wavs[i].Valid() && wavs[i].State() == InitialSlots(params, channels)[i]
      ensures forall i, j | 0 <= i < j < channels :: wavs[i] != wavs[j]
    {
      var files: seq<WavObject> := [];
      var uid := 0;
      var i := 0;
      while i < channels
        invariant i == |files| == uid <= channels
        invariant forall j | 0 <= j < i ::
                    fresh(files[j]) && files[j].Valid() && files[j].State() == InitialSlots(params, channels)[j]
        invariant forall j, k | 0 <= j < k < i :: files[j] != files[k]
      {
        uid := uid + 1;
        var wav := new WavObject(Name(i, uid));
        wav.SetupWave(params);
        files := files + [wav];
        i := i + 1;
      }
      wavs := new WavObject[channels](j requires 0 <= j < channels => files[j]);
    }

    /** Creates, sets up and opens the file with the current serial number. */
    method NewFile(slot: nat, ok: bool) returns (wav: WavObject)
      ensures fresh(wav) && wav.Valid()
      ensures wav.State() == Open(Setup(New(Name(slot, uid)), params), ok)
    {
      hide Open, Setup, New;
      wav := new WavObject(Name(slot, uid));
      wav.SetupWave(params);
      var result := wav.OpenFile(ok);
    }

    /** Closes a slot's file and opens a new one in its place. */
    method ReplaceFile(slot: nat, ok: bool)
      requires Valid() && slot < wavs.Length
      modifies this`uid, this`rec, wavs, wavs[slot]
      ensures Valid() && rec == Replace(old(rec), slot, ok)
      ensures fresh(wavs[slot]) && forall j | 0 <= j < wavs.Length && j != slot :: wavs[j] == old(wavs[j])
    {
      hide Open, Close, Setup, New, UWrap32;
      uid := UWrap32(uid + 1);
      wavs[slot].CloseFile();
      wavs[slot] := NewFile(slot, ok);
      rec := Replace(rec, slot, ok);
    }

    method ReopenWavFile(slot: nat, ok: bool)
      requires Valid() && slot < wavs.Length
      modifies this`uid, this`rec, wavs, wavs[slot]
      ensures Valid()
      ensures rec == if old(rec).slots[slot].isOpened then old(rec) else Replace(old(rec), slot, ok)
      ensures forall j | 0 <= j < wavs.Length :: wavs[j] == old(wavs[j]) || fresh(wavs[j])
    {
      if !wavs[slot].isOpened {
        ReplaceFile(slot, ok);
      }
    }

    /** The timer's swap of all open files. */
    method HotSwapFiles(opens: nat -> bool)
      requires Valid()
      modifies this`uid, this`rec, wavs, wavs[..]
      ensures Valid() && rec == Swap(old(rec), false, opens, wavs.Length)
      ensures forall j | 0 <= j < wavs.Length :: wavs[j] == old(wavs[j]) || fresh(wavs[j])
    {
      hide Replace;
      var i := 0;
      while i < wavs.Length
        invariant 0 <= i <= wavs.Length && Valid() && |old(rec).slots| == wavs.Length
        invariant rec == Swap(old(rec), false, opens, i)
        invariant forall j | 0 <= j < wavs.Length :: wavs[j] == old(wavs[j]) || fresh(wavs[j])
      {
        if wavs[i].isOpened {
          ReplaceFile(i, opens(i));
        }
        i := i + 1;
      }
    }

    /** The swap of files that have outgrown the limit. */
    method PollHotSwap(opens: nat -> bool)
      requires Valid()
      modifies this`uid, this`rec, wavs, wavs[..]
      ensures Valid() && rec == Swap(old(rec), true, opens, wavs.Length)
      ensures forall j | 0 <= j < wavs.Length :: wavs[j] == old(wavs[j]) || fresh(wavs[j])
    {
      hide Replace;
      var i := 0;
      while i < wavs.Length
        invariant 0 <= i <= wavs.Length && Valid() && |old(rec).slots| == wavs.Length
        invariant rec == Swap(old(rec), true, opens, i)
        invariant forall j | 0 <= j < wavs.Length :: wavs[j] == old(wavs[j]) || fresh(wavs[j])
      {
        if wavs[i].isOpened {
          if wavs[i].GetFileSize() > maxFileSize {
            ReplaceFile(i, opens(i));
          }
        }
        i := i + 1;
      }
    }

    /** Records one list of channel frames. */
    method Record(sd: seq<Frame>, swaps: nat -> bool, opens: nat -> bool)
      requires Valid() && |sd| <= wavs.Length
      modifies this`uid, this`rec, wavs, wavs[..]
      ensures Valid() && rec == Step(old(rec), Event.Record(sd, swaps, opens))
      ensures forall j | 0 <= j < wavs.Length :: wavs[j] == old(wavs[j]) || fresh(wavs[j])
    {
      hide Swap, RecordSlot;
      if |sd| <= 0 {
        return;
      }
      if sizeBased {
        PollHotSwap(swaps);
      }
      ghost var start := rec;
      var i := 0;
      while i < |sd|
        invariant 0 <= i <= |sd| && Valid() && |start.slots| == wavs.Length
        invariant rec == RecordSlots(start, sd, opens, i)
        invariant forall j | 0 <= j < wavs.Length :: wavs[j] == old(wavs[j]) || fresh(wavs[j])
      {
        RecordFrame(i, sd[i], opens(i));
        i := i + 1;
      }
    }

    method RecordFrame(i: nat, s: Frame, ok: bool)
      requires Valid() && i < wavs.Length
      modifies this`uid, this`rec, wavs, wavs[i]
      ensures Valid() && rec == RecordSlot(old(rec), i, s, ok)
      ensures forall j | 0 <= j < wavs.Length :: wavs[j] == old(wavs[j]) || fresh(wavs[j])
    {
      hide Close, Write, Replace;
      if s.signal == 0 {
        wavs[i].CloseFile();
        rec := rec.(slots := rec.slots[i := Close(rec.slots[i])]);
      } else {
        if wavs[i].isOpened {
          var size := wavs[i].WriteSamples(s.samples);
          rec := rec.(slots := rec.slots[i := Write(rec.slots[i], s.samples)]);
        } else {
          ReopenWavFile(i, ok);
        }
      }
    }
  }
}
