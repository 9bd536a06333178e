/** The recorder's slots over whole runs: which samples end up in which files. */
module Recording {
  import opened FixedPoint
  import opened Options
  import opened WavFile

  /** One channel's part of a recorded list: the signal byte and the samples. */
  datatype Frame = Frame(signal: int, samples: seq<int>)

  /** Each slot's current file, the replaced files in order, the serial number last
      given out, how many were given out, and the configuration. */
  datatype Rec = Rec(
    slots: seq<Wav>, archive: seq<Wav>, uid: int, total: nat,
    params: Params, sizeBased: bool, maxFileSize: nat)

  /** A list to record, or a tick of the hot-swap timer. For each slot it is given
      whether a file can be created, separately for a swap by size (swaps) and for the
      recording behind it (opens) in the same event. */
  datatype Event =
    | Record(frames: seq<Frame>, swaps: nat -> bool, opens: nat -> bool)
    | Timer(opens: nat -> bool)

  /** Slots initially hold files that are set up but not created. */
  function InitialSlots(params: Params, n: nat): (slots: seq<Wav>)
    ensures |slots| == n
  {
    seq(n, i requires 0 <= i < n => Setup(New(Name(i, i + 1)), params))
  }

  function Initial(params: Params, n: nat, sizeBased: bool, maxFileSize: nat): Rec {
    Rec(InitialSlots(params, n), [], n, n, params, sizeBased, maxFileSize)
  }

  /** Closes a slot's file and puts a new one with the next serial number there. */
  function Replace(r: Rec, i: nat, ok: bool): (r': Rec)
    requires i < |r.slots|
    ensures |r'.slots| == |r.slots|
  {
    var uid := UWrap32(r.uid + 1);
    r.(slots := r.slots[i := Open(Setup(New(Name(i, uid)), r.params), ok)],
       archive := r.archive + [Close(r.slots[i])], uid := uid, total := r.total + 1)
  }

  /** Whether a swap replaces the file of a slot: open files, or only those that
      have grown beyond the limit. */
  predicate Due(r: Rec, onlyLarge: bool, i: nat)
    requires i < |r.slots|
  {
    r.slots[i].isOpened && (onlyLarge ==> r.slots[i].position > r.maxFileSize)
  }

  /** Swaps the files of the first n slots. */
  function Swap(r: Rec, onlyLarge: bool, opens: nat -> bool, n: nat): (r': Rec)
    requires n <= |r.slots|
    ensures |r'.slots| == |r.slots|
  {
    if n == 0 then r
    else
      var q := Swap(r, onlyLarge, opens, n - 1);
      if Due(q, onlyLarge, n - 1) then Replace(q, n - 1, opens(n - 1)) else q
  }

  /** Records one channel's frame: silence closes the file, sound is written to an
      open file, and sound for a closed file only opens a new one. */
  function RecordSlot(r: Rec, i: nat, f: Frame, ok: bool): (r': Rec)
    requires i < |r.slots|
    ensures |r'.slots| == |r.slots|
  {
    if f.signal == 0 then r.(slots := r.slots[i := Close(r.slots[i])])
    else if r.slots[i].isOpened then r.(slots := r.slots[i := Write(r.slots[i], f.samples)])
    else Replace(r, i, ok)
  }

  function RecordSlots(r: Rec, frames: seq<Frame>, opens: nat -> bool, n: nat): (r': Rec)
    requires n <= |frames| <= |r.slots|
    ensures |r'.slots| == |r.slots|
  {
    if n == 0 then r
    else RecordSlot(RecordSlots(r, frames, opens, n - 1), n - 1, frames[n - 1], opens(n - 1))
  }

  predicate Fits(e: Event, n: nat) {
    e.Record? ==> |e.frames| <= n
  }

  function Step(r: Rec, e: Event): (r': Rec)
    requires Fits(e, |r.slots|)
    ensures |r'.slots| == |r.slots|
  {
    match e
    case Timer(opens) => Swap(r, false, opens, |r.slots|)
    case Record(frames, swaps, opens) =>
      if frames == [] then r
      else
        RecordSlots(if r.sizeBased then Swap(r, true, swaps, |r.slots|) else r, frames, opens, |frames|)
  }

  ghost predicate AllFit(events: seq<Event>, n: nat) {
    forall i | 0 <= i < |events| :: Fits(events[i], n)
  }

  ghost function Run(r: Rec, events: seq<Event>): (r': Rec)
    requires AllFit(events, |r.slots|)
    ensures |r'.slots| == |r.slots|
  {
    if events == [] then r
    else
      assert AllFit(events[..|events| - 1], |r.slots|);
      Step(Run(r, events[..|events| - 1]), events[|events| - 1])
  }

  // ---------------------------------------------------------------------------
  // One operation on one slot
  // ---------------------------------------------------------------------------

  /** A file holds what its bytes decode to, with the right header. */
  ghost predicate Sound(w: Wav) {
    Holds(w, Audio(w)) && AreSamples(Audio(w))
  }

  lemma NewFileSound(name: Name, p: Params, ok: bool)
    ensures var w := Open(Setup(New(name), p), ok);
            Sound(w) && Audio(w) == [] && w.isOpened == ok && (ok ==> |w.file| == w.position == HEADER_SIZE)
            && w.name == name && w.params == p
            && (!ok ==> |w.file| == 0)
  {
    var w := Setup(New(name), p);
    OpenHolds(w, ok);
    hide Header;
    HoldsAudio(Open(w, ok), []);
  }

  lemma CloseSound(w: Wav)
    requires Sound(w)
    ensures Sound(Close(w)) && Audio(Close(w)) == Audio(w) && !Close(w).isOpened && |Close(w).file| == |w.file|
    ensures Close(w).name == w.name && Close(w).params == w.params
  {
    CloseHolds(w, Audio(w));
    hide Holds, Header, Audio;
    HoldsAudio(Close(w), Audio(w));
  }

  lemma WriteSound(w: Wav, samples: seq<int>)
    requires Sound(w) && w.isOpened && AreSamples(samples)
    ensures var v := Write(w, samples);
            && Sound(v) && Audio(v) == Audio(w) + samples && v.isOpened
            && v.name == w.name && v.params == w.params
            && |v.file| == |w.file| + 2 * |samples| && v.position == w.position + 2 * |samples|
  {
    WriteHolds(w, Audio(w), samples);
    assert w.position == |w.file|;
    hide Holds, Header, Audio, Encode;
    HoldsAudio(Write(w, samples), Audio(w) + samples);
  }

  // ---------------------------------------------------------------------------
  // What a slot has recorded
  // ---------------------------------------------------------------------------

  /** The samples in the archived files of one slot, in the order of their creation. */
  function ArchiveAudio(archive: seq<Wav>, i: nat): seq<int> {
    if archive == [] then []
    else
      var n := |archive| - 1;
      ArchiveAudio(archive[..n], i) + if archive[n].name.slot == i then Audio(archive[n]) else []
  }

  function SlotAudio(r: Rec, i: nat): seq<int>
    requires i < |r.slots|
  {
    ArchiveAudio(r.archive, i) + Audio(r.slots[i])
  }

  /** All files are sound and configured alike, archived ones are closed, and slots
      hold their own files. */
  ghost predicate Inv(r: Rec) {
    && (forall i | 0 <= i < |r.slots| ::
          Sound(r.slots[i]) && r.slots[i].name.slot == i && r.slots[i].params == r.params)
    && (forall i | 0 <= i < |r.archive| ::
          Sound(r.archive[i]) && !r.archive[i].isOpened && r.archive[i].params == r.params)
  }

  lemma InitialInv(params: Params, n: nat, sizeBased: bool, maxFileSize: nat)
    ensures Inv(Initial(params, n, sizeBased, maxFileSize))
    ensures forall i | 0 <= i < n :: var r := Initial(params, n, sizeBased, maxFileSize);
                                     TrackOf(r, i) == Track(false, 0, [])
  {
    var r := Initial(params, n, sizeBased, maxFileSize);
    forall i | 0 <= i < n ensures Sound(r.slots[i]) && Audio(r.slots[i]) == [] {
      assert !r.slots[i].created;
    }
  }

  lemma ArchiveAppend(archive: seq<Wav>, w: Wav, i: nat)
    ensures ArchiveAudio(archive + [w], i) == ArchiveAudio(archive, i) + if w.name.slot == i then Audio(w) else []
  {
    hide Audio;
    assert (archive + [w])[..|archive|] == archive;
  }

  lemma ReplaceInv(r: Rec, j: nat, ok: bool)
    requires Inv(r) && j < |r.slots|
    ensures Inv(Replace(r, j, ok))
  {
    NewFileSound(Name(j, UWrap32(r.uid + 1)), r.params, ok);
    CloseSound(r.slots[j]);
    NewName(Name(j, UWrap32(r.uid + 1)), r.params, ok);
    hide Sound, Open, Close, Setup, New;
  }

  lemma NewName(name: Name, p: Params, ok: bool)
    ensures Open(Setup(New(name), p), ok).name == name
  {
    hide Header;
  }

  /** What matters about a slot, without looking at its files: whether a file is open,
      how large it is, and all samples recorded so far. */
  datatype Track = Track(open: bool, size: nat, heard: seq<int>)

  function TrackOf(r: Rec, i: nat): Track
    requires i < |r.slots|
  {
    Track(r.slots[i].isOpened, if r.slots[i].isOpened then r.slots[i].position else 0, SlotAudio(r, i))
  }

  /** The slot with a new file, if that can be created. */
  function Reopened(t: Track, ok: bool): Track {
    Track(ok, if ok then HEADER_SIZE else 0, t.heard)
  }

  /** Replacing a file loses no samples of any slot. */
  lemma ReplaceKeeps(r: Rec, j: nat, ok: bool, i: nat)
    requires Inv(r) && j < |r.slots| && i < |r.slots|
    ensures var r' := Replace(r, j, ok);
            && (i != j ==> r'.slots[i] == r.slots[i])
            && TrackOf(r', i) == if i == j then Reopened(TrackOf(r, i), ok) else TrackOf(r, i)
  {
    NewFileSound(Name(j, UWrap32(r.uid + 1)), r.params, ok);
    CloseSound(r.slots[j]);
    ArchiveAppend(r.archive, Close(r.slots[j]), i);
    hide Sound, Audio, Open, Close, Setup, New, ArchiveAudio;
    var a := ArchiveAudio(r.archive, i);
    assert a + [] == a;
    assert a + Audio(r.slots[i]) + [] == a + Audio(r.slots[i]);
  }

  /** Whether a swap concerns a slot. */
  predicate DueFor(t: Track, onlyLarge: bool, maxFileSize: nat) {
    t.open && (onlyLarge ==> t.size > maxFileSize)
  }

  function Swapped(t: Track, onlyLarge: bool, maxFileSize: nat, ok: bool): Track {
    if DueFor(t, onlyLarge, maxFileSize) then Reopened(t, ok) else t
  }

  /** Nor does a whole swap: each slot that is due has a new file or none, and no slot
      loses samples. */
  lemma {:induction false} SwapKeeps(r: Rec, onlyLarge: bool, opens: nat -> bool, n: nat, i: nat)
    requires Inv(r) && n <= |r.slots| && i < |r.slots|
    ensures var r' := Swap(r, onlyLarge, opens, n);
            && Inv(r') && r'.maxFileSize == r.maxFileSize
            && (n <= i ==> r'.slots[i] == r.slots[i])
            && TrackOf(r', i) ==
               if i < n then Swapped(TrackOf(r, i), onlyLarge, r.maxFileSize, opens(i)) else TrackOf(r, i)
  {
    hide Inv, SlotAudio, Replace, Reopened;
    if n > 0 {
      SwapKeeps(r, onlyLarge, opens, n - 1, i);
      var q := Swap(r, onlyLarge, opens, n - 1);
      ReplaceConfig(q, n - 1, opens(n - 1));
      if Due(q, onlyLarge, n - 1) {
        ReplaceInv(q, n - 1, opens(n - 1));
        ReplaceKeeps(q, n - 1, opens(n - 1), i);
      }
    }
  }

  lemma ReplaceConfig(r: Rec, j: nat, ok: bool)
    requires j < |r.slots|
    ensures var r' := Replace(r, j, ok); r'.sizeBased == r.sizeBased && r'.maxFileSize == r.maxFileSize
  {
    hide Open, Close, Setup, New;
  }

  /** What one frame does to a slot: silence closes the file, sound is written to an open
      file, and sound without one only asks for a new file. */
  function Heed(t: Track, f: Frame, ok: bool): Track {
    if f.signal == 0 then Track(false, 0, t.heard)
    else if t.open then Track(true, t.size + 2 * |f.samples|, t.heard + f.samples)
    else Reopened(t, ok)
  }

  /** The new file of a slot that keeps its file. */
  function Updated(w: Wav, f: Frame): Wav {
    if f.signal == 0 then Close(w) else Write(w, f.samples)
  }

  lemma UpdatedSound(w: Wav, f: Frame)
    requires Sound(w) && AreSamples(f.samples) && (f.signal != 0 ==> w.isOpened)
    ensures var v := Updated(w, f);
            && Sound(v) && v.name == w.name && v.params == w.params
            && Audio(v) == Audio(w) + (if f.signal != 0 then f.samples else [])
            && (v.isOpened <==> f.signal != 0)
            && (v.isOpened ==> v.position == w.position + 2 * |f.samples|)
  {
    hide Sound, Audio, Close, Write;
    if f.signal == 0 {
      CloseSound(w);
      assert Audio(w) + [] == Audio(w);
    } else {
      WriteSound(w, f.samples);
    }
  }

  lemma UpdateEffect(r: Rec, j: nat, f: Frame, ok: bool, i: nat)
    requires Inv(r) && j < |r.slots| && i < |r.slots| && AreSamples(f.samples)
    requires f.signal != 0 ==> r.slots[j].isOpened
    ensures var r' := r.(slots := r.slots[j := Updated(r.slots[j], f)]);
            && Inv(r')
            && TrackOf(r', i) == if i == j then Heed(TrackOf(r, i), f, ok) else TrackOf(r, i)
  {
    hide Sound, Audio, Updated, ArchiveAudio, AreSamples;
    UpdatedSound(r.slots[j], f);
    var before, a := ArchiveAudio(r.archive, i), Audio(r.slots[i]);
    assert before + (a + f.samples) == before + a + f.samples;
    assert before + (a + []) == before + a;
  }

  lemma RecordSlotEffect(r: Rec, j: nat, f: Frame, ok: bool, i: nat)
    requires Inv(r) && j < |r.slots| && i < |r.slots| && AreSamples(f.samples)
    ensures var r' := RecordSlot(r, j, f, ok);
            && Inv(r')
            && (i != j ==> r'.slots[i] == r.slots[i])
            && TrackOf(r', i) == if i == j then Heed(TrackOf(r, i), f, ok) else TrackOf(r, i)
  {
    hide Inv, SlotAudio, Replace, Close, Write;
    if f.signal != 0 && !r.slots[j].isOpened {
      ReplaceInv(r, j, ok);
      ReplaceKeeps(r, j, ok, i);
    } else {
      UpdateEffect(r, j, f, ok, i);
    }
  }

  ghost predicate FramesOk(frames: seq<Frame>) {
    forall i | 0 <= i < |frames| :: AreSamples(frames[i].samples)
  }

  lemma {:induction false} RecordSlotsEffect(r: Rec, frames: seq<Frame>, opens: nat -> bool, n: nat, i: nat)
    requires Inv(r) && n <= |frames| <= |r.slots| && FramesOk(frames) && i < |r.slots|
    ensures var r' := RecordSlots(r, frames, opens, n);
            && Inv(r')
            && (n <= i ==> r'.slots[i] == r.slots[i])
            && TrackOf(r', i) == if i < n then Heed(TrackOf(r, i), frames[i], opens(i)) else TrackOf(r, i)
  {
    hide Inv, TrackOf, RecordSlot, Heed, AreSamples;
    if n > 0 {
      RecordSlotsEffect(r, frames, opens, n - 1, i);
      RecordSlotEffect(RecordSlots(r, frames, opens, n - 1), n - 1, frames[n - 1], opens(n - 1), i);
    }
  }

  // ---------------------------------------------------------------------------
  // Whole runs
  // ---------------------------------------------------------------------------

  ghost predicate WellFormed(e: Event, n: nat) {
    Fits(e, n) && (e.Record? ==> FramesOk(e.frames))
  }

  ghost predicate AllWellFormed(events: seq<Event>, n: nat) {
    forall i | 0 <= i < |events| :: WellFormed(events[i], n)
  }

  /** A slot when the frames of an event are about to be recorded. */
  function BeforeFrames(t: Track, e: Event, i: nat, sizeBased: bool, maxFileSize: nat): Track {
    match e
    case Timer(opens) => Swapped(t, false, maxFileSize, opens(i))
    case Record(frames, swaps, _) => if frames != [] && sizeBased then Swapped(t, true, maxFileSize, swaps(i)) else t
  }

  /** Whether an event is a list with an entry for slot i. */
  predicate Reaches(e: Event, i: nat) {
    e.Record? && i < |e.frames|
  }

  /** What an event does to slot i. */
  function Follow(t: Track, e: Event, i: nat, sizeBased: bool, maxFileSize: nat): Track {
    var u := BeforeFrames(t, e, i, sizeBased, maxFileSize);
    if Reaches(e, i) then Heed(u, e.frames[i], e.opens(i)) else u
  }

  function FollowAll(t: Track, events: seq<Event>, i: nat, sizeBased: bool, maxFileSize: nat): Track {
    if events == [] then t
    else
      var n := |events| - 1;
      Follow(FollowAll(t, events[..n], i, sizeBased, maxFileSize), events[n], i, sizeBased, maxFileSize)
  }

  /** Any event does to each slot and its files what it does to the slot alone. */
  lemma StepEffect(r: Rec, e: Event, i: nat)
    requires Inv(r) && WellFormed(e, |r.slots|) && i < |r.slots|
    ensures Inv(Step(r, e))
    ensures TrackOf(Step(r, e), i) == Follow(TrackOf(r, i), e, i, r.sizeBased, r.maxFileSize)
  {
    hide Inv, TrackOf, Swapped, Heed, FramesOk;
    match e
    case Timer(opens) =>
      SwapKeeps(r, false, opens, |r.slots|, i);
    case Record(frames, swaps, opens) =>
      if frames != [] {
        SwapKeeps(r, true, swaps, |r.slots|, i);
        var q := if r.sizeBased then Swap(r, true, swaps, |r.slots|) else r;
        RecordSlotsEffect(q, frames, opens, |frames|, i);
        hide Swap, RecordSlots;
      }
  }

  /** Over every run, whichever files can be created: the data of a slot's files, in the
      order of their creation, is exactly what the slot alone has heard. */
  lemma {:induction false} AudioPreserved(r: Rec, events: seq<Event>, i: nat)
    requires Inv(r) && i < |r.slots| && AllWellFormed(events, |r.slots|) && AllFit(events, |r.slots|)
    ensures Inv(Run(r, events))
    ensures TrackOf(Run(r, events), i) == FollowAll(TrackOf(r, i), events, i, r.sizeBased, r.maxFileSize)
  {
    if events != [] {
      var n := |events| - 1;
      var init, e := events[..n], events[n];
      assert AllWellFormed(init, |r.slots|) && AllFit(init, |r.slots|) && WellFormed(e, |r.slots|);
      RunConfig(r, init);
      hide Inv, TrackOf, Follow, WellFormed, Step;
      AudioPreserved(r, init, i);
      StepEffect(Run(r, init), e, i);
    }
  }

  lemma {:induction false} RunConfig(r: Rec, events: seq<Event>)
    requires AllFit(events, |r.slots|)
    ensures Run(r, events).sizeBased == r.sizeBased && Run(r, events).maxFileSize == r.maxFileSize
  {
    if events != [] {
      var init := events[..|events| - 1];
      assert AllFit(init, |r.slots|) && Fits(events[|events| - 1], |r.slots|);
      RunConfig(r, init);
      hide Step;
      StepConfig(Run(r, init), events[|events| - 1]);
    }
  }

  // ---------------------------------------------------------------------------
  // When nothing is lost
  // ---------------------------------------------------------------------------

  const UNUSED := Track(false, 0, [])

  /** Whether the last frame for slot i had a signal. */
  function Sounding(events: seq<Event>, i: nat): bool {
    if events == [] then false
    else
      var n := |events| - 1;
      if Reaches(events[n], i) then events[n].frames[i].signal != 0 else Sounding(events[..n], i)
  }

  /** What a frame adds: its samples if it and its predecessor have a signal. */
  function Added(sounding: bool, f: Frame): seq<int> {
    if f.signal != 0 && sounding then f.samples else []
  }

  /** The samples of the frames for slot i that have a signal and whose predecessor
      had one. Neither swaps nor files occur in this definition. */
  function Heard(events: seq<Event>, i: nat): seq<int> {
    if events == [] then []
    else
      var n := |events| - 1;
      Heard(events[..n], i) + if Reaches(events[n], i) then Added(Sounding(events[..n], i), events[n].frames[i]) else []
  }

  /** An event brings samples for slot i while no file is open, because one could not
      be created. */
  predicate Loses(t: Track, sounding: bool, e: Event, i: nat, sizeBased: bool, maxFileSize: nat) {
    && Reaches(e, i) && Added(sounding, e.frames[i]) != []
    && !BeforeFrames(t, e, i, sizeBased, maxFileSize).open
  }

  predicate NeverLoses(events: seq<Event>, i: nat, sizeBased: bool, maxFileSize: nat) {
    events == [] ||
    var n := |events| - 1;
    && NeverLoses(events[..n], i, sizeBased, maxFileSize)
    && !Loses(FollowAll(UNUSED, events[..n], i, sizeBased, maxFileSize), Sounding(events[..n], i), events[n], i,
              sizeBased, maxFileSize)
  }

  /** Hot swapping preserves the audio: whatever swaps by size or by timer happened, a
      slot's files together hold exactly the samples heard on it if and only if no
      samples arrived while a file could not be created. */
  lemma {:induction false} NothingLostIff(events: seq<Event>, i: nat, sizeBased: bool, maxFileSize: nat)
    ensures var t := FollowAll(UNUSED, events, i, sizeBased, maxFileSize);
            && (t.heard == Heard(events, i) <==> NeverLoses(events, i, sizeBased, maxFileSize))
            && |t.heard| <= |Heard(events, i)|
            && (t.open ==> Sounding(events, i))
  {
    if events != [] {
      var n := |events| - 1;
      var init, e := events[..n], events[n];
      NothingLostIff(init, i, sizeBased, maxFileSize);
      var t := FollowAll(UNUSED, init, i, sizeBased, maxFileSize);
      hide FollowAll, NeverLoses;
      OneMoreEvent(t, Heard(init, i), Sounding(init, i), e, i, sizeBased, maxFileSize);
    }
  }

  lemma OneMoreEvent(t: Track, heard: seq<int>, sounding: bool, e: Event, i: nat, sizeBased: bool, maxFileSize: nat)
    requires |t.heard| <= |heard| && (t.open ==> sounding)
    ensures var u := Follow(t, e, i, sizeBased, maxFileSize);
            var more := heard + if Reaches(e, i) then Added(sounding, e.frames[i]) else [];
            && (u.heard == more <==> t.heard == heard && !Loses(t, sounding, e, i, sizeBased, maxFileSize))
            && |u.heard| <= |more|
            && (u.open ==> if Reaches(e, i) then e.frames[i].signal != 0 else sounding)
  {
    var u := BeforeFrames(t, e, i, sizeBased, maxFileSize);
    assert u.heard == t.heard && (u.open ==> sounding);
    hide BeforeFrames;
    assert heard + [] == heard;
    if Reaches(e, i) && u.open {
      SameEnds(t.heard, heard, e.frames[i].samples);
    }
  }

  lemma SameEnds(a: seq<int>, b: seq<int>, c: seq<int>)
    ensures a + c == b + c <==> a == b
  {
    if a + c == b + c {
      assert |a| == |b|;
      assert a == (a + c)[..|a|] && b == (b + c)[..|b|];
    }
  }

  ghost predicate CanOpen(e: Event) {
    forall i: nat :: e.opens(i) && (e.Record? ==> e.swaps(i))
  }

  ghost predicate AllCanOpen(events: seq<Event>) {
    forall i | 0 <= i < |events| :: CanOpen(events[i])
  }

  /** As long as every file can be created nothing is lost, the same with any swaps as
      with none. */
  lemma {:induction false} NothingLost(events: seq<Event>, i: nat, sizeBased: bool, maxFileSize: nat)
    requires AllCanOpen(events)
    ensures NeverLoses(events, i, sizeBased, maxFileSize)
    ensures FollowAll(UNUSED, events, i, sizeBased, maxFileSize).open <==> Sounding(events, i)
  {
    if events != [] {
      var n := |events| - 1;
      assert AllCanOpen(events[..n]) && CanOpen(events[n]);
      NothingLost(events[..n], i, sizeBased, maxFileSize);
    }
  }

  /** From a fresh recorder: the audio of each slot is what the slot alone heard, which
      is every sample meant for it exactly when no sample came without a file. */
  lemma FreshRecorder(params: Params, n: nat, sizeBased: bool, maxFileSize: nat, events: seq<Event>, i: nat)
    requires i < n && AllWellFormed(events, n) && AllFit(events, n)
    ensures var r := Run(Initial(params, n, sizeBased, maxFileSize), events);
            && Inv(r)
            && TrackOf(r, i) == FollowAll(UNUSED, events, i, sizeBased, maxFileSize)
            && (SlotAudio(r, i) == Heard(events, i) <==> NeverLoses(events, i, sizeBased, maxFileSize))
            && (AllCanOpen(events) ==> SlotAudio(r, i) == Heard(events, i))
  {
    var r := Initial(params, n, sizeBased, maxFileSize);
    InitialInv(params, n, sizeBased, maxFileSize);
    assert TrackOf(r, i) == UNUSED && r.sizeBased == sizeBased && r.maxFileSize == maxFileSize;
    assert TrackOf(Run(r, events), i).heard == SlotAudio(Run(r, events), i);
    hide *;
    AudioPreserved(r, events, i);
    NothingLostIff(events, i, sizeBased, maxFileSize);
    if AllCanOpen(events) {
      NothingLost(events, i, sizeBased, maxFileSize);
    }
  }

  // ---------------------------------------------------------------------------
  // The files of a run
  // ---------------------------------------------------------------------------

  lemma {:induction false} RunInv(r: Rec, events: seq<Event>)
    requires Inv(r) && AllWellFormed(events, |r.slots|) && AllFit(events, |r.slots|)
    ensures Inv(Run(r, events)) && Run(r, events).params == r.params
  {
    if events != [] {
      var n := |events| - 1;
      var init, e := events[..n], events[n];
      assert AllWellFormed(init, |r.slots|) && AllFit(init, |r.slots|) && WellFormed(e, |r.slots|);
      RunInv(r, init);
      hide Inv, WellFormed, Step;
      StepConfig(Run(r, init), e);
      if |r.slots| > 0 {
        StepEffect(Run(r, init), e, 0);
      } else {
        StepWithoutSlots(Run(r, init), e);
      }
    }
  }

  lemma StepWithoutSlots(r: Rec, e: Event)
    requires Inv(r) && |r.slots| == 0 && WellFormed(e, 0)
    ensures Inv(Step(r, e))
  {
  }

  /** Every closed file of a run, whether or not all files could be created, has the
      lengths of its samples in its header; and it reads back as those samples, in one
      channel at the configured rate, if and only if the configuration has the 16-byte
      format chunk and describes such samples, and the file is short enough. */
  lemma ClosedFilesParse(r: Rec, events: seq<Event>, w: Wav)
    requires Inv(r) && AllWellFormed(events, |r.slots|) && AllFit(events, |r.slots|) && r.params.Valid()
    requires (w in Run(r, events).archive || w in Run(r, events).slots) && w.created && !w.isOpened
    ensures w.file == Image(r.params, 36 + 2 * |Audio(w)|, 2 * |Audio(w)|, Audio(w))
    ensures ParseWave(w.file) == Some(Pcm(r.params.samplesPerSec, 1, Audio(w))) <==>
              r.params.fmtLen == 16 && Describes(r.params) && |w.file| < 0x1_0000_0008
  {
    RunInv(r, events);
    assert Sound(w) && w.params == r.params;
    hide Inv, Run, Image, Audio, ParseWave, Describes, Params.Valid;
    ClosedFileParses(w, Audio(w));
  }

  // ---------------------------------------------------------------------------
  // File sizes in size-based mode
  // ---------------------------------------------------------------------------

  function Limit(r: Rec): nat {
    if r.maxFileSize < HEADER_SIZE then HEADER_SIZE else r.maxFileSize
  }

  /** No file exceeds a size. */
  ghost predicate Within(r: Rec, size: nat) {
    && (forall i | 0 <= i < |r.slots| :: |r.slots[i].file| <= size)
    && (forall i | 0 <= i < |r.archive| :: |r.archive[i].file| <= size)
  }

  /** Open files among the first n slots are within the limit. */
  ghost predicate SmallOpen(r: Rec, n: nat)
    requires n <= |r.slots|
  {
    forall i | 0 <= i < n && r.slots[i].isOpened :: |r.slots[i].file| <= Limit(r)
  }

  lemma ReplaceSizes(r: Rec, j: nat, ok: bool, size: nat)
    requires Inv(r) && j < |r.slots| && Within(r, size) && HEADER_SIZE <= size
    ensures var r' := Replace(r, j, ok);
            Within(r', size) && |r'.slots[j].file| <= HEADER_SIZE && Limit(r') == Limit(r)
  {
    NewFileSound(Name(j, UWrap32(r.uid + 1)), r.params, ok);
    CloseSound(r.slots[j]);
    hide Sound, Audio, Open, Close, Setup, New;
  }

  lemma OpenAtEnd(w: Wav)
    requires Sound(w) && w.isOpened
    ensures w.position == |w.file|
  {
  }

  /** A swap by size leaves every open file within the limit. */
  lemma {:induction false} SwapSizes(r: Rec, onlyLarge: bool, opens: nat -> bool, n: nat, size: nat)
    requires Inv(r) && n <= |r.slots| && Within(r, size) && HEADER_SIZE <= size
    ensures var r' := Swap(r, onlyLarge, opens, n);
            Inv(r') && Within(r', size) && Limit(r') == Limit(r) && SmallOpen(r', n)
            && r'.maxFileSize == r.maxFileSize
  {
    hide Inv, Within, Replace, Limit;
    if n > 0 {
      SwapSizes(r, onlyLarge, opens, n - 1, size);
      var q := Swap(r, onlyLarge, opens, n - 1);
      SwapOneSize(q, onlyLarge, opens(n - 1), n - 1, size);
    }
  }

  lemma SwapOneSize(q: Rec, onlyLarge: bool, ok: bool, j: nat, size: nat)
    requires Inv(q) && j < |q.slots| && Within(q, size) && HEADER_SIZE <= size && SmallOpen(q, j)
    ensures var r := if Due(q, onlyLarge, j) then Replace(q, j, ok) else q;
            Inv(r) && Within(r, size) && Limit(r) == Limit(q) && SmallOpen(r, j + 1) && r.maxFileSize == q.maxFileSize
  {
    hide Inv, Within, Open, Close, Setup, New, Sound, Limit;
    if Due(q, onlyLarge, j) {
      ReplaceInv(q, j, ok);
      ReplaceSizes(q, j, ok, size);
      LimitAtLeastHeader(q);
    } else if q.slots[j].isOpened {
      UnswappedSmall(q, onlyLarge, j);
    }
  }

  lemma LimitAtLeastHeader(r: Rec)
    ensures HEADER_SIZE <= Limit(r) && r.maxFileSize <= Limit(r)
  {
  }

  lemma UnswappedSmall(q: Rec, onlyLarge: bool, j: nat)
    requires Inv(q) && j < |q.slots| && !Due(q, onlyLarge, j) && q.slots[j].isOpened
    ensures onlyLarge && |q.slots[j].file| <= Limit(q)
  {
    assert Sound(q.slots[j]);
    OpenAtEnd(q.slots[j]);
  }

  ghost predicate ShortFrames(e: Event, l: nat) {
    e.Record? ==> forall i | 0 <= i < |e.frames| :: |e.frames[i].samples| <= l
  }

  lemma RecordSlotSizes(r: Rec, j: nat, f: Frame, ok: bool, size: nat)
    requires Inv(r) && j < |r.slots| && AreSamples(f.samples) && Within(r, size) && HEADER_SIZE <= size
    requires r.slots[j].isOpened ==> |r.slots[j].file| + 2 * |f.samples| <= size
    ensures Within(RecordSlot(r, j, f, ok), size)
  {
    assert Sound(r.slots[j]);
    if f.signal == 0 {
      CloseSound(r.slots[j]);
      hide Sound, Close, Inv;
    } else if r.slots[j].isOpened {
      WriteSound(r.slots[j], f.samples);
      hide Sound, Write, Inv;
    } else {
      ReplaceSizes(r, j, ok, size);
      hide Sound, Replace, Inv, Within;
    }
  }

  /** Recording one list adds at most one frame to each open file. */
  lemma {:induction false} RecordSlotsSizes(r: Rec, frames: seq<Frame>, opens: nat -> bool, n: nat, l: nat, size: nat)
    requires Inv(r) && n <= |frames| <= |r.slots| && FramesOk(frames)
    requires forall i | 0 <= i < |frames| :: |frames[i].samples| <= l
    requires Within(r, size) && HEADER_SIZE <= size
    requires forall i | 0 <= i < |r.slots| && r.slots[i].isOpened :: |r.slots[i].file| + 2 * l <= size
    ensures Inv(RecordSlots(r, frames, opens, n)) && Within(RecordSlots(r, frames, opens, n), size)
  {
    hide Inv, Within, RecordSlot, SlotAudio, AreSamples;
    if n > 0 {
      RecordSlotsSizes(r, frames, opens, n - 1, l, size);
      RecordSlotsEffect(r, frames, opens, n - 1, n - 1);
      var q := RecordSlots(r, frames, opens, n - 1);
      assert q.slots[n - 1] == r.slots[n - 1];
      RecordSlotEffect(q, n - 1, frames[n - 1], opens(n - 1), n - 1);
      RecordSlotSizes(q, n - 1, frames[n - 1], opens(n - 1), size);
    }
  }

  ghost predicate AllShort(events: seq<Event>, l: nat) {
    forall i | 0 <= i < |events| :: ShortFrames(events[i], l)
  }

  lemma StepSizes(r: Rec, e: Event, l: nat)
    requires Inv(r) && WellFormed(e, |r.slots|) && ShortFrames(e, l) && r.sizeBased
    requires Within(r, Limit(r) + 2 * l)
    ensures Inv(Step(r, e)) && Within(Step(r, e), Limit(r) + 2 * l)
  {
    var size := Limit(r) + 2 * l;
    assert HEADER_SIZE <= size;
    hide Inv, Within, Limit;
    match e
    case Timer(opens) =>
      SwapSizes(r, false, opens, |r.slots|, size);
    case Record(frames, swaps, opens) =>
      if frames != [] {
        SwapSizes(r, true, swaps, |r.slots|, size);
        RecordSlotsSizes(Swap(r, true, swaps, |r.slots|), frames, opens, |frames|, l, size);
      }
  }

  lemma {:induction false} SwapConfig(r: Rec, onlyLarge: bool, opens: nat -> bool, n: nat)
    requires n <= |r.slots|
    ensures var r' := Swap(r, onlyLarge, opens, n); r'.sizeBased == r.sizeBased && r'.maxFileSize == r.maxFileSize && r'.params == r.params
  {
    hide Open, Close, Setup, New;
    if n > 0 {
      SwapConfig(r, onlyLarge, opens, n - 1);
    }
  }

  lemma {:induction false} RecordConfig(r: Rec, frames: seq<Frame>, opens: nat -> bool, n: nat)
    requires n <= |frames| <= |r.slots|
    ensures var r' := RecordSlots(r, frames, opens, n); r'.sizeBased == r.sizeBased && r'.maxFileSize == r.maxFileSize && r'.params == r.params
  {
    hide Open, Close, Setup, New, Write;
    if n > 0 {
      RecordConfig(r, frames, opens, n - 1);
    }
  }

  lemma StepConfig(r: Rec, e: Event)
    requires Fits(e, |r.slots|)
    ensures Step(r, e).sizeBased == r.sizeBased && Step(r, e).maxFileSize == r.maxFileSize
    ensures Step(r, e).params == r.params
  {
    match e
    case Timer(opens) =>
      SwapConfig(r, false, opens, |r.slots|);
      hide Swap;
    case Record(frames, swaps, opens) =>
      SwapConfig(r, true, swaps, |r.slots|);
      if frames != [] {
        RecordConfig(if r.sizeBased then Swap(r, true, swaps, |r.slots|) else r, frames, opens, |frames|);
      }
      hide Swap, RecordSlots;
  }

  /** In size-based mode, over every run and whether or not files can be created, no
      file outgrows the configured limit by more than one frame. */
  lemma {:induction false} SizeBound(r: Rec, events: seq<Event>, l: nat)
    requires Inv(r) && r.sizeBased && Within(r, Limit(r) + 2 * l)
    requires AllWellFormed(events, |r.slots|) && AllFit(events, |r.slots|) && AllShort(events, l)
    ensures var r' := Run(r, events);
            Inv(r') && r'.sizeBased && r'.maxFileSize == r.maxFileSize && Within(r', Limit(r) + 2 * l)
  {
    if events != [] {
      var n := |events| - 1;
      var init, e := events[..n], events[n];
      assert AllWellFormed(init, |r.slots|) && AllFit(init, |r.slots|) && AllShort(init, l);
      assert WellFormed(e, |r.slots|) && ShortFrames(e, l) && Fits(e, |r.slots|);
      SizeBound(r, init, l);
      assert Limit(Run(r, init)) == Limit(r);
      hide Inv, Within, Limit, WellFormed, ShortFrames, Step;
      StepSizes(Run(r, init), e, l);
      StepConfig(Run(r, init), e);
    }
  }

  /** The bound for a fresh recorder. */
  lemma FreshSizeBound(params: Params, n: nat, maxFileSize: nat, events: seq<Event>, l: nat)
    requires AllWellFormed(events, n) && AllFit(events, n) && AllShort(events, l)
    ensures var r := Initial(params, n, true, maxFileSize);
            Within(Run(r, events), Limit(r) + 2 * l)
  {
    var r := Initial(params, n, true, maxFileSize);
    InitialInv(params, n, true, maxFileSize);
    assert Within(r, Limit(r) + 2 * l);
    hide *;
    SizeBound(r, events, l);
  }

  // ---------------------------------------------------------------------------
  // File names
  // ---------------------------------------------------------------------------

  /** All files so far have different serial numbers, none above the last one given
      out, which has not wrapped around; and the files of one slot are archived in the
      order of their serial numbers, the current one having the largest. */
  ghost predicate NamesDistinct(r: Rec) {
    Different(r) && InOrder(r)
  }

  ghost predicate Different(r: Rec) {
    && r.uid == r.total
    && (forall i | 0 <= i < |r.slots| :: 0 < r.slots[i].name.uid <= r.total)
    && (forall i | 0 <= i < |r.archive| :: 0 < r.archive[i].name.uid <= r.total)
    && (forall i, j | 0 <= i < j < |r.slots| :: r.slots[i].name.uid != r.slots[j].name.uid)
    && (forall i, j | 0 <= i < j < |r.archive| :: r.archive[i].name.uid != r.archive[j].name.uid)
    && (forall i, j | 0 <= i < |r.slots| && 0 <= j < |r.archive| :: r.slots[i].name.uid != r.archive[j].name.uid)
  }

  ghost predicate InOrder(r: Rec) {
    && (forall i | 0 <= i < |r.slots| :: r.slots[i].name.slot == i)
    && (forall i, j | 0 <= i < j < |r.archive| && r.archive[i].name.slot == r.archive[j].name.slot ::
          r.archive[i].name.uid < r.archive[j].name.uid)
    && (forall i, j | 0 <= i < |r.slots| && 0 <= j < |r.archive| && r.archive[j].name.slot == i ::
          r.archive[j].name.uid < r.slots[i].name.uid)
  }

  lemma FileOpsKeepName(w: Wav, samples: seq<int>)
    ensures Close(w).name == w.name && Write(w, samples).name == w.name
  {
  }

  lemma ReplaceNames(r: Rec, j: nat, ok: bool)
    requires NamesDistinct(r) && j < |r.slots| && r.total + 1 < 0x1_0000_0000
    ensures NamesDistinct(Replace(r, j, ok)) && Replace(r, j, ok).total == r.total + 1
  {
    FileOpsKeepName(r.slots[j], []);
    NewName(Name(j, UWrap32(r.uid + 1)), r.params, ok);
    var gone, next := Close(r.slots[j]), Open(Setup(New(Name(j, UWrap32(r.uid + 1))), r.params), ok);
    assert next.name == Name(j, r.total + 1) by {
      assert UWrap32(r.uid + 1) == r.total + 1;
    }
    hide Open, Close, Setup, New, UWrap32, Different, InOrder;
    ReplaceDifferent(r, Replace(r, j, ok), j, gone, next);
    ReplaceInOrder(r, Replace(r, j, ok), j, gone, next);
  }

  /** One slot's file moved to the archive, and a new one with a new number there. */
  ghost predicate Replaced(r: Rec, r': Rec, j: nat, gone: Wav, next: Wav)
    requires j < |r.slots|
  {
    && r'.slots == r.slots[j := next] && r'.archive == r.archive + [gone]
    && r'.total == r'.uid == r.total + 1
    && gone.name == r.slots[j].name && next.name == Name(j, r.total + 1)
  }

  lemma ReplaceDifferent(r: Rec, r': Rec, j: nat, gone: Wav, next: Wav)
    requires j < |r.slots| && Replaced(r, r', j, gone, next) && Different(r)
    ensures Different(r')
  {
  }

  lemma ReplaceInOrder(r: Rec, r': Rec, j: nat, gone: Wav, next: Wav)
    requires j < |r.slots| && Replaced(r, r', j, gone, next) && Different(r) && InOrder(r)
    ensures InOrder(r')
  {
  }

  lemma {:induction false} SwapTotal(r: Rec, onlyLarge: bool, opens: nat -> bool, n: nat)
    requires n <= |r.slots|
    ensures r.total <= Swap(r, onlyLarge, opens, n).total
  {
    hide Open, Close, Setup, New, Due;
    if n > 0 {
      SwapTotal(r, onlyLarge, opens, n - 1);
    }
  }

  lemma {:induction false} RecordTotal(r: Rec, frames: seq<Frame>, opens: nat -> bool, n: nat)
    requires n <= |frames| <= |r.slots|
    ensures r.total <= RecordSlots(r, frames, opens, n).total
  {
    hide Open, Close, Setup, New, Write;
    if n > 0 {
      RecordTotal(r, frames, opens, n - 1);
    }
  }

  lemma {:induction false} SwapNames(r: Rec, onlyLarge: bool, opens: nat -> bool, n: nat)
    requires n <= |r.slots| && NamesDistinct(r) && Swap(r, onlyLarge, opens, n).total < 0x1_0000_0000
    ensures NamesDistinct(Swap(r, onlyLarge, opens, n))
  {
    hide NamesDistinct, Due, Open, Close, Setup, New;
    if n > 0 {
      SwapNames(r, onlyLarge, opens, n - 1);
      var q := Swap(r, onlyLarge, opens, n - 1);
      if Due(q, onlyLarge, n - 1) {
        ReplaceNames(q, n - 1, opens(n - 1));
      }
    }
  }

  lemma UpdateNames(r: Rec, j: nat, w: Wav)
    requires NamesDistinct(r) && j < |r.slots| && w.name == r.slots[j].name
    ensures NamesDistinct(r.(slots := r.slots[j := w]))
  {
  }

  lemma RecordSlotNames(q: Rec, j: nat, f: Frame, ok: bool)
    requires j < |q.slots| && NamesDistinct(q) && RecordSlot(q, j, f, ok).total < 0x1_0000_0000
    ensures NamesDistinct(RecordSlot(q, j, f, ok))
  {
    hide NamesDistinct, Open, Close, Setup, New, Write;
    var w := q.slots[j];
    FileOpsKeepName(w, f.samples);
    if f.signal != 0 && !w.isOpened {
      ReplaceNames(q, j, ok);
    } else {
      UpdateNames(q, j, if f.signal == 0 then Close(w) else Write(w, f.samples));
    }
  }

  lemma {:induction false} RecordNames(r: Rec, frames: seq<Frame>, opens: nat -> bool, n: nat)
    requires n <= |frames| <= |r.slots| && NamesDistinct(r) && RecordSlots(r, frames, opens, n).total < 0x1_0000_0000
    ensures NamesDistinct(RecordSlots(r, frames, opens, n))
  {
    hide NamesDistinct, Open, Close, Setup, New, Write;
    if n > 0 {
      RecordNames(r, frames, opens, n - 1);
      RecordSlotNames(RecordSlots(r, frames, opens, n - 1), n - 1, frames[n - 1], opens(n - 1));
    }
  }

  /** Over every run that creates fewer than 2^32 files, all file names differ. */
  lemma {:induction false} AllNamesDistinct(r: Rec, events: seq<Event>)
    requires NamesDistinct(r) && AllFit(events, |r.slots|)
    ensures r.total <= Run(r, events).total
    ensures Run(r, events).total < 0x1_0000_0000 ==> NamesDistinct(Run(r, events))
  {
    if events != [] {
      var n := |events| - 1;
      var init, e := events[..n], events[n];
      assert AllFit(init, |r.slots|) && Fits(e, |r.slots|);
      AllNamesDistinct(r, init);
      hide NamesDistinct;
      StepNames(Run(r, init), e);
    }
  }

  lemma StepNames(r: Rec, e: Event)
    requires Fits(e, |r.slots|)
    ensures r.total <= Step(r, e).total
    ensures NamesDistinct(r) && Step(r, e).total < 0x1_0000_0000 ==> NamesDistinct(Step(r, e))
  {
    hide NamesDistinct, Swap, RecordSlots;
    match e
    case Timer(opens) =>
      SwapTotal(r, false, opens, |r.slots|);
      if NamesDistinct(r) && Step(r, e).total < 0x1_0000_0000 {
        SwapNames(r, false, opens, |r.slots|);
      }
    case Record(frames, swaps, opens) =>
      if frames != [] {
        SwapTotal(r, true, swaps, |r.slots|);
        var q := if r.sizeBased then Swap(r, true, swaps, |r.slots|) else r;
        RecordTotal(q, frames, opens, |frames|);
        if NamesDistinct(r) && Step(r, e).total < 0x1_0000_0000 {
          if r.sizeBased {
            SwapNames(r, true, swaps, |r.slots|);
          }
          RecordNames(q, frames, opens, |frames|);
        }
      }
  }

  /** A fresh recorder's names are distinct. */
  lemma InitialNames(params: Params, n: nat, sizeBased: bool, maxFileSize: nat)
    ensures NamesDistinct(Initial(params, n, sizeBased, maxFileSize))
    ensures forall i | 0 <= i < n :: Initial(params, n, sizeBased, maxFileSize).slots[i].name == Name(i, i + 1)
  {
  }

  /** So over every run of a fresh recorder that creates fewer than 2^32 files, all file
      names differ, and the files of a slot are numbered in the order of their creation. */
  lemma FreshNames(params: Params, n: nat, sizeBased: bool, maxFileSize: nat, events: seq<Event>)
    requires AllFit(events, n)
    ensures var r := Run(Initial(params, n, sizeBased, maxFileSize), events);
            r.total < 0x1_0000_0000 ==> NamesDistinct(r)
  {
    InitialNames(params, n, sizeBased, maxFileSize);
    hide NamesDistinct, Run;
    AllNamesDistinct(Initial(params, n, sizeBased, maxFileSize), events);
  }

  // ---------------------------------------------------------------------------
  // When a slot gets a new file
  // ---------------------------------------------------------------------------

  /** The new file of a replacement has a serial number that no file had before. */
  lemma ReplaceRenews(r: Rec, j: nat, ok: bool, i: nat)
    requires NamesDistinct(r) && j < |r.slots| && i < |r.slots| && r.total + 1 < 0x1_0000_0000
    ensures var w := Replace(r, j, ok).slots[i];
            if i == j then w.name.uid == r.total + 1 else w == r.slots[i]
  {
    NewName(Name(j, UWrap32(r.uid + 1)), r.params, ok);
    hide Open, Close, Setup, New;
  }

  /** A swap gives slot i a file with a new number exactly if its file is due. */
  lemma {:induction false} SwapRenews(r: Rec, onlyLarge: bool, opens: nat -> bool, n: nat, i: nat)
    requires NamesDistinct(r) && n <= |r.slots| && i < |r.slots| && Swap(r, onlyLarge, opens, n).total < 0x1_0000_0000
    ensures NamesDistinct(Swap(r, onlyLarge, opens, n)) && r.total <= Swap(r, onlyLarge, opens, n).total
    ensures var w := Swap(r, onlyLarge, opens, n).slots[i];
            if i < n && Due(r, onlyLarge, i) then r.total < w.name.uid else w == r.slots[i]
  {
    hide NamesDistinct, Replace, Due;
    SwapNames(r, onlyLarge, opens, n);
    SwapTotal(r, onlyLarge, opens, n);
    if n > 0 {
      var q := Swap(r, onlyLarge, opens, n - 1);
      ReplaceTotal(q, n - 1, opens(n - 1));
      SwapRenews(r, onlyLarge, opens, n - 1, i);
      SwapRenews(r, onlyLarge, opens, n - 1, n - 1);
      SwapConfig(r, onlyLarge, opens, n - 1);
      SameDue(q, r, onlyLarge, n - 1);
      if Due(q, onlyLarge, n - 1) {
        ReplaceRenews(q, n - 1, opens(n - 1), i);
      }
    }
  }

  lemma SameDue(q: Rec, r: Rec, onlyLarge: bool, i: nat)
    requires i < |q.slots| == |r.slots| && q.slots[i] == r.slots[i] && q.maxFileSize == r.maxFileSize
    ensures Due(q, onlyLarge, i) == Due(r, onlyLarge, i)
  {
  }

  lemma ReplaceTotal(r: Rec, j: nat, ok: bool)
    requires j < |r.slots|
    ensures Replace(r, j, ok).total == r.total + 1
  {
    hide Open, Close, Setup, New;
  }

  /** Recording a list gives slot i a file with a new number exactly if its frame has a signal
      and finds no file open. */
  lemma {:induction false} RecordRenews(r: Rec, frames: seq<Frame>, opens: nat -> bool, n: nat, i: nat)
    requires NamesDistinct(r) && n <= |frames| <= |r.slots| && i < |r.slots|
    requires RecordSlots(r, frames, opens, n).total < 0x1_0000_0000
    ensures NamesDistinct(RecordSlots(r, frames, opens, n)) && r.total <= RecordSlots(r, frames, opens, n).total
    ensures var w := RecordSlots(r, frames, opens, n).slots[i];
            if i < n && frames[i].signal != 0 && !r.slots[i].isOpened then r.total < w.name.uid
            else w.name == r.slots[i].name && (n <= i ==> w == r.slots[i])
  {
    hide NamesDistinct, RecordSlot;
    RecordNames(r, frames, opens, n);
    RecordTotal(r, frames, opens, n);
    if n > 0 {
      var q := RecordSlots(r, frames, opens, n - 1);
      RecordTotal(r, frames, opens, n - 1);
      OneTotal(q, n - 1, frames[n - 1], opens(n - 1));
      RecordRenews(r, frames, opens, n - 1, i);
      RecordRenews(r, frames, opens, n - 1, n - 1);
      OneRenews(q, n - 1, frames[n - 1], opens(n - 1), i);
    }
  }

  lemma OneTotal(q: Rec, j: nat, f: Frame, ok: bool)
    requires j < |q.slots|
    ensures q.total <= RecordSlot(q, j, f, ok).total
  {
    hide Open, Close, Setup, New, Write;
  }

  lemma OneRenews(q: Rec, j: nat, f: Frame, ok: bool, i: nat)
    requires NamesDistinct(q) && j < |q.slots| && i < |q.slots| && RecordSlot(q, j, f, ok).total < 0x1_0000_0000
    ensures var w := RecordSlot(q, j, f, ok).slots[i];
            if i != j then w == q.slots[i]
            else if f.signal != 0 && !q.slots[i].isOpened then q.total < w.name.uid
            else w.name == q.slots[i].name
  {
    hide NamesDistinct, Replace, Close, Write;
    ReplaceTotal(q, j, ok);
    FileOpsKeepName(q.slots[j], f.samples);
    if f.signal != 0 && !q.slots[j].isOpened {
      ReplaceRenews(q, j, ok, i);
    }
  }

  /** Whether an event gives slot i a new file: a tick of the timer if one is open; a list
      if, in size-based mode, the open file is larger than the limit, or if its frame has
      a signal and no file is open. */
  predicate Renews(e: Event, open: bool, size: nat, sizeBased: bool, maxFileSize: nat, i: nat) {
    match e
    case Timer(_) => open
    case Record(frames, _, _) =>
      frames != [] && ((sizeBased && open && size > maxFileSize) || (i < |frames| && frames[i].signal != 0 && !open))
  }

  /** An event changes the name of a slot's file exactly in these cases. */
  lemma RenewedIff(r: Rec, e: Event, i: nat)
    requires Inv(r) && NamesDistinct(r) && Fits(e, |r.slots|) && i < |r.slots| && Step(r, e).total < 0x1_0000_0000
    ensures Step(r, e).slots[i].name != r.slots[i].name <==>
              Renews(e, r.slots[i].isOpened, |r.slots[i].file|, r.sizeBased, r.maxFileSize, i)
  {
    assert Sound(r.slots[i]) && r.slots[i].name.uid <= r.total;
    if r.slots[i].isOpened {
      OpenAtEnd(r.slots[i]);
    }
    hide Inv, NamesDistinct, Sound, Swap, RecordSlots;
    match e
    case Timer(opens) =>
      SwapRenews(r, false, opens, |r.slots|, i);
    case Record(frames, swaps, opens) =>
      if frames != [] {
        var q := if r.sizeBased then Swap(r, true, swaps, |r.slots|) else r;
        RecordTotal(q, frames, opens, |frames|);
        if r.sizeBased {
          SwapRenews(r, true, swaps, |r.slots|, i);
        }
        RecordRenews(q, frames, opens, |frames|, i);
      }
  }
}
