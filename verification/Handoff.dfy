/** The TCP receiver and the writer thread share one ring buffer, each under a mutex
    of its own - so their individual steps interleave freely. */
module Handoff {
  import opened Arithmetic
  import opened FixedPoint
  import RingBuffer

  /** A received frame: its counter and the rest of its content. */
  datatype FrameData = FrameData(counter: int, data: seq<int>)

  /** A slot of the buffer; a frame is copied into it in more than one step. */
  datatype Slot = Unset | Torn | Full(frame: FrameData)

  datatype ProducerPc = Waiting | Copying(frame: FrameData) | Copied(frame: FrameData)
  datatype ConsumerPc = Polling | NonEmpty | Taken(slot: nat) | Using(slot: nat)

  /** The shared buffer with both heads, the two program counters, the receiver's
      packet counter, and the history of the run. */
  datatype State = State(
    slots: seq<Slot>, r: nat, w: nat,
    producer: ProducerPc, consumer: ConsumerPc, packetCounter: int,
    received: seq<FrameData>,  // every frame the socket delivered
    accepted: seq<FrameData>,  // those whose copying into the buffer has begun
    taken: nat,                // how often the read head has advanced
    seen: seq<Slot>)           // what the consumer read through its pointers

  predicate Init(s: State) {
    && s.slots != [] && s.r == s.w == 0
    && s.producer == Waiting && s.consumer == Polling && s.packetCounter == 0
    && s.received == [] && s.accepted == [] && s.taken == 0 && s.seen == []
  }

  // ---------------------------------------------------------------------------
  // The steps
  // ---------------------------------------------------------------------------

  /** A frame arrives: the counter is advanced and compared; a mismatch only
      resynchronises, a match begins the copy into the slot of the write head. */
  ghost predicate Receive(s: State, s': State, f: FrameData) {
    && s.producer == Waiting && s.w < |s.slots|
    && s' == if UWrap32(s.packetCounter + 1) != f.counter
             then s.(packetCounter := f.counter, received := s.received + [f])
             else s.(packetCounter := f.counter, received := s.received + [f],
                     accepted := s.accepted + [f], producer := Copying(f), slots := s.slots[s.w := Torn])
  }

  ghost predicate FinishCopy(s: State, s': State) {
    && s.producer.Copying? && s.w < |s.slots|
    && s' == s.(producer := Copied(s.producer.frame), slots := s.slots[s.w := Full(s.producer.frame)])
  }

  ghost predicate AdvanceWrite(s: State, s': State) {
    && s.producer.Copied? && s.w < |s.slots|
    && s' == s.(producer := Waiting, w := RingBuffer.Next(s.w, |s.slots|))
  }

  /** The reader compares the heads; on equality it polls again. */
  ghost predicate Compare(s: State, s': State) {
    && s.consumer == Polling
    && s' == if s.r == s.w then s else s.(consumer := NonEmpty)
  }

  ghost predicate TakePointer(s: State, s': State) {
    && s.consumer == NonEmpty
    && s' == s.(consumer := Taken(s.r))
  }

  ghost predicate AdvanceRead(s: State, s': State) {
    && s.consumer.Taken? && s.r < |s.slots|
    && s' == s.(consumer := Using(s.consumer.slot), r := RingBuffer.Next(s.r, |s.slots|), taken := s.taken + 1)
  }

  /** The reader uses the frame through its pointer, after leaving its lock. */
  ghost predicate UseFrame(s: State, s': State) {
    && s.consumer.Using? && s.consumer.slot < |s.slots|
    && s' == s.(consumer := Polling, seen := s.seen + [s.slots[s.consumer.slot]])
  }

  ghost predicate Step(s: State, s': State) {
    || (exists f :: Receive(s, s', f))
    || FinishCopy(s, s')
    || AdvanceWrite(s, s')
    || Compare(s, s')
    || TakePointer(s, s')
    || AdvanceRead(s, s')
    || UseFrame(s, s')
  }

  ghost predicate IsRun(run: seq<State>) {
    && run != [] && Init(run[0])
    && forall i | 0 < i < |run| :: Step(run[i - 1], run[i])
  }

  // ---------------------------------------------------------------------------
  // Positions
  // ---------------------------------------------------------------------------

  /** The head position after k advances. */
  function Position(n: nat, k: nat): (p: nat)
    requires 0 < n
    ensures p < n
  {
    if k == 0 then 0 else RingBuffer.Next(Position(n, k - 1), n)
  }

  lemma {:induction false} PositionPeriod(n: nat, k: nat) returns (q: nat)
    requires 0 < n
    ensures k == Times(q, n) + Position(n, k)
  {
    if k == 0 {
      q := 0;
    } else {
      q := PositionPeriod(n, k - 1);
      if Position(n, k - 1) == n - 1 {
        q := q + 1;
      }
    }
  }

  /** Fewer than n advances apart, positions differ. */
  lemma PositionsDiffer(n: nat, i: nat, j: nat)
    requires 0 < n && i < j < i + n
    ensures Position(n, i) != Position(n, j)
  {
    if Position(n, i) == Position(n, j) {
      var p := PositionPeriod(n, i);
      var q := PositionPeriod(n, j);
      TimesIsProduct(p, n);
      TimesIsProduct(q, n);
      if q <= p {
        MulMonotone(q, p, n);
      } else {
        MulMonotone(p + 1, q, n);
      }
      assert false;
    }
  }

  lemma PositionRepeats(n: nat, i: nat)
    requires 0 < n
    ensures Position(n, i + n) == Position(n, i)
  {
    var p := PositionPeriod(n, i);
    var q := PositionPeriod(n, i + n);
    TimesIsProduct(p, n);
    TimesIsProduct(q, n);
    assert i + n == (p + 1) * n + Position(n, i);
    DivisionUnique(i + n, n, p + 1, Position(n, i));
    DivisionUnique(i + n, n, q, Position(n, i + n));
  }

  // ---------------------------------------------------------------------------
  // The invariant
  // ---------------------------------------------------------------------------

  /** How often the write head has advanced. */
  function Writes(s: State): int {
    if s.producer == Waiting then |s.accepted| else |s.accepted| - 1
  }

  /** The frames that pass the receiver's counter check. */
  function Accepted(frames: seq<FrameData>): seq<FrameData> {
    if frames == [] then []
    else
      var init, f := frames[..|frames| - 1], frames[|frames| - 1];
      Accepted(init) + if f.counter == UWrap32(LastCounter(init) + 1) then [f] else []
  }

  /** The receiver's packet counter after some frames. */
  function LastCounter(frames: seq<FrameData>): int {
    if frames == [] then 0 else frames[|frames| - 1].counter
  }

  /** How many unread frames the buffer can bear: while the consumer polls, getSize()
      complete ones; while it is about to take one or still uses the last one, the frame
      being copied counts, and the slot in use counts as well. */
  predicate Roomy(s: State) {
    match s.consumer
    case Polling => Writes(s) - s.taken <= |s.slots| - 1
    case NonEmpty => |s.accepted| - s.taken <= |s.slots|
    case Taken(_) => |s.accepted| - s.taken <= |s.slots|
    case Using(_) => |s.accepted| - s.taken <= |s.slots| - 1
  }

  ghost predicate AllRoomy(run: seq<State>) {
    forall i | 0 <= i < |run| :: Roomy(run[i])
  }

  ghost predicate Heads(s: State) {
    && s.slots != []
    && 0 <= s.taken <= Writes(s)
    && s.w == Position(|s.slots|, Writes(s)) && s.r == Position(|s.slots|, s.taken)
    && Roomy(s)
  }

  /** The number of the oldest frame that the consumer still needs. */
  function Oldest(s: State): int {
    if s.consumer.Using? then s.taken - 1 else s.taken
  }

  /** The frame in use and all unread frames are intact in their slots. */
  ghost predicate Intact(s: State)
    requires Heads(s)
  {
    forall i: nat | Oldest(s) <= i < Writes(s) :: s.slots[Position(|s.slots|, i)] == Full(s.accepted[i])
  }

  ghost predicate ProducerOk(s: State)
    requires Heads(s)
  {
    match s.producer
    case Waiting => true
    case Copying(f) => f == s.accepted[|s.accepted| - 1]
    case Copied(f) => f == s.accepted[|s.accepted| - 1] && s.slots[s.w] == Full(f)
  }

  ghost predicate ConsumerOk(s: State)
    requires Heads(s)
  {
    match s.consumer
    case Polling => true
    case NonEmpty => s.taken < Writes(s)
    case Taken(p) => s.taken < Writes(s) && p == Position(|s.slots|, s.taken)
    case Using(p) => 0 < s.taken && p == Position(|s.slots|, s.taken - 1)
  }

  ghost predicate SeenOk(s: State) {
    && |s.seen| == s.taken - (if s.consumer.Using? then 1 else 0)
    && |s.seen| <= |s.accepted|
    && forall i | 0 <= i < |s.seen| :: s.seen[i] == Full(s.accepted[i])
  }

  ghost predicate ReceivedOk(s: State) {
    s.accepted == Accepted(s.received) && s.packetCounter == LastCounter(s.received)
  }

  ghost predicate Inv(s: State) {
    Heads(s) && Intact(s) && ProducerOk(s) && ConsumerOk(s) && SeenOk(s) && ReceivedOk(s)
  }

  lemma AcceptedAppend(frames: seq<FrameData>, f: FrameData)
    ensures LastCounter(frames + [f]) == f.counter
    ensures Accepted(frames + [f]) ==
            Accepted(frames) + if f.counter == UWrap32(LastCounter(frames) + 1) then [f] else []
  {
    assert (frames + [f])[..|frames|] == frames;
  }

  lemma ReceiveKeeps(s: State, s': State, f: FrameData)
    requires Inv(s) && Receive(s, s', f) && Roomy(s')
    ensures Inv(s')
  {
    AcceptedAppend(s.received, f);
    hide Accepted, LastCounter, UWrap32;
    assert ReceivedOk(s');
    if s'.accepted != s.accepted {
      assert Heads(s') && ProducerOk(s') && ConsumerOk(s') && SeenOk(s');
      CopyHitsNoReader(s, s', f);
    } else {
      assert Heads(s') && Intact(s');
    }
    hide ReceivedOk, Roomy;
  }

  lemma CopyHitsNoReader(s: State, s': State, f: FrameData)
    requires Heads(s) && Intact(s) && Heads(s')
    requires s' == s.(packetCounter := s'.packetCounter, received := s'.received,
                      accepted := s.accepted + [f], producer := Copying(f), slots := s.slots[s.w := Torn])
    requires s.producer == Waiting
    ensures Intact(s')
  {
    forall i: nat | Oldest(s') <= i < Writes(s')
      ensures s'.slots[Position(|s.slots|, i)] == Full(s'.accepted[i])
    {
      PositionsDiffer(|s.slots|, i, Writes(s));
    }
  }

  lemma ProducerKeeps(s: State, s': State)
    requires Inv(s) && (FinishCopy(s, s') || AdvanceWrite(s, s')) && Roomy(s')
    ensures Inv(s')
  {
    hide Accepted, LastCounter;
    var n := |s.slots|;
    if FinishCopy(s, s') {
      forall i: nat | Oldest(s') <= i < Writes(s')
        ensures s'.slots[Position(n, i)] == Full(s'.accepted[i])
      {
        PositionsDiffer(n, i, Writes(s));
      }
    }
  }

  /** To a polling consumer, different heads mean unread frames. */
  lemma HeadsDiffer(s: State)
    requires Heads(s) && s.consumer == Polling
    ensures s.r == s.w <==> s.taken == Writes(s)
  {
    if s.taken < Writes(s) {
      PositionsDiffer(|s.slots|, s.taken, Writes(s));
    }
  }

  lemma ConsumerKeeps(s: State, s': State)
    requires Inv(s) && (Compare(s, s') || TakePointer(s, s') || AdvanceRead(s, s') || UseFrame(s, s'))
    ensures Inv(s')
  {
    hide Accepted, LastCounter;
    if s.consumer == Polling {
      HeadsDiffer(s);
    }
    if AdvanceRead(s, s') {
      assert Heads(s');
      assert Intact(s');
    }
  }

  /** Every step of a roomy run keeps the invariant, whoever takes it. */
  lemma StepKeeps(s: State, s': State)
    requires Inv(s) && Step(s, s') && Roomy(s')
    ensures Inv(s')
  {
    hide Inv, Receive, FinishCopy, AdvanceWrite, Compare, TakePointer, AdvanceRead, UseFrame;
    if f :| Receive(s, s', f) {
      ReceiveKeeps(s, s', f);
    } else if FinishCopy(s, s') || AdvanceWrite(s, s') {
      ProducerKeeps(s, s');
    } else {
      ConsumerKeeps(s, s');
    }
  }

  lemma {:induction false} RunKeeps(run: seq<State>)
    requires IsRun(run) && AllRoomy(run)
    ensures Inv(run[|run| - 1])
    decreases |run|
  {
    var n := |run| - 1;
    if n > 0 {
      hide Inv, Step, Init, Roomy;
      RunKeeps(run[..n]);
      StepKeeps(run[n - 1], run[n]);
    }
  }

  /** In every interleaving with room: the consumer sees the accepted frames in order,
      and while it uses a slot that slot holds the frame it was handed. */
  lemma HandoffSafe(run: seq<State>)
    requires IsRun(run) && AllRoomy(run)
    ensures var s := run[|run| - 1];
            && |s.seen| <= |Accepted(s.received)|
            && (forall i | 0 <= i < |s.seen| :: s.seen[i] == Full(Accepted(s.received)[i]))
            && (s.consumer.Using? ==>
                  && |s.seen| < |Accepted(s.received)| && s.consumer.slot < |s.slots|
                  && s.slots[s.consumer.slot] == Full(Accepted(s.received)[|s.seen|]))
  {
    RunKeeps(run);
    hide Step, Init, IsRun, Accepted, LastCounter;
  }

  // ---------------------------------------------------------------------------
  // The room is exactly what is needed
  // ---------------------------------------------------------------------------

  /** What the consumer relies on: the slot in use holds the frame handed out; the slot
      about to be handed out holds the next frame; and to a polling consumer the heads are
      equal exactly when nothing is unread. */
  ghost predicate Serves(s: State) {
    match s.consumer
    case Polling =>
      s.r == s.w <==> s.taken == Writes(s)
    case NonEmpty =>
      s.r < |s.slots| && s.taken < |s.accepted| && s.slots[s.r] == Full(s.accepted[s.taken])
    case Taken(p) =>
      p < |s.slots| && s.taken < |s.accepted| && s.slots[p] == Full(s.accepted[s.taken])
    case Using(p) =>
      p < |s.slots| && 0 < s.taken <= |s.accepted| && s.slots[p] == Full(s.accepted[s.taken - 1])
  }

  lemma InvServes(s: State)
    requires Inv(s)
    ensures Serves(s)
  {
    if s.consumer == Polling {
      HeadsDiffer(s);
    }
    hide Accepted, LastCounter;
  }

  /** From a state of a run with room, an accepted frame tears the slot that the consumer
      uses or is about to take if and only if there is no room for it. */
  lemma TearsIff(s: State, s': State, f: FrameData)
    requires Inv(s) && s.consumer != Polling && Receive(s, s', f) && s'.accepted != s.accepted
    ensures s'.slots[if s.consumer.NonEmpty? then s.r else s.consumer.slot] == Torn <==> !Roomy(s')
  {
    hide Accepted, LastCounter, UWrap32;
    var n, i := |s.slots|, Oldest(s);
    if |s.accepted| - i == n {
      PositionRepeats(n, i);
    } else {
      PositionsDiffer(n, i, |s.accepted|);
    }
  }

  /** ... and an advance of the write head closes up to a polling consumer's read head,
      hiding size unread frames from it, if and only if there was no room. */
  lemma HidesIff(s: State, s': State)
    requires Inv(s) && s.consumer == Polling && AdvanceWrite(s, s')
    ensures s'.r == s'.w <==> !Roomy(s')
    ensures !Roomy(s') ==> Writes(s') - s'.taken == |s'.slots|
  {
    hide Accepted, LastCounter;
    var n := |s.slots|;
    if Writes(s') - s.taken == n {
      PositionRepeats(n, s.taken);
    } else {
      PositionsDiffer(n, s.taken, Writes(s'));
    }
  }

  /** The first step without room breaks what the consumer relies on. */
  lemma NoRoomShows(s: State, s': State)
    requires Inv(s) && Step(s, s') && !Roomy(s')
    ensures !Serves(s')
  {
    hide Accepted, LastCounter, UWrap32, Intact, ProducerOk, SeenOk, ReceivedOk;
    if f :| Receive(s, s', f) {
      assert s'.accepted != s.accepted;
      TearsIff(s, s', f);
    } else if AdvanceWrite(s, s') {
      if s.consumer == Polling {
        HidesIff(s, s');
      }
    }
  }

  ghost predicate AllServe(run: seq<State>) {
    forall i | 0 <= i < |run| :: Serves(run[i])
  }

  lemma RunPrefix(run: seq<State>, n: nat)
    requires IsRun(run) && 0 < n <= |run|
    ensures IsRun(run[..n]) && run[..n][n - 1] == run[n - 1]
    ensures AllServe(run) ==> AllServe(run[..n])
    ensures AllRoomy(run) ==> AllRoomy(run[..n])
    ensures n < |run| ==> Step(run[n - 1], run[n])
  {
    hide Step, Init, Serves, Roomy;
  }

  lemma RoomyAppend(run: seq<State>, n: nat)
    requires n < |run| && AllRoomy(run[..n]) && Roomy(run[n])
    ensures AllRoomy(run[..n + 1])
    ensures n + 1 == |run| ==> AllRoomy(run)
  {
    hide Roomy;
    assert forall i | 0 <= i < n :: run[..n][i] == run[i];
  }

  lemma Ends(run: seq<State>)
    requires IsRun(run)
    ensures run != [] && (AllServe(run) ==> Serves(run[|run| - 1]))
    ensures |run| == 1 ==> AllRoomy(run)
  {
    hide Serves, Step;
  }

  lemma {:induction false} ServedHasRoom(run: seq<State>)
    requires IsRun(run) && AllServe(run)
    ensures AllRoomy(run)
    decreases |run|
  {
    hide *;
    var n := |run| - 1;
    Ends(run);
    if n > 0 {
      RunPrefix(run, n);
      ServedHasRoom(run[..n]);
      RunKeeps(run[..n]);
      if !Roomy(run[n]) {
        NoRoomShows(run[n - 1], run[n]);
      }
      RoomyAppend(run, n);
    }
  }

  /** An interleaving serves the consumer in all its states if and only if there is room
      in all of them. */
  lemma HandoffSafeIff(run: seq<State>)
    requires IsRun(run)
    ensures AllServe(run) <==> AllRoomy(run)
  {
    if AllServe(run) {
      ServedHasRoom(run);
    }
    if AllRoomy(run) {
      forall i | 0 <= i < |run| ensures Serves(run[i]) {
        RunPrefix(run, i + 1);
        hide *;
        RunKeeps(run[..i + 1]);
        InvServes(run[i]);
      }
    }
    hide IsRun, Roomy, Serves;
  }

  /** Counting a frame as unread only once the write head has advanced past it. */
  predicate RoomyLate(s: State) {
    Writes(s) - s.taken <= |s.slots| - 1
  }

  /** That bound is not enough: with two slots, the consumer can see a frame
      that is being overwritten under its pointer. */
  lemma LateCountingFails() returns (run: seq<State>)
    ensures IsRun(run) && (forall i | 0 <= i < |run| :: RoomyLate(run[i]))
    ensures run[|run| - 1].seen == [Torn]
  {
    var f1, f2, f3 := FrameData(1, []), FrameData(2, []), FrameData(3, []);
    var s0 := State([Unset, Unset], 0, 0, Waiting, Polling, 0, [], [], 0, []);
    var s1 := s0.(packetCounter := 1, received := [f1], accepted := [f1], producer := Copying(f1), slots := [Torn, Unset]);
    var s2 := s1.(producer := Copied(f1), slots := [Full(f1), Unset]);
    var s3 := s2.(producer := Waiting, w := 1);
    var s4 := s3.(consumer := NonEmpty);
    var s5 := s4.(consumer := Taken(0));
    var s6 := s5.(consumer := Using(0), r := 1, taken := 1);
    var s7 := s6.(packetCounter := 2, received := [f1, f2], accepted := [f1, f2], producer := Copying(f2), slots := [Full(f1), Torn]);
    var s8 := s7.(producer := Copied(f2), slots := [Full(f1), Full(f2)]);
    var s9 := s8.(producer := Waiting, w := 0);
    var s10 := s9.(packetCounter := 3, received := [f1, f2, f3], accepted := [f1, f2, f3], producer := Copying(f3), slots := [Torn, Full(f2)]);
    var s11 := s10.(consumer := Polling, seen := [Torn]);
    assert Receive(s0, s1, f1) && FinishCopy(s1, s2) && AdvanceWrite(s2, s3);
    assert Compare(s3, s4) && TakePointer(s4, s5) && AdvanceRead(s5, s6);
    assert Receive(s6, s7, f2) && FinishCopy(s7, s8) && AdvanceWrite(s8, s9);
    assert Receive(s9, s10, f3) && UseFrame(s10, s11);
    hide Receive, FinishCopy, AdvanceWrite, Compare, TakePointer, AdvanceRead, UseFrame;
    run := [s0, s1, s2, s3, s4, s5, s6, s7, s8, s9, s10, s11];
  }
}
