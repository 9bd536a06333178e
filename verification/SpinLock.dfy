/** The re-entrant spin lock, step by step, for any number of threads. */
module SpinLock {
  const NO_ONE := 0
  const COUNTS := 0x1_0000_0000  // the lock count is a 32-bit unsigned number

  /** Thread identities are not zero: zero marks the free lock. */
  type Tid = t: nat | t != NO_ONE witness 1

  /** Where a thread is inside tryLock (first three) or unlock (the rest). */
  datatype Pc =
    | Outside
    | Swapping            // not the owner: about to compare-and-swap 0 for itself
    | Counting            // has the lock: about to load the count
    | Incrementing(v: nat)  // about to store the incremented count
    | Uncounting          // is the owner: about to load the count
    | Decrementing(v: nat)  // about to store the decremented count
    | Deciding            // about to test the count for zero
    | Freeing             // about to compare-and-swap itself for 0

  /** A thread: its position, how many of its tryLock calls returned true minus how
      many of its unlock calls did, and what its last call returned. */
  datatype Thread = Thread(pc: Pc, held: nat, result: bool)

  datatype State = State(owner: nat, count: nat, threads: map<Tid, Thread>)

  ghost predicate Init(s: State) {
    && s.owner == NO_ONE && s.count == 0
    && forall t | t in s.threads :: s.threads[t].pc == Outside && s.threads[t].held == 0
  }

  function Moved(s: State, t: Tid, th: Thread): State {
    s.(threads := s.threads[t := th])
  }

  // ---------------------------------------------------------------------------
  // The steps of one thread
  // ---------------------------------------------------------------------------

  /** tryLock begins: is this thread the owner already? */
  ghost predicate TryEnter(s: State, s': State, t: Tid) {
    && t in s.threads && s.threads[t].pc == Outside
    && s' == Moved(s, t, s.threads[t].(pc := if s.owner == t then Counting else Swapping))
  }

  /** The atomic swap; on failure tryLock returns false. */
  ghost predicate TrySwap(s: State, s': State, t: Tid) {
    && t in s.threads && s.threads[t].pc == Swapping
    && s' == if s.owner == NO_ONE
             then Moved(s, t, s.threads[t].(pc := Counting)).(owner := t)
             else Moved(s, t, s.threads[t].(pc := Outside, result := false))
  }

  ghost predicate LoadForIncrement(s: State, s': State, t: Tid) {
    && t in s.threads && s.threads[t].pc == Counting
    && s' == Moved(s, t, s.threads[t].(pc := Incrementing((s.count + 1) % COUNTS)))
  }

  /** The incremented count is stored and tryLock returns true. */
  ghost predicate StoreIncrement(s: State, s': State, t: Tid) {
    && t in s.threads && s.threads[t].pc.Incrementing?
    && s' == Moved(s, t, Thread(Outside, s.threads[t].held + 1, true)).(count := s.threads[t].pc.v)
  }

  /** unlock begins: a thread that is not the owner returns false. */
  ghost predicate UnlockEnter(s: State, s': State, t: Tid) {
    && t in s.threads && s.threads[t].pc == Outside
    && s' == Moved(s, t, if s.owner == t then s.threads[t].(pc := Uncounting) else s.threads[t].(result := false))
  }

  ghost predicate LoadForDecrement(s: State, s': State, t: Tid) {
    && t in s.threads && s.threads[t].pc == Uncounting
    && s' == Moved(s, t, s.threads[t].(pc := Decrementing((s.count + COUNTS - 1) % COUNTS)))
  }

  ghost predicate StoreDecrement(s: State, s': State, t: Tid) {
    && t in s.threads && s.threads[t].pc.Decrementing?
    && s' == Moved(s, t, s.threads[t].(pc := Deciding)).(count := s.threads[t].pc.v)
  }

  function Release(th: Thread, freed: bool): Thread {
    Thread(Outside, if freed && th.held > 0 then th.held - 1 else th.held, freed)
  }

  /** A count other than zero: unlock returns true. */
  ghost predicate Decide(s: State, s': State, t: Tid) {
    && t in s.threads && s.threads[t].pc == Deciding
    && s' == Moved(s, t, if s.count != 0 then Release(s.threads[t], true) else s.threads[t].(pc := Freeing))
  }

  /** The atomic swap back; its success is what unlock returns. */
  ghost predicate Free(s: State, s': State, t: Tid) {
    && t in s.threads && s.threads[t].pc == Freeing
    && s' == Moved(s, t, Release(s.threads[t], s.owner == t)).(owner := if s.owner == t then NO_ONE else s.owner)
  }

  ghost predicate StepOf(s: State, s': State, t: Tid) {
    || TryEnter(s, s', t) || TrySwap(s, s', t) || LoadForIncrement(s, s', t) || StoreIncrement(s, s', t)
    || UnlockEnter(s, s', t) || LoadForDecrement(s, s', t) || StoreDecrement(s, s', t)
    || Decide(s, s', t) || Free(s, s', t)
  }

  ghost predicate Step(s: State, s': State) {
    exists t: Tid :: StepOf(s, s', t)
  }

  ghost predicate IsRun(run: seq<State>) {
    && run != [] && Init(run[0])
    && forall i | 0 < i < |run| :: Step(run[i - 1], run[i])
  }

  /** No thread nests more than n deep. */
  ghost predicate DepthAtMost(s: State, n: nat) {
    forall t | t in s.threads :: s.threads[t].held <= n
  }

  ghost predicate NestsAtMost(run: seq<State>, n: nat) {
    forall i | 0 <= i < |run| :: DepthAtMost(run[i], n)
  }

  /** No thread nests more than 2^32 deep. */
  ghost predicate Nested(s: State) {
    DepthAtMost(s, COUNTS)
  }

  // ---------------------------------------------------------------------------
  // The invariant
  // ---------------------------------------------------------------------------

  /** Inside a part of a call that only the owner reaches. */
  predicate Owning(pc: Pc) {
    pc != Outside && pc != Swapping
  }

  /** The part of the thread's depth that the count has already given up. */
  function InFlight(pc: Pc): nat {
    if pc == Deciding || pc == Freeing then 1 else 0
  }

  ghost predicate ThreadOk(s: State, t: Tid)
    requires t in s.threads
  {
    var th := s.threads[t];
    && (Owning(th.pc) || th.held > 0 ==> s.owner == t)
    && (s.owner == t ==>
          && (th.held > 0 || th.pc == Counting || th.pc.Incrementing?)
          && s.count == (th.held - InFlight(th.pc)) % COUNTS)
    && (th.pc.Incrementing? ==> th.pc.v == (s.count + 1) % COUNTS)
    && (th.pc.Decrementing? ==> th.pc.v == (s.count + COUNTS - 1) % COUNTS)
    && (th.pc == Freeing ==> th.held == 1)
  }

  ghost predicate Inv(s: State) {
    && s.count < COUNTS
    && (forall t | t in s.threads :: ThreadOk(s, t))
    && (s.owner != NO_ONE ==> s.owner in s.threads)
    && (s.owner == NO_ONE ==> s.count == 0)
  }

  /** A step leaves every other thread's own state alone. */
  lemma OthersUntouched(s: State, s': State, t: Tid)
    requires StepOf(s, s', t)
    ensures t in s.threads && s'.threads.Keys == s.threads.Keys
    ensures forall u | u in s.threads && u != t :: s'.threads[u] == s.threads[u]
  {
  }

  /** Only the owner changes the count, and only a free lock or its owner changes
      the owner. */
  lemma OwnershipRules(s: State, s': State, t: Tid)
    requires Inv(s) && StepOf(s, s', t)
    ensures s'.count != s.count ==> s.owner == t
    ensures s'.owner != s.owner ==> (s.owner == NO_ONE && s'.owner == t) || (s.owner == t && s'.owner == NO_ONE)
  {
    assert ThreadOk(s, t);
  }

  /** Unless it swaps itself into a free lock, a non-owner changes nothing but its own
      position and result, and its call, once over, returned false. */
  lemma OutsiderChangesNothing(s: State, s': State, t: Tid)
    requires Inv(s) && StepOf(s, s', t) && s.owner != t
    requires s.owner == NO_ONE ==> !TrySwap(s, s', t)
    ensures s' == Moved(s, t, s'.threads[t]) && s'.threads[t].held == s.threads[t].held
    ensures s'.threads[t].pc == Outside ==> !s'.threads[t].result
  {
    assert ThreadOk(s, t);
  }

  lemma LockerOk(s: State, s': State, t: Tid)
    requires Inv(s) && Nested(s)
    requires TryEnter(s, s', t) || TrySwap(s, s', t) || LoadForIncrement(s, s', t) || StoreIncrement(s, s', t)
    ensures ThreadOk(s', t) && s'.count < COUNTS && (s'.owner == NO_ONE ==> s'.count == 0)
  {
    assert ThreadOk(s, t);
  }

  lemma UnlockerOk(s: State, s': State, t: Tid)
    requires Inv(s) && Nested(s)
    requires UnlockEnter(s, s', t) || LoadForDecrement(s, s', t) || StoreDecrement(s, s', t)
    ensures ThreadOk(s', t) && s'.count < COUNTS && (s'.owner == NO_ONE ==> s'.count == 0)
  {
    assert ThreadOk(s, t);
  }

  lemma ReleaserOk(s: State, s': State, t: Tid)
    requires Inv(s) && Nested(s) && (Decide(s, s', t) || Free(s, s', t))
    ensures ThreadOk(s', t) && s'.count < COUNTS && (s'.owner == NO_ONE ==> s'.count == 0)
  {
    assert ThreadOk(s, t);
  }

  lemma StepperOk(s: State, s': State, t: Tid)
    requires Inv(s) && StepOf(s, s', t) && Nested(s)
    ensures t in s'.threads && ThreadOk(s', t)
    ensures s'.count < COUNTS && (s'.owner == NO_ONE ==> s'.count == 0)
  {
    OthersUntouched(s, s', t);
    hide Inv, Nested, ThreadOk, TryEnter, TrySwap, LoadForIncrement, StoreIncrement, UnlockEnter, LoadForDecrement,
      StoreDecrement, Decide, Free;
    if Decide(s, s', t) || Free(s, s', t) {
      ReleaserOk(s, s', t);
    } else if UnlockEnter(s, s', t) || LoadForDecrement(s, s', t) || StoreDecrement(s, s', t) {
      UnlockerOk(s, s', t);
    } else {
      LockerOk(s, s', t);
    }
  }

  lemma StepKeeps(s: State, s': State)
    requires Inv(s) && Step(s, s') && Nested(s)
    ensures Inv(s')
  {
    var t: Tid :| StepOf(s, s', t);
    StepperOk(s, s', t);
    OthersUntouched(s, s', t);
    OwnershipRules(s, s', t);
    forall u | u in s'.threads ensures ThreadOk(s', u) {
      assert ThreadOk(s, u);
      hide StepOf;
    }
    hide StepOf, ThreadOk;
  }

  lemma {:induction false} RunKeeps(run: seq<State>)
    requires IsRun(run) && NestsAtMost(run, COUNTS)
    ensures Inv(run[|run| - 1])
    decreases |run|
  {
    var n := |run| - 1;
    if n > 0 {
      hide Inv, Step, Init, DepthAtMost;
      RunKeeps(run[..n]);
      StepKeeps(run[n - 1], run[n]);
    } else {
      hide Step;
    }
  }

  /** Mutual exclusion: in every run that does not nest beyond 2^32, at most one
      thread holds the lock, it is the recorded owner, and the count is its depth up
      to its own unlock in flight. */
  lemma MutualExclusion(run: seq<State>, t: Tid, u: Tid)
    requires IsRun(run) && NestsAtMost(run, COUNTS)
    requires t in run[|run| - 1].threads && u in run[|run| - 1].threads
    ensures var s := run[|run| - 1];
            && (s.threads[t].held > 0 ==> s.owner == t && s.count == (s.threads[t].held - InFlight(s.threads[t].pc)) % COUNTS)
            && (s.threads[t].held > 0 && s.threads[u].held > 0 ==> t == u)
  {
    RunKeeps(run);
    hide IsRun, NestsAtMost;
    assert ThreadOk(run[|run| - 1], t) && ThreadOk(run[|run| - 1], u);
  }

  /** An owner's unlock always returns true, and frees the lock exactly when it gives
      up the last level. */
  lemma UnlockSucceeds(s: State, s': State, t: Tid)
    requires Inv(s) && Nested(s) && (Decide(s, s', t) || Free(s, s', t))
    ensures s'.threads[t].pc == Outside ==>
              && s'.threads[t].result
              && s'.threads[t].held == s.threads[t].held - 1
              && (s'.owner == NO_ONE <==> s'.threads[t].held == 0)
    ensures s'.threads[t].pc != Outside ==> s'.threads[t].pc == Freeing && s.threads[t].held == 1
  {
    assert ThreadOk(s, t);
  }

  // ---------------------------------------------------------------------------
  // The nesting bound is exact
  // ---------------------------------------------------------------------------

  /** Thread 1 has locked n times, thread 2 never. */
  function Deep(n: nat): State {
    State(if n == 0 then NO_ONE else 1, n % COUNTS,
          map[1 := Thread(Outside, n, n > 0), 2 := Thread(Outside, 0, false)])
  }

  /** A path of steps between two states, none of them nested more than n deep. */
  ghost predicate Path(s: State, path: seq<State>, s': State, n: nat) {
    && path != [] && path[0] == s && path[|path| - 1] == s' && NestsAtMost(path, n)
    && forall i | 0 < i < |path| :: Step(path[i - 1], path[i])
  }

  lemma Extend(run: seq<State>, path: seq<State>, s': State, n: nat)
    requires IsRun(run) && NestsAtMost(run, n) && Path(run[|run| - 1], path, s', n)
    ensures var longer := run + path[1..];
            IsRun(longer) && NestsAtMost(longer, n) && longer[|longer| - 1] == s'
  {
    hide Step, Init, DepthAtMost;
    var longer := run + path[1..];
    forall i | 0 < i < |longer| ensures Step(longer[i - 1], longer[i]) {
      if i >= |run| {
        assert longer[i] == path[i - |run| + 1] && longer[i - 1] == path[i - |run|];
      }
    }
    forall i | 0 <= i < |longer| ensures DepthAtMost(longer[i], n) {
      if i >= |run| {
        assert longer[i] == path[i - |run| + 1];
      }
    }
  }

  /** One more lock by thread 1. */
  lemma LockAgain(n: nat) returns (path: seq<State>)
    requires 0 < n
    ensures Path(Deep(n), path, Deep(n + 1), n + 1)
  {
    var s := Deep(n);
    var th := s.threads[1];
    var a := Moved(s, 1, th.(pc := Counting));
    var b := Moved(a, 1, th.(pc := Incrementing((n + 1) % COUNTS)));
    var c := Moved(b, 1, Thread(Outside, n + 1, true)).(count := (n + 1) % COUNTS);
    assert TryEnter(s, a, 1) && LoadForIncrement(a, b, 1) && StoreIncrement(b, c, 1);
    assert StepOf(s, a, 1) && StepOf(a, b, 1) && StepOf(b, c, 1);
    assert c.threads == Deep(n + 1).threads;
    path := [s, a, b, c];
  }

  lemma LockFirst() returns (path: seq<State>)
    ensures Path(Deep(0), path, Deep(1), 1)
  {
    var s := Deep(0);
    var th := s.threads[1];
    var a := Moved(s, 1, th.(pc := Swapping));
    var b := Moved(a, 1, th.(pc := Counting)).(owner := 1);
    var c := Moved(b, 1, th.(pc := Incrementing(1)));
    var d := Moved(c, 1, Thread(Outside, 1, true)).(count := 1);
    assert TryEnter(s, a, 1) && TrySwap(a, b, 1) && LoadForIncrement(b, c, 1) && StoreIncrement(c, d, 1);
    assert StepOf(s, a, 1) && StepOf(a, b, 1) && StepOf(b, c, 1) && StepOf(c, d, 1);
    assert d.threads == Deep(1).threads;
    path := [s, a, b, c, d];
  }

  lemma DeeperAllowed(run: seq<State>, m: nat, n: nat)
    requires NestsAtMost(run, m) && m <= n
    ensures NestsAtMost(run, n)
  {
  }

  lemma {:induction false} Climb(n: nat) returns (run: seq<State>)
    ensures IsRun(run) && NestsAtMost(run, n) && run[|run| - 1] == Deep(n)
  {
    if n == 0 {
      run := [Deep(0)];
    } else {
      hide *;
      run := Climb(n - 1);
      DeeperAllowed(run, n - 1, n);
      var path;
      if n == 1 {
        path := LockFirst();
      } else {
        path := LockAgain(n - 1);
      }
      Extend(run, path, Deep(n), n);
      run := run + path[1..];
    }
  }

  /** Thread 1 at some point of a call, thread 2 never active. */
  function Alone(owner: nat, count: nat, pc: Pc, held: nat): State {
    State(owner, count, map[1 := Thread(pc, held, true), 2 := Thread(Outside, 0, false)])
  }

  /** The steps of an unlock that finds the count at one. */
  lemma UnlockSteps(held: nat)
    requires 0 < held
    ensures Step(Alone(1, 1, Outside, held), Alone(1, 1, Uncounting, held))
    ensures Step(Alone(1, 1, Uncounting, held), Alone(1, 1, Decrementing(0), held))
    ensures Step(Alone(1, 1, Decrementing(0), held), Alone(1, 0, Deciding, held))
    ensures Step(Alone(1, 0, Deciding, held), Alone(1, 0, Freeing, held))
    ensures Step(Alone(1, 0, Freeing, held), Alone(NO_ONE, 0, Outside, held - 1))
  {
    UnlockBegins(held);
    UnlockFrees(held);
  }

  lemma UnlockBegins(held: nat)
    ensures Step(Alone(1, 1, Outside, held), Alone(1, 1, Uncounting, held))
    ensures Step(Alone(1, 1, Uncounting, held), Alone(1, 1, Decrementing(0), held))
    ensures Step(Alone(1, 1, Decrementing(0), held), Alone(1, 0, Deciding, held))
  {
    var a, b := Alone(1, 1, Outside, held), Alone(1, 1, Uncounting, held);
    var c, d := Alone(1, 1, Decrementing(0), held), Alone(1, 0, Deciding, held);
    assert UnlockEnter(a, b, 1) && LoadForDecrement(b, c, 1) && StoreDecrement(c, d, 1);
    assert StepOf(a, b, 1) && StepOf(b, c, 1) && StepOf(c, d, 1);
  }

  lemma UnlockFrees(held: nat)
    requires 0 < held
    ensures Step(Alone(1, 0, Deciding, held), Alone(1, 0, Freeing, held))
    ensures Step(Alone(1, 0, Freeing, held), Alone(NO_ONE, 0, Outside, held - 1))
  {
    var a, b, c := Alone(1, 0, Deciding, held), Alone(1, 0, Freeing, held), Alone(NO_ONE, 0, Outside, held - 1);
    assert Decide(a, b, 1) && Free(b, c, 1);
    assert StepOf(a, b, 1) && StepOf(b, c, 1);
  }

  lemma AloneDepth(owner: nat, count: nat, pc: Pc, held: nat, n: nat)
    requires held <= n
    ensures DepthAtMost(Alone(owner, count, pc, held), n)
  {
  }

  lemma DeepAlone()
    ensures Deep(COUNTS + 1) == Alone(1, 1, Outside, COUNTS + 1)
  {
  }

  /** One unlock after 2^32 + 1 locks. */
  lemma UnlockTooDeep() returns (path: seq<State>, s': State)
    ensures Path(Deep(COUNTS + 1), path, s', COUNTS + 1)
    ensures s' == Alone(NO_ONE, 0, Outside, COUNTS)
  {
    hide Step, Alone, Deep, DepthAtMost;
    var held := COUNTS + 1;
    DeepAlone();
    UnlockSteps(held);
    AloneDepth(1, 1, Outside, held, held);
    AloneDepth(1, 1, Uncounting, held, held);
    AloneDepth(1, 1, Decrementing(0), held, held);
    AloneDepth(1, 0, Deciding, held, held);
    AloneDepth(1, 0, Freeing, held, held);
    AloneDepth(NO_ONE, 0, Outside, COUNTS, held);
    s' := Alone(NO_ONE, 0, Outside, COUNTS);
    path := [Deep(held), Alone(1, 1, Uncounting, held), Alone(1, 1, Decrementing(0), held), Alone(1, 0, Deciding, held),
             Alone(1, 0, Freeing, held), s'];
  }

  /** A thread locks a free lock. */
  lemma TakeFree(s: State, t: Tid) returns (path: seq<State>, s': State)
    requires s.owner == NO_ONE && s.count == 0 && t in s.threads && s.threads[t] == Thread(Outside, 0, false)
    requires DepthAtMost(s, COUNTS + 1)
    ensures Path(s, path, s', COUNTS + 1)
    ensures s'.threads == s.threads[t := Thread(Outside, 1, true)]
  {
    var th := s.threads[t];
    var a := Moved(s, t, th.(pc := Swapping));
    var b := Moved(a, t, th.(pc := Counting)).(owner := t);
    var c := Moved(b, t, th.(pc := Incrementing(1)));
    s' := Moved(c, t, Thread(Outside, 1, true)).(count := 1);
    assert TryEnter(s, a, t) && TrySwap(a, b, t) && LoadForIncrement(b, c, t) && StoreIncrement(c, s', t);
    assert StepOf(s, a, t) && StepOf(a, b, t) && StepOf(b, c, t) && StepOf(c, s', t);
    path := [s, a, b, c, s'];
  }

  /** Beyond the bound the lock fails: after 2^32 + 1 locks the count is one, a
      single unlock frees the lock, and a second thread can take it while the first
      still holds it 2^32 times. No thread ever nests deeper than 2^32 + 1. */
  lemma BeyondTheBound() returns (run: seq<State>)
    ensures IsRun(run) && NestsAtMost(run, COUNTS + 1)
    ensures var s := run[|run| - 1];
            s.threads.Keys == {1, 2} && s.threads[1].held == 0x1_0000_0000 && s.threads[2].held == 1
  {
    assert 0 < COUNTS;
    hide *;
    run := Climb(COUNTS + 1);
    var path, s := UnlockTooDeep();
    Extend(run, path, s, COUNTS + 1);
    run := run + path[1..];
    AloneIdle(COUNTS);
    path, s := TakeFree(s, 2);
    Extend(run, path, s, COUNTS + 1);
    run := run + path[1..];
  }

  lemma AloneIdle(held: nat)
    ensures var s := Alone(NO_ONE, 0, Outside, held);
            && s.owner == NO_ONE && s.count == 0 && s.threads.Keys == {1, 2} && DepthAtMost(s, held + 1)
            && s.threads[1].held == held && s.threads[2] == Thread(Outside, 0, false)
  {
  }

  /** At most one thread holds the lock. */
  ghost predicate Exclusive(s: State) {
    forall t, u | t in s.threads && u in s.threads && s.threads[t].held > 0 && s.threads[u].held > 0 :: t == u
  }

  /** Mutual exclusion holds in all runs that nest at most n deep if and only if n is at
      most 2^32. */
  lemma NestingIff(n: nat)
    ensures (forall run: seq<State> | IsRun(run) && NestsAtMost(run, n) :: Exclusive(run[|run| - 1])) <==>
            n <= 0x1_0000_0000
  {
    hide Step, Init, DepthAtMost, Exclusive;
    if n <= COUNTS {
      forall run: seq<State> | IsRun(run) && NestsAtMost(run, n) ensures Exclusive(run[|run| - 1]) {
        ShallowExclusive(run, n);
      }
    } else {
      var run := BeyondTheBound();
      DeeperAllowed(run, COUNTS + 1, n);
      TwoHolders(run[|run| - 1]);
    }
  }

  lemma ShallowExclusive(run: seq<State>, n: nat)
    requires IsRun(run) && NestsAtMost(run, n) && n <= COUNTS
    ensures Exclusive(run[|run| - 1])
  {
    DeeperAllowed(run, n, COUNTS);
    var s := run[|run| - 1];
    hide Step, Init, DepthAtMost;
    forall t, u | t in s.threads && u in s.threads && s.threads[t].held > 0 && s.threads[u].held > 0
      ensures t == u
    {
      MutualExclusion(run, t, u);
    }
  }

  lemma TwoHolders(s: State)
    requires s.threads.Keys == {1, 2} && s.threads[1].held == COUNTS && s.threads[2].held == 1
    ensures !Exclusive(s)
  {
    assert 1 in s.threads && 2 in s.threads;
  }
}
