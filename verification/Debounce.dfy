/** Turning a stream of per-window results into stored key presses: a key is stored
    when it is the second window of a run of non-blank results. */
module Debounce {
  import opened Decision

  const NUMBER_OF_BUTTONS := 65
  const CAPACITY := 64
  const TERMINATOR := '\0'

  /** The debouncer's state: the previous result, whether the next non-blank result
      is to be stored, and the zero-terminated log with its write index. */
  datatype State = State(previous: char, permission: bool, index: nat, buttons: seq<char>)
  {
    predicate Valid() {
      index < CAPACITY && |buttons| == NUMBER_OF_BUTTONS
    }
  }

  /** Stores one key and terminates the log after it. */
  function Store(s: State, key: char): (r: State)
    requires s.Valid()
    ensures r.Valid()
  {
    s.(buttons := s.buttons[s.index := key][s.index + 1 := TERMINATOR],
       index := if s.index + 1 >= CAPACITY then 0 else s.index + 1)
  }

  /** The effect of one window's result. */
  function Observe(s: State, result: char): (r: State)
    requires s.Valid()
    ensures r.Valid()
  {
    var stored := if s.permission && result != NO_KEY then Store(s, result) else s;
    stored.(permission := result != NO_KEY && s.previous == NO_KEY, previous := result)
  }

  function ObserveAll(s: State, results: seq<char>): (r: State)
    requires s.Valid()
    ensures r.Valid()
  {
    if results == [] then s else Observe(ObserveAll(s, results[..|results| - 1]), results[|results| - 1])
  }

  lemma {:induction false} ObserveConcat(s: State, a: seq<char>, b: seq<char>)
    requires s.Valid()
    ensures ObserveAll(s, a + b) == ObserveAll(ObserveAll(s, a), b)
  {
    if b == [] {
      assert a + b == a;
    } else {
      assert (a + b)[..|a + b| - 1] == a + b[..|b| - 1];
      ObserveConcat(s, a, b[..|b| - 1]);
    }
  }

  // ---------------------------------------------------------------------------
  // Which results are stored
  // ---------------------------------------------------------------------------

  /** Position i is the second of a maximal run of non-blank results. */
  predicate IsSecond(results: seq<char>, i: nat)
    requires i < |results|
  {
    && 1 <= i
    && results[i] != NO_KEY
    && results[i - 1] != NO_KEY
    && (i == 1 || results[i - 2] == NO_KEY)
  }

  /** The positions, in order, of the results that are stored. */
  function StoredAt(results: seq<char>): seq<nat> {
    if results == [] then []
    else
      var n := |results| - 1;
      StoredAt(results[..n]) + if IsSecond(results, n) then [n] else []
  }

  /** The keys that are stored, in order. */
  function Stored(results: seq<char>): seq<char> {
    if results == [] then []
    else
      var n := |results| - 1;
      Stored(results[..n]) + if IsSecond(results, n) then [results[n]] else []
  }

  /** Adds a whole list of keys to the log. */
  function StoreAll(s: State, keys: seq<char>): (r: State)
    requires s.Valid()
    ensures r.Valid()
    ensures r.previous == s.previous && r.permission == s.permission
  {
    if keys == [] then s else Store(StoreAll(s, keys[..|keys| - 1]), keys[|keys| - 1])
  }

  /** The last result is the first of a run, so the next one is to be stored. */
  predicate Pending(results: seq<char>) {
    var n := |results|;
    n >= 1 && results[n - 1] != NO_KEY && (n == 1 || results[n - 2] == NO_KEY)
  }

  /** The closed form of the state after a run of results from a fresh debouncer. */
  function After(s: State, results: seq<char>): (r: State)
    requires s.Valid()
    ensures r.Valid()
  {
    StoreAll(s, Stored(results)).(
      permission := Pending(results),
      previous := if results == [] then NO_KEY else results[|results| - 1])
  }

  lemma StoreMore(s: State, keys: seq<char>, x: char)
    requires s.Valid()
    ensures StoreAll(s, keys + [x]) == Store(StoreAll(s, keys), x)
    ensures StoreAll(s, keys + []) == StoreAll(s, keys)
  {
    assert keys + [] == keys;
    assert (keys + [x])[..|keys|] == keys;
  }

  lemma AfterStep(s: State, results: seq<char>, x: char)
    requires s.Valid()
    ensures After(s, results + [x]) == Observe(After(s, results), x)
  {
    hide StoreAll, Stored;
    StoredAppend(results, x);
    StoreMore(s, Stored(results), x);
  }

  /** From a fresh debouncer, the log after any run of results is the initial log
      with exactly the second element of each maximal non-blank run stored. */
  lemma {:induction false} DebounceClosedForm(s: State, results: seq<char>)
    requires s.Valid() && s.previous == NO_KEY && !s.permission
    ensures ObserveAll(s, results) == After(s, results)
  {
    if results != [] {
      var n := |results| - 1;
      DebounceClosedForm(s, results[..n]);
      AfterStep(s, results[..n], results[n]);
      assert results[..n] + [results[n]] == results;
      hide After, Observe;
    }
  }

  /** The stored keys are the results at exactly the positions that are second in
      their run, in increasing order. */
  lemma {:induction false} StoredPositions(results: seq<char>)
    ensures var p := StoredAt(results);
            && |p| == |Stored(results)|
            && (forall j | 0 <= j < |p| :: p[j] < |results| && IsSecond(results, p[j]) && Stored(results)[j] == results[p[j]])
            && (forall i | 0 <= i < |results| && IsSecond(results, i) :: i in p)
            && (forall j | 0 < j < |p| :: p[j - 1] < p[j])
  {
    if results != [] {
      var n := |results| - 1;
      var init := results[..n];
      StoredPositions(init);
      assert forall i | 0 <= i < n :: IsSecond(init, i) == IsSecond(results, i);
      hide IsSecond;
    }
  }

  /** Two stores are at least three windows apart. */
  lemma StoresApart(results: seq<char>, i: nat, j: nat)
    requires i < j < |results| && IsSecond(results, i) && IsSecond(results, j)
    ensures i + 3 <= j
  {
  }

  lemma {:induction false} StoreNumber(results: seq<char>, j: nat)
    requires j < |StoredAt(results)|
    ensures 3 * j + 1 <= StoredAt(results)[j]
  {
    StoredPositions(results);
    var p := StoredAt(results);
    if j > 0 {
      StoreNumber(results, j - 1);
      StoresApart(results, p[j - 1], p[j]);
    }
  }

  /** So n windows cannot store more than (n + 1) / 3 keys. */
  lemma StoreRate(results: seq<char>)
    ensures 3 * |Stored(results)| <= |results| + 1
  {
    StoredPositions(results);
    var p := StoredAt(results);
    if p != [] {
      StoreNumber(results, |p| - 1);
    }
  }

  // ---------------------------------------------------------------------------
  // The same, run by run
  // ---------------------------------------------------------------------------

  /** The number of leading results that are non-blank. */
  function RunLength(results: seq<char>): (n: nat)
    ensures n <= |results|
  {
    if results == [] || results[0] == NO_KEY then 0 else 1 + RunLength(results[1..])
  }

  /** One key per maximal run of at least two non-blank results: its second. */
  function SecondOfEachRun(results: seq<char>): seq<char>
    decreases |results|
  {
    if results == [] then []
    else if results[0] == NO_KEY then SecondOfEachRun(results[1..])
    else
      var n := RunLength(results);
      (if n >= 2 then [results[1]] else []) + SecondOfEachRun(results[n..])
  }

  /** Two pieces of a run of results that do not split a run can be debounced apart. */
  lemma {:induction false} StoredConcat(a: seq<char>, b: seq<char>)
    requires a == [] || b == [] || a[|a| - 1] == NO_KEY || b[0] == NO_KEY
    ensures Stored(a + b) == Stored(a) + Stored(b)
  {
    if b == [] {
      assert a + b == a;
    } else {
      var n := |b| - 1;
      assert a + b[..n] + [b[n]] == a + b && b[..n] + [b[n]] == b;
      StoredAppend(a + b[..n], b[n]);
      StoredAppend(b[..n], b[n]);
      PendingConcat(a, b[..n], b[n]);
      hide Stored, Pending;
      StoredConcat(a, b[..n]);
    }
  }

  lemma PendingConcat(a: seq<char>, c: seq<char>, x: char)
    requires a == [] || a[|a| - 1] == NO_KEY || (c + [x])[0] == NO_KEY
    ensures Pending(a + c) && x != NO_KEY <==> Pending(c) && x != NO_KEY
  {
  }

  lemma StoredAppend(a: seq<char>, x: char)
    ensures Stored(a + [x]) == Stored(a) + if Pending(a) && x != NO_KEY then [x] else []
  {
    assert (a + [x])[..|a|] == a;
    assert IsSecond(a + [x], |a|) <==> Pending(a) && x != NO_KEY;
  }

  lemma {:induction false} StoredInRun(run: seq<char>)
    requires forall i | 0 <= i < |run| :: run[i] != NO_KEY
    ensures Stored(run) == if |run| >= 2 then [run[1]] else []
  {
    if |run| > 0 {
      StoredInRun(run[..|run| - 1]);
    }
  }

  lemma {:induction false} RunIsMaximal(results: seq<char>)
    ensures var n := RunLength(results);
            && (forall i | 0 <= i < n :: results[i] != NO_KEY)
            && (n < |results| ==> results[n] == NO_KEY)
  {
    if results != [] && results[0] != NO_KEY {
      RunIsMaximal(results[1..]);
    }
  }

  /** The stored keys are the second element of each maximal non-blank run. */
  lemma {:induction false} StoredIsSecondOfEachRun(results: seq<char>)
    ensures Stored(results) == SecondOfEachRun(results)
    decreases |results|
  {
    if results != [] {
      var n := if results[0] == NO_KEY then 1 else RunLength(results);
      RunIsMaximal(results);
      var a, b := results[..n], results[n..];
      assert results == a + b;
      StoredConcat(a, b);
      StoredIsSecondOfEachRun(b);
      if results[0] == NO_KEY {
        assert a == [NO_KEY] && Stored(a) == [];
      } else {
        StoredInRun(a);
      }
    }
  }

  // ---------------------------------------------------------------------------
  // What the log shows
  // ---------------------------------------------------------------------------

  lemma {:induction false} LogIndex(s: State, keys: seq<char>)
    requires s.Valid() && s.index == 0
    ensures StoreAll(s, keys).index == |keys| % 64
  {
    if keys != [] {
      var n := |keys| - 1;
      LogIndex(s, keys[..n]);
      var t := StoreAll(s, keys[..n]);
      assert StoreAll(s, keys).index == if t.index + 1 >= CAPACITY then 0 else t.index + 1;
    }
  }

  /** After k stores into an emptied log, the slots below the write index k mod 64
      hold the latest keys in order, and the log ends there, or after all 64 slots
      when the index has just wrapped around. */
  lemma {:induction false} LogContents(s: State, keys: seq<char>)
    requires s.Valid() && s.index == 0
    ensures var r, k := StoreAll(s, keys), |keys|;
            && r.index == k % CAPACITY <= k
            && r.buttons[..r.index] == keys[k - r.index..]
            && (r.index > 0 ==> r.buttons[r.index] == TERMINATOR)
            && (k > 0 && r.index == 0 ==>
                  && CAPACITY <= k
                  && r.buttons[..CAPACITY] == keys[k - CAPACITY..]
                  && r.buttons[CAPACITY] == TERMINATOR)
  {
    if keys != [] {
      hide StoreAll, Store;
      var n := |keys| - 1;
      LogIndex(s, keys);
      LogIndex(s, keys[..n]);
      NextIndex(n);
      StoreLast(s, keys);
      LogContents(s, keys[..n]);
      LogStep(StoreAll(s, keys[..n]), keys, n);
    }
  }

  lemma LogStep(t: State, keys: seq<char>, n: nat)
    requires t.Valid() && |keys| == n + 1 && t.index <= n
    requires t.buttons[..t.index] == keys[..n][n - t.index..]
    ensures var r := Store(t, keys[n]);
            && r.buttons[..t.index + 1] == keys[n - t.index..]
            && r.buttons[t.index + 1] == TERMINATOR
  {
    var i, r := n - t.index, Store(t, keys[n]);
    assert r.buttons[..t.index + 1] == t.buttons[..t.index] + [keys[n]];
    assert keys[..n][i..] == keys[i..n];
    assert keys[i..n] + [keys[n]] == keys[i..];
  }

  /** Behind the write index the log holds the keys of the lap before, or, during the first
      lap, whatever it held at first; the slot behind the last ends the log once a lap is
      complete. */
  lemma {:induction false} LogOlder(s: State, keys: seq<char>, j: nat)
    requires s.Valid() && s.index == 0 && |keys| % 64 < j <= 64
    ensures StoreAll(s, keys).buttons[j] == Behind(s, keys, |keys| % 64, j)
  {
    if keys != [] {
      hide *;
      var n := |keys| - 1;
      LogIndex(s, keys[..n]);
      StoreLast(s, keys);
      NextIndex(n);
      if n % 64 == 63 {
        LogContents(s, keys[..n]);
        LapEnds(s, StoreAll(s, keys[..n]), keys, n, j);
      } else {
        StoreBehind(StoreAll(s, keys[..n]), keys[n], j);
        LogOlder(s, keys[..n], j);
        BehindStays(s, keys, n, n % 64, j);
      }
    }
  }

  /** What slot j behind write index i is expected to hold. */
  function Behind(s: State, keys: seq<char>, i: nat, j: nat): char
    requires s.Valid() && i < j <= 64
  {
    var k := |keys|;
    if k < 64 then s.buttons[j] else if j < 64 && 64 <= k - i + j then keys[k - i - 64 + j] else '\0'
  }

  lemma BehindStays(s: State, keys: seq<char>, n: nat, i: nat, j: nat)
    requires s.Valid() && |keys| == n + 1 && i + 1 < j <= 64 && n != 63 && i <= n
    ensures Behind(s, keys[..n], i, j) == Behind(s, keys, i + 1, j)
  {
  }

  lemma StoreLast(s: State, keys: seq<char>)
    requires s.Valid() && keys != []
    ensures StoreAll(s, keys) == Store(StoreAll(s, keys[..|keys| - 1]), keys[|keys| - 1])
  {
  }

  lemma StoreBehind(t: State, key: char, j: nat)
    requires t.Valid() && t.index + 1 < j <= 64
    ensures Store(t, key).buttons[j] == t.buttons[j]
  {
  }

  lemma LapEnds(s: State, t: State, keys: seq<char>, n: nat, j: nat)
    requires s.Valid() && t.Valid() && t.index == 63 && |keys| == n + 1 && 63 <= n && 0 < j <= 64
    requires t.buttons[..t.index] == keys[..n][n - t.index..]
    ensures Store(t, keys[n]).buttons[j] == Behind(s, keys, 0, j)
  {
    if j < 63 {
      assert t.buttons[j] == t.buttons[..63][j];
      assert keys[..n][n - 63..][j] == keys[n - 63 + j];
    }
  }

  lemma NextIndex(n: nat)
    ensures n % 64 == 63 ==> (n + 1) % 64 == 0 && 63 <= n
    ensures n % 64 != 63 ==> (n + 1) % 64 == n % 64 + 1 && n != 63
    ensures n % 64 <= n
  {
  }
}
