/** A ring buffer without a fullness check: the write head may run over the read
    head, which silently empties the buffer. */
module RingBuffer {
  import opened Arithmetic
  import opened Options

  // ---------------------------------------------------------------------------
  // As values
  // ---------------------------------------------------------------------------

  datatype Ring<T> = Ring(slots: seq<T>, r: nat, w: nat)
  {
    predicate Valid() {
      r < |slots| && w < |slots|
    }
  }

  /** The head position after position i in a buffer of n slots. */
  function Next(i: nat, n: nat): (j: nat)
    requires i < n
    ensures j < n
  {
    if i == n - 1 then 0 else i + 1
  }

  function AfterWrite<T>(s: Ring<T>, t: T): (s': Ring<T>)
    requires s.Valid()
    ensures s'.Valid()
  {
    s.(slots := s.slots[s.w := t], w := Next(s.w, |s.slots|))
  }

  /** The slot handed out by a read, if any, and the state after it. */
  function AfterRead<T>(s: Ring<T>): (p: (Ring<T>, Option<nat>))
    requires s.Valid()
    ensures p.0.Valid()
  {
    if s.r == s.w then (s, None) else (s.(r := Next(s.r, |s.slots|)), Some(s.r))
  }

  /** What reads would return, oldest first. */
  function Contents<T>(s: Ring<T>): (c: seq<T>)
    requires s.Valid()
    ensures |c| < |s.slots|
  {
    if s.r <= s.w then s.slots[s.r..s.w] else s.slots[s.r..] + s.slots[..s.w]
  }

  /** A write appends, unless size - 1 elements are unread: then all are lost. */
  lemma WriteContents<T>(s: Ring<T>, t: T)
    requires s.Valid()
    ensures Contents(AfterWrite(s, t)) == if |Contents(s)| == |s.slots| - 1 then [] else Contents(s) + [t]
  {
    var s' := AfterWrite(s, t);
    if s.r <= s.w {
      if s.w == |s.slots| - 1 {
        if s.r > 0 {
          assert s'.slots[s.r..] == s.slots[s.r..s.w] + [t];
          assert s'.slots[..0] == [];
        }
      } else {
        assert s'.slots[s.r..s.w + 1] == s.slots[s.r..s.w] + [t];
      }
    } else if s'.w != s.r {
      assert s'.slots[..s.w + 1] == s.slots[..s.w] + [t];
      assert s'.slots[s.r..] == s.slots[s.r..];
    }
  }

  /** A read returns the oldest element, or nothing exactly when there is none. */
  lemma ReadContents<T>(s: Ring<T>)
    requires s.Valid()
    ensures var (s', slot) := AfterRead(s);
            && s'.slots == s.slots
            && (slot == None <==> Contents(s) == [])
            && (slot == None ==> s' == s)
            && (slot.Some? ==> slot.value < |s.slots| && [s.slots[slot.value]] + Contents(s') == Contents(s))
  {
    var s' := AfterRead(s).0;
    if s.r < s.w {
      assert s.slots[s.r..s.w] == [s.slots[s.r]] + s.slots[s.r + 1..s.w];
    } else if s.w < s.r {
      assert s.slots[s.r..] == [s.slots[s.r]] + s.slots[s.r + 1..];
      if s.r == |s.slots| - 1 {
        assert s.slots[s.r..] == [s.slots[s.r]];
      }
    }
  }

  // ---------------------------------------------------------------------------
  // Runs of writes and reads
  // ---------------------------------------------------------------------------

  datatype Op<T> = Put(value: T) | Get

  /** A state with its history: all values written, all values returned by
      successful reads, and how often the write head ran over the read head. */
  datatype History<T> = History(ring: Ring<T>, written: seq<T>, got: seq<T>, overruns: nat)

  function Initial<T>(slots: seq<T>): History<T> {
    History(Ring(slots, 0, 0), [], [], 0)
  }

  function Apply<T>(h: History<T>, op: Op<T>): (h': History<T>)
    requires h.ring.Valid()
    ensures h'.ring.Valid() && |h'.ring.slots| == |h.ring.slots|
  {
    match op
    case Put(t) =>
      h.(ring := AfterWrite(h.ring, t), written := h.written + [t],
         overruns := h.overruns + if |Contents(h.ring)| == |h.ring.slots| - 1 then 1 else 0)
    case Get =>
      var (s', slot) := AfterRead(h.ring);
      h.(ring := s', got := if slot == None then h.got else h.got + [h.ring.slots[slot.value]])
  }

  function Run<T>(slots: seq<T>, ops: seq<Op<T>>): (h: History<T>)
    requires slots != []
    ensures h.ring.Valid() && |h.ring.slots| == |slots|
  {
    if ops == [] then Initial(slots) else Apply(Run(slots, ops[..|ops| - 1]), ops[|ops| - 1])
  }

  /** The contents are the last values written, in order, and the values written,
      returned and unread balance up to whole buffers lost to overruns. */
  ghost predicate Balanced<T>(h: History<T>)
    requires h.ring.Valid()
  {
    var c, w := Contents(h.ring), |h.written|;
    && |c| <= w && c == h.written[w - |c|..]
    && w == |h.got| + |c| + Times(h.overruns, |h.ring.slots|)
    && (h.overruns == 0 ==> h.written == h.got + c)
  }

  lemma BalancedPut<T>(h: History<T>, t: T)
    requires h.ring.Valid() && Balanced(h)
    ensures Balanced(Apply(h, Put(t)))
  {
    WriteContents(h.ring, t);
    var w, c := h.written, Contents(h.ring);
    var h' := Apply(h, Put(t));
    hide AfterWrite, Contents;
    if |c| == |h.ring.slots| - 1 {
      assert Times(h'.overruns, |h.ring.slots|) == Times(h.overruns, |h.ring.slots|) + |h.ring.slots|;
    } else {
      assert (w + [t])[|w| - |c|..] == w[|w| - |c|..] + [t];
      assert h.got + (c + [t]) == h.got + c + [t];
    }
  }

  lemma BalancedGet<T>(h: History<T>)
    requires h.ring.Valid() && Balanced(h)
    ensures Balanced(Apply(h, Get))
  {
    ReadContents(h.ring);
    var w, c := h.written, Contents(h.ring);
    var (s', slot) := AfterRead(h.ring);
    var c' := Contents(s');
    hide AfterRead, Contents, Times;
    if slot.Some? {
      var x := h.ring.slots[slot.value];
      assert c == [x] + c';
      assert w[|w| - |c'|..] == w[|w| - |c|..][1..];
      assert h.got + ([x] + c') == h.got + [x] + c';
    }
  }

  lemma {:induction false} RunContents<T>(slots: seq<T>, ops: seq<Op<T>>)
    requires slots != []
    ensures Balanced(Run(slots, ops))
  {
    hide Balanced, Apply;
    if ops == [] {
      InitiallyBalanced(slots);
    } else {
      var init, op := ops[..|ops| - 1], ops[|ops| - 1];
      RunContents(slots, init);
      match op
      case Put(t) => BalancedPut(Run(slots, init), t);
      case Get => BalancedGet(Run(slots, init));
    }
  }

  lemma InitiallyBalanced<T>(slots: seq<T>)
    requires slots != []
    ensures Balanced(Initial(slots))
  {
  }

  /** Over every run: the unread values are the latest ones written, in order, and
      their number is what is left of writes minus reads after removing whole
      buffers. */
  lemma UnreadValues<T>(slots: seq<T>, ops: seq<Op<T>>)
    requires slots != []
    ensures var h := Run(slots, ops);
            && |h.got| <= |h.written|
            && |Contents(h.ring)| == (|h.written| - |h.got|) % |slots|
            && |Contents(h.ring)| <= |h.written|
            && Contents(h.ring) == h.written[|h.written| - |Contents(h.ring)|..]
  {
    RunContents(slots, ops);
    var h := Run(slots, ops);
    TimesModulo(h.overruns, |slots|, |Contents(h.ring)|);
    hide Run, Contents, Times;
  }

  /** An overrun is a Put that finds getSize() values unread. */
  predicate Overruns<T>(s: Ring<T>, op: Op<T>)
    requires s.Valid()
  {
    op.Put? && |Contents(s)| == |s.slots| - 1
  }

  /** No write of the run found getSize() values unread. */
  predicate NeverOverruns<T>(slots: seq<T>, ops: seq<Op<T>>)
    requires slots != []
  {
    ops == [] ||
    (NeverOverruns(slots, ops[..|ops| - 1]) && !Overruns(Run(slots, ops[..|ops| - 1]).ring, ops[|ops| - 1]))
  }

  lemma {:induction false} OverrunsCounted<T>(slots: seq<T>, ops: seq<Op<T>>)
    requires slots != []
    ensures Run(slots, ops).overruns == 0 <==> NeverOverruns(slots, ops)
  {
    if ops != [] {
      hide Apply, Overruns;
      OverrunsCounted(slots, ops[..|ops| - 1]);
      OverrunsApply(Run(slots, ops[..|ops| - 1]), ops[|ops| - 1]);
    }
  }

  lemma OverrunsApply<T>(h: History<T>, op: Op<T>)
    requires h.ring.Valid()
    ensures Apply(h, op).overruns == 0 <==> h.overruns == 0 && !Overruns(h.ring, op)
  {
  }

  /** The buffer behaves as a queue - what was written is what was returned, in
      order, followed by what is unread - exactly when no write ever found size - 1
      values unread. */
  lemma QueueIff<T>(slots: seq<T>, ops: seq<Op<T>>)
    requires slots != []
    ensures var h := Run(slots, ops);
            h.written == h.got + Contents(h.ring) <==> NeverOverruns(slots, ops)
  {
    RunContents(slots, ops);
    OverrunsCounted(slots, ops);
    var h := Run(slots, ops);
    var c := Contents(h.ring);
    hide Run, Contents, NeverOverruns;
    if h.overruns > 0 {
      assert Times(h.overruns, |slots|) >= |slots|;
      assert |h.got + c| < |h.written|;
    }
  }

  lemma RunNext<T>(slots: seq<T>, ops: seq<Op<T>>, op: Op<T>)
    requires slots != []
    ensures Run(slots, ops + [op]) == Apply(Run(slots, ops), op)
    ensures NeverOverruns(slots, ops + [op]) <==> NeverOverruns(slots, ops) && !Overruns(Run(slots, ops).ring, op)
  {
    assert (ops + [op])[..|ops|] == ops;
  }

  lemma FirstPut<T>(slots: seq<T>, t: T)
    requires |slots| == 2
    ensures Run(slots, [Put(t)]) == History(Ring([t, slots[1]], 0, 1), [t], [], 0)
    ensures NeverOverruns(slots, [Put(t)])
  {
    hide Run, NeverOverruns;
    RunNext(slots, [], Put(t));
    assert [] + [Put(t)] == [Put(t)];
    RunStart(slots);
    assert slots[0 := t] == [t, slots[1]];
  }

  lemma RunStart<T>(slots: seq<T>)
    requires slots != []
    ensures Run(slots, []) == Initial(slots) && NeverOverruns(slots, [])
  {
  }

  /** Overruns do happen: two writes into a buffer of two slots leave nothing to read. */
  lemma OverrunHappens<T>(slots: seq<T>, t: T, u: T)
    requires |slots| == 2
    ensures !NeverOverruns(slots, [Put(t), Put(u)])
    ensures var h := Run(slots, [Put(t), Put(u)]);
            h.written == [t, u] && h.got == [] && Contents(h.ring) == []
  {
    hide Run, NeverOverruns;
    FirstPut(slots, t);
    RunNext(slots, [Put(t)], Put(u));
    assert [Put(t)] + [Put(u)] == [Put(t), Put(u)];
  }

  // ---------------------------------------------------------------------------
  // Reading everything
  // ---------------------------------------------------------------------------

  /** readAll: nothing to read, the items read, or the exception that a negative
      array length raises. */
  datatype Batch<+T> = NoData | Items(items: seq<T>) | BadLength

  function AfterReadAll<T>(s: Ring<T>): (p: (Ring<T>, Batch<T>))
    requires s.Valid()
    ensures p.0.Valid()
  {
    if s.r == s.w then (s, NoData)
    else if s.w < s.r then (s, BadLength)
    else (s.(r := s.w), Items(s.slots[s.r..s.w]))
  }

  /** The state after k reads and the values they returned. */
  function Reads<T>(s: Ring<T>, k: nat): (p: (Ring<T>, seq<T>))
    requires s.Valid()
    ensures p.0.Valid() && p.0.slots == s.slots
  {
    if k == 0 then (s, [])
    else
      var (t, ys) := Reads(s, k - 1);
      var (t', slot) := AfterRead(t);
      (t', if slot == None then ys else ys + [t.slots[slot.value]])
  }

  lemma {:induction false} ReadsTake<T>(s: Ring<T>, k: nat)
    requires s.Valid() && k <= |Contents(s)|
    ensures Contents(Reads(s, k).0) == Contents(s)[k..] && Reads(s, k).1 == Contents(s)[..k]
  {
    hide Contents, AfterRead;
    if k > 0 {
      ReadsTake(s, k - 1);
      ReadContents(Reads(s, k - 1).0);
      TakeOneMore(Contents(s), k);
    } else {
      assert Contents(s)[0..] == Contents(s) && Contents(s)[..0] == [];
    }
  }

  lemma TakeOneMore<T>(c: seq<T>, k: nat)
    requires 0 < k <= |c|
    ensures c[k - 1..] == [c[k - 1]] + c[k..]
    ensures c[..k] == c[..k - 1] + [c[k - 1]]
  {
  }

  /** readAll returns exactly what reading until empty returns if and only if the
      write head is not below the read head. */
  lemma ReadAllIff<T>(s: Ring<T>)
    requires s.Valid()
    ensures Contents(s) == [] <==> AfterReadAll(s).1 == NoData
    ensures Contents(s) == [] ==> AfterReadAll(s).0 == s
    ensures Contents(s) != [] ==> (AfterReadAll(s).1 == Items(Reads(s, |Contents(s)|).1) <==> s.r <= s.w)
    ensures s.r <= s.w ==> Contents(AfterReadAll(s).0) == Contents(Reads(s, |Contents(s)|).0) == []
    ensures s.w < s.r ==> AfterReadAll(s) == (s, BadLength)
  {
    ReadsTake(s, |Contents(s)|);
    hide Reads;
  }

  /** And the write head does get below the read head: a write, a read and another write
      on two slots leave one value unread that readAll cannot return. */
  lemma ReadAllFails<T>(slots: seq<T>, t: T, u: T)
    requires |slots| == 2
    ensures NeverOverruns(slots, [Put(t), Get, Put(u)])
    ensures var s := Run(slots, [Put(t), Get, Put(u)]).ring;
            s.w < s.r && Contents(s) == [u] && AfterReadAll(s) == (s, BadLength)
  {
    hide Run, NeverOverruns;
    FirstPut(slots, t);
    RunNext(slots, [Put(t)], Get);
    assert [Put(t)] + [Get] == [Put(t), Get];
    var h := Run(slots, [Put(t), Get]);
    assert h == History(Ring([t, slots[1]], 1, 1), [t], [t], 0);
    RunNext(slots, [Put(t), Get], Put(u));
    assert [Put(t), Get] + [Put(u)] == [Put(t), Get, Put(u)];
    LaterPut(h, u);
  }

  lemma LaterPut<T>(h: History<T>, u: T)
    requires |h.ring.slots| == 2 && h.ring.r == h.ring.w == 1
    ensures !Overruns(h.ring, Put(u))
    ensures var s := Apply(h, Put(u)).ring; s.w < s.r && Contents(s) == [u] && AfterReadAll(s) == (s, BadLength)
  {
  }

  // ---------------------------------------------------------------------------
  // The buffer itself
  // ---------------------------------------------------------------------------

  class Buffer<T(0)> {
    const slots: array<T>
    var rHead: nat
    var wHead: nat

    ghost predicate Valid()
      reads this
    {
      rHead < slots.Length && wHead < slots.Length
    }

    ghost function State(): Ring<T>
      reads this, slots
    {
      Ring(slots[..], rHead, wHead)
    }

    constructor Init(size: nat)
      requires 0 < size
      ensures Valid() && fresh(slots) && slots.Length == size
      ensures rHead == wHead == 0
    {
      slots := new T[size];
      rHead, wHead := 0, 0;
    }

    /** The largest number of values that can be unread. */
    function GetSize(): (n: nat)
      requires 0 < slots.Length
      ensures n < slots.Length <= n + 1
    {
      slots.Length - 1
    }

    method Write(t: T)
      requires Valid()
      modifies this`wHead, slots
      ensures Valid() && State() == AfterWrite(old(State()), t)
    {
      slots[wHead] := t;
      AdvanceWriteHead();
    }

    method Read() returns (slot: Option<nat>)
      requires Valid()
      modifies this`rHead
      ensures Valid() && (State(), slot) == AfterRead(old(State()))
    {
      if rHead == wHead {
        return None;
      }
      slot := Some(rHead);
      AdvanceReadHead();
    }

    method AdvanceWriteHead()
      requires Valid()
      modifies this`wHead
      ensures Valid() && wHead == Next(old(wHead), slots.Length)
    {
      if wHead == slots.Length - 1 {
        wHead := 0;
      } else {
        wHead := wHead + 1;
      }
    }

    method AdvanceReadHead()
      requires Valid()
      modifies this`rHead
      ensures Valid() && rHead == Next(old(rHead), slots.Length)
    {
      if rHead == slots.Length - 1 {
        rHead := 0;
      } else {
        rHead := rHead + 1;
      }
    }

    /** Reads up to the write head into a new array. */
    method ReadAll() returns (batch: Batch<T>)
      requires Valid()
      modifies this`rHead
      ensures Valid() && (State(), batch) == AfterReadAll(old(State()))
    {
      var diff := wHead as int - rHead as int;
      if diff == 0 {
        return NoData;
      }
      if diff < 0 {
        return BadLength;
      }
      var d := new T[diff];
      var i := 0;
      while i < diff
        invariant 0 <= i <= diff && rHead == old(rHead) + i && wHead == old(wHead) < slots.Length
        invariant d[..i] == slots[old(rHead)..rHead]
      {
        var slot := Read();
        assert slot == Some(old(rHead) + i);
        d[i] := slots[slot.value];
        i := i + 1;
      }
      batch := Items(d[..]);
      assert d[..] == d[..diff];
    }
  }
}
