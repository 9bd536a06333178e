/** From eighteen tone powers to a key: the two loudest dial tones, and the tests
    that they stand out, are balanced, and dominate every other tone. */
module Decision {
  import opened Arithmetic
  import opened FixedPoint

  const TONES := 18
  const NO_KEY := ' '
  const TO_OTHER_TONES := 16
  const TO_DIAL_TONES := 6

  /** The keypad of ITU-T Recommendation Q.23, row by row. */
  const KEYS := "123A456B789C*0#D"

  /** Index and value of the first largest positive power from lo on, among the
      indices below hi; the default index and zero if none is positive. */
  function Loudest(t: seq<int>, lo: nat, hi: nat, default: nat): (nat, int)
    requires lo <= hi <= |t|
    decreases hi
  {
    if lo == hi then (default, 0)
    else
      var (i, m) := Loudest(t, lo, hi - 1, default);
      if m < t[hi - 1] then (hi - 1, t[hi - 1]) else (i, m)
  }

  function SumTo(t: seq<int>, n: nat): int
    requires n <= |t|
  {
    if n == 0 then 0 else SumTo(t, n - 1) + t[n - 1]
  }

  /** The mean of the eight in-band powers other than the two winners, in 32-bit
      arithmetic, and never zero. */
  function Average(t: seq<int>, row: nat, column: nat): (a: int)
    requires |t| == TONES && row < TONES && column < TONES
    ensures a != 0
  {
    var sum := Wrap32(SumTo(t, 10) - t[row] - t[column]) / 8;
    if sum == 0 then 1 else sum
  }

  /** The powers with every zero replaced by one. */
  function Lifted(t: seq<int>): (r: seq<int>)
    ensures |r| == |t|
    ensures forall i | 0 <= i < |r| :: r[i] != 0
  {
    seq(|t|, i requires 0 <= i < |t| => if t[i] == 0 then 1 else t[i])
  }

  /** Both winners reach the required ratio to an out-of-band tone. */
  predicate BeatsOther(u: seq<int>, row: nat, column: nat, i: nat)
    requires |u| == TONES && row < TONES && column < TONES && i < TONES
    requires u[i] != 0
  {
    && DivTrunc(u[row], u[i]) >= TO_OTHER_TONES
    && DivTrunc(u[column], u[i]) >= TO_OTHER_TONES
  }

  /** An in-band tone ties with a winner or is far enough below both. */
  predicate BeatsDial(u: seq<int>, row: nat, column: nat, i: nat)
    requires |u| == TONES && row < TONES && column < TONES && i < TONES
    requires u[i] != 0
  {
    || u[i] == u[column]
    || u[i] == u[row]
    || (&& DivTrunc(u[row], u[i]) >= TO_DIAL_TONES
        && DivTrunc(u[column], u[i]) >= if column != 4 then TO_DIAL_TONES else TO_DIAL_TONES / 3)
  }

  /** The winners stand out from the average and are balanced. */
  predicate StandOut(t: seq<int>, row: nat, column: nat)
    requires |t| == TONES && row < TONES && column < TONES
  {
    var average := Average(t, row, column);
    && DivTrunc(t[row], average) >= TO_DIAL_TONES
    && DivTrunc(t[column], average) >= TO_DIAL_TONES
    && t[row] >= t[column] / 4
    && t[column] >= t[row] / 2 - t[row] / 8
  }

  /** The key printed at a row (0..3) and column (4..7) of the keypad. */
  function KeyAt(row: nat, column: nat): char {
    match row
    case 0 => (match column case 4 => '1' case 5 => '2' case 6 => '3' case 7 => 'A' case _ => NO_KEY)
    case 1 => (match column case 4 => '4' case 5 => '5' case 6 => '6' case 7 => 'B' case _ => NO_KEY)
    case 2 => (match column case 4 => '7' case 5 => '8' case 6 => '9' case 7 => 'C' case _ => NO_KEY)
    case 3 => (match column case 4 => '*' case 5 => '0' case 6 => '#' case 7 => 'D' case _ => NO_KEY)
    case _ => NO_KEY
  }

  predicate BeatsOthers(u: seq<int>, row: nat, column: nat)
    requires |u| == TONES && row < TONES && column < TONES
    requires forall i | 0 <= i < TONES :: u[i] != 0
  {
    forall i | 10 <= i < TONES :: BeatsOther(u, row, column, i)
  }

  predicate BeatsDials(u: seq<int>, row: nat, column: nat)
    requires |u| == TONES && row < TONES && column < TONES
    requires forall i | 0 <= i < TONES :: u[i] != 0
  {
    forall i | 0 <= i < 10 :: BeatsDial(u, row, column, i)
  }

  /** The decision as the code takes it. */
  function Decide(t: seq<int>): char
    requires |t| == TONES
  {
    LoudestInRange(t, 0, 4, 0);
    LoudestInRange(t, 4, 8, 4);
    var row, column := Loudest(t, 0, 4, 0).0, Loudest(t, 4, 8, 4).0;
    if StandOut(t, row, column) && BeatsOthers(Lifted(t), row, column) && BeatsDials(Lifted(t), row, column)
    then KeyAt(row, column)
    else NO_KEY
  }

  lemma {:induction false} LoudestInRange(t: seq<int>, lo: nat, hi: nat, default: nat)
    requires lo <= hi <= |t|
    ensures var (i, m) := Loudest(t, lo, hi, default);
            && 0 <= m
            && (forall j | lo <= j < hi :: t[j] <= m)
            && if m == 0 then i == default else
                 lo <= i < hi && t[i] == m && forall j | lo <= j < i :: t[j] < m
    decreases hi
  {
    if lo < hi {
      LoudestInRange(t, lo, hi - 1, default);
    }
  }

  // ---------------------------------------------------------------------------
  // What a returned key means
  // ---------------------------------------------------------------------------

  /** The index is the first of the largest powers of its group, and positive. */
  ghost predicate IsLoudest(t: seq<int>, lo: nat, hi: nat, i: nat)
    requires lo <= hi <= |t|
  {
    && lo <= i < hi && 0 < t[i]
    && (forall j | lo <= j < hi :: t[j] <= t[i])
    && (forall j | lo <= j < i :: t[j] < t[i])
  }

  function AtLeastOne(x: int): int {
    if x < 1 then 1 else x
  }

  /** Both winners reach six times the mean of the other in-band powers, and neither
      is out of balance with the other. */
  ghost predicate Prominent(t: seq<int>, r: nat, c: nat)
    requires |t| == TONES && r < TONES && c < TONES
  {
    var average := AtLeastOne((SumTo(t, 10) - t[r] - t[c]) / 8);
    && 6 * average <= t[r]
    && 6 * average <= t[c]
    && t[c] / 4 <= t[r]
    && t[r] / 2 - t[r] / 8 <= t[c]
  }

  /** Both winners reach sixteen times every out-of-band power. */
  ghost predicate OthersFaint(t: seq<int>, r: nat, c: nat)
    requires |t| == TONES && r < TONES && c < TONES
  {
    forall i | 10 <= i < TONES ::
      0 <= t[i] && 16 * AtLeastOne(t[i]) <= t[r] && 16 * AtLeastOne(t[i]) <= t[c]
  }

  /** Every other in-band power ties with a winner, or is at most a sixth of the row
      winner and a sixth (a half in the first column) of the column winner. */
  ghost predicate DialsFaint(t: seq<int>, r: nat, c: nat)
    requires |t| == TONES && r < TONES && c < TONES
  {
    forall i | 0 <= i < 10 ::
      || t[i] == t[r]
      || t[i] == t[c]
      || (6 * AtLeastOne(t[i]) <= t[r] && (if c == 4 then 2 else 6) * AtLeastOne(t[i]) <= t[c])
  }

  /** The acceptance conditions for row r and column c, as ratios of powers. */
  ghost predicate Accepts(t: seq<int>, r: nat, c: nat)
    requires |t| == TONES
  {
    && IsLoudest(t, 0, 4, r)
    && IsLoudest(t, 4, 8, c)
    && Prominent(t, r, c)
    && OthersFaint(t, r, c)
    && DialsFaint(t, r, c)
  }

  /** The in-band powers are what a filter without overflow reports. */
  ghost predicate InBandSound(t: seq<int>)
    requires |t| == TONES
  {
    && (forall i | 0 <= i < 10 :: 0 <= t[i])
    && IsInt32(SumTo(t, 10))
  }

  /** Comparing a truncated quotient with a positive bound needs no division. */
  lemma QuotientReaches(a: int, b: int, m: int)
    requires b != 0 && 0 < m
    ensures 0 < b && 0 <= a ==> (DivTrunc(a, b) >= m <==> m * b <= a)
    ensures b < 0 && 0 <= a ==> DivTrunc(a, b) < m
  {
    if 0 < b && 0 <= a {
      var q := a / b;
      assert a == q * b + a % b;
      if q >= m {
        MulMonotone(m, q, b);
      } else {
        MulMonotone(q + 1, m, b);
      }
    }
  }

  lemma {:induction false} SumAtLeastTwo(t: seq<int>, n: nat, r: nat, c: nat)
    requires n <= |t| && r < c && (forall i | 0 <= i < n :: 0 <= t[i])
    ensures 0 <= SumTo(t, n)
    ensures r < n ==> t[r] <= SumTo(t, n)
    ensures c < n ==> t[r] + t[c] <= SumTo(t, n)
  {
    if n > 0 {
      SumAtLeastTwo(t, n - 1, r, c);
    }
  }

  lemma AverageExact(t: seq<int>, r: nat, c: nat)
    requires |t| == TONES && InBandSound(t) && r < 4 <= c < 8
    ensures Average(t, r, c) == AtLeastOne((SumTo(t, 10) - t[r] - t[c]) / 8)
  {
    SumAtLeastTwo(t, 10, r, c);
  }

  lemma StandOutMeans(t: seq<int>, r: nat, c: nat)
    requires |t| == TONES && InBandSound(t) && r < 4 <= c < 8
    ensures StandOut(t, r, c) <==> Prominent(t, r, c)
    ensures StandOut(t, r, c) ==> 6 <= t[r] && 6 <= t[c]
  {
    AverageExact(t, r, c);
    var average := Average(t, r, c);
    QuotientReaches(t[r], average, 6);
    QuotientReaches(t[c], average, 6);
    hide Average, DivTrunc, SumTo;
  }

  lemma BeatsOthersMeans(t: seq<int>, r: nat, c: nat)
    requires |t| == TONES && r < TONES && c < TONES && 0 < t[r] && 0 < t[c]
    ensures BeatsOthers(Lifted(t), r, c) <==> OthersFaint(t, r, c)
  {
    forall i | 10 <= i < TONES
      ensures BeatsOther(Lifted(t), r, c, i) <==>
              0 <= t[i] && 16 * AtLeastOne(t[i]) <= t[r] && 16 * AtLeastOne(t[i]) <= t[c]
    {
      QuotientReaches(t[r], Lifted(t)[i], 16);
      QuotientReaches(t[c], Lifted(t)[i], 16);
      hide DivTrunc;
    }
    hide BeatsOther, Lifted, AtLeastOne;
  }

  lemma BeatsDialsMeans(t: seq<int>, r: nat, c: nat)
    requires |t| == TONES && r < TONES && c < TONES && 6 <= t[r] && 6 <= t[c]
    requires forall i | 0 <= i < 10 :: 0 <= t[i]
    ensures BeatsDials(Lifted(t), r, c) <==> DialsFaint(t, r, c)
  {
    forall i | 0 <= i < 10
      ensures BeatsDial(Lifted(t), r, c, i) <==>
              (|| t[i] == t[r]
               || t[i] == t[c]
               || (6 * AtLeastOne(t[i]) <= t[r] && (if c == 4 then 2 else 6) * AtLeastOne(t[i]) <= t[c]))
    {
      QuotientReaches(t[r], Lifted(t)[i], 6);
      QuotientReaches(t[c], Lifted(t)[i], if c == 4 then 2 else 6);
      hide DivTrunc;
    }
    hide BeatsDial, Lifted, AtLeastOne;
  }

  /** The winners that the code's scan finds. */
  function Winners(t: seq<int>): (nat, nat)
    requires |t| == TONES
  {
    (Loudest(t, 0, 4, 0).0, Loudest(t, 4, 8, 4).0)
  }

  lemma WinnersLoudest(t: seq<int>)
    requires |t| == TONES && InBandSound(t)
    ensures var (r, c) := Winners(t);
            && r < 4 <= c < 8
            && (IsLoudest(t, 0, 4, r) <==> 0 < t[r])
            && (IsLoudest(t, 4, 8, c) <==> 0 < t[c])
            && (forall r' | IsLoudest(t, 0, 4, r') :: r' == r)
            && (forall c' | IsLoudest(t, 4, 8, c') :: c' == c)
  {
    LoudestInRange(t, 0, 4, 0);
    LoudestInRange(t, 4, 8, 4);
    hide Loudest, SumTo;
  }

  /** The code's tests on its winners are exactly the acceptance conditions. */
  lemma WinnersAccepted(t: seq<int>)
    requires |t| == TONES && InBandSound(t)
    ensures var (r, c) := Winners(t);
            Decide(t) == if Accepts(t, r, c) then KeyAt(r, c) else NO_KEY
  {
    var (r, c) := Winners(t);
    WinnersLoudest(t);
    StandOutMeans(t, r, c);
    if StandOut(t, r, c) {
      BeatsOthersMeans(t, r, c);
      BeatsDialsMeans(t, r, c);
    }
    hide StandOut, Prominent, BeatsOthers, BeatsDials, OthersFaint, DialsFaint, SumTo, Loudest, IsLoudest;
  }

  /** The keypad holds the key of each position, all keys differ, and none is blank. */
  lemma Keypad(r: nat, c: nat, r': nat, c': nat)
    requires r < 4 <= c < 8 && r' < 4 <= c' < 8
    ensures KeyAt(r, c) == KEYS[4 * r + c - 4] != NO_KEY
    ensures KeyAt(r, c) == KeyAt(r', c') ==> r == r' && c == c'
  {
  }

  /** The layout: the digits from one to nine by rows of three, the letters down the last
      column, and the last row. */
  lemma KeypadLayout(r: nat, c: nat)
    requires r < 4 && 4 <= c < 8
    ensures r < 3 && c < 7 ==> KEYS[4 * r + c - 4] as int == '1' as int + 3 * r + c - 4
    ensures c == 7 ==> KEYS[4 * r + c - 4] as int == 'A' as int + r
    ensures r == 3 && c < 7 ==> KEYS[4 * r + c - 4] == (if c == 4 then '*' else if c == 5 then '0' else '#')
  {
  }

  /** A key is returned exactly when its row and column meet all conditions. */
  lemma DecideIff(t: seq<int>, r: nat, c: nat)
    requires |t| == TONES && InBandSound(t) && r < 4 <= c < 8
    ensures Decide(t) == KEYS[4 * r + c - 4] <==> Accepts(t, r, c)
  {
    var (row, column) := Winners(t);
    WinnersLoudest(t);
    WinnersAccepted(t);
    Keypad(r, c, row, column);
    hide Decide, Winners, KeyAt, SumTo;
  }

  /** No key is returned exactly when no position meets them. */
  lemma NoKeyIff(t: seq<int>)
    requires |t| == TONES && InBandSound(t)
    ensures Decide(t) == NO_KEY <==> forall r: nat, c: nat | r < 4 <= c < 8 :: !Accepts(t, r, c)
  {
    var (row, column) := Winners(t);
    WinnersLoudest(t);
    WinnersAccepted(t);
    Keypad(row, column, row, column);
    hide Decide, Winners, KeyAt, SumTo;
  }
}
