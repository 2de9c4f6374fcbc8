/** How often a booting node asks: the pause after each attempt, and why the peers' limit on hellos never refuses it.
    Times are whole nanoseconds; the jitter is a real number where the code has a float. */
module UnlockCadence {
  import opened Collections
  import opened Results

  const SECOND := 1_000_000_000
  const BACKOFF_FIRST := 2 * SECOND
  const BACKOFF_CAP := 60 * SECOND
  const STAND_POLL := SECOND

  /** The pause after attempt `step` before jitter: 2 s, doubled each time, at most 60 s. */
  function Base(step: nat): (b: int)
    ensures BACKOFF_FIRST <= b <= BACKOFF_CAP && b % (2 * SECOND) == 0
  {
    if step == 0 then BACKOFF_FIRST
    else if 2 * Base(step - 1) > BACKOFF_CAP then BACKOFF_CAP else 2 * Base(step - 1)
  }

  lemma {:induction false} BaseReachesCap(step: nat, later: nat)
    requires step <= later && 2 * Base(step) >= BACKOFF_CAP
    ensures later > step ==> Base(later) == BACKOFF_CAP
    ensures Base(step) == BACKOFF_CAP ==> Base(later) == BACKOFF_CAP
  {
    if later > step { BaseReachesCap(step, later - 1); }
  }

  /** A pause scaled by a factor between 0.8 and 1.2, cut to whole nanoseconds. */
  function Jittered(pause: int, jitter: real): int {
    (pause as real * (0.8 + 0.4 * jitter)).Floor
  }

  method Backoff(step: nat, jitter: real) returns (wait: int)
    ensures 4 * Base(step) <= 5 * wait <= 6 * Base(step)
    ensures 0.0 <= jitter < 1.0 ==> wait == Jittered(Base(step), jitter)
    ensures !(0.0 <= jitter < 1.0) ==> wait == Base(step)
  {
    hide Jittered;
    var pause := BACKOFF_FIRST;
    var i := 0;
    while i < step && pause < BACKOFF_CAP
      invariant 0 <= i <= step && BACKOFF_FIRST <= pause
      invariant Base(i) == if pause > BACKOFF_CAP then BACKOFF_CAP else pause
    {
      pause := pause * 2;
      i := i + 1;
    }
    if pause > BACKOFF_CAP { pause := BACKOFF_CAP; }
    if i < step { BaseReachesCap(i, step); }
    var j := if jitter < 0.0 || jitter >= 1.0 then 0.5 else jitter;
    Scaled(pause, j);
    wait := Jittered(pause, j);
  }

  lemma Scaled(pause: int, jitter: real)
    requires pause > 0 && pause % (2 * SECOND) == 0 && 0.0 <= jitter < 1.0
    ensures 4 * pause <= 5 * Jittered(pause, jitter) <= 6 * pause
    ensures jitter == 0.5 ==> Jittered(pause, jitter) == pause
  {
    var k := pause / 5;
    assert pause == 5 * k;
    ScaledFifths(k, jitter);
    hide Jittered;
  }

  lemma ScaledFifths(k: int, jitter: real)
    requires k > 0 && 0.0 <= jitter < 1.0
    ensures 4 * k <= Jittered(5 * k, jitter) <= 6 * k
    ensures jitter == 0.5 ==> Jittered(5 * k, jitter) == 5 * k
  {
    Factor((5 * k) as real, 0.8 + 0.4 * jitter);
    Between((5 * k) as real * (0.8 + 0.4 * jitter), 4 * k, 6 * k);
    if jitter == 0.5 { Between((5 * k) as real * (0.8 + 0.4 * jitter), 5 * k, 5 * k); }
  }

  lemma Factor(p: real, f: real)
    requires p >= 0.0 && 0.8 <= f <= 1.2
    ensures 0.8 * p <= p * f <= 1.2 * p
    ensures f == 1.0 ==> p * f == p
  {
    assert p * (f - 0.8) >= 0.0 && p * (1.2 - f) >= 0.0;
  }

  lemma Between(x: real, low: int, high: int)
    requires low as real <= x <= high as real
    ensures low <= x.Floor <= high
  {
  }

  /** Waits d, looking every second whether the volume opened; stops early only when it has. */
  method Pause(d: int, looks: nat -> bool) returns (open: bool, slept: int, looked: nat)
    ensures open ==> looked > 0 && looks(looked - 1) && slept <= d
    ensures !open ==> slept == (if d > 0 then d else 0)
    ensures forall i | 0 <= i < looked :: looks(i) ==> i == looked - 1 && open
    ensures slept == if looked * STAND_POLL < d then looked * STAND_POLL else if d > 0 then d else 0
  {
    var left := d;
    slept, looked := 0, 0;
    while left > 0
      invariant left <= d && slept == d - left && (d > 0 ==> left >= 0) && (d <= 0 ==> left == d)
      invariant forall i | 0 <= i < looked :: !looks(i)
      invariant d > 0 ==> slept == if looked * STAND_POLL < d then looked * STAND_POLL else d
    {
      var step := if left < STAND_POLL then left else STAND_POLL;
      slept := slept + step;
      left := left - step;
      looked := looked + 1;
      if looks(looked - 1) { return true, slept, looked; }
    }
    open := false;
    if d <= 0 { slept := 0; }
  }

  // ---- the attempts in time ----

  /** One attempt at the peers: when it began and when it ended. */
  datatype Span = Span(at: int, end: int)

  /** The shortest pause after attempt i, whatever the jitter. */
  function Gap(i: nat): int { 4 * (Base(i) / 5) }

  ghost predicate Spaced(ts: seq<Span>) {
    && (forall i | 0 <= i < |ts| :: ts[i].at <= ts[i].end)
    && (forall i | 0 < i < |ts| :: ts[i - 1].end + Gap(i - 1) <= ts[i].at)
  }

  lemma GapValues()
    ensures Gap(0) == 1_600_000_000 && Gap(1) == 3_200_000_000 && Gap(2) == 6_400_000_000
    ensures Gap(3) == 12_800_000_000 && Gap(4) == 25_600_000_000
    ensures forall i | i >= 5 :: Gap(i) == 48_000_000_000
  {
    assert Base(1) == 4 * SECOND && Base(2) == 8 * SECOND && Base(3) == 16 * SECOND && Base(4) == 32 * SECOND;
    forall i | i >= 5 ensures Gap(i) == 48_000_000_000 { BaseReachesCap(4, i); }
  }

  /** Seven attempts in a row take more than a minute, however the jitter fell. */
  lemma SevenTakeOverAMinute(ts: seq<Span>, i: nat)
    requires Spaced(ts) && i + 6 < |ts|
    ensures ts[i + 6].at - ts[i].at >= 97_600_000_000
  {
    GapValues();
    hide Base, Gap;
    assert forall k | i < k <= i + 6 :: ts[k].at >= ts[k - 1].at + Gap(k - 1);
    assert ts[i + 1].at >= ts[i].at + Gap(i) && ts[i + 2].at >= ts[i + 1].at + Gap(i + 1)
           && ts[i + 3].at >= ts[i + 2].at + Gap(i + 2);
    assert ts[i + 4].at >= ts[i + 3].at + Gap(i + 3) && ts[i + 5].at >= ts[i + 4].at + Gap(i + 4)
           && ts[i + 6].at >= ts[i + 5].at + Gap(i + 5);
  }

  lemma {:induction false} Ascending(ts: seq<Span>, i: nat, j: nat)
    requires Spaced(ts) && i <= j < |ts|
    ensures ts[i].at <= ts[j].at
  {
    if i < j { Ascending(ts, i, j - 1); }
  }

  function Within(ts: seq<Span>, from: int): set<nat> {
    set i: nat | i < |ts| && from <= ts[i].at <= from + 60 * SECOND
  }

  lemma AtMostSix(s: set<nat>, a: nat)
    requires forall i | i in s :: a <= i < a + 6
    ensures |s| <= 6
  {
    var six := {a, a + 1, a + 2, a + 3, a + 4, a + 5};
    assert s <= six;
    Fewer(s, six);
  }

  /** For every jitter sequence and any number of attempts, any minute holds at most six of them. */
  lemma MinuteHoldsAtMostSix(ts: seq<Span>, from: int)
    requires Spaced(ts)
    ensures |Within(ts, from)| <= 6
  {
    var s := Within(ts, from);
    if s != {} {
      HasLeast(s);
      var a :| a in s && forall i | i in s :: a <= i;
      forall i | i in s ensures a <= i < a + 6 {
        if a + 6 <= i {
          SevenTakeOverAMinute(ts, a);
          Ascending(ts, a + 6, i);
        }
      }
      AtMostSix(s, a);
    }
  }

  /** And six is reached: the first minute at the shortest pauses. */
  lemma FirstMinuteReachesSix()
    ensures exists ts :: Spaced(ts) && |Within(ts, 0)| == 6
  {
    GapValues();
    var ts := [Span(0, 0), Span(1_600_000_000, 1_600_000_000), Span(4_800_000_000, 4_800_000_000),
               Span(11_200_000_000, 11_200_000_000),
               Span(24_000_000_000, 24_000_000_000), Span(49_600_000_000, 49_600_000_000)];
    assert Within(ts, 0) == {0, 1, 2, 3, 4, 5};
    assert Spaced(ts);
  }

  // ---- the peers' limit on hellos ----

  /** A peer's bucket for one node: 10 hellos, one more every 6 s. A token is counted as the 6 s it takes to come
      back. */
  datatype Bucket = Bucket(level: int, at: int)

  const TOKEN := 6 * SECOND
  const FULL := 10 * TOKEN

  function Level(b: Bucket, now: int): int {
    var refilled := b.level + if now > b.at then now - b.at else 0;
    if refilled > FULL then FULL else refilled
  }

  /** The bucket after these hellos in this order, unless one of them was refused. */
  function Spend(b: Bucket, hellos: seq<int>): Option<Bucket>
    decreases |hellos|
  {
    if hellos == [] then Some(b)
    else if Level(b, hellos[0]) < TOKEN then None
    else Spend(Bucket(Level(b, hellos[0]) - TOKEN, hellos[0]), hellos[1..])
  }

  function SpendAll(b: Bucket, hs: seq<seq<int>>): Option<Bucket> {
    if hs == [] then Some(b)
    else
      var before := SpendAll(b, hs[..|hs| - 1]);
      if before.None? then None else Spend(before.value, hs[|hs| - 1])
  }

  /** At most two hellos to the peer in each attempt (version 2, then version 1), while the attempt lasts. */
  ghost predicate HellosOf(ts: seq<Span>, hs: seq<seq<int>>) {
    && |hs| == |ts|
    && forall i | 0 <= i < |hs| ::
      && |hs[i]| <= 2 && (forall k | 0 <= k < |hs[i]| :: ts[i].at <= hs[i][k] <= ts[i].end)
      && (|hs[i]| == 2 ==> hs[i][0] <= hs[i][1])
  }

  /** What the bucket holds at least when attempt i ends. */
  function Floor(i: nat): int {
    match i
    case 0 => 48 * SECOND
    case 1 => 37_600_000_000
    case 2 => 28_800_000_000
    case 3 => 23_200_000_000
    case 4 => 24_000_000_000
    case _ => 37_600_000_000
  }

  lemma OneAttempt(b: Bucket, hellos: seq<int>, span: Span, need: int)
    requires |hellos| <= 2 && (forall k | 0 <= k < |hellos| :: span.at <= hellos[k] <= span.end)
             && (|hellos| == 2 ==> hellos[0] <= hellos[1])
    requires b.at <= span.at <= span.end && Level(b, span.at) >= need >= 2 * TOKEN && need <= FULL
    ensures var after := Spend(b, hellos);
            after.Some? && after.value.at <= span.end && Level(after.value, span.end) >= need - 2 * TOKEN
  {
    if |hellos| >= 1 {
      var c := Bucket(Level(b, hellos[0]) - TOKEN, hellos[0]);
      assert Spend(b, hellos) == Spend(c, hellos[1..]);
      if |hellos| == 2 {
        var d := Bucket(Level(c, hellos[1]) - TOKEN, hellos[1]);
        assert Spend(c, hellos[1..]) == Spend(d, hellos[1..][1..]);
      }
    }
  }

  lemma FloorHolds(i: nat)
    requires i > 0
    ensures Floor(i) + 2 * TOKEN <= Floor(i - 1) + Gap(i - 1) && Floor(i) + 2 * TOKEN <= FULL
  {
    GapValues();
  }

  lemma {:induction false} BucketKept(b: Bucket, ts: seq<Span>, hs: seq<seq<int>>)
    requires Spaced(ts) && HellosOf(ts, hs) && ts != [] && b.level == FULL && b.at <= ts[0].at
    ensures var after := SpendAll(b, hs);
            after.Some? && after.value.at <= ts[|ts| - 1].end && Level(after.value, ts[|ts| - 1].end) >= Floor(|ts| - 1)
  {
    var n := |ts| - 1;
    if n == 0 {
      assert SpendAll(b, hs[..n]) == Some(b);
      OneAttempt(b, hs[0], ts[0], FULL);
    } else {
      BucketKept(b, ts[..n], hs[..n]);
      var before := SpendAll(b, hs[..n]).value;
      FloorHolds(n);
      hide Spend, SpendAll, Gap, Floor;
      assert Level(before, ts[n].at) >= Floor(n) + 2 * TOKEN;
      OneAttempt(before, hs[n], ts[n], Floor(n) + 2 * TOKEN);
      assert SpendAll(b, hs) == Spend(before, hs[n]) by { SpendLast(b, hs); }
    }
  }

  lemma SpendLast(b: Bucket, hs: seq<seq<int>>)
    requires hs != [] && SpendAll(b, hs[..|hs| - 1]).Some?
    ensures SpendAll(b, hs) == Spend(SpendAll(b, hs[..|hs| - 1]).value, hs[|hs| - 1])
  {
  }

  /** However the jitter falls and however long the attempts take, none of one client's hellos is refused. */
  lemma NoHelloIsRefused(b: Bucket, ts: seq<Span>, hs: seq<seq<int>>)
    requires Spaced(ts) && HellosOf(ts, hs) && b.level == FULL && (ts != [] ==> b.at <= ts[0].at)
    ensures SpendAll(b, hs).Some?
  {
    if ts != [] { BucketKept(b, ts, hs); }
  }

  // ---- the numbers ----

  /** The pauses in seconds: 2, 4, 8, 16, 32, and 60 from then on. */
  lemma {:induction false} PausesAre(step: nat)
    ensures Base(0) == 2_000_000_000 && Base(1) == 4_000_000_000 && Base(2) == 8_000_000_000
    ensures Base(3) == 16_000_000_000 && Base(4) == 32_000_000_000
    ensures step >= 5 ==> Base(step) == 60_000_000_000
  {
    assert Base(1) == 2 * Base(0);
    assert Base(2) == 2 * Base(1);
    assert Base(3) == 2 * Base(2);
    assert Base(4) == 2 * Base(3);
    if step > 5 { PausesAre(step - 1); }
  }

  /** The jitter makes a pause of fraction f of the way from 0.8 to 1.2 times it, cut to whole nanoseconds. */
  lemma JitterReads(pause: int, jitter: real)
    ensures var exact := pause as real * (4.0 + 2.0 * jitter) / 5.0;
            Jittered(pause, jitter) as real <= exact < Jittered(pause, jitter) as real + 1.0
  {
    assert pause as real * (0.8 + 0.4 * jitter) == pause as real * (4.0 + 2.0 * jitter) / 5.0;
  }

  /** The limit does limit: a full bucket has ten hellos and no eleventh at that moment; the next is let through
      exactly from six seconds later on. */
  lemma TenAndNoMore(now: int, later: int)
    requires later >= now
    ensures Spend(Bucket(FULL, now), seq(10, i => now)) == Some(Bucket(0, now))
    ensures Spend(Bucket(0, now), [later]).Some? <==> later >= now + 6_000_000_000
  {
    SpendSome(now, 10);
  }

  lemma {:induction false} SpendSome(now: int, n: nat)
    requires n <= 10
    ensures Spend(Bucket(n * TOKEN, now), seq(n, i => now)) == Some(Bucket(0, now))
  {
    if n > 0 {
      SpendSome(now, n - 1);
      assert seq(n, i => now)[1..] == seq(n - 1, i => now);
      assert Level(Bucket(n * TOKEN, now), now) == n * TOKEN;
    }
  }
}
