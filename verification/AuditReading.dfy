/** Opening the files of an audit trail one by one, read by read, while the writer runs between any two reads. */
module AuditReading {
  import opened Results
  import opened AuditTrail
  import opened AuditOpened

  /** Why a pass over the trail failed: a name of the listing was gone, or something could not be read. */
  datatype Fault = Vanished | Unreadable

  /** What the opener meets: before its read at moment t the writer runs `schedule(t)`, and the read fails, for
      whatever reason, if `fails(t)`. */
  datatype Env = Env(schedule: nat -> seq<Step>, fails: nat -> bool)

  function Met(env: Env, d: Dir, t: nat): Dir { Run(d, env.schedule(t)) }

  function Holding(d: Dir, i: Inode): Dir { d.(held := d.held + multiset{i}) }

  function Releasing(d: Dir, held: multiset<Inode>): Dir { d.(held := d.held - held) }

  /** Some read from one moment to before another fails. */
  ghost predicate Failing(env: Env, from: nat, end: nat) { exists t | from <= t < end :: env.fails(t) }

  /** After some reads: the directory, the next moment, what was opened, and why reading stopped early. */
  datatype Reading = Reading(dir: Dir, tick: nat, trail: Opened, fault: Option<Fault>)

  datatype ArchiveOpen = Wrong(fault: Fault) | SameFile | Got(inode: Inode)

  /** The marker, the current file, and its status. */
  function CurrentOf(env: Env, d: Dir, t: nat): Reading {
    var d1 := Met(env, d, t);
    if env.fails(t) then Reading(d1, t + 1, Opened(0, [], None), Some(Unreadable)) else
    var d2 := Met(env, d1, t + 1);
    var o := Opened(d1.marker, [], None);
    if env.fails(t + 1) then Reading(d2, t + 2, o, Some(Unreadable))
    else if d2.current.None? then Reading(d2, t + 2, o, None)
    else
      Reading(Met(env, Holding(d2, d2.current.value), t + 2), t + 3, o.(current := d2.current),
              if env.fails(t + 2) then Some(Unreadable) else None)
  }

  /** An archive, opened by name; the current file under its archive name is closed again. */
  function ArchiveOf(env: Env, d: Dir, t: nat, number: nat, current: Option<Inode>): ArchiveOpen {
    var m := Met(env, d, t);
    if env.fails(t) then Wrong(Unreadable)
    else if number !in m.archives then Wrong(Vanished)
    else if current == Some(m.archives[number]) then SameFile
    else Got(m.archives[number])
  }

  function AfterArchive(env: Env, d: Dir, t: nat, r: ArchiveOpen): Dir {
    if r.Got? then Holding(Met(env, d, t), r.inode) else Met(env, d, t)
  }

  /** These archives in turn, those that the marker covers left out; `o` is what was opened so far. */
  function ArchivesOf(env: Env, d: Dir, t: nat, numbers: seq<nat>, o: Opened): Reading
    decreases |numbers|
  {
    if numbers == [] then Reading(d, t, o, None)
    else if numbers[0] <= o.start then ArchivesOf(env, d, t, numbers[1..], o)
    else
      var r := ArchiveOf(env, d, t, numbers[0], o.current);
      var e := AfterArchive(env, d, t, r);
      match r
      case Wrong(fault) => Reading(e, t + 1, o, Some(fault))
      case SameFile => ArchivesOf(env, e, t + 1, numbers[1..], o)
      case Got(inode) => ArchivesOf(env, e, t + 1, numbers[1..], And(o, numbers[0], inode))
  }

  function And(o: Opened, number: nat, inode: Inode): Opened {
    o.(archives := o.archives + [OpenedArchive(number, inode)])
  }

  function Least(s: set<nat>): (m: nat)
    requires s != {}
    ensures m in s && forall n | n in s :: m <= n
  {
    assert exists m :: m in s && forall n | n in s :: m <= n by { var x :| x in s; HasLeast(s, x); }
    var m :| m in s && forall n | n in s :: m <= n;
    m
  }

  /** The numbers in the order in which a directory lists names of one length. */
  function Ascending(s: set<nat>): seq<nat> {
    if s == {} then [] else [Least(s)] + Ascending(s - {Least(s)})
  }

  lemma LowerFirst(m: nat, rest: seq<nat>)
    requires StrictlyIncreasing(rest) && forall n | n in rest :: m < n
    ensures StrictlyIncreasing([m] + rest)
  {
    assert forall i | 0 <= i < |rest| :: rest[i] in rest;
  }

  lemma {:induction false} AscendingOk(s: set<nat>)
    ensures StrictlyIncreasing(Ascending(s)) && forall n :: n in Ascending(s) <==> n in s
  {
    hide StrictlyIncreasing;
    if s == {} {
      NoneIncreasing();
    } else {
      var m := Least(s);
      AscendingOk(s - {m});
      LowerFirst(m, Ascending(s - {m}));
    }
  }

  lemma NoneIncreasing()
    ensures StrictlyIncreasing([])
  {
  }

  lemma {:induction false} HasLeast(s: set<nat>, x: nat)
    requires x in s
    ensures exists m :: m in s && forall n | n in s :: m <= n
  {
    if y :| y in s && y < x {
      HasLeast(s, y);
    } else {
      assert forall n | n in s :: x <= n;
    }
  }

  /** openSegmentsOnce, by the directory as it was listed. */
  function OnceOf(env: Env, d: Dir, t: nat): Reading {
    var c := CurrentOf(env, d, t);
    if c.fault.Some? then c else
    var r := ArchivesOf(env, c.dir, c.tick, Ascending(d.archives.Keys), c.trail);
    if r.fault.Some? then r else r.(trail := r.trail.(archives := Sorted(r.trail.archives)))
  }

  // ---- what every reading keeps ----

  /** Between the two, staged names changed only by steps that count. */
  ghost predicate Stirred(d: Dir, e: Dir) { d.stirs <= e.stirs && (e.stirs == d.stirs ==> e.staged == d.staged) }

  /** The directory as the writer may have made it meanwhile. */
  ghost predicate Follows(d: Dir, e: Dir) { Valid(e) && Advanced(d, e) && Stirred(d, e) && d.moves <= e.moves }

  lemma FollowsTransitive(d: Dir, e: Dir, f: Dir)
    requires Follows(d, e) && Follows(e, f)
    ensures Follows(d, f)
  {
    hide Valid, Precedes, Seen;
    hide Advanced;
    AdvancedTransitive(d, e, f);
  }

  lemma MetFollows(env: Env, d: Dir, t: nat)
    requires Valid(d)
    ensures Follows(d, Met(env, d, t)) && Met(env, d, t).held == d.held
  {
    hide Valid, Advanced;
    RunKeepsValid(d, env.schedule(t));
    RunMovesUp(d, env.schedule(t));
    RunStirs(d, env.schedule(t));
  }

  lemma HeldFollows(d: Dir, e: Dir)
    requires Valid(d) && e == d.(held := e.held)
    ensures Follows(d, e) && Seen(e) == Seen(d)
  {
    hide Precedes;
    HoldKeepsValid(d, e);
    hide Valid;
  }

  lemma HoldingFollows(env: Env, d: Dir, t: nat, i: Inode)
    requires Valid(d)
    ensures Follows(d, Holding(Met(env, d, t), i)) && Holding(Met(env, d, t), i).held == d.held + multiset{i}
  {
    hide Valid, Follows, Met;
    MetFollows(env, d, t);
    FollowsMeansValid(d, Met(env, d, t));
    HeldFollows(Met(env, d, t), Holding(Met(env, d, t), i));
    FollowsTransitive(d, Met(env, d, t), Holding(Met(env, d, t), i));
  }

  /** What following means to a reader who finds that nothing moved. */
  lemma FollowsMeansValid(d: Dir, e: Dir)
    requires Follows(d, e)
    ensures Valid(e) && d.moves <= e.moves && (e.moves == d.moves ==> Seen(e) == Seen(d))
  {
    hide Valid, Precedes;
  }

  lemma CurrentFollows(env: Env, d: Dir, t: nat)
    requires Valid(d)
    ensures var r := CurrentOf(env, d, t);
            Follows(d, r.dir) && t < r.tick && r.trail.archives == [] && r.dir.held == d.held + Inodes(r.trail)
  {
    hide Valid, Follows, Met, Inodes, Holding;
    var d1 := Met(env, d, t);
    MetFollows(env, d, t);
    FollowsMeansValid(d, d1);
    var d2 := Met(env, d1, t + 1);
    MetFollows(env, d1, t + 1);
    FollowsTransitive(d, d1, d2);
    CurrentInodes(0, None);
    CurrentInodes(d1.marker, d2.current);
    CurrentInodes(d1.marker, None);
    if d2.current.Some? {
      var h := Holding(d2, d2.current.value);
      HoldingFollows(env, d1, t + 1, d2.current.value);
      FollowsMeansValid(d1, h);
      MetFollows(env, h, t + 2);
      FollowsTransitive(d, d1, h);
      FollowsTransitive(d, h, Met(env, h, t + 2));
    }
  }

  lemma CurrentInodes(start: nat, current: Option<Inode>)
    ensures Inodes(Opened(start, [], current)) == if current.Some? then multiset{current.value} else multiset{}
  {
  }

  lemma AfterArchiveFollows(env: Env, d: Dir, t: nat, r: ArchiveOpen)
    requires Valid(d)
    ensures var e := AfterArchive(env, d, t, r);
            Follows(d, e) && e.held == d.held + if r.Got? then multiset{r.inode} else multiset{}
  {
    hide Valid, Follows, Met;
    MetFollows(env, d, t);
    if r.Got? { HoldingFollows(env, d, t, r.inode); }
  }

  lemma InodesAnd(o: Opened, number: nat, inode: Inode)
    ensures Inodes(And(o, number, inode)) == Inodes(o) + multiset{inode}
  {
    InodesSnoc(o.archives, OpenedArchive(number, inode));
  }

  lemma Cancel(a: multiset<Inode>, b: multiset<Inode>, c: multiset<Inode>, x: multiset<Inode>)
    requires a + (b + x) == c + x
    ensures a + b == c
  {
    assert forall i :: (a + b)[i] + x[i] == (a + (b + x))[i] == c[i] + x[i];
  }

  lemma {:induction false} ArchivesFollow(env: Env, d: Dir, t: nat, numbers: seq<nat>, o: Opened)
    requires Valid(d)
    ensures var r := ArchivesOf(env, d, t, numbers, o);
            && Follows(d, r.dir) && t <= r.tick && r.trail.start == o.start && r.trail.current == o.current
            && r.dir.held + Inodes(o) == d.held + Inodes(r.trail)
    decreases |numbers|
  {
    hide Valid, Follows, Met, Inodes, ArchiveOf, AfterArchive;
    if numbers == [] {
      HeldFollows(d, d);
    } else if numbers[0] <= o.start {
      ArchivesFollow(env, d, t, numbers[1..], o);
    } else {
      var r := ArchiveOf(env, d, t, numbers[0], o.current);
      var e := AfterArchive(env, d, t, r);
      AfterArchiveFollows(env, d, t, r);
      FollowsMeansValid(d, e);
      if !r.Wrong? {
        var p := if r.Got? then And(o, numbers[0], r.inode) else o;
        var rest := ArchivesOf(env, e, t + 1, numbers[1..], p);
        ArchivesFollow(env, e, t + 1, numbers[1..], p);
        FollowsTransitive(d, e, rest.dir);
        if r.Got? {
          InodesAnd(o, numbers[0], r.inode);
          Regroup(rest.dir.held, Inodes(o), d.held, Inodes(rest.trail), multiset{r.inode});
        }
      }
    }
  }

  lemma Regroup(a: multiset<Inode>, b: multiset<Inode>, c: multiset<Inode>, d: multiset<Inode>, x: multiset<Inode>)
    requires a + (b + x) == (c + x) + d
    ensures a + b == c + d
  {
    assert (c + x) + d == (c + d) + x;
    Cancel(a, b, c + d, x);
  }

  lemma SortedTrailInodes(o: Opened)
    ensures Inodes(o.(archives := Sorted(o.archives))) == Inodes(o)
  {
    SortedInodes(o.archives);
  }

  lemma OnceFollows(env: Env, d: Dir, t: nat)
    requires Valid(d)
    ensures var r := OnceOf(env, d, t);
            Follows(d, r.dir) && t < r.tick && r.dir.held == d.held + Inodes(r.trail)
  {
    hide Valid, Follows, Met, CurrentOf, ArchivesOf, Inodes, Sorted, Ascending;
    var c := CurrentOf(env, d, t);
    CurrentFollows(env, d, t);
    if c.fault.None? {
      FollowsMeansValid(d, c.dir);
      var numbers := Ascending(d.archives.Keys);
      var r := ArchivesOf(env, c.dir, c.tick, numbers, c.trail);
      ArchivesFollow(env, c.dir, c.tick, numbers, c.trail);
      FollowsTransitive(d, c.dir, r.dir);
      Regroup(r.dir.held, multiset{}, d.held, Inodes(r.trail), Inodes(c.trail));
      SortedTrailInodes(r.trail);
    }
  }

  // ---- a reading during which nothing moved ----

  /** The first moment in the range at which a read fails, or its end. */
  function Stop(env: Env, from: nat, end: nat): (u: nat)
    requires from <= end
    ensures from <= u <= end && (u < end ==> env.fails(u)) && forall v | from <= v < u :: !env.fails(v)
    decreases end - from
  {
    if from == end || env.fails(from) then from else Stop(env, from + 1, end)
  }

  /** The moment after the last read made. */
  function Next(u: nat, end: nat): nat { if u < end then u + 1 else u }

  /** How many of these archives the marker does not cover. */
  function Uncovered(numbers: seq<nat>, marker: nat): nat {
    if numbers == [] then 0 else (if numbers[0] <= marker then 0 else 1) + Uncovered(numbers[1..], marker)
  }

  /** Those of them that are open once k of the uncovered ones have been looked at. */
  function OpenFrom(l: Listing, numbers: seq<nat>, k: nat): seq<OpenedArchive> {
    if numbers == [] || k == 0 then []
    else if numbers[0] <= l.marker then OpenFrom(l, numbers[1..], k)
    else
      (if Kept(l, numbers[0]) then [OpenedArchive(numbers[0], l.archives[numbers[0]])] else [])
      + OpenFrom(l, numbers[1..], k - 1)
  }

  /** All that are kept. */
  function KeptOf(l: Listing): seq<OpenedArchive> {
    var numbers := Ascending(l.archives.Keys);
    OpenFrom(l, numbers, Uncovered(numbers, l.marker))
  }

  /** How many reads it takes to open what is listed. */
  function Reads(l: Listing): nat {
    (if l.current.Some? then 3 else 2) + Uncovered(Ascending(l.archives.Keys), l.marker)
  }

  /** What is open after i of them: the current file from the second one on, then the archives in order. */
  function OpenAfter(l: Listing, i: nat): multiset<Inode> {
    if l.current.None? || i < 2 then multiset{}
    else multiset{l.current.value} + ArchiveInodes(OpenFrom(l, Ascending(l.archives.Keys), if i < 3 then 0 else i - 3))
  }

  /** What reading the marker and the current file comes to. */
  predicate ReadsCurrent(env: Env, l: Listing, t: nat, r: Reading) {
    var end := t + if l.current.Some? then 3 else 2;
    var u := Stop(env, t, end);
    && r.tick == Next(u, end) && (r.fault.Some? <==> u < end) && r.trail.archives == []
    && r.trail.current == (if u - t < 2 then None else l.current) && (u > t ==> r.trail.start == l.marker)
  }

  lemma CurrentSettled(env: Env, d: Dir, t: nat)
    requires Valid(d) && CurrentOf(env, d, t).dir.moves == d.moves
    ensures ReadsCurrent(env, Seen(d), t, CurrentOf(env, d, t))
  {
    hide Valid, Follows, Met;
    var d1 := Met(env, d, t);
    MetFollows(env, d, t);
    FollowsMeansValid(d, d1);
    var d2 := Met(env, d1, t + 1);
    MetFollows(env, d1, t + 1);
    FollowsMeansValid(d1, d2);
    if d2.current.Some? {
      var h := Holding(d2, d2.current.value);
      HoldingFollows(env, d1, t + 1, d2.current.value);
      FollowsMeansValid(d1, h);
      MetFollows(env, h, t + 2);
      FollowsMeansValid(h, Met(env, h, t + 2));
    }
    var u := Stop(env, t, t + if d.current.Some? then 3 else 2);
    assert u == t || !env.fails(t);
  }

  /** What reading these archives comes to. */
  predicate ReadsArchives(env: Env, l: Listing, t: nat, numbers: seq<nat>, o: Opened, r: Reading) {
    var end := t + Uncovered(numbers, l.marker);
    var u := Stop(env, t, end);
    && r.tick == Next(u, end) && (r.fault.Some? <==> u < end)
    && r.trail == o.(archives := o.archives + OpenFrom(l, numbers, u - t))
  }

  lemma CoveredOne(env: Env, l: Listing, t: nat, numbers: seq<nat>, o: Opened, r: Reading)
    requires numbers != [] && numbers[0] <= l.marker && ReadsArchives(env, l, t, numbers[1..], o, r)
    ensures ReadsArchives(env, l, t, numbers, o, r)
  {
    var end := t + Uncovered(numbers, l.marker);
    if Stop(env, t, end) == t { assert OpenFrom(l, numbers, 0) == [] == OpenFrom(l, numbers[1..], 0); }
  }

  lemma FailedOne(env: Env, l: Listing, t: nat, numbers: seq<nat>, o: Opened, r: Reading)
    requires numbers != [] && numbers[0] > l.marker && env.fails(t)
    requires r.tick == t + 1 && r.fault.Some? && r.trail == o
    ensures ReadsArchives(env, l, t, numbers, o, r)
  {
    assert o.archives + [] == o.archives;
  }

  lemma ReadOne(env: Env, l: Listing, t: nat, numbers: seq<nat>, o: Opened, p: Opened, r: Reading)
    requires numbers != [] && numbers[0] > l.marker && !env.fails(t)
    requires p == if Kept(l, numbers[0]) then And(o, numbers[0], l.archives[numbers[0]]) else o
    requires ReadsArchives(env, l, t + 1, numbers[1..], p, r)
    ensures ReadsArchives(env, l, t, numbers, o, r)
  {
    hide Stop, OpenFrom, Kept;
    var n := Uncovered(numbers[1..], l.marker);
    assert Uncovered(numbers, l.marker) == n + 1;
    StopNext(env, t, n);
    var u := Stop(env, t + 1, t + 1 + n);
    var rest := OpenFrom(l, numbers[1..], u - (t + 1));
    OpenNext(l, numbers, u - t, o.archives);
    assert p.archives + rest == o.archives + OpenFrom(l, numbers, u - t);
  }

  lemma StopNext(env: Env, t: nat, n: nat)
    requires !env.fails(t)
    ensures Stop(env, t, t + n + 1) == Stop(env, t + 1, t + 1 + n)
  {
  }

  lemma OpenNext(l: Listing, numbers: seq<nat>, k: nat, before: seq<OpenedArchive>)
    requires numbers != [] && numbers[0] > l.marker && k > 0
    ensures before + OpenFrom(l, numbers, k)
            == (if Kept(l, numbers[0]) then before + [OpenedArchive(numbers[0], l.archives[numbers[0]])] else before)
               + OpenFrom(l, numbers[1..], k - 1)
  {
    var rest := OpenFrom(l, numbers[1..], k - 1);
    if !Kept(l, numbers[0]) { assert [] + rest == rest; }
  }

  lemma ArchiveSettled(env: Env, d: Dir, t: nat, number: nat, current: Option<Inode>)
    requires Valid(d) && number in d.archives && number > d.marker && current == d.current
    requires AfterArchive(env, d, t, ArchiveOf(env, d, t, number, current)).moves == d.moves
    ensures var r := ArchiveOf(env, d, t, number, current);
            && (r.Wrong? <==> env.fails(t)) && (!r.Wrong? ==> (r.Got? <==> Kept(Seen(d), number)))
            && (r.Got? ==> r.inode == d.archives[number]) && Seen(AfterArchive(env, d, t, r)) == Seen(d)
  {
    hide Valid, Follows, Met;
    MetFollows(env, d, t);
    FollowsMeansValid(d, Met(env, d, t));
  }

  lemma {:induction false} ArchivesSettled(env: Env, d: Dir, t: nat, numbers: seq<nat>, l: Listing, o: Opened)
    requires Valid(d) && Seen(d) == l && (forall n | n in numbers :: n in l.archives)
    requires o.start == l.marker && o.current == l.current
    requires ArchivesOf(env, d, t, numbers, o).dir.moves == d.moves
    ensures ReadsArchives(env, l, t, numbers, o, ArchivesOf(env, d, t, numbers, o))
    decreases |numbers|
  {
    hide Valid, Follows, ArchiveOf, AfterArchive, ReadsArchives;
    if numbers == [] {
      NothingToRead(env, l, t, o, ArchivesOf(env, d, t, numbers, o));
    } else if numbers[0] <= o.start {
      ArchivesSettled(env, d, t, numbers[1..], l, o);
      CoveredOne(env, l, t, numbers, o, ArchivesOf(env, d, t, numbers, o));
    } else {
      var r := ArchiveOf(env, d, t, numbers[0], o.current);
      var e := AfterArchive(env, d, t, r);
      AfterArchiveFollows(env, d, t, r);
      FollowsMeansValid(d, e);
      if r.Wrong? {
        ArchiveSettled(env, d, t, numbers[0], o.current);
        FailedOne(env, l, t, numbers, o, ArchivesOf(env, d, t, numbers, o));
      } else {
        var p := if r.Got? then And(o, numbers[0], r.inode) else o;
        var rest := ArchivesOf(env, e, t + 1, numbers[1..], p);
        ArchivesFollow(env, e, t + 1, numbers[1..], p);
        FollowsMeansValid(e, rest.dir);
        ArchiveSettled(env, d, t, numbers[0], o.current);
        ArchivesSettled(env, e, t + 1, numbers[1..], l, p);
        ReadOne(env, l, t, numbers, o, p, rest);
      }
    }
  }

  lemma NothingToRead(env: Env, l: Listing, t: nat, o: Opened, r: Reading)
    requires r.tick == t && r.fault.None? && r.trail == o
    ensures ReadsArchives(env, l, t, [], o, r)
  {
    assert o.archives + [] == o.archives;
  }

  lemma {:induction false} OpenFromOk(l: Listing, numbers: seq<nat>, k: nat)
    requires StrictlyIncreasing(numbers)
    ensures forall a | a in OpenFrom(l, numbers, k) :: a.number in numbers && Kept(l, a.number)
                                                       && a.inode == l.archives[a.number]
    ensures Distinct(OpenFrom(l, numbers, k))
    decreases |numbers|
  {
    hide Kept;
    if numbers != [] && k > 0 {
      var rest := OpenFrom(l, numbers[1..], if numbers[0] <= l.marker then k else k - 1);
      OpenFromOk(l, numbers[1..], if numbers[0] <= l.marker then k else k - 1);
      assert forall n | n in numbers[1..] :: numbers[0] < n && n in numbers;
      assert forall i | 0 <= i < |rest| :: rest[i] in rest;
    }
  }

  lemma {:induction false} AllOpen(l: Listing, numbers: seq<nat>, k: nat)
    requires k >= Uncovered(numbers, l.marker)
    ensures forall n | n in numbers && Kept(l, n) :: OpenedArchive(n, l.archives[n]) in OpenFrom(l, numbers, k)
    decreases |numbers|
  {
    if numbers != [] && k > 0 {
      AllOpen(l, numbers[1..], if numbers[0] <= l.marker then k else k - 1);
      assert numbers == [numbers[0]] + numbers[1..];
    } else {
      NoneUncovered(numbers, l.marker);
    }
  }

  lemma {:induction false} NoneUncovered(numbers: seq<nat>, marker: nat)
    requires Uncovered(numbers, marker) == 0
    ensures forall n | n in numbers :: n <= marker
  {
    if numbers != [] {
      NoneUncovered(numbers[1..], marker);
      assert numbers == [numbers[0]] + numbers[1..];
    }
  }

  /** What opening what is listed comes to: it stops at the first read that fails, if one does, with open what the
      reads before it opened; else it holds what is listed. */
  ghost predicate ReadsListed(env: Env, l: Listing, t: nat, r: Reading) {
    var end := t + Reads(l);
    var u := Stop(env, t, end);
    && r.tick == Next(u, end) && (r.fault.Some? <==> u < end) && Inodes(r.trail) == OpenAfter(l, u - t)
    && (r.fault.None? ==> Opens(l, r.trail))
  }

  lemma StopsEarly(env: Env, l: Listing, t: nat, c: Reading)
    requires ReadsCurrent(env, l, t, c) && c.fault.Some?
    ensures ReadsListed(env, l, t, c)
  {
    var mid := t + if l.current.Some? then 3 else 2;
    StopSplits(env, t, mid, t + Reads(l));
    assert OpenFrom(l, Ascending(l.archives.Keys), 0) == [];
  }

  lemma ReadsOn(env: Env, l: Listing, t: nat, c: Reading, r: Reading)
    requires ReadsCurrent(env, l, t, c) && c.fault.None? && (l.current.None? ==> l.archives == map[])
    requires ReadsArchives(env, l, c.tick, Ascending(l.archives.Keys), c.trail, r)
    ensures var end := t + Reads(l); var u := Stop(env, t, end);
            && r.tick == Next(u, end) && (r.fault.Some? <==> u < end) && Inodes(r.trail) == OpenAfter(l, u - t)
            && (r.fault.None? ==> r.trail == Opened(l.marker, KeptOf(l), l.current))
  {
    hide Stop, Uncovered, Ascending, Inodes, OpenAfter, OpenFrom;
    var numbers := Ascending(l.archives.Keys);
    var mid, end := t + (if l.current.Some? then 3 else 2), t + Reads(l);
    StopSplits(env, t, mid, end);
    GotCurrent(env, l, t, c);
    var u := Stop(env, mid, end);
    assert Stop(env, t, end) == u && r.trail == Opened(l.marker, OpenFrom(l, numbers, u - mid), l.current);
    InodesAfter(l, u - mid, r.trail);
  }

  lemma InodesAfter(l: Listing, k: nat, o: Opened)
    requires l.current.None? ==> l.archives == map[]
    requires o == Opened(l.marker, OpenFrom(l, Ascending(l.archives.Keys), k), l.current)
    ensures Inodes(o) == OpenAfter(l, k + if l.current.Some? then 3 else 2)
  {
    if l.current.None? { assert Ascending(l.archives.Keys) == []; }
  }

  lemma Sorting(env: Env, l: Listing, t: nat, c: Reading, r: Reading)
    requires ReadsCurrent(env, l, t, c) && c.fault.None? && (l.current.None? ==> l.archives == map[])
    requires ReadsArchives(env, l, c.tick, Ascending(l.archives.Keys), c.trail, r)
    ensures r.fault.Some? ==> ReadsListed(env, l, t, r)
    ensures r.fault.None? ==> ReadsListed(env, l, t, r.(trail := r.trail.(archives := Sorted(r.trail.archives))))
  {
    hide Stop, ReadsCurrent, ReadsArchives, Sorted, Inodes, OpenAfter, Reads, KeptOf, Opens;
    ReadsOn(env, l, t, c, r);
    SortedTrailInodes(r.trail);
    if r.fault.None? { ListedOpens(l, r.trail); }
  }

  lemma ListedOpens(l: Listing, o: Opened)
    requires o == Opened(l.marker, KeptOf(l), l.current)
    ensures Opens(l, o.(archives := Sorted(o.archives)))
  {
    var numbers := Ascending(l.archives.Keys);
    AscendingOk(l.archives.Keys);
    OpenFromOk(l, numbers, Uncovered(numbers, l.marker));
    AllOpen(l, numbers, Uncovered(numbers, l.marker));
    SortedOk(o.archives);
  }

  /** WHAT A READING COMES TO while nothing rotates or is pruned. */
  lemma OnceSettled(env: Env, d: Dir, t: nat)
    requires Valid(d) && OnceOf(env, d, t).dir.moves == d.moves
    ensures ReadsListed(env, Seen(d), t, OnceOf(env, d, t))
  {
    hide Valid, Follows, CurrentOf, ArchivesOf, ReadsListed, ReadsArchives, ReadsCurrent, Sorted;
    var l, numbers := Seen(d), Ascending(d.archives.Keys);
    var c := CurrentOf(env, d, t);
    CurrentFollows(env, d, t);
    FollowsMeansValid(d, c.dir);
    if c.fault.Some? {
      CurrentSettled(env, d, t);
      StopsEarly(env, l, t, c);
    } else {
      var r := ArchivesOf(env, c.dir, c.tick, numbers, c.trail);
      ArchivesFollow(env, c.dir, c.tick, numbers, c.trail);
      FollowsMeansValid(c.dir, r.dir);
      CurrentSettled(env, d, t);
      GotCurrent(env, l, t, c);
      AscendingOk(d.archives.Keys);
      ArchivesSettled(env, c.dir, c.tick, numbers, l, c.trail);
      if d.current.None? { NoArchives(d); }
      Sorting(env, l, t, c, r);
    }
  }

  lemma GotCurrent(env: Env, l: Listing, t: nat, c: Reading)
    requires ReadsCurrent(env, l, t, c) && c.fault.None?
    ensures c.trail == Opened(l.marker, [], l.current)
  {
  }

  lemma NoArchives(d: Dir)
    requires Valid(d) && d.current.None?
    ensures d.archives == map[]
  {
    hide ArchivesOk;
  }

  lemma {:induction false} StopSplits(env: Env, from: nat, mid: nat, end: nat)
    requires from <= mid <= end
    ensures Stop(env, from, end) == if Stop(env, from, mid) < mid then Stop(env, from, mid) else Stop(env, mid, end)
    decreases mid - from
  {
    if from < mid && !env.fails(from) { StopSplits(env, from + 1, mid, end); }
  }

  /** So a failed read is always reported, and nothing else is. */
  lemma FaultIffFailing(env: Env, d: Dir, t: nat)
    requires Valid(d) && OnceOf(env, d, t).dir.moves == d.moves
    ensures OnceOf(env, d, t).fault.Some? <==> Failing(env, t, OnceOf(env, d, t).tick)
  {
    hide Valid, OnceOf, Reads, OpenAfter, Opens;
    OnceSettled(env, d, t);
  }
}
