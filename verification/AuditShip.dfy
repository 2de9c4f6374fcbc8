/** The audit shipper's opener: it reads the directory's state, opens the files, reads the state again, and starts
    over when it moved; and what a pass of the shipper leaves open. */
module AuditShip {
  import opened Results
  import opened AuditTrail
  import opened AuditOpened
  import opened AuditReading

  datatype Outcome = Whole(trail: Opened) | Failed(trail: Opened) | StateUnreadable | KeptRotating

  /** One attempt: the directory when its state is first read, what is then opened, and the directory when its state
      is read again. */
  datatype Attempt = Attempt(first: Dir, reading: Reading, last: Dir)

  function AttemptOf(env: Env, d: Dir, t: nat): Attempt {
    var first := Met(env, d, t);
    var r := OnceOf(env, first, t + 1);
    Attempt(first, r, Met(env, r.dir, r.tick))
  }

  predicate Settled(a: Attempt) { Observed(a.first) == Observed(a.last) }

  function Closed(a: Attempt): Dir { Releasing(a.last, Inodes(a.reading.trail)) }

  datatype Ended = Ended(outcome: Outcome, dir: Dir, tick: nat)

  /** openSegments, with so many attempts left. */
  function SegmentsOf(env: Env, d: Dir, t: nat, left: nat): Ended
    decreases left
  {
    if left == 0 then Ended(KeptRotating, d, t)
    else if env.fails(t) then Ended(StateUnreadable, Met(env, d, t), t + 1)
    else
      var a := AttemptOf(env, d, t);
      var end := a.reading.tick;
      if env.fails(end) then Ended(StateUnreadable, Closed(a), end + 1)
      else if Settled(a) then
        Ended(if a.reading.fault.Some? then Failed(a.reading.trail) else Whole(a.reading.trail), a.last, end + 1)
      else SegmentsOf(env, Closed(a), end + 1, left - 1)
  }

  lemma AttemptFollows(env: Env, d: Dir, t: nat)
    requires Valid(d)
    ensures var a := AttemptOf(env, d, t);
            && Follows(d, a.first) && Follows(a.first, a.last) && t + 1 < a.reading.tick
            && a.last.held == d.held + Inodes(a.reading.trail)
            && Valid(a.last) && Valid(Closed(a)) && Closed(a).held == d.held
            && (Settled(a) ==> a.reading.dir.moves == a.first.moves)
            && (!Settled(a) ==> d.moves + d.stirs < Closed(a).moves + Closed(a).stirs)
  {
    hide Valid, Follows, OnceOf, Met, Inodes;
    var a := AttemptOf(env, d, t);
    MetFollows(env, d, t);
    FollowsMeansValid(d, a.first);
    OnceFollows(env, a.first, t + 1);
    FollowsMeansValid(a.first, a.reading.dir);
    MetFollows(env, a.reading.dir, a.reading.tick);
    FollowsMeansValid(a.reading.dir, a.last);
    FollowsTransitive(a.first, a.reading.dir, a.last);
    HeldFollows(a.last, Closed(a));
    FollowsMeansValid(a.last, Closed(a));
    FollowsSnapshots(d, a.first, a.last);
  }

  lemma FollowsSnapshots(c: Dir, d: Dir, e: Dir)
    requires Follows(c, d) && Follows(d, e)
    ensures Observed(e) == Observed(d) ==> e.moves == d.moves
    ensures Observed(e) != Observed(d) ==> c.moves + c.stirs < e.moves + e.stirs
  {
    hide Valid, Advanced;
    SameSnapshot(d, e);
  }

  /** What opening the trail comes to. A success holds exactly the trail after the marker. A read that fails while
      nothing rotates or is pruned is returned with what was open, still open; every other failure leaves nothing open.
      Without failing reads the only failure is a directory in which something moved during each attempt. */
  ghost predicate Faithful(env: Env, d: Dir, t: nat, left: nat, e: Ended) {
    var r := e.outcome;
    && Valid(e.dir) && t <= e.tick
    && (r.Whole?
        ==> && Opens(Seen(e.dir), r.trail) && e.dir.marker <= |e.dir.trail| && Readable(e.dir.files, r.trail)
            && Contents(e.dir.files, r.trail) == e.dir.trail[e.dir.marker..])
    && e.dir.held == d.held + (if r.Whole? || r.Failed? then Inodes(r.trail) else multiset{})
    && (r.Failed? || r.StateUnreadable? ==> Failing(env, t, e.tick))
    && (r.KeptRotating? ==> d.moves + d.stirs + left <= e.dir.moves + e.dir.stirs)
  }

  lemma {:induction false} SegmentsOk(env: Env, d: Dir, t: nat, left: nat)
    requires Valid(d)
    ensures Faithful(env, d, t, left, SegmentsOf(env, d, t, left))
    decreases left
  {
    hide Valid, Follows, AttemptOf, Met, Opens, Inodes, Contents, Readable, OpenAfter, Reads;
    if left > 0 {
      MetFollows(env, d, t);
      FollowsMeansValid(d, Met(env, d, t));
      if !env.fails(t) {
        var a := AttemptOf(env, d, t);
        AttemptFollows(env, d, t);
        FollowsMeansValid(a.first, a.last);
        if Settled(a) {
          SettledAttempt(env, d, t);
          if a.reading.fault.None? { OpensWhole(a.last, a.reading.trail); }
        }
        if !env.fails(a.reading.tick) && !Settled(a) { SegmentsOk(env, Closed(a), a.reading.tick + 1, left - 1); }
      }
    }
  }

  /** OnceSettled for an attempt at whose end the directory is as it was. */
  lemma SettledAttempt(env: Env, d: Dir, t: nat)
    requires Valid(d) && Settled(AttemptOf(env, d, t))
    ensures var a := AttemptOf(env, d, t);
            && ReadsListed(env, Seen(a.first), t + 1, a.reading) && Seen(a.last) == Seen(a.first)
            && (a.reading.fault.Some? ==> Failing(env, t + 1, a.reading.tick))
  {
    hide Valid, Follows, OnceOf, ReadsListed;
    var a := AttemptOf(env, d, t);
    AttemptFollows(env, d, t);
    MetFollows(env, d, t);
    FollowsMeansValid(d, a.first);
    OnceSettled(env, a.first, t + 1);
    FaultIffFailing(env, a.first, t + 1);
  }

  // ---- what a pass leaves open ----

  /** One pass of the shipper's loop: `pending` is the handover check's failure. The trail is closed only where it
      was shipped. */
  function PassOf(env: Env, d: Dir, t: nat, pending: bool): Ended {
    var e := SegmentsOf(env, d, t, 5);
    if e.outcome.Whole? && !pending then e.(dir := Releasing(e.dir, Inodes(e.outcome.trail))) else e
  }

  /** What an attempt leaves open that begins at moment t, finds this listing, and finds it again at its end: what it
      opened before its first failing read, or all of it if none fails and the handover is pending. */
  function Left(env: Env, l: Listing, t: nat, pending: bool): multiset<Inode> {
    var end := t + 1 + Reads(l);
    var u := Stop(env, t + 1, end);
    if u < end || pending then OpenAfter(l, u - t - 1) else multiset{}
  }

  /** What so many attempts leave open: nothing if the state cannot be read before or after the first one; what that
      leaves if nothing moved in it; else what the others leave. */
  function LeftOpen(env: Env, d: Dir, t: nat, left: nat, pending: bool): multiset<Inode>
    decreases left
  {
    if left == 0 || env.fails(t) then multiset{} else
    var a := AttemptOf(env, d, t);
    var end := a.reading.tick;
    if env.fails(end) then multiset{}
    else if Settled(a) then Left(env, Seen(a.first), t, pending)
    else LeftOpen(env, Closed(a), end + 1, left - 1, pending)
  }

  /** WHAT STAYS OPEN, whatever the writer does and whichever reads fail. */
  lemma PassLeaves(env: Env, d: Dir, t: nat, pending: bool)
    requires Valid(d)
    ensures Valid(PassOf(env, d, t, pending).dir)
            && PassOf(env, d, t, pending).dir.held == d.held + LeftOpen(env, d, t, 5, pending)
  {
    hide Valid, SegmentsOf, LeftOpen, Inodes, Opens, Contents, Readable, Failing;
    var e := SegmentsOf(env, d, t, 5);
    SegmentsOk(env, d, t, 5);
    HeldFollows(e.dir, PassOf(env, d, t, pending).dir);
    SegmentsLeave(env, d, t, 5, pending);
  }

  lemma {:induction false} SegmentsLeave(env: Env, d: Dir, t: nat, left: nat, pending: bool)
    requires Valid(d)
    ensures var r := SegmentsOf(env, d, t, left).outcome;
            LeftOpen(env, d, t, left, pending)
            == if r.Failed? || (r.Whole? && pending) then Inodes(r.trail) else multiset{}
    decreases left
  {
    hide Valid, AttemptOf, Inodes, OpenAfter, Reads;
    if left > 0 && !env.fails(t) {
      var a := AttemptOf(env, d, t);
      AttemptFollows(env, d, t);
      if Settled(a) {
        SettledAttempt(env, d, t);
      } else {
        SegmentsLeave(env, Closed(a), a.reading.tick + 1, left - 1, pending);
      }
    }
  }

  /** Of the reads after the state at moment t those of the marker and of the current file succeed, and then another
      one fails or the handover is pending. */
  ghost predicate LeavesSome(env: Env, l: Listing, t: nat, pending: bool) {
    && l.current.Some? && !env.fails(t + 1) && !env.fails(t + 2)
    && (pending || Failing(env, t + 3, t + 1 + Reads(l)))
  }

  lemma LeftIff(env: Env, l: Listing, t: nat, pending: bool)
    ensures Left(env, l, t, pending) != multiset{} <==> LeavesSome(env, l, t, pending)
  {
    hide Ascending, ArchiveInodes;
    var u := Stop(env, t + 1, t + 1 + Reads(l));
    assert u - t - 1 >= 2 <==> !env.fails(t + 1) && !env.fails(t + 2);
    assert l.current.Some? ==> l.current.value in multiset{l.current.value};
  }

  /** The first attempt in which nothing moved leaves something open, and no state was unreadable until then. */
  ghost predicate LeavesAfter(env: Env, d: Dir, t: nat, left: nat, pending: bool)
    decreases left
  {
    left > 0 && !env.fails(t) && var a := AttemptOf(env, d, t);
    && !env.fails(a.reading.tick)
    && if Settled(a) then LeavesSome(env, Seen(a.first), t, pending)
       else LeavesAfter(env, Closed(a), a.reading.tick + 1, left - 1, pending)
  }

  /** EXACTLY WHEN A PASS LEAVES SOMETHING OPEN. */
  lemma PassLeavesIff(env: Env, d: Dir, t: nat, pending: bool)
    requires Valid(d)
    ensures PassOf(env, d, t, pending).dir.held != d.held <==> LeavesAfter(env, d, t, 5, pending)
  {
    hide Valid, PassOf, LeftOpen, LeavesAfter;
    PassLeaves(env, d, t, pending);
    LeftOpenIff(env, d, t, 5, pending);
    var more := LeftOpen(env, d, t, 5, pending);
    if more != multiset{} {
      var i :| i in more;
      assert (d.held + more)[i] > d.held[i];
    }
  }

  lemma {:induction false} LeftOpenIff(env: Env, d: Dir, t: nat, left: nat, pending: bool)
    ensures LeftOpen(env, d, t, left, pending) != multiset{} <==> LeavesAfter(env, d, t, left, pending)
    decreases left
  {
    hide AttemptOf, Left, LeavesSome, Settled, Closed;
    if left > 0 {
      var a := AttemptOf(env, d, t);
      LeftIff(env, Seen(a.first), t, pending);
      LeftOpenIff(env, Closed(a), a.reading.tick + 1, left - 1, pending);
    }
  }

  // ---- a pass beside a writer that only appends ----

  /** The writer creates, rotates, prunes and stages nothing. */
  ghost predicate OnlyAppends(env: Env, d: Dir) {
    forall t: nat, s | s in env.schedule(t) :: s.Append? && d.current.Some?
  }

  lemma {:induction false} AppendsMoveNothing(d: Dir, steps: seq<Step>)
    requires forall s | s in steps :: s.Append? && d.current.Some?
    ensures Run(d, steps).moves == d.moves && Observed(Run(d, steps)) == Observed(d)
  {
    if steps != [] {
      assert steps[|steps| - 1] in steps;
      AppendsMoveNothing(d, steps[..|steps| - 1]);
    }
  }

  lemma MetQuietly(env: Env, d: Dir, t: nat)
    requires OnlyAppends(env, d)
    ensures Met(env, d, t).moves == d.moves && Observed(Met(env, d, t)) == Observed(d)
            && OnlyAppends(env, Met(env, d, t))
  {
    AppendsMoveNothing(d, env.schedule(t));
  }

  lemma StillAppends(env: Env, d: Dir, e: Dir)
    requires OnlyAppends(env, d) && e.current == d.current
    ensures OnlyAppends(env, e)
  {
  }

  lemma {:induction false} ArchivesQuietly(env: Env, d: Dir, t: nat, numbers: seq<nat>, o: Opened)
    requires OnlyAppends(env, d)
    ensures var e := ArchivesOf(env, d, t, numbers, o).dir;
            e.moves == d.moves && Observed(e) == Observed(d) && OnlyAppends(env, e)
    decreases |numbers|
  {
    hide Met, OnlyAppends;
    if numbers != [] && numbers[0] <= o.start {
      ArchivesQuietly(env, d, t, numbers[1..], o);
    } else if numbers != [] {
      MetQuietly(env, d, t);
      var r := ArchiveOf(env, d, t, numbers[0], o.current);
      StillAppends(env, d, AfterArchive(env, d, t, r));
      if !r.Wrong? {
        ArchivesQuietly(env, AfterArchive(env, d, t, r), t + 1, numbers[1..],
                        if r.Got? then And(o, numbers[0], r.inode) else o);
      }
    }
  }

  lemma OnceQuietly(env: Env, d: Dir, t: nat)
    requires OnlyAppends(env, d)
    ensures var e := OnceOf(env, d, t).dir; e.moves == d.moves && Observed(e) == Observed(d) && OnlyAppends(env, e)
  {
    hide Met;
    var d1 := Met(env, d, t);
    MetQuietly(env, d, t);
    var d2 := Met(env, d1, t + 1);
    MetQuietly(env, d1, t + 1);
    if d2.current.Some? { MetQuietly(env, Holding(d2, d2.current.value), t + 2); }
    var c := CurrentOf(env, d, t);
    ArchivesQuietly(env, c.dir, c.tick, Ascending(d.archives.Keys), c.trail);
  }

  lemma QuietAttempt(env: Env, d: Dir, t: nat)
    requires OnlyAppends(env, d)
    ensures Settled(AttemptOf(env, d, t)) && Seen(AttemptOf(env, d, t).first) == Seen(d)
  {
    hide OnceOf, Met, OnlyAppends;
    MetQuietly(env, d, t);
    var a := AttemptOf(env, d, t);
    OnceQuietly(env, a.first, t + 1);
    MetQuietly(env, a.reading.dir, a.reading.tick);
  }

  /** Beside a writer that only appends, a pass leaves open what one attempt does if the state can be read before and
      after it, and nothing otherwise. */
  lemma QuietPassLeaves(env: Env, d: Dir, t: nat, pending: bool)
    requires Valid(d) && OnlyAppends(env, d)
    ensures var end := t + 1 + Reads(Seen(d));
            PassOf(env, d, t, pending).dir.held
            == d.held + if env.fails(t) || env.fails(Next(Stop(env, t + 1, end), end)) then multiset{}
                        else Left(env, Seen(d), t, pending)
  {
    hide Valid, AttemptOf, PassOf, Left, Reads, OnlyAppends, Inodes, OpenAfter, Settled, Opens, Stop;
    PassLeaves(env, d, t, pending);
    QuietAttempt(env, d, t);
    SettledAttempt(env, d, t);
  }

  /** So such a pass leaves something open if and only if there is a current file, the state and it can be read, a
      later read fails or the handover is pending, and the state can be read again. */
  lemma QuietPassLeavesIff(env: Env, d: Dir, t: nat, pending: bool)
    requires Valid(d) && OnlyAppends(env, d)
    ensures var end := t + 1 + Reads(Seen(d));
            PassOf(env, d, t, pending).dir.held != d.held
            <==> !env.fails(t) && LeavesSome(env, Seen(d), t, pending) && !env.fails(Next(Stop(env, t + 1, end), end))
  {
    hide Valid, PassOf, Reads, OnlyAppends, AttemptOf, LeavesSome, Settled, OpenAfter, Opens, Inodes, Stop;
    PassLeavesIff(env, d, t, pending);
    QuietAttempt(env, d, t);
    SettledAttempt(env, d, t);
  }

  function NoSteps(t: nat): seq<Step> { [] }

  function FourthRead(t: nat): bool { t == 3 }

  function NoRead(t: nat): bool { false }

  /** A trail of one line, of whose current file the status cannot be read; and one whose handover is pending: either
      pass leaves the file open. */
  lemma FailedPassLeavesOneOpen(line: Line, inode: Inode)
    ensures var d := Run(Empty(), [Append(line, inode)]);
            && Valid(d) && d.held == multiset{}
            && PassOf(Env(NoSteps, FourthRead), d, 0, false).dir.held == multiset{inode}
            && PassOf(Env(NoSteps, NoRead), d, 0, true).dir.held == multiset{inode}
  {
    var d := Run(Empty(), [Append(line, inode)]);
    EveryRunIsValid([Append(line, inode)]);
    OneLine(line, inode);
    assert Reads(Seen(d)) == 3;
    hide Valid, PassOf, Run, Empty;
    QuietPassLeaves(Env(NoSteps, FourthRead), d, 0, false);
    assert Stop(Env(NoSteps, FourthRead), 1, 4) == 3;
    QuietPassLeaves(Env(NoSteps, NoRead), d, 0, true);
    assert Stop(Env(NoSteps, NoRead), 1, 4) == 4;
  }

  lemma OneLine(line: Line, inode: Inode)
    ensures var d := Run(Empty(), [Append(line, inode)]);
            Seen(d) == Listing(Some(inode), map[], 0) && d.held == multiset{}
  {
    assert [Append(line, inode)][..0] == [];
  }

  // ---- the opener as it runs ----

  predicate Started(l: Listing, o: Opened) { o.start == l.marker && o.current == l.current }

  lemma AllArchives(env: Env, d: Dir, t: nat, l: Listing, o: Opened)
    requires Valid(d) && Seen(d) == l && Started(l, o)
    requires ArchivesOf(env, d, t, Ascending(l.archives.Keys), o).dir.moves == d.moves
    ensures var r := ArchivesOf(env, d, t, Ascending(l.archives.Keys), o);
            && (r.fault.Some? <==> Failing(env, t, r.tick))
            && (r.fault.None? ==> r.trail.archives == o.archives + KeptOf(l))
  {
    hide Valid, ArchivesOf, OpenFrom, Uncovered, Ascending;
    AscendingOk(l.archives.Keys);
    ArchivesSettled(env, d, t, Ascending(l.archives.Keys), l, o);
  }

  lemma ArchivesUnfold(env: Env, d: Dir, t: nat, numbers: seq<nat>, i: nat, o: Opened)
    requires i < |numbers|
    ensures var rest, r := numbers[i + 1..], ArchiveOf(env, d, t, numbers[i], o.current);
            var e := AfterArchive(env, d, t, r);
            ArchivesOf(env, d, t, numbers[i..], o)
            == if numbers[i] <= o.start then ArchivesOf(env, d, t, rest, o)
               else match r
                 case Wrong(fault) => Reading(e, t + 1, o, Some(fault))
                 case SameFile => ArchivesOf(env, e, t + 1, rest, o)
                 case Got(inode) => ArchivesOf(env, e, t + 1, rest, And(o, numbers[i], inode))
  {
    hide ArchiveOf, AfterArchive;
    assert numbers[i..][0] == numbers[i] && numbers[i..][1..] == numbers[i + 1..];
  }

  lemma ArchivesEnd(env: Env, d: Dir, t: nat, o: Opened)
    ensures ArchivesOf(env, d, t, [], o) == Reading(d, t, o, None)
  {
  }

  /** An attempt in the terms of the reads it makes. */
  lemma AttemptUnfold(env: Env, d: Dir, t: nat, left: nat)
    requires Valid(d) && left > 0
    ensures var first := Met(env, d, t); var r := OnceOf(env, first, t + 1); var last := Met(env, r.dir, r.tick);
            var closed := Releasing(last, Inodes(r.trail));
            && Valid(first) && Valid(last) && Valid(closed)
            && SegmentsOf(env, d, t, left)
               == if env.fails(t) then Ended(StateUnreadable, first, t + 1)
                  else if env.fails(r.tick) then Ended(StateUnreadable, closed, r.tick + 1)
                  else if Observed(first) != Observed(last) then SegmentsOf(env, closed, r.tick + 1, left - 1)
                  else Ended(if r.fault.Some? then Failed(r.trail) else Whole(r.trail), last, r.tick + 1)
  {
    hide Met, OnceOf, Valid, Follows, Inodes;
    AttemptFollows(env, d, t);
    FollowsMeansValid(d, Met(env, d, t));
  }

  lemma NoneLeft(env: Env, d: Dir, t: nat)
    ensures SegmentsOf(env, d, t, 0) == Ended(KeptRotating, d, t)
  {
  }

  class World {
    var dir: Dir
    var tick: nat
    const env: Env

    constructor (dir: Dir, env: Env)
      requires Valid(dir)
      ensures this.dir == dir && tick == 0 && this.env == env
    {
      this.dir, this.tick, this.env := dir, 0, env;
    }

    /** The writer runs, and then there is a read that may fail. */
    method Yield() returns (ok: bool)
      modifies this
      ensures dir == Met(env, old(dir), old(tick)) && tick == old(tick) + 1 && ok == !env.fails(old(tick))
    {
      ok := !env.fails(tick);
      dir, tick := Run(dir, env.schedule(tick)), tick + 1;
    }

    method Hold(i: Inode)
      modifies this
      ensures dir == Holding(old(dir), i) && tick == old(tick)
    {
      dir := dir.(held := dir.held + multiset{i});
    }

    method Close(held: multiset<Inode>)
      modifies this
      ensures dir == Releasing(old(dir), held) && tick == old(tick)
    {
      dir := dir.(held := dir.held - held);
    }

    /** Open one archive by name. An archive that is the current file under its archive name is closed again. */
    method OpenArchive(number: nat, current: Option<Inode>) returns (r: ArchiveOpen)
      requires Valid(dir)
      modifies this
      ensures r == ArchiveOf(env, old(dir), old(tick), number, current)
      ensures dir == AfterArchive(env, old(dir), old(tick), r) && tick == old(tick) + 1
      ensures Valid(dir) && dir.held == old(dir.held) + if r.Got? then multiset{r.inode} else multiset{}
      ensures r == Wrong(Unreadable) <==> env.fails(old(tick))
      ensures dir.moves == old(dir.moves) && number in old(dir.archives) && !env.fails(old(tick))
              ==> r == if current == Some(old(dir.archives)[number]) then SameFile else Got(old(dir.archives)[number])
    {
      hide Valid, Met, Follows;
      MetFollows(env, dir, tick);
      FollowsMeansValid(dir, Met(env, dir, tick));
      var ok := Yield();
      if !ok {
        r := Wrong(Unreadable);
      } else if number !in dir.archives {
        r := Wrong(Vanished);
      } else if current == Some(dir.archives[number]) {
        r := SameFile;
      } else {
        r := Got(dir.archives[number]);
        Hold(r.inode);
      }
      AfterArchiveFollows(env, old(dir), old(tick), r);
      FollowsMeansValid(old(dir), dir);
    }

    /** The marker, then the current file and its status. */
    method OpenCurrent() returns (o: Opened, fault: Option<Fault>)
      requires Valid(dir)
      modifies this
      ensures Reading(dir, tick, o, fault) == CurrentOf(env, old(dir), old(tick))
      ensures Valid(dir) && o.archives == [] && dir.held == old(dir.held) + Inodes(o)
      ensures dir.moves == old(dir.moves)
              ==> && (fault.Some? <==> Failing(env, old(tick), tick))
                  && (fault.None? ==> o.start == old(dir.marker) && o.current == old(dir.current))
    {
      hide Valid, Met, Follows;
      CurrentFollows(env, dir, tick);
      FollowsMeansValid(dir, CurrentOf(env, dir, tick).dir);
      if CurrentOf(env, dir, tick).dir.moves == dir.moves { CurrentSettled(env, dir, tick); }
      o := Opened(0, [], None);
      var ok := Yield();
      if !ok { return o, Some(Unreadable); }
      o := o.(start := dir.marker);
      ok := Yield();
      if !ok { return o, Some(Unreadable); }
      o := o.(current := dir.current);
      if o.current.Some? {
        Hold(o.current.value);
        ok := Yield();
        if !ok { return o, Some(Unreadable); }
      }
      fault := None;
    }

    /** Each listed archive that the marker does not cover. */
    method OpenArchives(listing: Listing, base: Opened) returns (o: Opened, fault: Option<Fault>)
      requires Valid(dir)
      modifies this
      ensures Reading(dir, tick, o, fault)
              == ArchivesOf(env, old(dir), old(tick), Ascending(listing.archives.Keys), base)
      ensures Valid(dir) && dir.held + Inodes(base) == old(dir.held) + Inodes(o)
      ensures dir.moves == old(dir.moves) && listing == Seen(old(dir)) && Started(listing, base)
              ==> && (fault.Some? <==> Failing(env, old(tick), tick))
                  && (fault.None? ==> o.archives == base.archives + KeptOf(listing))
    {
      hide Valid, Follows, AfterArchive, ArchiveOf, ArchivesOf, KeptOf, Inodes, Failing, Started, Ascending;
      var numbers := Ascending(listing.archives.Keys);
      ghost var all := ArchivesOf(env, dir, tick, numbers, base);
      ArchivesFollow(env, dir, tick, numbers, base);
      FollowsMeansValid(dir, all.dir);
      if all.dir.moves == dir.moves && listing == Seen(dir) && Started(listing, base) {
        AllArchives(env, dir, tick, listing, base);
      }
      o, fault := base, None;
      assert numbers[0..] == numbers;
      for i := 0 to |numbers|
        invariant Valid(dir) && all == ArchivesOf(env, dir, tick, numbers[i..], o)
      {
        ArchivesUnfold(env, dir, tick, numbers, i, o);
        if numbers[i] <= o.start { continue; }
        var r := OpenArchive(numbers[i], o.current);
        if r.Wrong? { return o, Some(r.fault); }
        if r.Got? { o := o.(archives := o.archives + [OpenedArchive(numbers[i], r.inode)]); }
      }
      assert numbers[|numbers|..] == [];
      ArchivesEnd(env, dir, tick, o);
    }

    /** openSegmentsOnce: the marker, the current file, then the archives. What was opened is reported, and held, also
        when something fails. */
    method OpenOnce(listing: Listing) returns (o: Opened, fault: Option<Fault>)
      requires Valid(dir) && listing == Seen(dir)
      modifies this
      ensures Reading(dir, tick, o, fault) == OnceOf(env, old(dir), old(tick))
      ensures Valid(dir) && dir.held == old(dir.held) + Inodes(o)
      ensures dir.moves == old(dir.moves)
              ==> && (fault.Some? <==> Failing(env, old(tick), tick)) && (fault.None? ==> Opens(listing, o))
                  && Inodes(o) == OpenAfter(listing, Stop(env, old(tick), old(tick) + Reads(listing)) - old(tick))
    {
      hide Valid, Follows, CurrentOf, ArchivesOf, Opens, OpenAfter, Reads, Inodes;
      OnceFollows(env, dir, tick);
      FollowsMeansValid(dir, OnceOf(env, dir, tick).dir);
      if OnceOf(env, dir, tick).dir.moves == dir.moves {
        OnceSettled(env, dir, tick);
        FaultIffFailing(env, dir, tick);
      }
      o, fault := OpenCurrent();
      if fault.Some? { return; }
      o, fault := OpenArchives(listing, o);
      if fault.None? { o := o.(archives := Sorted(o.archives)); }
    }

    /** openSegments. */
    method OpenSegments() returns (r: Outcome)
      requires Valid(dir)
      modifies this
      ensures Ended(r, dir, tick) == SegmentsOf(env, old(dir), old(tick), 5)
      ensures Valid(dir) && Faithful(env, old(dir), old(tick), 5, Ended(r, dir, tick))
    {
      hide Valid, OnceOf, Inodes, Met, SegmentsOf, Faithful, Failing, Opens, OpenAfter, Reads, Stop, Releasing;
      ghost var all := SegmentsOf(env, dir, tick, 5);
      SegmentsOk(env, dir, tick, 5);
      for attempt := 0 to 5
        invariant Valid(dir) && all == SegmentsOf(env, dir, tick, 5 - attempt)
      {
        AttemptUnfold(env, dir, tick, 5 - attempt);
        var ok := Yield();
        if !ok { return StateUnreadable; }
        var before := Observed(dir);
        var o, fault := OpenOnce(before.listing);
        ok := Yield();
        if !ok {
          Close(Inodes(o));
          return StateUnreadable;
        }
        if before == Observed(dir) {
          if fault.Some? { return Failed(o); }
          return Whole(o);
        }
        Close(Inodes(o));
      }
      NoneLeft(env, dir, tick);
      return KeptRotating;
    }

    /** One pass of the shipper's loop; see PassLeaves for what it leaves open. */
    method Pass(pending: bool) returns (r: Outcome)
      requires Valid(dir)
      modifies this
      ensures Ended(r, dir, tick) == PassOf(env, old(dir), old(tick), pending)
      ensures Valid(dir) && dir.held == old(dir.held) + LeftOpen(env, old(dir), old(tick), 5, pending)
      ensures dir.held != old(dir.held) <==> LeavesAfter(env, old(dir), old(tick), 5, pending)
    {
      hide Valid, SegmentsOf, LeftOpen, LeavesAfter, Faithful;
      PassLeaves(env, dir, tick, pending);
      PassLeavesIff(env, dir, tick, pending);
      r := OpenSegments();
      if r.Whole? && !pending { Close(Inodes(r.trail)); }
    }
  }

  /** The failing pass of FailedPassLeavesOneOpen, as it runs. */
  method FailedPass(line: Line, inode: Inode) returns (w: World, r: Outcome)
    ensures fresh(w) && w.dir.held == multiset{inode}
  {
    FailedPassLeavesOneOpen(line, inode);
    w := new World(Run(Empty(), [Append(line, inode)]), Env(NoSteps, FourthRead));
    r := w.Pass(false);
  }
}
