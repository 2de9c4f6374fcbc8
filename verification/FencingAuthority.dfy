/** The authority that makes one site active: each invocation takes the lock, reads the last grant, signs or refuses,
    records the grant, journals the decision, and only then writes the lease. Invocations run side by side, any write
    may fail, with or without effect, and any invocation may die between two steps, leaving the lock behind. */
module FencingAuthority {
  import opened Results

  /** Times are nanoseconds. */
  datatype Grant = Grant(site: string, epoch: nat, notBefore: int, expiresAt: int, registryDigest: string)
  datatype Previous = Previous(site: string, epoch: nat, expiresAt: int)

  const MAX_LEASE_DURATION := 600_000_000_000
  const NONE := Previous("", 0, 0)

  datatype Refusal = Incomplete | EmptyWindow | TooLong | StaleEpoch | Overlaps

  /** Why a grant is not signed after the previous one; none if it is. */
  function Refuses(g: Grant, previous: Previous): Option<Refusal> {
    if g.site == "" || g.registryDigest == "" || g.epoch == 0 then Some(Incomplete)
    else if g.expiresAt <= g.notBefore then Some(EmptyWindow)
    else if g.expiresAt - g.notBefore > MAX_LEASE_DURATION then Some(TooLong)
    else if g.epoch <= previous.epoch then Some(StaleEpoch)
    else if previous.site != "" && previous.site != g.site && g.notBefore < previous.expiresAt then Some(Overlaps)
    else None
  }

  /** What is remembered of the grants recorded so far: the last. */
  function Recorded(history: seq<Grant>): Previous {
    if history == [] then NONE else var g := history[|history| - 1]; Previous(g.site, g.epoch, g.expiresAt)
  }

  // ---- the steps ----

  datatype Record = Granted(grant: Grant) | Refused(grant: Grant)

  /** A lease as it was written, and how much of the journal there was then. */
  datatype Lease = Lease(grant: Grant, journalled: nat)

  datatype At =
    | Locking
    | Loading
    | Opening(previous: Previous)
    | Deciding(previous: Previous)
    | Refusing
    | Saving
    | Journaling
    | Writing
    | Releasing

  datatype Process = Process(grant: Grant, at: At)

  /** The lock file, every grant ever recorded (the last is the record), the journal, every lease ever written, and
      who runs. */
  datatype State = State(locked: bool, history: seq<Grant>, journal: seq<Record>, leases: seq<Lease>,
                         running: map<nat, Process>)

  /** `done`: the write took effect. `ok`: it said so, and then it did. A human clears the lock only when nobody holds
      it. */
  datatype Step = Begin(pid: nat, grant: Grant) | Advance(pid: nat, done: bool, ok: bool) | Crash(pid: nat) | ClearLock

  function Initial(): State { State(false, [], [], [], map[]) }

  predicate Holds(p: Process) { !p.at.Locking? }

  function Do(s: State, step: Step): State {
    match step
    case Begin(pid, grant) => if pid in s.running then s else s.(running := s.running[pid := Process(grant, Locking)])
    case Advance(pid, done, ok) => if pid in s.running then Go(s, pid, done || ok, ok) else s
    case Crash(pid) => s.(running := s.running - {pid})
    case ClearLock => if exists pid :: pid in s.running && Holds(s.running[pid]) then s else s.(locked := false)
  }

  function To(s: State, pid: nat, at: At): State
    requires pid in s.running
  {
    s.(running := s.running[pid := s.running[pid].(at := at)])
  }

  function Go(s: State, pid: nat, done: bool, ok: bool): State
    requires pid in s.running
  {
    var p := s.running[pid];
    match p.at
    case Locking => if s.locked || !ok then s.(running := s.running - {pid}) else To(s, pid, Loading).(locked := true)
    case Loading => To(s, pid, if ok then Opening(Recorded(s.history)) else Releasing)
    case Opening(previous) => To(s, pid, if ok then Deciding(previous) else Releasing)
    case Deciding(previous) => To(s, pid, if ok && Refuses(p.grant, previous).None? then Saving else Refusing)
    case Refusing => To(s, pid, Releasing).(journal := if done then s.journal + [Refused(p.grant)] else s.journal)
    case Saving =>
      To(s, pid, if ok then Journaling else Releasing).(history := if done then s.history + [p.grant] else s.history)
    case Journaling =>
      To(s, pid, if ok then Writing else Releasing)
      .(journal := if done then s.journal + [Granted(p.grant)] else s.journal)
    case Writing =>
      To(s, pid, Releasing).(leases := if done then s.leases + [Lease(p.grant, |s.journal|)] else s.leases)
    case Releasing => s.(running := s.running - {pid}, locked := s.locked && !ok)
  }

  function Run(s: State, steps: seq<Step>): State {
    if steps == [] then s else Do(Run(s, steps[..|steps| - 1]), steps[|steps| - 1])
  }

  // ---- what every step keeps ----

  /** One holder at most, and the lock is there while there is one. */
  ghost predicate Exclusive(locked: bool, running: map<nat, Process>) {
    && (forall p | p in running && Holds(running[p]) :: locked)
    && (forall p, q | p in running && q in running && Holds(running[p]) && Holds(running[q]) :: p == q)
  }

  /** Every recorded grant was signed against the record before it. */
  ghost predicate Chained(history: seq<Grant>) {
    forall i | 0 <= i < |history| :: Refuses(history[i], Recorded(history[..i])).None?
  }

  ghost predicate Journalled(journal: seq<Record>, l: Lease) {
    l.journalled <= |journal| && exists k | 0 <= k < l.journalled :: journal[k] == Granted(l.grant)
  }

  ghost predicate LeasesOk(history: seq<Grant>, journal: seq<Record>, leases: seq<Lease>) {
    && (forall i | 0 <= i < |leases| ::
        leases[i].grant in history && leases[i].grant.epoch <= Recorded(history).epoch
            && Journalled(journal, leases[i]))
    && (forall i, j | 0 <= i < j < |leases| :: leases[i].grant.epoch < leases[j].grant.epoch)
  }

  /** What the holder knows: the record is as it read it, until it records its own grant, which no lease has reached
      yet. */
  ghost predicate HolderOk(history: seq<Grant>, journal: seq<Record>, leases: seq<Lease>, p: Process) {
    match p.at
    case Opening(previous) => previous == Recorded(history)
    case Deciding(previous) => previous == Recorded(history)
    case Saving => Refuses(p.grant, Recorded(history)).None?
    case Journaling => Latest(history, leases, p.grant)
    case Writing => Latest(history, leases, p.grant) && Granted(p.grant) in journal
    case _ => true
  }

  /** What the journal says was granted was recorded. */
  ghost predicate JournalOk(history: seq<Grant>, journal: seq<Record>) {
    forall i | 0 <= i < |journal| && journal[i].Granted? :: journal[i].grant in history
  }

  ghost predicate Latest(history: seq<Grant>, leases: seq<Lease>, g: Grant) {
    history != [] && history[|history| - 1] == g && forall i | 0 <= i < |leases| :: leases[i].grant.epoch < g.epoch
  }

  ghost predicate Inv(s: State) {
    && Exclusive(s.locked, s.running) && Chained(s.history) && LeasesOk(s.history, s.journal, s.leases)
    && JournalOk(s.history, s.journal)
    && forall p | p in s.running && Holds(s.running[p]) :: HolderOk(s.history, s.journal, s.leases, s.running[p])
  }

  lemma ChainGrows(history: seq<Grant>, g: Grant)
    requires Chained(history) && Refuses(g, Recorded(history)).None?
    ensures Chained(history + [g]) && Recorded(history + [g]).epoch == g.epoch > Recorded(history).epoch
  {
    var h := history + [g];
    assert h[..|history|] == history;
    assert forall i | 0 <= i < |history| :: h[..i] == history[..i];
    hide Recorded;
    assert Refuses(h[|history|], Recorded(h[..|history|])).None?;
  }

  lemma Saves(history: seq<Grant>, journal: seq<Record>, leases: seq<Lease>, g: Grant)
    requires Chained(history) && LeasesOk(history, journal, leases) && Refuses(g, Recorded(history)).None?
    ensures Chained(history + [g]) && LeasesOk(history + [g], journal, leases) && Latest(history + [g], leases, g)
  {
    ChainGrows(history, g);
    hide Chained, Refuses, Journalled;
  }

  lemma Journals(history: seq<Grant>, journal: seq<Record>, leases: seq<Lease>, r: Record)
    requires LeasesOk(history, journal, leases)
    ensures LeasesOk(history, journal + [r], leases) && r in journal + [r]
  {
    assert forall i | 0 <= i < |leases| :: Journalled(journal, leases[i]);
    hide Recorded;
    forall i | 0 <= i < |leases| ensures Journalled(journal + [r], leases[i]) {
      var k :| 0 <= k < leases[i].journalled && journal[k] == Granted(leases[i].grant);
      assert (journal + [r])[k] == Granted(leases[i].grant);
    }
  }

  lemma Writes(history: seq<Grant>, journal: seq<Record>, leases: seq<Lease>, g: Grant)
    requires LeasesOk(history, journal, leases) && Latest(history, leases, g) && Granted(g) in journal
    ensures LeasesOk(history, journal, leases + [Lease(g, |journal|)])
  {
    var k :| 0 <= k < |journal| && journal[k] == Granted(g);
    assert Journalled(journal, Lease(g, |journal|));
    hide Journalled;
  }

  /** Only the holder's part of the invariant moves with the holder. */
  lemma HolderMoves(s: State, pid: nat, at: At, history: seq<Grant>, journal: seq<Record>, leases: seq<Lease>)
    requires Inv(s) && pid in s.running && Holds(s.running[pid]) && !at.Locking?
    requires Chained(history) && LeasesOk(history, journal, leases) && JournalOk(history, journal)
    requires HolderOk(history, journal, leases, Process(s.running[pid].grant, at))
    ensures Inv(To(s, pid, at).(history := history, journal := journal, leases := leases))
  {
    hide Chained, LeasesOk, HolderOk, JournalOk;
  }

  lemma JournalAdvances(s: State, pid: nat, done: bool, ok: bool)
    requires pid in s.running && Holds(s.running[pid]) && !s.running[pid].at.Releasing?
    requires JournalOk(s.history, s.journal)
    requires HolderOk(s.history, s.journal, s.leases, s.running[pid])
    ensures var t := Go(s, pid, done, ok); JournalOk(t.history, t.journal)
  {
    hide Refuses, Recorded;
  }

  lemma HolderAdvances(s: State, pid: nat, done: bool, ok: bool)
    requires pid in s.running && Holds(s.running[pid]) && !s.running[pid].at.Releasing? && (ok ==> done)
    requires Chained(s.history) && LeasesOk(s.history, s.journal, s.leases)
    requires HolderOk(s.history, s.journal, s.leases, s.running[pid])
    ensures var t := Go(s, pid, done, ok);
            && pid in t.running && !t.running[pid].at.Locking? && t.running[pid].grant == s.running[pid].grant
            && t == To(s, pid, t.running[pid].at).(history := t.history, journal := t.journal, leases := t.leases)
            && Chained(t.history) && LeasesOk(t.history, t.journal, t.leases)
            && HolderOk(t.history, t.journal, t.leases, t.running[pid])
  {
    hide Chained, LeasesOk, Latest, Refuses, Recorded;
    var p := s.running[pid];
    if p.at.Refusing? { Journals(s.history, s.journal, s.leases, Refused(p.grant)); }
    if p.at.Saving? { Saves(s.history, s.journal, s.leases, p.grant); }
    if p.at.Journaling? { Journals(s.history, s.journal, s.leases, Granted(p.grant)); }
    if p.at.Writing? { Writes(s.history, s.journal, s.leases, p.grant); }
  }

  lemma HolderStepKeepsInv(s: State, pid: nat, done: bool, ok: bool)
    requires Inv(s) && pid in s.running && Holds(s.running[pid]) && !s.running[pid].at.Releasing? && (ok ==> done)
    ensures Inv(Go(s, pid, done, ok))
  {
    hide Go, Chained, LeasesOk, JournalOk, HolderOk;
    var t := Go(s, pid, done, ok);
    HolderAdvances(s, pid, done, ok);
    JournalAdvances(s, pid, done, ok);
    HolderMoves(s, pid, t.running[pid].at, t.history, t.journal, t.leases);
  }

  lemma GoKeepsInv(s: State, pid: nat, done: bool, ok: bool)
    requires Inv(s) && pid in s.running && (ok ==> done)
    ensures Inv(Go(s, pid, done, ok))
  {
    hide Chained, LeasesOk, JournalOk, Refuses, Recorded;
    if Holds(s.running[pid]) && !s.running[pid].at.Releasing? { HolderStepKeepsInv(s, pid, done, ok); }
  }

  lemma DoKeepsInv(s: State, step: Step)
    requires Inv(s)
    ensures Inv(Do(s, step))
  {
    hide Go, Chained, LeasesOk, JournalOk, HolderOk;
    if step.Advance? && step.pid in s.running { GoKeepsInv(s, step.pid, step.done || step.ok, step.ok); }
  }

  lemma {:induction false} RunKeepsInv(steps: seq<Step>)
    ensures Inv(Run(Initial(), steps))
  {
    hide Do;
    if steps != [] {
      RunKeepsInv(steps[..|steps| - 1]);
      hide Inv;
      DoKeepsInv(Run(Initial(), steps[..|steps| - 1]), steps[|steps| - 1]);
    }
  }

  // ---- the promises ----

  /** However invocations interleave, fail and die, the leases ever written have strictly increasing epochs, none
      above the record's, and each was granted in the journal before it was written. */
  lemma LeasesAreOrdered(steps: seq<Step>)
    ensures var s := Run(Initial(), steps);
            && (forall i, j | 0 <= i < j < |s.leases| :: s.leases[i].grant.epoch < s.leases[j].grant.epoch)
            && (forall i | 0 <= i < |s.leases| ::
              && s.leases[i].grant.epoch <= Recorded(s.history).epoch && s.leases[i].journalled <= |s.journal|
              && exists k | 0 <= k < s.leases[i].journalled :: s.journal[k] == Granted(s.leases[i].grant))
  {
    RunKeepsInv(steps);
    hide Run, Chained, HolderOk, Exclusive;
    var s := Run(Initial(), steps);
    assert forall i | 0 <= i < |s.leases| :: Journalled(s.journal, s.leases[i]);
  }

  /** In every run, what the journal says was granted was recorded as granted. */
  lemma JournalTellsTheTruth(steps: seq<Step>, g: Grant)
    requires Granted(g) in Run(Initial(), steps).journal
    ensures g in Run(Initial(), steps).history
  {
    RunKeepsInv(steps);
    hide Run, Chained, HolderOk, Exclusive, LeasesOk;
  }

  /** What is signed, in the words of the rules: a site, a digest and an epoch that are there, a window of more than
      nothing and of ten minutes at most, a higher epoch, and for another site a beginning not before the last end. */
  lemma SignedIff(g: Grant, history: seq<Grant>)
    ensures Refuses(g, Recorded(history)).None?
            <==> && g.site != "" && g.registryDigest != "" && g.epoch > 0
                 && g.notBefore < g.expiresAt <= g.notBefore + 10 * 60 * 1_000_000_000
                 && (history != []
                     ==> var last := history[|history| - 1];
                         && g.epoch > last.epoch
                         && (last.site != "" && last.site != g.site ==> g.notBefore >= last.expiresAt))
  {
  }

  /** An invocation by itself: it begins, and every step it takes succeeds. */
  function Invocation(pid: nat, g: Grant): seq<Step> {
    [Begin(pid, g)] + seq(8, i => Advance(pid, true, true))
  }

  /** WHAT ONE INVOCATION DOES, undisturbed, while nobody has the lock: a grant that may be signed is recorded,
      journalled and then written, once each; any other is journalled as refused, once, and nothing else changes. It
      leaves the lock free and nothing of itself running. */
  lemma InvocationDoes(s: State, pid: nat, g: Grant)
    requires !s.locked && pid !in s.running
    ensures Run(s, Invocation(pid, g))
            == if Refuses(g, Recorded(s.history)).None?
               then s.(history := s.history + [g], journal := s.journal + [Granted(g)],
                       leases := s.leases + [Lease(g, |s.journal| + 1)])
               else s.(journal := s.journal + [Refused(g)])
  {
    var go := Advance(pid, true, true);
    Nine(s, Begin(pid, g), go);
    Decides(s, pid, g);
    hide Do, Refuses, Recorded;
    var d := Do(Do(Do(Do(s, Begin(pid, g)), go), go), go);
    if Refuses(g, Recorded(s.history)).None? { Grants(s, d, pid, g); } else { Turns(s, d, pid, g); }
  }

  lemma Decides(s: State, pid: nat, g: Grant)
    requires !s.locked && pid !in s.running
    ensures var go := Advance(pid, true, true);
            Do(Do(Do(Do(s, Begin(pid, g)), go), go), go)
            == s.(locked := true, running := s.running[pid := Process(g, Deciding(Recorded(s.history)))])
  {
    hide Refuses, Recorded;
    var go := Advance(pid, true, true);
    var s0 := s.(running := s.running[pid := Process(g, Locking)]);
    var s1 := Moved(s0, pid, Loading).(locked := true);
    var s2 := Moved(s1, pid, Opening(Recorded(s.history)));
    var s3 := Moved(s2, pid, Deciding(Recorded(s.history)));
    assert s0 == Do(s, Begin(pid, g)) && s1 == Do(s0, go) && s2 == Do(s1, go) && s3 == Do(s2, go);
  }

  lemma Grants(s: State, d: State, pid: nat, g: Grant)
    requires !s.locked && pid !in s.running && Refuses(g, Recorded(s.history)).None?
    requires d == s.(locked := true, running := s.running[pid := Process(g, Deciding(Recorded(s.history)))])
    ensures var go := Advance(pid, true, true);
            Do(Do(Do(Do(Do(d, go), go), go), go), go)
            == s.(history := s.history + [g], journal := s.journal + [Granted(g)],
                  leases := s.leases + [Lease(g, |s.journal| + 1)])
  {
    hide Refuses, Recorded;
    var go := Advance(pid, true, true);
    var s4 := Moved(d, pid, Saving);
    var s5 := Moved(s4, pid, Journaling).(history := s.history + [g]);
    var s6 := Moved(s5, pid, Writing).(journal := s.journal + [Granted(g)]);
    var s7 := Moved(s6, pid, Releasing).(leases := s.leases + [Lease(g, |s.journal| + 1)]);
    assert s4 == Do(d, go) && s5 == Do(s4, go) && s6 == Do(s5, go) && s7 == Do(s6, go);
    assert Do(s7, go).running == s.running;
  }

  lemma Turns(s: State, d: State, pid: nat, g: Grant)
    requires !s.locked && pid !in s.running && Refuses(g, Recorded(s.history)).Some?
    requires d == s.(locked := true, running := s.running[pid := Process(g, Deciding(Recorded(s.history)))])
    ensures var go := Advance(pid, true, true);
            Do(Do(Do(Do(Do(d, go), go), go), go), go) == s.(journal := s.journal + [Refused(g)])
  {
    hide Refuses, Recorded;
    var go := Advance(pid, true, true);
    var s4 := Moved(d, pid, Refusing);
    var s5 := Moved(s4, pid, Releasing).(journal := s.journal + [Refused(g)]);
    assert s4 == Do(d, go) && s5 == Do(s4, go);
    var s6 := Do(s5, go);
    assert s6.running == s.running;
    assert Do(s6, go) == s6;
  }

  function Moved(s: State, pid: nat, at: At): State
    requires pid in s.running
  {
    s.(running := s.running[pid := Process(s.running[pid].grant, at)])
  }

  lemma Nine(s: State, a: Step, b: Step)
    ensures Run(s, [a] + seq(8, i => b)) == Do(Do(Do(Do(Do(Do(Do(Do(Do(s, a), b), b), b), b), b), b), b), b)
  {
    hide Do;
    Repeated(s, a, b, 8);
    Repeated(s, a, b, 7);
    Repeated(s, a, b, 6);
    Repeated(s, a, b, 5);
    Repeated(s, a, b, 4);
    Repeated(s, a, b, 3);
    Repeated(s, a, b, 2);
    Repeated(s, a, b, 1);
    assert [a] + seq(0, i => b) == [a] && [a][..0] == [];
  }

  lemma Repeated(s: State, a: Step, b: Step, n: nat)
    requires n > 0
    ensures Run(s, [a] + seq(n, i => b)) == Do(Run(s, [a] + seq(n - 1, i => b)), b)
  {
    hide Do;
    var all := [a] + seq(n, i => b);
    assert all[..n] == [a] + seq(n - 1, i => b) && all[n] == b;
  }

  // ---- one active site at a time ----

  /** Two leases by which two sites would sign at once. */
  predicate Overlap(a: Grant, b: Grant) {
    a.site != b.site && a.notBefore < b.expiresAt && b.notBefore < a.expiresAt
  }

  /** What a caller can compare with the last lease before asking: a renewal does not end before it, nor begin before
      it unless it was the first of all. */
  predicate KeepsApart(g: Grant, last: Grant) {
    g.site == last.site ==> g.expiresAt >= last.expiresAt && (last.epoch >= 2 ==> g.notBefore >= last.notBefore)
  }

  ghost predicate AllApart(history: seq<Grant>) {
    forall i | 0 < i < |history| :: KeepsApart(history[i], history[i - 1])
  }

  lemma {:induction false} LaterEpochs(history: seq<Grant>, i: nat)
    requires Chained(history) && i < |history|
    ensures history[i].epoch >= i + 1
  {
    assert Refuses(history[i], Recorded(history[..i])).None?;
    hide Chained;
    if i > 0 {
      LaterEpochs(history, i - 1);
      assert history[..i][i - 1] == history[i - 1];
    }
  }

  lemma Signed(history: seq<Grant>, i: nat)
    requires Chained(history) && i < |history|
    ensures history[i].notBefore < history[i].expiresAt && history[i].site != ""
    ensures i > 0 && history[i - 1].site != history[i].site ==> history[i].notBefore >= history[i - 1].expiresAt
  {
    var g := history[i];
    assert Refuses(g, Recorded(history[..i])).None?;
    if i > 0 {
      assert history[..i][|history[..i]| - 1] == history[i - 1];
      assert Refuses(history[i - 1], Recorded(history[..i - 1])).None?;
    }
  }

  /** What is known of a grant and the one before it. */
  lemma Consecutive(history: seq<Grant>, j: nat)
    requires Chained(history) && AllApart(history) && 0 < j < |history|
    ensures KeepsApart(history[j], history[j - 1]) && history[j - 1].epoch >= j
    ensures history[j].notBefore < history[j].expiresAt
    ensures history[j - 1].site != history[j].site ==> history[j].notBefore >= history[j - 1].expiresAt
  {
    Signed(history, j);
    LaterEpochs(history, j - 1);
  }

  lemma {:induction false} ExpiryGrows(history: seq<Grant>, i: nat, j: nat)
    requires Chained(history) && AllApart(history) && i <= j < |history|
    ensures history[i].expiresAt <= history[j].expiresAt
  {
    hide Chained, AllApart;
    if i < j {
      Consecutive(history, j);
      ExpiryGrows(history, i, j - 1);
    }
  }

  /** If grants keep apart, a lease for another site never begins before the earlier one ends. */
  lemma {:induction false} HandoverWaits(history: seq<Grant>, i: nat, j: nat)
    requires Chained(history) && AllApart(history) && i < j < |history| && history[i].site != history[j].site
    ensures history[j].notBefore >= history[i].expiresAt
  {
    hide Chained, AllApart;
    Consecutive(history, j);
    if history[j - 1].site == history[j].site {
      HandoverWaits(history, i, j - 1);
    } else {
      ExpiryGrows(history, i, j - 1);
    }
  }

  /** So in every run of the authority in which each recorded grant keeps apart from the one before it, no two leases
      ever written overlap. */
  lemma OneSiteAtATime(steps: seq<Step>, i: nat, j: nat)
    requires var s := Run(Initial(), steps); AllApart(s.history) && i < |s.leases| && j < |s.leases|
    ensures var s := Run(Initial(), steps); !Overlap(s.leases[i].grant, s.leases[j].grant)
  {
    RunKeepsInv(steps);
    var s := Run(Initial(), steps);
    hide Run, Chained, HolderOk, Exclusive;
    var a, b := s.leases[i].grant, s.leases[j].grant;
    var m :| 0 <= m < |s.history| && s.history[m] == a;
    var n :| 0 <= n < |s.history| && s.history[n] == b;
    if a.site != b.site {
      if m < n { HandoverWaits(s.history, m, n); } else { HandoverWaits(s.history, n, m); }
    }
  }

  function Last(history: seq<Grant>): Grant
    requires history != []
  {
    history[|history| - 1]
  }

  ghost predicate HandoverSafe(history: seq<Grant>)
    requires history != []
  {
    forall g, i | Refuses(g, Recorded(history)).None? && g.site != Last(history).site && 0 <= i < |history| ::
        !Overlap(history[i], g)
  }

  ghost predicate RecordIsLatest(history: seq<Grant>)
    requires history != []
  {
    forall i | 0 <= i < |history| :: history[i].expiresAt <= Last(history).expiresAt
  }

  /** The check at signing keeps a handover from overlapping any earlier lease exactly while the recorded expiry is
      the latest of all, which it stays exactly as long as no grant ends before the recorded one. */
  lemma HandoverSafeIff(history: seq<Grant>)
    requires history != [] && Chained(history)
    ensures HandoverSafe(history) <==> RecordIsLatest(history)
    ensures forall g ::
            RecordIsLatest(history) ==> (RecordIsLatest(history + [g]) <==> g.expiresAt >= Last(history).expiresAt)
  {
    forall i | 0 <= i < |history| && history[i].expiresAt > Last(history).expiresAt ensures !HandoverSafe(history) {
      Signed(history, i);
      Signed(history, |history| - 1);
      var g := Intruder(history, i);
      assert Refuses(g, Recorded(history)).None? && Overlap(history[i], g);
    }
    forall g | RecordIsLatest(history)
      ensures RecordIsLatest(history + [g]) <==> g.expiresAt >= Last(history).expiresAt {
      var h := history + [g];
      assert Last(h) == g && h[|history| - 1] == Last(history);
      assert forall i | 0 <= i < |history| :: h[i] == history[i];
    }
  }

  /** A grant to a third site, in the window that an outlived lease still has after the recorded one. */
  function Intruder(history: seq<Grant>, i: nat): Grant
    requires i < |history|
  {
    var late, last := history[i], Last(history);
    var site := if "a" !in {late.site, last.site} then "a" else if "b" !in {late.site, last.site} then "b" else "c";
    var start := if late.notBefore > last.expiresAt then late.notBefore else last.expiresAt;
    Grant(site, last.epoch + 1, start, start + 1, "digest")
  }

  // ---- exactly which grants keep the sites apart ----

  ghost predicate NoOverlap(history: seq<Grant>) {
    forall i, j | 0 <= i < |history| && 0 <= j < |history| :: !Overlap(history[i], history[j])
  }

  /** A history of grants that keep apart and end in this one: all the record tells of how it came about. */
  ghost predicate LeadsTo(history: seq<Grant>, last: Grant) {
    history != [] && Chained(history) && AllApart(history) && Last(history) == last
  }

  /** With this grant added no two sites overlap, and none do with any handover that is signed next. */
  ghost predicate SafeAfter(history: seq<Grant>, g: Grant) {
    && NoOverlap(history + [g])
    && forall h: Grant | h.site != g.site && Refuses(h, Recorded(history + [g])).None? :: NoOverlap(history + [g] + [h])
  }

  lemma ApartNeverOverlap(history: seq<Grant>)
    requires Chained(history) && AllApart(history)
    ensures NoOverlap(history)
  {
    hide Chained, AllApart;
    forall i, j | 0 <= i < |history| && 0 <= j < |history| ensures !Overlap(history[i], history[j]) {
      if history[i].site != history[j].site {
        if i < j { HandoverWaits(history, i, j); } else { HandoverWaits(history, j, i); }
      }
    }
  }

  lemma ApartGrows(history: seq<Grant>, g: Grant)
    requires history != [] && Chained(history) && AllApart(history)
    requires Refuses(g, Recorded(history)).None? && KeepsApart(g, Last(history))
    ensures Chained(history + [g]) && AllApart(history + [g])
  {
    ChainGrows(history, g);
    hide Chained, Refuses, Recorded, KeepsApart;
    var h := history + [g];
    forall i | 0 < i < |h| ensures KeepsApart(h[i], h[i - 1]) {
      if i < |history| { assert KeepsApart(history[i], history[i - 1]); }
    }
  }

  /** A grant that keeps apart is safe whatever came before. */
  lemma ApartIsSafe(history: seq<Grant>, g: Grant)
    requires history != [] && Chained(history) && AllApart(history)
    requires Refuses(g, Recorded(history)).None? && KeepsApart(g, Last(history))
    ensures SafeAfter(history, g)
  {
    ApartGrows(history, g);
    hide Chained, AllApart, Refuses, Recorded, NoOverlap;
    ApartNeverOverlap(history + [g]);
    forall h: Grant | h.site != g.site && Refuses(h, Recorded(history + [g])).None?
      ensures NoOverlap(history + [g] + [h]) {
      ApartGrows(history + [g], h);
      ApartNeverOverlap(history + [g] + [h]);
    }
  }

  /** The lease of another site that a renewal beginning before the lease it renews runs into. */
  function Earlier(g: Grant, last: Grant): Grant {
    Grant(if last.site == "a" then "b" else "a", 1, g.notBefore, g.notBefore + 1, "digest")
  }

  lemma BackdatedIsUnsafe(history: seq<Grant>, g: Grant)
    requires history != [] && LeadsTo(history, Last(history)) && Last(history).epoch >= 2
             && Refuses(g, Recorded(history)).None?
    requires g.site == Last(history).site && g.notBefore < Last(history).notBefore
    ensures var last := Last(history);
            var other := [Earlier(g, last), last];
            LeadsTo(other, last) && Recorded(other) == Recorded(history) && !SafeAfter(other, g)
  {
    var last := Last(history);
    var e := Earlier(g, last);
    var other := [e, last];
    WellFormedLast(history);
    assert other[..0] == [] && other[..1] == [e];
    assert Recorded([]) == NONE && Refuses(e, NONE).None? && Refuses(last, Recorded([e])).None?;
    assert Chained(other);
    var all := other + [g];
    assert all[0] == e && all[2] == g && Overlap(all[0], all[2]);
  }

  lemma WellFormedLast(history: seq<Grant>)
    requires history != [] && Chained(history)
    ensures var g := Last(history);
            g.site != "" && g.registryDigest != "" && g.notBefore < g.expiresAt <= g.notBefore + MAX_LEASE_DURATION
  {
    assert Refuses(history[|history| - 1], Recorded(history[..|history| - 1])).None?;
  }

  lemma ShortenedIsUnsafe(history: seq<Grant>, g: Grant)
    requires history != [] && LeadsTo(history, Last(history)) && Refuses(g, Recorded(history)).None?
    requires g.site == Last(history).site && g.expiresAt < Last(history).expiresAt
    ensures !SafeAfter(history, g)
  {
    ChainGrows(history, g);
    var h, n := history + [g], |history| - 1;
    Signed(h, n);
    Signed(h, n + 1);
    var i := Intruder(h, n);
    assert Refuses(i, Recorded(h)).None? && i.site != g.site && Overlap(h[n], i);
    var all := h + [i];
    assert all[n] == h[n] && all[n + 1 + 1] == i;
    assert !NoOverlap(all);
  }

  /** Knowing the last lease, a grant the authority signs leaves no two sites active at once, in every history of such
      grants that led there and at every handover after it, exactly when it keeps apart. */
  lemma SafeIffKeepsApart(history: seq<Grant>, g: Grant)
    requires history != [] && LeadsTo(history, Last(history)) && Refuses(g, Recorded(history)).None?
    ensures (forall other | LeadsTo(other, Last(history)) :: SafeAfter(other, g)) <==> KeepsApart(g, Last(history))
  {
    var last := Last(history);
    if KeepsApart(g, last) {
      forall other | LeadsTo(other, last) ensures SafeAfter(other, g) { ApartIsSafe(other, g); }
    } else {
      hide SafeAfter, Chained, Refuses;
      if g.expiresAt < last.expiresAt { ShortenedIsUnsafe(history, g); } else { BackdatedIsUnsafe(history, g); }
    }
  }

  const MINUTE := 60_000_000_000

  /** Renewals the code signs that do not keep apart, and what comes of them: one that is shorter, one that begins
      earlier. */
  lemma DisorderlyRenewalsOverlap()
    ensures var a, b := Grant("A", 1, 0, 10 * MINUTE, "d"), Grant("A", 2, 0, 5 * MINUTE, "d");
            var c := Grant("B", 3, 5 * MINUTE, 15 * MINUTE, "d");
            Chained([a, b, c]) && Overlap(a, c)
    ensures var a, b := Grant("A", 1, 0, 10 * MINUTE, "d"), Grant("B", 2, 10 * MINUTE, 12 * MINUTE, "d");
            var c := Grant("B", 3, 5 * MINUTE, 13 * MINUTE, "d");
            Chained([a, b, c]) && Overlap(a, c)
  {
    var a, b := Grant("A", 1, 0, 10 * MINUTE, "d"), Grant("A", 2, 0, 5 * MINUTE, "d");
    var c := Grant("B", 3, 5 * MINUTE, 15 * MINUTE, "d");
    ThreeChained(a, b, c);
    var b', c' := Grant("B", 2, 10 * MINUTE, 12 * MINUTE, "d"), Grant("B", 3, 5 * MINUTE, 13 * MINUTE, "d");
    ThreeChained(a, b', c');
  }

  lemma ThreeChained(a: Grant, b: Grant, c: Grant)
    requires Refuses(a, NONE).None? && Refuses(b, Recorded([a])).None? && Refuses(c, Recorded([b])).None?
    ensures Chained([a, b, c])
  {
    var h := [a, b, c];
    assert h[..0] == [] && h[..1] == [a] && h[..2] == [a, b];
    assert Recorded([a, b]) == Recorded([b]);
    assert Recorded([]) == NONE;
    hide Refuses, Recorded;
    forall i | 0 <= i < 3 ensures Refuses(h[i], Recorded(h[..i])).None? {}
  }
}
