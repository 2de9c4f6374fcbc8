/** Exactly which sessions can use an approval to increment R again: those that had satisfied it while R was at its
    n. */
module IncrementReuse {
  import opened Octets
  import opened AnchorPolicy
  import opened RotationTpm
  import opened RotationSafety
  import opened AnchorGuarantees
  import opened StandingSessions

  /** Between the two states the session increments R, and the approval for n is what it used. */
  ghost predicate Increments(a: Authority, t: Tpm, more: seq<Event>, id: nat, n: Count) {
    var u := Run(a, t, more);
    && ClashFree(a.hash, u.hashed)
    && exists i | |t.log| <= i < |u.log| :: u.log[i].session == id && u.log[i].via == ApprovedPolicy(a, From(n))
  }

  predicate RThere(a: Authority, t: Tpm) { a.index in t.nv && IsR(a, a.index, t.nv[a.index]) }

  /** The value the next increment of R goes up from: R's own; or, when R was not written since it was last defined, the
      highest count the TPM keeps; or that, with the counter that has R's place taken away. */
  function StartsFrom(a: Authority, t: Tpm): nat {
    if RWritten(a, t) then t.peak
    else if a.index in t.nv && IsCounter(t.nv[a.index]) && t.nv[a.index].written
    then Max(t.saved, Number(t.nv[a.index].data))
    else t.saved
  }

  const LIMIT := 0x1_0000_0000_0000_0000

  /** Once R has passed n, a session can still increment it through increment_from(n) if, and only if, it stood at that
      policy, or at the class through it, already; as long as a counter can still count up from where R stands. R may
      be undefined, or something else defined in its place: the owner defines it again. */
  lemma IncrementsIffStanding(a: Authority, saved: nat, es: seq<Event>, id: nat, n: Count)
    requires ValidAuthority(a) && From(n) in a.approvals
    ensures var t := Run(a, Initial(a, saved), es);
            ClashFree(a.hash, t.hashed) && n < t.peak && StartsFrom(a, t) + 1 < LIMIT
            ==> ((exists more :: Increments(a, t, more, id, n))
                 <==> id in t.sessions && StandsAt(a, t.sessions[id], From(n)))
  {
    var t := Run(a, Initial(a, saved), es);
    hide Run, Initial, ClashFree, StandsAt, Increments, StartsFrom;
    if ClashFree(a.hash, t.hashed) && n < t.peak && StartsFrom(a, t) + 1 < LIMIT {
      if more :| Increments(a, t, more, id, n) { IncrementMeansStood(a, saved, es, more, id, n); }
      if id in t.sessions && StandsAt(a, t.sessions[id], From(n)) { StoodIncrementsAnyway(a, saved, es, id, n); }
    }
  }

  // ---- an increment is by a session that stood there ----

  /** The moment an entry of the log was made. */
  lemma {:induction false} MadeAt(a: Authority, t: Tpm, more: seq<Event>, i: nat) returns (j: nat)
    requires |t.log| <= i < |Run(a, t, more).log|
    ensures j < |more| && |Run(a, t, more[..j]).log| == i && i < |Run(a, t, more[..j + 1]).log|
    ensures Run(a, t, more[..j + 1]).log[i] == Run(a, t, more).log[i]
    ensures Run(a, t, more[..j + 1]) == Step(a, Run(a, t, more[..j]), more[j])
  {
    hide Step;
    var m := |more| - 1;
    assert more != [];
    var before := Run(a, t, more[..m]);
    LogByOne(a, before, more[m]);
    if i < |before.log| {
      j := MadeAt(a, t, more[..m], i);
      assert more[..m][..j] == more[..j] && more[..m][..j + 1] == more[..j + 1];
    } else {
      j := m;
      assert more[..j + 1] == more;
    }
  }

  lemma LogByOne(a: Authority, t: Tpm, e: Event)
    ensures t.log <= Step(a, t, e).log && |Step(a, t, e).log| <= |t.log| + 1
    ensures Step(a, t, e).log != t.log ==> e.NvIncrement?
  {
  }

  /** An entry is made by a session at the rotation class that may increment R, and says what it used. */
  lemma EntryOf(a: Authority, t: Tpm, e: Event)
    requires Step(a, t, e).log != t.log
    ensures e.NvIncrement? && e.session in t.sessions && a.index in t.nv && IsR(a, a.index, t.nv[a.index])
    ensures MayIncrement(t.sessions[e.session], t.nv[a.index])
    ensures var u := Step(a, t, e);
            |u.log| == |t.log| + 1 && u.log[|t.log|].session == e.session
                && u.log[|t.log|].via == Used(a, t.sessions[e.session])
  {
    hide Used, MayIncrement, Number, BigEndian;
  }

  lemma IncrementMeansStood(a: Authority, saved: nat, es: seq<Event>, more: seq<Event>, id: nat, n: Count)
    requires ValidAuthority(a) && From(n) in a.approvals
    requires var t := Run(a, Initial(a, saved), es); n < t.peak && Increments(a, t, more, id, n)
    ensures var t := Run(a, Initial(a, saved), es); id in t.sessions && StandsAt(a, t.sessions[id], From(n))
  {
    hide Initial, ClashFree, Step, StandsAt, ApprovedPolicy;
    var t := Run(a, Initial(a, saved), es);
    var u := Run(a, t, more);
    var i :| |t.log| <= i < |u.log| && u.log[i].session == id && u.log[i].via == ApprovedPolicy(a, From(n));
    var j := MadeAt(a, t, more, i);
    var w := Run(a, t, more[..j]);
    EntryOf(a, w, more[j]);
    RunHashesFrom(a, t, more, j);
    ClashFreeBefore(a.hash, w.hashed, u.hashed);
    hide Run;
    StoodBefore(a, saved, es, more[..j], id, n);
  }

  /** So if one approval increments R twice, the session of the second use stood at its policy when the first was
      made. */
  lemma ReplayStoodAtFirstUse(a: Authority, saved: nat, es: seq<Event>, n: Count, i: nat, j: nat) returns (k: nat)
    requires ValidAuthority(a) && From(n) in a.approvals && i < j
    requires var u := Run(a, Initial(a, saved), es);
             && ClashFree(a.hash, u.hashed) && j < |u.log|
             && u.log[i].via == u.log[j].via == ApprovedPolicy(a, From(n))
    ensures k < |es| && |Run(a, Initial(a, saved), es[..k]).log| == i
            && |Run(a, Initial(a, saved), es[..k + 1]).log| == i + 1
    ensures var t, id := Run(a, Initial(a, saved), es[..k + 1]), Run(a, Initial(a, saved), es).log[j].session;
            id in t.sessions && StandsAt(a, t.sessions[id], From(n))
  {
    hide ClashFree, Step, StandsAt, ApprovedPolicy, Inv, Later, BaseInputs;
    var u := Run(a, Initial(a, saved), es);
    k := MadeAt(a, Initial(a, saved), es, i);
    LogByOne(a, Run(a, Initial(a, saved), es[..k]), es[k]);
    var before, after := es[..k + 1], es[k + 1..];
    var t := Run(a, Initial(a, saved), before);
    assert es == before + after;
    RunConcat(a, Initial(a, saved), before, after);
    hide Run, Initial;
    PassedByUse(a, saved, before, after, n, i);
    assert Increments(a, t, after, u.log[j].session, n);
    IncrementMeansStood(a, saved, before, after, u.log[j].session, n);
  }

  /** R is past n once an increment through increment_from(n) was made. */
  lemma PassedByUse(a: Authority, saved: nat, es: seq<Event>, more: seq<Event>, n: Count, i: nat)
    requires ValidAuthority(a) && From(n) in a.approvals
    requires var t := Run(a, Initial(a, saved), es);
             && ClashFree(a.hash, Run(a, t, more).hashed) && i < |t.log| && t.log[i].via == ApprovedPolicy(a, From(n))
    ensures n < Run(a, Initial(a, saved), es).peak
  {
    hide ClashFree, Initial, Run, BaseInputs, ThroughApproval, NvOk, SessionsOk, RName;
    var t := Run(a, Initial(a, saved), es);
    TwoMoments(a, saved, es, more);
    RunHashes(a, t, more);
    ClashFreeBefore(a.hash, t.hashed, Run(a, t, more).hashed);
    CheckedIsN(a, t.hashed, t.log[i], n);
  }

  lemma RunHashesFrom(a: Authority, t: Tpm, more: seq<Event>, j: nat)
    requires j <= |more|
    ensures Run(a, t, more[..j]).hashed <= Run(a, t, more).hashed
  {
    assert more == more[..j] + more[j..];
    RunConcat(a, t, more[..j], more[j..]);
    RunHashes(a, Run(a, t, more[..j]), more[j..]);
  }

  /** A session at the rotation class through increment_from(n) when R has passed n had run PolicyNV(R == n) before
      that. */
  lemma StoodBefore(a: Authority, saved: nat, es: seq<Event>, more: seq<Event>, id: nat, n: Count)
    requires ValidAuthority(a) && From(n) in a.approvals
    requires var t := Run(a, Initial(a, saved), es);
             var w := Run(a, t, more);
             && n < t.peak && ClashFree(a.hash, w.hashed) && id in w.sessions
             && w.sessions[id].digest == ClassPolicy(a.hash, a.kaName, Rotation)
             && Used(a, w.sessions[id]) == ApprovedPolicy(a, From(n))
    ensures var t := Run(a, Initial(a, saved), es); id in t.sessions && StandsAt(a, t.sessions[id], From(n))
  {
    hide ClashFree, Initial, Run, BaseInputs, LogOk, NvOk, Eval, Hashed, ApprovedPolicy, RName,
      ApprovedBefore, ClassPolicy, Script, Exactly, AtMost;
    var t := Run(a, Initial(a, saved), es);
    var w := Run(a, t, more);
    TwoMoments(a, saved, es, more);
    var trace := w.sessions[id].trace;
    var k := |trace| - 1;
    var q := AtClassPolicy(a, w, id, Rotation);
    BaseOfInv(a, w);
    ApprovalsDiffer(a, w.hashed, From(n), q);
    LastOfTail(trace[..k]);
    FromScript(a, n);
    SessionFacts(a, w, id);
    assert trace[k - 1] == Exactly(a, n);
    assert w.sessions[id].marks[k - 1] == n;
    assert Before(t, id) > k - 1;
    SessionFacts(a, t, id);
    SessionIds(a, t);
    SameTraces(a, t.sessions[id], w.sessions[id], From(n));
  }

  lemma FromScript(a: Authority, n: Count)
    ensures Script(a, From(n)) == [CommandCode(CC_NV_INCREMENT), Exactly(a, n)]
  {
  }

  // ---- a session that stood there increments ----

  /** What the owner does to have R in its place. */
  function Restoring(a: Authority, t: Tpm): seq<Event> {
    if RThere(a, t) then []
    else [Undefine(a.index)]
         + [Define(a.index, ROTATION_ATTRIBUTES, ClassPolicy(a.hash, a.kaName, Rotation), ROTATION_SIZE)]
  }

  lemma Restored(a: Authority, t: Tpm)
    requires ValidAuthority(a)
    ensures var u := Run(a, t, Restoring(a, t));
            && u.sessions == t.sessions && u.log == t.log && u.hashed == t.hashed
            && RThere(a, u) && StartsFrom(a, u) == StartsFrom(a, t)
  {
    hide ClassPolicy, Number;
    assert Run(a, t, []) == t;
    if !RThere(a, t) {
      var undefine := Undefine(a.index);
      var define := Define(a.index, ROTATION_ATTRIBUTES, ClassPolicy(a.hash, a.kaName, Rotation), ROTATION_SIZE);
      assert [] + [undefine] == [undefine];
      RunSnoc(a, t, [], undefine);
      RunSnoc(a, t, [undefine], define);
    }
  }

  lemma StoodIncrementsAnyway(a: Authority, saved: nat, es: seq<Event>, id: nat, n: Count)
    requires ValidAuthority(a) && From(n) in a.approvals
    requires var t := Run(a, Initial(a, saved), es);
             && ClashFree(a.hash, t.hashed) && StartsFrom(a, t) + 1 < LIMIT
             && id in t.sessions && StandsAt(a, t.sessions[id], From(n))
    ensures var t := Run(a, Initial(a, saved), es); exists more :: Increments(a, t, more, id, n)
  {
    hide Initial, ClashFree, StandsAt, StartsFrom, Restoring, RThere, Run;
    var t := Run(a, Initial(a, saved), es);
    var pre := Restoring(a, t);
    Restored(a, t);
    RunConcat(a, Initial(a, saved), es, pre);
    StoodIncrements(a, saved, es + pre, id, n);
    var u := Run(a, t, pre);
    var more :| Increments(a, u, more, id, n);
    RunConcat(a, t, pre, more);
    assert Increments(a, t, pre + more, id, n);
  }

  lemma StoodIncrements(a: Authority, saved: nat, es: seq<Event>, id: nat, n: Count)
    requires ValidAuthority(a) && From(n) in a.approvals
    requires var t := Run(a, Initial(a, saved), es);
             && ClashFree(a.hash, t.hashed) && RThere(a, t) && StartsFrom(a, t) + 1 < LIMIT
             && id in t.sessions && StandsAt(a, t.sessions[id], From(n))
    ensures var t := Run(a, Initial(a, saved), es); exists more :: Increments(a, t, more, id, n)
  {
    hide Initial, ClashFree, ApprovedPolicy, ClassPolicy, Inv, Step, Later, RThere, StartsFrom, Used;
    var t := Run(a, Initial(a, saved), es);
    TwoMoments(a, saved, es, []);
    var inc := NvIncrement(id, a.index);
    assert Run(a, t, []) == t;
    if t.sessions[id].digest == ApprovedPolicy(a, From(n)) {
      var e := PolicyOther(id, Authorize(a.kaName, Ref(Rotation)));
      AtClassByAuthorizing(a, t, id, n);
      RunSnoc(a, t, [], e);
      RunSnoc(a, t, [e], inc);
      assert [] + [e] == [e];
      var u := Step(a, t, e);
      IncrementsNow(a, u, id, n);
      ClashFreeBefore(a.hash, Step(a, u, inc).hashed, t.hashed);
      Witness(a, t, [e] + [inc], id, n);
    } else {
      StandingAtClass(a, t, id, n);
      IncrementsNow(a, t, id, n);
      RunSnoc(a, t, [], inc);
      assert [] + [inc] == [inc];
      ClashFreeBefore(a.hash, Step(a, t, inc).hashed, t.hashed);
      Witness(a, t, [inc], id, n);
    }
  }

  lemma Witness(a: Authority, t: Tpm, more: seq<Event>, id: nat, n: Count)
    requires var u := Run(a, t, more);
             ClashFree(a.hash, u.hashed) && |u.log| == |t.log| + 1 && u.log[|t.log|].session == id
             && u.log[|t.log|].via == ApprovedPolicy(a, From(n))
    ensures exists m :: Increments(a, t, m, id, n)
  {
    hide Run, ClashFree, ApprovedPolicy;
    assert Increments(a, t, more, id, n);
  }

  /** The session may increment R: it stands at the rotation class through increment_from(n), and ran nothing else. */
  ghost predicate Ready(a: Authority, t: Tpm, id: nat, n: Count) {
    && RThere(a, t) && NvOk(a, t) && id in t.sessions && FlagsOk(t.sessions[id])
    && t.sessions[id].digest == ClassPolicy(a.hash, a.kaName, Rotation)
    && t.sessions[id].trace == Script(a, From(n)) + [Authorize(a.kaName, Ref(Rotation))]
    && StartsFrom(a, t) + 1 < LIMIT
  }

  lemma IncrementsNow(a: Authority, t: Tpm, id: nat, n: Count)
    requires Ready(a, t, id, n)
    ensures var u := Step(a, t, NvIncrement(id, a.index));
            && u.hashed <= t.hashed && |u.log| == |t.log| + 1 && u.log[|t.log|].session == id
            && u.log[|t.log|].via == ApprovedPolicy(a, From(n))
  {
    hide ClassPolicy, ApprovedPolicy, Ref, Eval, Number, BigEndian, Exactly, StartsFrom;
    var s := t.sessions[id];
    PolicyOfScript(a, From(n));
    FromScript(a, n);
    assert s.trace[..|s.trace| - 1] == Script(a, From(n));
    assert forall c | c in s.trace ::
           c in [CommandCode(CC_NV_INCREMENT), Exactly(a, n), Authorize(a.kaName, Ref(Rotation))];
    ExactlyIsNv(a, n);
    ValueOfR(a, t);
    assert MayIncrement(s, t.nv[a.index]);
  }

  lemma ExactlyIsNv(a: Authority, n: Count)
    ensures Exactly(a, n).Nv?
  {
  }

  lemma ValueOfR(a: Authority, t: Tpm)
    requires RThere(a, t) && NvOk(a, t)
    ensures IsCounter(t.nv[a.index]) && WrittenByPolicyOnly(t.nv[a.index])
    ensures StartsFrom(a, t) == if t.nv[a.index].written then Number(t.nv[a.index].data) else t.saved
  {
    if RWritten(a, t) { ValueIsPeak(a, t); }
  }

  /** A trace whose tail starts with a command that resets nothing is its own tail. */
  lemma {:induction false} WholeTail(t: seq<Command>)
    requires Tail(t) != [] && !Resets(Tail(t)[0])
    ensures Tail(t) == t
  {
    var n := |t| - 1;
    if !Resets(t[n]) {
      if Tail(t[..n]) != [] {
        assert Tail(t)[0] == Tail(t[..n])[0];
        WholeTail(t[..n]);
      } else {
        LastOfTail(t[..n]);
      }
      assert t == t[..n] + [t[n]];
    }
  }

  /** A trace at increment_from(n) is exactly its two commands. */
  lemma WholeScript(a: Authority, s: set<bytes>, trace: seq<Command>, n: Count)
    requires ClashFree(a.hash, s) && BaseInputs(a) <= s && From(n) in a.approvals
    requires AllWellFormed(trace) && Hashed(a.hash, trace) <= s && Eval(a.hash, trace) == ApprovedPolicy(a, From(n))
    ensures trace == Script(a, From(n))
  {
    hide ClashFree, BaseInputs, AllWellFormed, Hashed, Eval, ApprovedPolicy, Tail;
    ScriptOf(a, s, trace, From(n));
    FromScript(a, n);
    WholeTail(trace);
  }

  /** K_A's authorization brings a session at increment_from(n) to the class. */
  lemma AtClassByAuthorizing(a: Authority, t: Tpm, id: nat, n: Count)
    requires Inv(a, t) && ClashFree(a.hash, t.hashed) && From(n) in a.approvals && RThere(a, t)
    requires id in t.sessions && t.sessions[id].digest == ApprovedPolicy(a, From(n)) && StartsFrom(a, t) + 1 < LIMIT
    ensures var u := Step(a, t, PolicyOther(id, Authorize(a.kaName, Ref(Rotation))));
            Ready(a, u, id, n) && u.hashed <= t.hashed && u.log == t.log
  {
    hide ClashFree, ApprovedPolicy, ClassPolicy, Ref, Eval, Inv, BaseInputs, Hashed, Script, LogOk,
      Accepts, Inputs;
    var s := t.sessions[id];
    SessionFacts(a, t, id);
    BaseOfInv(a, t);
    WholeScript(a, t.hashed, s.trace, n);
    StandingSessionReachesClass(a, t, id, From(n));
    NothingNewHashed(a, t, id, From(n));
    NvOkOf(a, t);
    var u := Step(a, t, PolicyOther(id, Authorize(a.kaName, Ref(Rotation))));
    SameNv(a, t, u);
  }

  lemma NvOkOf(a: Authority, t: Tpm)
    requires Inv(a, t)
    ensures NvOk(a, t)
  {
    hide NvOk, BaseInputs, SessionsOk, LogOk;
  }

  lemma SameNv(a: Authority, t: Tpm, u: Tpm)
    requires NvOk(a, t) && u.nv == t.nv && u.peak == t.peak && u.saved == t.saved
    ensures NvOk(a, u) && (RThere(a, t) <==> RThere(a, u)) && StartsFrom(a, u) == StartsFrom(a, t)
  {
  }

  /** A session already at the class through increment_from(n) is ready too. */
  lemma StandingAtClass(a: Authority, t: Tpm, id: nat, n: Count)
    requires ValidAuthority(a) && Inv(a, t) && ClashFree(a.hash, t.hashed) && From(n) in a.approvals && RThere(a, t)
    requires id in t.sessions && t.sessions[id].digest == ClassPolicy(a.hash, a.kaName, Rotation)
    requires Used(a, t.sessions[id]) == ApprovedPolicy(a, From(n)) && StartsFrom(a, t) + 1 < LIMIT
    ensures Ready(a, t, id, n)
  {
    hide ClashFree, ApprovedPolicy, ClassPolicy, Ref, Eval, Inv, BaseInputs, Hashed, Script, RThere, StartsFrom, Tail;
    var s := t.sessions[id];
    SessionFacts(a, t, id);
    BaseOfInv(a, t);
    NvOkOf(a, t);
    var q := AtClassPolicy(a, t, id, Rotation);
    ApprovalsDiffer(a, t.hashed, From(n), q);
    FromScript(a, n);
    WholeTail(s.trace[..|s.trace| - 1]);
    assert s.trace == s.trace[..|s.trace| - 1] + [s.trace[|s.trace| - 1]];
  }
}
