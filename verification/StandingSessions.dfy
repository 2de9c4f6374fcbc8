/** The converse of the guarantees, on a run that can be written down: a session that has already satisfied
    PolicyNV keeps that, because the TPM checks it only when it runs. */
module StandingSessions {
  import opened Octets
  import opened Results
  import opened AnchorPolicy
  import opened RotationTpm
  import opened RotationSafety
  import opened AnchorGuarantees

  lemma RunSnoc(a: Authority, t: Tpm, es: seq<Event>, e: Event)
    ensures Run(a, t, es + [e]) == Step(a, Run(a, t, es), e)
  {
    assert (es + [e])[..|es|] == es;
  }

  /** R as the design defines it, written, at value v. */
  function RAt(a: Authority, v: Count): NvIndex {
    NvIndex(ROTATION_ATTRIBUTES, ClassPolicy(a.hash, a.kaName, Rotation), ROTATION_SIZE, true, BigEndian(v, 8))
  }

  function RNew(a: Authority): NvIndex {
    NvIndex(ROTATION_ATTRIBUTES, ClassPolicy(a.hash, a.kaName, Rotation), ROTATION_SIZE, false, [])
  }

  /** The event that runs a command of an approval's script in a session. */
  function Running(a: Authority, id: nat, c: Command): Event {
    if c.Nv? then PolicyNvRead(id, a.index, c.operand, c.offset, c.operation) else PolicyOther(id, c)
  }

  /** The session `id` of the later state stands at the approval's class policy; nothing but sessions moved. */
  ghost predicate Standing(a: Authority, t: Tpm, u: Tpm, id: nat, p: Approval) {
    && u.nv == t.nv && u.saved == t.saved && u.log == t.log && u.peak == t.peak && u.next == t.next + 1 && id == t.next
    && u.sessions.Keys == t.sessions.Keys + {id} && (forall i | i in t.sessions :: u.sessions[i] == t.sessions[i])
    && u.sessions[id].digest == ApprovedPolicy(a, p) && u.sessions[id].trace == Script(a, p)
    && u.sessions[id].code == (if p.ForClass? then None else Some(CC_NV_INCREMENT))
    && u.sessions[id].nvWritten == (if p.First? then Some(false) else None)
  }

  /** The approval's conditions hold of R now. */
  predicate Satisfied(a: Authority, t: Tpm, p: Approval) {
    match p
    case First => true
    case From(n) => a.index in t.nv && t.nv[a.index] == RAt(a, n)
    case ForClass(_, k, g) => a.index in t.nv && t.nv[a.index] == RAt(a, g) && k != a.kaName
  }

  /** A new session runs an approval's two commands. */
  lemma Prepare(a: Authority, t: Tpm, p: Approval) returns (u: Tpm, es: seq<Event>)
    requires Satisfied(a, t, p) && t.next !in t.sessions
    ensures u == Run(a, t, es) && Standing(a, t, u, t.next, p)
  {
    var id := t.next;
    var u0 := Step(a, t, StartSession);
    RunSnoc(a, t, [], StartSession);
    var c := Script(a, p)[0];
    var u1 := Step(a, u0, Running(a, id, c));
    assert [StartSession] == [] + [StartSession];
    RunSnoc(a, t, [StartSession], Running(a, id, c));
    FirstCommand(a, t, u0, u1, p);
    var d := Script(a, p)[1];
    u := Step(a, u1, Running(a, id, d));
    es := [StartSession] + [Running(a, id, c)] + [Running(a, id, d)];
    RunSnoc(a, t, [StartSession] + [Running(a, id, c)], Running(a, id, d));
    SecondCommand(a, t, u1, u, p);
  }

  ghost predicate OnlyMoved(t: Tpm, u: Tpm, id: nat) {
    && u.nv == t.nv && u.saved == t.saved && u.log == t.log && u.peak == t.peak && u.next == t.next + 1 && id == t.next
    && u.sessions.Keys == t.sessions.Keys + {id} && (forall i | i in t.sessions :: u.sessions[i] == t.sessions[i])
  }

  lemma FirstCommand(a: Authority, t: Tpm, u0: Tpm, u1: Tpm, p: Approval)
    requires Satisfied(a, t, p) && t.next !in t.sessions
    requires u0 == Step(a, t, StartSession) && u1 == Step(a, u0, Running(a, t.next, Script(a, p)[0]))
    ensures OnlyMoved(t, u1, t.next)
    ensures var s := u1.sessions[t.next];
      && s.trace == Script(a, p)[..1] && s.digest == Next(a.hash, ZERO, Script(a, p)[0])
      && s.code == (if p.ForClass? then None else Some(CC_NV_INCREMENT)) && s.nvWritten == None
  {
    hide Next, Inputs, BigEndian, RName, Exactly, AtMost, ClassPolicy;
    assert Script(a, p)[..1] == [Script(a, p)[0]];
    assert [] + [Script(a, p)[0]] == [Script(a, p)[0]];
  }

  lemma SecondCommand(a: Authority, t: Tpm, u1: Tpm, u: Tpm, p: Approval)
    requires Satisfied(a, t, p) && OnlyMoved(t, u1, t.next) && t.next !in t.sessions
    requires var s := u1.sessions[t.next];
      && s.trace == Script(a, p)[..1] && s.digest == Next(a.hash, ZERO, Script(a, p)[0])
      && s.code == (if p.ForClass? then None else Some(CC_NV_INCREMENT)) && s.nvWritten == None
    requires u == Step(a, u1, Running(a, t.next, Script(a, p)[1]))
    ensures Standing(a, t, u, t.next, p)
  {
    hide Next, Inputs, BigEndian, ClassPolicy, ApprovedPolicy, Number, Eval;
    var c := Script(a, p)[1];
    PolicyOfScript(a, p);
    EvalTwo(a.hash, Script(a, p)[0], c);
    assert Script(a, p) == [Script(a, p)[0], c] == Script(a, p)[..1] + [c];
    if !p.First? {
      var data := t.nv[a.index].data;
      assert data[0..8] == data;
      assert Holds(data, c.operand, c.offset, c.operation);
      assert NameOf(a.hash, Area(a.index, t.nv[a.index])) == RName(a);
    }
  }

  /** K_A's authorization after it. */
  lemma Authorized(a: Authority, t: Tpm, id: nat, p: Approval) returns (u: Tpm, e: Event)
    requires p in a.approvals && id in t.sessions && t.sessions[id].digest == ApprovedPolicy(a, p)
    ensures u == Step(a, t, e) && u.nv == t.nv && u.saved == t.saved && u.log == t.log && u.peak == t.peak
            && u.next == t.next
    ensures u.sessions.Keys == t.sessions.Keys && forall i | i in t.sessions && i != id ::
            u.sessions[i] == t.sessions[i]
    ensures u.sessions[id].digest == ClassPolicy(a.hash, a.kaName, ApprovedClass(p))
    ensures u.sessions[id].code == t.sessions[id].code && u.sessions[id].nvWritten == t.sessions[id].nvWritten
    ensures u.sessions[id].trace == t.sessions[id].trace + [Authorize(a.kaName, Ref(ApprovedClass(p)))]
  {
    hide ApprovedPolicy, Ref, ClassPolicy, Next, Inputs, Signed;
    e := PolicyOther(id, Authorize(a.kaName, Ref(ApprovedClass(p))));
    u := Step(a, t, e);
    StandingSessionReachesClass(a, t, id, p);
  }

  /** A session standing at the rotation policy increments R, at whatever value R then is. */
  lemma StandingSessionIncrements(a: Authority, t: Tpm, id: nat, p: Approval, v: Count) returns (u: Tpm)
    requires a.index in t.nv && t.nv[a.index] == RAt(a, v) && v + 1 < 0x1_0000_0000_0000_0000
    requires id in t.sessions && t.sessions[id].digest == ClassPolicy(a.hash, a.kaName, Rotation) && p.From?
    requires t.sessions[id].code == Some(CC_NV_INCREMENT) && t.sessions[id].nvWritten == None
    requires t.sessions[id].trace == Script(a, p) + [Authorize(a.kaName, Ref(Rotation))]
    ensures u == Step(a, t, NvIncrement(id, a.index)) && u.nv == t.nv[a.index := RAt(a, v + 1)]
            && u.sessions == t.sessions - {id}
    ensures u.peak == v + 1 && |u.log| == |t.log| + 1 && u.log[..|t.log|] == t.log
            && u.log[|t.log|].via == ApprovedPolicy(a, p)
    ensures u.next == t.next && u.saved == t.saved
  {
    hide ApprovedPolicy, Ref, ClassPolicy, Eval, BigEndian, Number, Script;
    u := Step(a, t, NvIncrement(id, a.index));
    Widths();
    NumberOfBigEndian(v, 8);
    PolicyOfScript(a, p);
    var s := t.sessions[id];
    assert s.trace[..|s.trace| - 1] == Script(a, p);
  }

  function Example(hash: Hash, kaName: bytes, index: nat, k: bytes): Authority {
    Authority(hash, kaName, index, {First, From(1), ForClass(Anchor, k, 1)})
  }

  lemma RunConcat(a: Authority, t: Tpm, es: seq<Event>, fs: seq<Event>)
    ensures Run(a, t, es + fs) == Run(a, Run(a, t, es), fs)
  {
    if fs == [] {
      assert es + fs == es;
    } else {
      var f, e := fs[..|fs| - 1], fs[|fs| - 1];
      assert (es + fs)[..|es + fs| - 1] == es + f;
      RunConcat(a, t, es, f);
    }
  }

  lemma FirstIncrement(a: Authority, t: Tpm, id: nat) returns (u: Tpm)
    requires a.index in t.nv && t.nv[a.index] == RNew(a) && t.saved == 0
    requires id in t.sessions && t.sessions[id].digest == ClassPolicy(a.hash, a.kaName, Rotation)
    requires t.sessions[id].code == Some(CC_NV_INCREMENT) && t.sessions[id].nvWritten == Some(false)
    ensures u == Step(a, t, NvIncrement(id, a.index)) && u.nv == t.nv[a.index := RAt(a, 1)]
    ensures u.sessions == t.sessions - {id} && |u.log| == |t.log| + 1
  {
    hide ClassPolicy, BigEndian, Used, Number;
    u := Step(a, t, NvIncrement(id, a.index));
  }

  /** R is defined and takes its first increment, to 1. */
  lemma Enrolled(a: Authority, t: Tpm) returns (u: Tpm, es: seq<Event>)
    requires a.index < 0x1_0000_0000 && First in a.approvals && a.index !in t.nv && t.saved == 0 && t.sessions == map[]
             && t.log == []
    ensures u == Run(a, t, es) && a.index in u.nv && u.nv[a.index] == RAt(a, 1) && u.sessions == map[] && |u.log| == 1
  {
    hide ClassPolicy, ApprovedPolicy, Ref, BigEndian, Eval, Next, StepIncrement, StepOther, StepNvRead, Script;
    var d := Define(a.index, ROTATION_ATTRIBUTES, ClassPolicy(a.hash, a.kaName, Rotation), ROTATION_SIZE);
    var t0 := Step(a, t, d);
    RunSnoc(a, t, [], d);
    assert [d] == [] + [d];
    assert t0.nv[a.index] == RNew(a);
    var t1, es1 := Prepare(a, t0, First);
    var t2, e2 := Authorized(a, t1, t0.next, First);
    u := FirstIncrement(a, t2, t0.next);
    es := [d] + es1 + [e2] + [NvIncrement(t0.next, a.index)];
    RunConcat(a, t, [d], es1);
    RunSnoc(a, t, [d] + es1, e2);
    RunSnoc(a, t, [d] + es1 + [e2], NvIncrement(t0.next, a.index));
  }

  /** With other sessions left open, one increment_from(1) advances R twice, and a session reaches a class's
      authPolicy through P(K, 1) with R at 3. Every event below is accepted by the TPM. */
  lemma RepeatedUse(hash: Hash, kaName: bytes, index: nat, k: bytes) returns (es: seq<Event>, id: nat)
    requires index < 0x1_0000_0000 && k != kaName
    ensures var a := Example(hash, kaName, index, k);
            var t := Run(a, Initial(a, 0), es);
      && |t.log| == 3 && t.log[1].via == t.log[2].via == IncrementFrom(hash, RName(a), 1) && t.peak == 3
      && id in t.sessions && t.sessions[id].digest == ClassPolicy(hash, kaName, Anchor)
      && Used(a, t.sessions[id]) == Approved(hash, k, RName(a), 1)
  {
    hide ClassPolicy, Ref, BigEndian, Eval, Next, Step, RName, Approved, IncrementFrom, IncrementFirst, BaseInputs,
      Script;
    var a := Example(hash, kaName, index, k);
    var p, q := ForClass(Anchor, k, 1), From(1);
    var i := Initial(a, 0);
    var u0, es0 := Enrolled(a, i);
    var u1, es1 := Prepare(a, u0, p);
    var u2, es2 := Prepare(a, u1, q);
    var u3, e3 := Authorized(a, u2, u1.next, q);
    var u4, es4 := Prepare(a, u3, q);
    var u5, e5 := Authorized(a, u4, u3.next, q);
    var u6 := StandingSessionIncrements(a, u5, u1.next, q, 1);
    var u7 := StandingSessionIncrements(a, u6, u3.next, q, 2);
    var u8, e8 := Authorized(a, u7, u0.next, p);
    id := u0.next;
    es := es0 + es1 + es2 + [e3] + es4 + [e5] + [NvIncrement(u1.next, index)] + [NvIncrement(u3.next, index)] + [e8];
    RunConcat(a, i, es0, es1);
    RunConcat(a, i, es0 + es1, es2);
    RunSnoc(a, i, es0 + es1 + es2, e3);
    RunConcat(a, i, es0 + es1 + es2 + [e3], es4);
    RunSnoc(a, i, es0 + es1 + es2 + [e3] + es4, e5);
    RunSnoc(a, i, es0 + es1 + es2 + [e3] + es4 + [e5], NvIncrement(u1.next, index));
    RunSnoc(a, i, es0 + es1 + es2 + [e3] + es4 + [e5] + [NvIncrement(u1.next, index)], NvIncrement(u3.next, index));
    RunSnoc(a, i, es0 + es1 + es2 + [e3] + es4 + [e5] + [NvIncrement(u1.next, index)]
            + [NvIncrement(u3.next, index)], e8);
    PolicyOfScript(a, p);
    var s := u8.sessions[id];
    assert s.trace[..|s.trace| - 1] == Script(a, p);
  }

  // ---- exactly which sessions a revocation does not reach ----

  /** The session stands at the approved policy, or K_A's authorization of it was the last thing it ran. */
  predicate StandsAt(a: Authority, s: Session, p: Approval) {
    || s.digest == ApprovedPolicy(a, p)
    || (s.digest == ClassPolicy(a.hash, a.kaName, ApprovedClass(p)) && Used(a, s) == ApprovedPolicy(a, p))
  }

  /** In some later state the session has reached the class's authPolicy through this approval. */
  ghost predicate Reaches(a: Authority, t: Tpm, more: seq<Event>, id: nat, p: Approval) {
    var u := Run(a, t, more);
    && ClashFree(a.hash, u.hashed) && id in u.sessions
    && u.sessions[id].digest == ClassPolicy(a.hash, a.kaName, ApprovedClass(p))
       && Used(a, u.sessions[id]) == ApprovedPolicy(a, p)
  }

  /** Once R has passed G, a session can still reach the class through P(K, G) if, and only if, it stood at it
      already. */
  lemma ReachesIffStanding(a: Authority, saved: nat, es: seq<Event>, id: nat, p: Approval)
    requires ValidAuthority(a) && p in a.approvals && p.ForClass?
    ensures var t := Run(a, Initial(a, saved), es);
            ClashFree(a.hash, t.hashed) && p.generation < t.peak
            ==> ((exists more :: Reaches(a, t, more, id, p)) <==> id in t.sessions && StandsAt(a, t.sessions[id], p))
  {
    var t := Run(a, Initial(a, saved), es);
    hide Run, Initial, ClashFree, StandsAt, Reaches;
    if ClashFree(a.hash, t.hashed) && p.generation < t.peak {
      if more :| Reaches(a, t, more, id, p) { ReachesMeansStood(a, saved, es, more, id, p); }
      if id in t.sessions && StandsAt(a, t.sessions[id], p) { StoodReaches(a, saved, es, id, p); }
    }
  }

  lemma StoodReaches(a: Authority, saved: nat, es: seq<Event>, id: nat, p: Approval)
    requires ValidAuthority(a) && p in a.approvals
    requires var t := Run(a, Initial(a, saved), es);
             ClashFree(a.hash, t.hashed) && id in t.sessions
             && StandsAt(a, t.sessions[id], p)
    ensures var t := Run(a, Initial(a, saved), es); exists more :: Reaches(a, t, more, id, p)
  {
    var t := Run(a, Initial(a, saved), es);
    assert Run(a, t, []) == t;
    hide Run, Initial, ClashFree, ApprovedPolicy, ClassPolicy, Used, Inv, Later;
    if t.sessions[id].digest == ApprovedPolicy(a, p) {
      TwoMoments(a, saved, es, []);
      StandingReaches(a, t, id, p);
    } else {
      assert Reaches(a, t, [], id, p);
    }
  }

  lemma StandingReaches(a: Authority, t: Tpm, id: nat, p: Approval)
    requires Inv(a, t) && ClashFree(a.hash, t.hashed) && p in a.approvals && id in t.sessions
             && t.sessions[id].digest == ApprovedPolicy(a, p)
    ensures exists more :: Reaches(a, t, more, id, p)
  {
    hide ClashFree, ApprovedPolicy, ClassPolicy, Ref, Eval, Inv, Step, SessionOk, BaseInputs;
    var e := PolicyOther(id, Authorize(a.kaName, Ref(ApprovedClass(p))));
    var u := Step(a, t, e);
    BaseOfInv(a, t);
    SessionFacts(a, t, id);
    StandingSessionReachesClass(a, t, id, p);
    assert u.sessions[id].trace[..|t.sessions[id].trace|] == t.sessions[id].trace;
    NothingNewHashed(a, t, id, p);
    ClashFreeBefore(a.hash, u.hashed, t.hashed);
    assert Run(a, t, []) == t;
    RunSnoc(a, t, [], e);
    hide Run;
    assert [] + [e] == [e];
    assert Reaches(a, t, [e], id, p);
  }

  /** K_A's authorization of its own approval hashes only what the design already hashed. */
  lemma NothingNewHashed(a: Authority, t: Tpm, id: nat, p: Approval)
    requires p in a.approvals && BaseInputs(a) <= t.hashed && id in t.sessions
             && t.sessions[id].digest == ApprovedPolicy(a, p)
    ensures Step(a, t, PolicyOther(id, Authorize(a.kaName, Ref(ApprovedClass(p))))).hashed <= t.hashed
  {
    var c := Authorize(a.kaName, Ref(ApprovedClass(p)));
    BaseOf(a, p);
    BaseOfClass(a, ApprovedClass(p));
    InputsOfAuthorize(a.hash, t.sessions[id].digest, c);
    hide BaseInputs, ApprovedPolicy, Ref, Hashed, Inputs, Accepts, Ran;
    assert AuthorizeMessage(ApprovedPolicy(a, p), ApprovedClass(p)) == t.sessions[id].digest + c.ref;
  }

  lemma InputsOfAuthorize(hash: Hash, digest: Digest, c: Command)
    requires c.Authorize?
    ensures Inputs(hash, digest, c) <= Hashed(hash, [c])
  {
    assert [c][..0] == [];
    assert Hashed(hash, [c]) == Hashed(hash, []) + Inputs(hash, Eval(hash, []), c);
  }

  lemma ReachesMeansStood(a: Authority, saved: nat, es: seq<Event>, more: seq<Event>, id: nat, p: Approval)
    requires ValidAuthority(a) && p in a.approvals && p.ForClass?
    requires var t := Run(a, Initial(a, saved), es); p.generation < t.peak && Reaches(a, t, more, id, p)
    ensures var t := Run(a, Initial(a, saved), es); id in t.sessions && StandsAt(a, t.sessions[id], p)
  {
    hide ClashFree, Initial, Run, BaseInputs, LogOk, NvOk, Eval, Hashed, ApprovedPolicy, RName,
      ApprovedBefore, ClassPolicy, Script;
    var t := Run(a, Initial(a, saved), es);
    var u := Run(a, t, more);
    TwoMoments(a, saved, es, more);
    var trace := u.sessions[id].trace;
    var k := |trace| - 1;
    var q := AtClassPolicy(a, u, id, ApprovedClass(p));
    BaseOfInv(a, u);
    ApprovalsDiffer(a, u.hashed, p, q);
    LastOfTail(trace[..k]);
    LastOfScript(a, p);
    RevocationIsPermanent(a, saved, es, more, p.generation, id, k - 1);
    SessionFacts(a, t, id);
    SessionFacts(a, u, id);
    SessionIds(a, t);
    SameTraces(a, t.sessions[id], u.sessions[id], p);
  }

  lemma BaseOfInv(a: Authority, t: Tpm)
    requires Inv(a, t)
    ensures BaseInputs(a) <= t.hashed
  {
    hide BaseInputs, NvOk, SessionsOk, LogOk;
  }

  lemma LastOfScript(a: Authority, p: Approval)
    requires p.ForClass?
    ensures |Script(a, p)| == 2 && Script(a, p)[1] == AtMost(a, p.generation)
  {
    hide AtMost;
  }

  /** A session that had run all of a later one's commands, or all but the last, stood where that one came from. */
  lemma SameTraces(a: Authority, s: Session, later: Session, p: Approval)
    requires s.trace <= later.trace && later.trace != [] && |later.trace| - 1 <= |s.trace|
    requires s.digest == Eval(a.hash, s.trace) && later.digest == Eval(a.hash, later.trace)
    requires later.digest == ClassPolicy(a.hash, a.kaName, ApprovedClass(p)) && Used(a, later) == ApprovedPolicy(a, p)
    ensures StandsAt(a, s, p)
  {
    hide Eval, ApprovedPolicy, ClassPolicy;
    assert s.trace == later.trace || s.trace == later.trace[..|later.trace| - 1];
  }
}
