/** The anchor-policy design's promises, over every run of the TPM machine: whatever the owner defines,
    undefines and redefines, whatever sessions run, and however they interleave. `Run(Initial, es)` is any
    moment of any run, and `Run(that, more)` any later one. */
module AnchorGuarantees {
  import opened Octets
  import opened AnchorPolicy
  import opened RotationTpm
  import opened RotationSafety

  lemma InitialInv(a: Authority, saved: nat)
    ensures Inv(a, Initial(a, saved))
  {
    hide BaseInputs, SessionOk, BigEndian;
  }

  lemma {:induction false} RunHashes(a: Authority, t: Tpm, es: seq<Event>)
    ensures t.hashed <= Run(a, t, es).hashed
  {
    hide Step;
    if es != [] {
      RunHashes(a, t, es[..|es| - 1]);
      HashedGrows(a, Run(a, t, es[..|es| - 1]), es[|es| - 1]);
    }
  }

  lemma TwoMoments(a: Authority, saved: nat, es: seq<Event>, more: seq<Event>)
    requires ValidAuthority(a) && ClashFree(a.hash, Run(a, Run(a, Initial(a, saved), es), more).hashed)
    ensures var t := Run(a, Initial(a, saved), es); var u := Run(a, t, more);
      Inv(a, t) && Inv(a, u) && Later(t, u)
  {
    hide Inv, Later, ClashFree, Initial, Step;
    var t := Run(a, Initial(a, saved), es);
    RunHashes(a, t, more);
    ClashFreeBefore(a.hash, t.hashed, Run(a, t, more).hashed);
    InitialInv(a, saved);
    RunKeeps(a, Initial(a, saved), es);
    RunKeeps(a, t, more);
  }

  lemma ValueIsPeak(a: Authority, t: Tpm)
    requires NvOk(a, t) && RWritten(a, t)
    ensures Number(t.nv[a.index].data) == t.peak
  {
    Widths();
    NumberOfBigEndian(t.peak, 8);
  }

  /** R NEVER GOES BACK. Between any two moments of any run at which R is written its value has not
      decreased, and the first increment since then made it larger; undefining and redefining it included. */
  lemma RotationNeverDecreases(a: Authority, saved: nat, es: seq<Event>, more: seq<Event>)
    requires ValidAuthority(a)
    ensures var t := Run(a, Initial(a, saved), es); var u := Run(a, t, more);
      ClashFree(a.hash, u.hashed) && RWritten(a, t) && RWritten(a, u) ==>
        && Number(t.nv[a.index].data) <= Number(u.nv[a.index].data)
        && (|t.log| < |u.log| ==> Number(t.nv[a.index].data) < u.log[|t.log|].after <= Number(u.nv[a.index].data))
  {
    hide ClashFree, Initial, Run, SessionsOk, BaseInputs, RWritten, Number, BigEndian;
    var t := Run(a, Initial(a, saved), es);
    var u := Run(a, t, more);
    if ClashFree(a.hash, u.hashed) && RWritten(a, t) && RWritten(a, u) {
      TwoMoments(a, saved, es, more);
      ValueIsPeak(a, t);
      ValueIsPeak(a, u);
    }
  }

  /** REVOCATION IS PERMANENT. Once R has had a value above G, no session ever satisfies PolicyNV(R <= G)
      again: wherever that command stands in a session's trace later, it stood there already. */
  lemma RevocationIsPermanent(a: Authority, saved: nat, es: seq<Event>, more: seq<Event>, g: Count, id: nat, k: nat)
    requires ValidAuthority(a)
    ensures var t := Run(a, Initial(a, saved), es); var u := Run(a, t, more);
      ClashFree(a.hash, u.hashed) && g < t.peak && id in u.sessions && k < |u.sessions[id].trace|
          && u.sessions[id].trace[k] == AtMost(a, g) ==>
        id in t.sessions && k < |t.sessions[id].trace|
  {
    hide ClashFree, Initial, Run, BaseInputs, LogOk, NvOk, Eval, Hashed, AtMost, Exactly, ApprovedBefore;
    var t := Run(a, Initial(a, saved), es);
    var u := Run(a, t, more);
    if ClashFree(a.hash, u.hashed) && g < t.peak && id in u.sessions && k < |u.sessions[id].trace|
       && u.sessions[id].trace[k] == AtMost(a, g) {
      TwoMoments(a, saved, es, more);
      SessionFacts(a, u, id);
      assert u.sessions[id].marks[k] <= g;
      if id in t.sessions { SessionFacts(a, t, id); }
      assert Before(t, id) > k;
    }
  }

  /** So a session opened after R passed G never reaches a class's authPolicy through P(K, G): the policy it
      used is one K_A approved for that class with a generation R had not passed. */
  lemma RevokedPolicyReachesNoClass(a: Authority, saved: nat, es: seq<Event>, more: seq<Event>, id: nat, cls: Class)
    requires ValidAuthority(a) && cls != Rotation
    ensures var t := Run(a, Initial(a, saved), es); var u := Run(a, t, more);
      ClashFree(a.hash, u.hashed) && id !in t.sessions && id in u.sessions
          && u.sessions[id].digest == ClassPolicy(a.hash, a.kaName, cls) ==>
        exists k: bytes, g: Count | ForClass(cls, k, g) in a.approvals ::
              t.peak <= g && Used(a, u.sessions[id]) == Approved(a.hash, k, RName(a), g)
  {
    hide ClashFree, Initial, Run, BaseInputs, Inv, Later, Eval, ClassPolicy, Approved, RName;
    var t := Run(a, Initial(a, saved), es);
    var u := Run(a, t, more);
    if ClashFree(a.hash, u.hashed) && id !in t.sessions && id in u.sessions
       && u.sessions[id].digest == ClassPolicy(a.hash, a.kaName, cls) {
      TwoMoments(a, saved, es, more);
      var p := AtClassPolicy(a, u, id, cls);
      var q := u.sessions[id].trace[..|u.sessions[id].trace| - 1];
      LastOfTail(q);
      assert u.sessions[id].trace[|q| - 1] == AtMost(a, p.generation);
      RevocationIsPermanent(a, saved, es, more, p.generation, id, |q| - 1);
      assert t.peak <= p.generation && ForClass(cls, p.ksysName, p.generation) in a.approvals;
    }
  }

  /** Exactly which sessions can still come to P(K, G) after R has passed G: those whose digest it already was. */
  lemma OnlyStandingSessionsRemain(a: Authority, saved: nat, es: seq<Event>, more: seq<Event>, id: nat, p: Approval)
    requires ValidAuthority(a) && p in a.approvals && p.ForClass?
    ensures var t := Run(a, Initial(a, saved), es); var u := Run(a, t, more);
      ClashFree(a.hash, u.hashed) && p.generation < t.peak && id in u.sessions
          && u.sessions[id].digest == ApprovedPolicy(a, p) ==>
        id in t.sessions && t.sessions[id].digest == ApprovedPolicy(a, p)
  {
    hide ClashFree, Initial, Run, BaseInputs, LogOk, NvOk, Eval, Hashed, ApprovedPolicy, RName,
      ApprovedBefore;
    var t := Run(a, Initial(a, saved), es);
    var u := Run(a, t, more);
    if ClashFree(a.hash, u.hashed) && p.generation < t.peak && id in u.sessions
       && u.sessions[id].digest == ApprovedPolicy(a, p) {
      TwoMoments(a, saved, es, more);
      SessionFacts(a, u, id);
      var trace := u.sessions[id].trace;
      ScriptOf(a, u.hashed, trace, p);
      LastOfTail(trace);
      RevocationIsPermanent(a, saved, es, more, p.generation, id, |trace| - 1);
      SessionFacts(a, t, id);
      SessionIds(a, t);
      assert t.sessions[id].trace == trace;
    }
  }

  /** ... and those can: K_A's authorization is accepted for them, at whatever value R then stands. */
  lemma StandingSessionReachesClass(a: Authority, t: Tpm, id: nat, p: Approval)
    requires p in a.approvals && id in t.sessions && t.sessions[id].digest == ApprovedPolicy(a, p)
    ensures var u := Step(a, t, PolicyOther(id, Authorize(a.kaName, Ref(ApprovedClass(p)))));
      && u.sessions == t.sessions[id := Ran(a, t.sessions[id], Authorize(a.kaName, Ref(ApprovedClass(p))), t.peak)]
      && u.sessions[id].digest == ClassPolicy(a.hash, a.kaName, ApprovedClass(p)) && u.peak == t.peak
  {
    hide ApprovedPolicy, Ref, Hashed, Eval, BigEndian;
    var c := Authorize(a.kaName, Ref(ApprovedClass(p)));
    assert Signed(a, c.keyName, t.sessions[id].digest, c.ref) by {
      assert AuthorizeMessage(ApprovedPolicy(a, p), ApprovedClass(p)) == t.sessions[id].digest + c.ref;
    }
    assert ZERO + (Code(CC_POLICY_AUTHORIZE) + a.kaName) == ZERO + Code(CC_POLICY_AUTHORIZE) + a.kaName;
  }

  /** EVERY INCREMENT IS APPROVED. In any run each increment of R used increment_first while R had never been
      written, or increment_from(n) for an n that R had reached and the increment left behind; and their values
      strictly increase, so at most one of them took R from n. */
  lemma IncrementsAreApproved(a: Authority, saved: nat, es: seq<Event>, i: nat)
    requires ValidAuthority(a)
    ensures var t := Run(a, Initial(a, saved), es);
      ClashFree(a.hash, t.hashed) && i < |t.log| ==>
        ThroughApproval(a, t.log[i]) && forall j | 0 <= j < i :: t.log[j].after < t.log[i].after
  {
    hide ClashFree, Initial, Step, ThroughApproval;
    var t := Run(a, Initial(a, saved), es);
    if ClashFree(a.hash, t.hashed) && i < |t.log| {
      TwoMoments(a, saved, es, []);
    }
  }

  lemma CheckedIsN(a: Authority, s: set<bytes>, e: Increment, n: Count)
    requires ClashFree(a.hash, s) && BaseInputs(a) <= s && From(n) in a.approvals
    requires ThroughApproval(a, e) && e.via == IncrementFrom(a.hash, RName(a), n)
    ensures e.checked == n < e.after
  {
    hide ClashFree, IncrementFrom, IncrementFirst, BaseInputs, RName;
    if First in a.approvals && e.via == IncrementFirst(a.hash) {
      ApprovalsDiffer(a, s, From(n), First);
    } else {
      var m: Count :| From(m) in a.approvals && e.via == IncrementFrom(a.hash, RName(a), m) && e.checked == m < e.after;
      ApprovalsDiffer(a, s, From(n), From(m));
      assert Script(a, From(n))[1] == Exactly(a, n) && Script(a, From(m))[1] == Exactly(a, m);
      Widths();
      BigEndianInjective(m, n, 8);
    }
  }

  lemma ApprovalsDiffer(a: Authority, s: set<bytes>, p: Approval, q: Approval)
    requires ClashFree(a.hash, s) && BaseInputs(a) <= s && p in a.approvals && q in a.approvals
    requires ApprovedPolicy(a, p) == ApprovedPolicy(a, q)
    ensures Script(a, p) == Script(a, q)
  {
    hide ClashFree, BaseInputs, ApprovedPolicy, Hashed, Eval, RName;
    BaseOf(a, p);
    PolicyOfScript(a, p);
    ScriptOf(a, s, Script(a, p), q);
    ScriptIsItsTail(a, p);
  }
}
