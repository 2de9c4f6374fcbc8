/** What the anchor-policy design guarantees over every run of the TPM machine: R never goes back, every
    increment goes through an approval, and revocation. Each statement holds unless a clash shows itself among
    the byte strings hashed in that run. */
module RotationSafety {
  import opened Octets
  import opened Results
  import opened AnchorPolicy
  import opened RotationTpm

  lemma Snoc(hash: Hash, t: seq<Command>, c: Command)
    ensures Eval(hash, t + [c]) == Next(hash, Eval(hash, t), c)
    ensures Hashed(hash, t + [c]) == Hashed(hash, t) + Inputs(hash, Eval(hash, t), c)
  {
    assert (t + [c])[..|t|] == t;
  }

  lemma HashedGrows(a: Authority, t: Tpm, e: Event)
    ensures t.hashed <= Step(a, t, e).hashed
  {
  }

  lemma ClashFreeBefore(hash: Hash, s: set<bytes>, r: set<bytes>)
    requires s <= r && ClashFree(hash, r)
    ensures ClashFree(hash, s)
  {
  }

  /** What the base inputs hold. */
  lemma BaseOfR(a: Authority)
    ensures RArea(a) in BaseInputs(a)
  {
    hide Hashed, BigEndian, ApprovedPolicy, Ref, Script, RArea, AuthorizeMessage;
  }

  lemma BaseOf(a: Authority, p: Approval)
    requires p in a.approvals
    ensures Hashed(a.hash, Script(a, p)) <= BaseInputs(a)
    ensures AuthorizeMessage(ApprovedPolicy(a, p), ApprovedClass(p)) in BaseInputs(a)
  {
    hide Hashed, BigEndian, ApprovedPolicy, Ref, Script, RArea, AuthorizeMessage;
  }

  lemma BaseOfClass(a: Authority, c: Class)
    ensures Hashed(a.hash, [Authorize(a.kaName, Ref(c))]) <= BaseInputs(a)
  {
    hide Hashed, BigEndian, ApprovedPolicy, Ref, Script, RArea, AuthorizeMessage;
  }

  /** Only R, written, has R's Name. */
  lemma OnlyRHasItsName(a: Authority, t: Tpm, s: set<bytes>, h: nat)
    requires ValidAuthority(a) && NvOk(a, t) && ClashFree(a.hash, s) && RArea(a) in s
    requires h in t.nv && t.nv[h].written && Area(h, t.nv[h]) in s
    requires NameOf(a.hash, Area(h, t.nv[h])) == RName(a)
    ensures h == a.index && RWritten(a, t)
  {
    var ix := t.nv[h];
    SplitEqual(BigEndian(ALG_SHA256, 2), a.hash(Area(h, ix)), BigEndian(ALG_SHA256, 2), a.hash(RArea(a)));
    NvAreaInjective(h, ix.attributes + NV_WRITTEN, ix.authPolicy, ix.size,
                    a.index, ROTATION_ATTRIBUTES + NV_WRITTEN, ClassPolicy(a.hash, a.kaName, Rotation), ROTATION_SIZE);
  }

  /** What PolicyNV proved about R when it ran. */
  lemma NvReadMarks(a: Authority, t: Tpm, s: set<bytes>, e: Event)
    requires ValidAuthority(a) && NvOk(a, t) && ClashFree(a.hash, s) && RArea(a) in s
    requires e.PolicyNvRead? && e.handle in t.nv && t.nv[e.handle].written && Area(e.handle, t.nv[e.handle]) in s
    requires Holds(t.nv[e.handle].data, e.operand, e.offset, e.operation)
    ensures forall g: Count | Nv(NameOf(a.hash, Area(e.handle, t.nv[e.handle])), e.operand, e.offset,
                                 e.operation) == AtMost(a, g) :: t.peak <= g
    ensures forall n: Count | Nv(NameOf(a.hash, Area(e.handle, t.nv[e.handle])), e.operand, e.offset,
                                 e.operation) == Exactly(a, n) :: t.peak == n
  {
    var name := NameOf(a.hash, Area(e.handle, t.nv[e.handle]));
    if name == RName(a) {
      OnlyRHasItsName(a, t, s, e.handle);
      var data := t.nv[e.handle].data;
      Widths();
      NumberOfBigEndian(t.peak, 8);
      forall g: Count | Nv(name, e.operand, e.offset, e.operation) == AtMost(a, g) ensures t.peak <= g {
        NumberOfBigEndian(g, 8);
        assert data[0..8] == data;
      }
      forall n: Count | Nv(name, e.operand, e.offset, e.operation) == Exactly(a, n) ensures t.peak == n {
        NumberOfBigEndian(n, 8);
        assert data[0..8] == data;
      }
    }
  }

  /** A session that runs one more command stays as every session is. */
  lemma RanOk(a: Authority, h: set<bytes>, h': set<bytes>, peak: nat, s: Session, c: Command)
    requires SessionOk(a, h, peak, s) && WellFormed(c) && h <= h' && Inputs(a.hash, s.digest, c) <= h'
    requires c.NvWritten? ==> s.nvWritten == None || s.nvWritten == Some(c.written)
    requires forall g: Count | c == AtMost(a, g) :: peak <= g
    requires forall n: Count | c == Exactly(a, n) :: peak == n
    requires c.Authorize? && c.keyName == a.kaName ==> ApprovedBefore(a, s.trace + [c], |s.trace|)
    ensures SessionOk(a, h', peak, Ran(a, s, c, peak))
  {
    hide Eval, Next, Hashed, Inputs, BigEndian, Number, AtMost, Exactly, RName, ApprovedPolicy, Ref;
    Snoc(a.hash, s.trace, c);
    var r := Ran(a, s, c, peak);
    forall k | 0 <= k < |r.trace| && r.trace[k].Authorize? && r.trace[k].keyName == a.kaName
      ensures ApprovedBefore(a, r.trace, k)
    {
      if k < |s.trace| {
        assert s.trace[k] == r.trace[k];
        assert r.trace[..k] == s.trace[..k];
      }
    }
    forall k | 0 <= k < |r.trace| ensures r.trace[k].NvWritten? ==> r.nvWritten == Some(r.trace[k].written) {
      if k < |s.trace| { assert s.trace[k] == r.trace[k]; }
    }
    forall k, g: Count | 0 <= k < |r.trace| && r.trace[k] == AtMost(a, g) ensures r.marks[k] <= g {
      if k < |s.trace| { assert s.trace[k] == AtMost(a, g); }
    }
    forall k, n: Count | 0 <= k < |r.trace| && r.trace[k] == Exactly(a, n) ensures r.marks[k] == n {
      if k < |s.trace| { assert s.trace[k] == Exactly(a, n); }
    }
  }

  /** K_A's signature, checked by the TPM, is over one of the policies it approved. */
  lemma SignedIsApproved(a: Authority, s: set<bytes>, trace: seq<Command>, c: Command)
    requires ClashFree(a.hash, s) && BaseInputs(a) <= s
    requires c.Authorize? && c.keyName == a.kaName && Signed(a, c.keyName, Eval(a.hash, trace), c.ref)
    requires Eval(a.hash, trace) + c.ref in s
    ensures ApprovedBefore(a, trace + [c], |trace|)
  {
    hide Eval, BaseInputs, ApprovedPolicy, Ref, AuthorizeMessage, ClashFree, RArea, Hashed, Script, ApprovedBefore;
    var digest := Eval(a.hash, trace);
    var p :| p in a.approvals
        && a.hash(AuthorizeMessage(ApprovedPolicy(a, p), ApprovedClass(p))) == a.hash(digest + c.ref);
    BaseOf(a, p);
    SignatureNames(a, s, digest, c.ref, p);
    ApprovedSnoc(a, trace, c, p);
  }

  lemma SignatureNames(a: Authority, s: set<bytes>, digest: Digest, ref: bytes, p: Approval)
    requires ClashFree(a.hash, s)
    requires AuthorizeMessage(ApprovedPolicy(a, p), ApprovedClass(p)) in s && digest + ref in s
    requires a.hash(AuthorizeMessage(ApprovedPolicy(a, p), ApprovedClass(p))) == a.hash(digest + ref)
    ensures digest == ApprovedPolicy(a, p) && ref == Ref(ApprovedClass(p))
  {
    hide ApprovedPolicy, Ref, AuthorizeMessage, ClashFree;
    ClashFreeBefore(a.hash, {AuthorizeMessage(ApprovedPolicy(a, p), ApprovedClass(p)), digest + ref}, s);
    ApprovalNamesOneClass(a.hash, ApprovedPolicy(a, p), ApprovedClass(p), digest, ref);
  }

  lemma ApprovedSnoc(a: Authority, trace: seq<Command>, c: Command, p: Approval)
    requires c.Authorize? && p in a.approvals
    requires Eval(a.hash, trace) == ApprovedPolicy(a, p) && c.ref == Ref(ApprovedClass(p))
    ensures ApprovedBefore(a, trace + [c], |trace|)
  {
    hide Eval, ApprovedPolicy, Ref;
    assert (trace + [c])[..|trace|] == trace;
  }

  /** Growing `hashed` and `peak` keeps a session that did not move. */
  lemma SessionStays(a: Authority, h: set<bytes>, h': set<bytes>, peak: nat, peak': nat, s: Session)
    requires SessionOk(a, h, peak, s) && h <= h' && peak <= peak'
    ensures SessionOk(a, h', peak', s)
  {
    hide Eval, Next, Hashed, BigEndian, AtMost, Exactly, ApprovedBefore;
  }

  lemma SessionsStay(a: Authority, h: set<bytes>, h': set<bytes>, peak: nat, peak': nat, next: nat,
                     sessions: map<nat, Session>, less: map<nat, Session>)
    requires SessionsOk(a, h, peak, next, sessions) && h <= h' && peak <= peak'
    requires less.Keys <= sessions.Keys && forall id | id in less :: less[id] == sessions[id]
    ensures SessionsOk(a, h', peak', next, less)
  {
    hide SessionOk;
    forall id | id in less ensures id < next && SessionOk(a, h', peak', less[id]) {
      SessionStays(a, h, h', peak, peak', sessions[id]);
    }
  }

  lemma NvReadKeeps(a: Authority, t: Tpm, e: Event)
    requires ValidAuthority(a) && Inv(a, t) && e.PolicyNvRead? && ClashFree(a.hash, Step(a, t, e).hashed)
    ensures Inv(a, Step(a, t, e)) && Later(t, Step(a, t, e))
  {
    hide SessionOk, LogOk, BaseInputs, Inputs, BigEndian, ClashFree, Next, Holds, Later, AtMost, Exactly,
      RArea, RName;
    var u := StepNvRead(a, t, e);
    if u != t {
      var c := Nv(NameOf(a.hash, Area(e.handle, t.nv[e.handle])), e.operand, e.offset, e.operation);
      BaseOfR(a);
      NvReadMarks(a, t, u.hashed, e);
      SessionFacts(a, t, e.session);
      RanOk(a, t.hashed, u.hashed, t.peak, t.sessions[e.session], c);
      SessionMoved(a, t, u, e.session, c);
    } else {
      LaterSelf(t);
    }
  }

  lemma SessionFacts(a: Authority, t: Tpm, id: nat)
    requires Inv(a, t) && id in t.sessions
    ensures id < t.next && SessionOk(a, t.hashed, t.peak, t.sessions[id])
    ensures t.sessions[id].digest == Eval(a.hash, t.sessions[id].trace)
  {
    hide LogOk, BaseInputs, NvOk;
  }

  lemma OtherKeeps(a: Authority, t: Tpm, e: Event)
    requires ValidAuthority(a) && Inv(a, t) && e.PolicyOther? && ClashFree(a.hash, Step(a, t, e).hashed)
    ensures Inv(a, Step(a, t, e)) && Later(t, Step(a, t, e))
  {
    hide SessionOk, LogOk, BaseInputs, Inputs, BigEndian, ClashFree, Next, Later, AtMost, Exactly,
      Signed, ApprovedBefore, NvOk;
    var u := StepOther(a, t, e);
    if u != t {
      var s, c := t.sessions[e.session], e.command;
      SessionFacts(a, t, e.session);
      if c.Authorize? && c.keyName == a.kaName { SignedIsApproved(a, u.hashed, s.trace, c); }
      assert forall g: Count :: c != AtMost(a, g) && c != Exactly(a, g) by { NvCommands(a); }
      RanOk(a, t.hashed, u.hashed, t.peak, s, c);
      SessionMoved(a, t, u, e.session, c);
    } else {
      LaterSelf(t);
    }
  }

  lemma NvCommands(a: Authority)
    ensures forall g: Count :: AtMost(a, g).Nv? && Exactly(a, g).Nv?
  {
  }

  lemma LaterSelf(t: Tpm)
    ensures Later(t, t)
  {
  }

  /** One session ran one command and nothing else changed. */
  lemma SessionMoved(a: Authority, t: Tpm, u: Tpm, id: nat, c: Command)
    requires Inv(a, t) && id in t.sessions && t.hashed <= u.hashed
    requires u == t.(sessions := t.sessions[id := Ran(a, t.sessions[id], c, t.peak)], hashed := u.hashed)
    requires SessionOk(a, u.hashed, t.peak, u.sessions[id])
    ensures Inv(a, u) && Later(t, u)
  {
    hide SessionOk, LogOk, BaseInputs, Next;
    forall i | i in u.sessions ensures i < u.next && SessionOk(a, u.hashed, u.peak, u.sessions[i]) {
      if i != id { SessionStays(a, t.hashed, u.hashed, t.peak, u.peak, t.sessions[i]); }
    }
    assert u.sessions[id].marks == t.sessions[id].marks + [t.peak];
    assert NvOk(a, u) by { hide BigEndian, IsR; }
  }

  /** A trace whose digest is a class's authPolicy ends with K_A's authorization for that class. */
  lemma EndsWithAuthorize(a: Authority, s: set<bytes>, trace: seq<Command>, cls: Class)
    requires ClashFree(a.hash, s) && BaseInputs(a) <= s
    requires AllWellFormed(trace) && Hashed(a.hash, trace) <= s
    requires Eval(a.hash, trace) == ClassPolicy(a.hash, a.kaName, cls)
    ensures trace != [] && trace[|trace| - 1] == Authorize(a.kaName, Ref(cls))
  {
    hide Eval, ClashFree, BaseInputs, Hashed, Ref, PolicyAuthorize, AllWellFormed;
    BaseOfClass(a, cls);
    LastCommand(a.hash, s, trace, Authorize(a.kaName, Ref(cls)));
  }

  lemma LastCommand(hash: Hash, s: set<bytes>, trace: seq<Command>, c: Command)
    requires ClashFree(hash, s) && c.Authorize? && Hashed(hash, [c]) <= s
    requires AllWellFormed(trace) && Hashed(hash, trace) <= s
    requires Eval(hash, trace) == PolicyAuthorize(hash, c.keyName, c.ref)
    ensures trace != [] && trace[|trace| - 1] == c
  {
    assert AllWellFormed([c]);
    hide Eval, ClashFree, Hashed, PolicyAuthorize, Tail, AllWellFormed, WellFormed;
    AuthorizeIsSequence(hash, c.keyName, c.ref);
    Separate(hash, s, trace, [c]);
    LastOfTail(trace);
    LastOfTail([c]);
  }

  lemma AuthorizeIsSequence(hash: Hash, keyName: bytes, ref: bytes)
    ensures PolicyAuthorize(hash, keyName, ref) == Eval(hash, [Authorize(keyName, ref)])
  {
    PoliciesAreSequences(hash, [], [], 0, keyName, ref);
  }

  lemma LastOfTail(t: seq<Command>)
    ensures t == [] <==> Tail(t) == []
    ensures t != [] ==> Tail(t)[|Tail(t)| - 1] == t[|t| - 1]
  {
  }

  /** A session whose digest is a class's authPolicy ran K_A's authorization last, over a policy approved for it. */
  lemma AtClassPolicy(a: Authority, t: Tpm, id: nat, cls: Class) returns (p: Approval)
    requires ValidAuthority(a) && Inv(a, t) && ClashFree(a.hash, t.hashed)
    requires id in t.sessions && t.sessions[id].digest == ClassPolicy(a.hash, a.kaName, cls)
    ensures p in a.approvals && ApprovedClass(p) == cls && Used(a, t.sessions[id]) == ApprovedPolicy(a, p)
    ensures EndsApproved(a, t.sessions[id].trace, p)
  {
    hide Eval, ClashFree, BaseInputs, Hashed, Ref, BigEndian, ClassPolicy, NvOk, LogOk, ApprovedPolicy,
      Script;
    var s := t.sessions[id];
    SessionFacts(a, t, id);
    EndsWithAuthorize(a, t.hashed, s.trace, cls);
    var k := |s.trace| - 1;
    assert ApprovedBefore(a, s.trace, k);
    p :| p in a.approvals && Eval(a.hash, s.trace[..k]) == ApprovedPolicy(a, p)
        && s.trace[k].ref == Ref(ApprovedClass(p));
    RefInjective(ApprovedClass(p), cls);
    assert s.trace == s.trace[..k] + [s.trace[k]];
    Snoc(a.hash, s.trace[..k], s.trace[k]);
    ScriptOf(a, t.hashed, s.trace[..k], p);
  }

  /** The trace is some commands, an approval's own two commands, and K_A's authorization of them. */
  ghost predicate EndsApproved(a: Authority, trace: seq<Command>, p: Approval) {
    && trace != [] && trace[|trace| - 1] == Authorize(a.kaName, Ref(ApprovedClass(p)))
    && Tail(trace[..|trace| - 1]) == Script(a, p)
  }

  /** A trace whose digest is an approved policy ends with exactly the commands that policy stands for. */
  lemma ScriptOf(a: Authority, s: set<bytes>, trace: seq<Command>, p: Approval)
    requires ClashFree(a.hash, s) && BaseInputs(a) <= s && p in a.approvals
    requires AllWellFormed(trace) && Hashed(a.hash, trace) <= s && Eval(a.hash, trace) == ApprovedPolicy(a, p)
    ensures Tail(trace) == Script(a, p)
  {
    hide Eval, ClashFree, BaseInputs, Hashed, BigEndian;
    BaseOf(a, p);
    PolicyOfScript(a, p);
    Separate(a.hash, s, trace, Script(a, p));
    ScriptIsItsTail(a, p);
  }

  lemma PolicyOfScript(a: Authority, p: Approval)
    ensures ApprovedPolicy(a, p) == Eval(a.hash, Script(a, p)) && AllWellFormed(Script(a, p))
  {
    hide Eval, Next, BigEndian, RName, Approved, IncrementFirst, IncrementFrom;
    var n: Count := if p.ForClass? then p.generation else if p.From? then p.n else 0;
    PoliciesAreSequences(a.hash, if p.ForClass? then p.ksysName else [], RName(a), n, [], []);
  }

  lemma ScriptIsItsTail(a: Authority, p: Approval)
    ensures Tail(Script(a, p)) == Script(a, p)
  {
    var script := Script(a, p);
    assert script[..1] == [script[0]] && script == [script[0], script[1]];
    assert Tail([script[0]]) == [script[0]] by { assert [script[0]][..0] == []; }
  }

  /** A session that may increment R satisfied an approval to, in its last two commands before K_A's. */
  lemma IncrementApproved(a: Authority, t: Tpm, id: nat) returns (p: Approval)
    requires ValidAuthority(a) && Inv(a, t) && ClashFree(a.hash, t.hashed)
    requires id in t.sessions && a.index in t.nv && IsR(a, a.index, t.nv[a.index])
    requires MayIncrement(t.sessions[id], t.nv[a.index])
    ensures p in a.approvals && Used(a, t.sessions[id]) == ApprovedPolicy(a, p) && !p.ForClass?
    ensures p.First? ==> !t.nv[a.index].written
    ensures |t.sessions[id].marks| >= 2 && Checked(t.sessions[id]) <= t.peak
    ensures p.From? ==> Checked(t.sessions[id]) == p.n
  {
    hide Eval, ClashFree, BaseInputs, Hashed, Ref, BigEndian, ClassPolicy, NvOk, LogOk, ApprovedPolicy,
      ApprovedBefore, RName;
    var s := t.sessions[id];
    SessionFacts(a, t, id);
    p := AtClassPolicy(a, t, id, Rotation);
    var q := s.trace[..|s.trace| - 1];
    LastOfTail(q);
    assert s.trace[|q| - 1] == q[|q| - 1] == Script(a, p)[1];
    if p.From? { assert s.marks[|q| - 1] == p.n; }
  }

  lemma IncrementKeeps(a: Authority, t: Tpm, e: Event)
    requires ValidAuthority(a) && Inv(a, t) && e.NvIncrement? && ClashFree(a.hash, t.hashed)
    ensures Inv(a, Step(a, t, e)) && Later(t, Step(a, t, e))
  {
    hide SessionOk, LogOk, BaseInputs, ClashFree, BigEndian, MayIncrement, Later, Number;
    var u := StepIncrement(a, t, e);
    if u != t {
      var ix := t.nv[e.handle];
      Widths();
      NumberOfBigEndian(t.peak, 8);
      assert NvOk(a, u);
      SessionsStay(a, t.hashed, u.hashed, t.peak, u.peak, t.next, t.sessions, u.sessions);
      if IsR(a, e.handle, ix) {
        assert u.peak > t.peak;
        var p := IncrementApproved(a, t, e.session);
        var entry := u.log[|t.log|];
        EntryOk(a, entry, p, t.peak);
        LogGrows(a, t.peak, t.log, entry);
      }
      LaterByClosing(t, u);
    } else {
      LaterSelf(t);
    }
  }

  lemma LaterByClosing(t: Tpm, u: Tpm)
    requires t.peak <= u.peak && t.next == u.next && t.hashed == u.hashed && t.log <= u.log
    requires forall i | |t.log| <= i < |u.log| :: t.peak < u.log[i].after
    requires u.sessions.Keys <= t.sessions.Keys && forall id | id in u.sessions :: u.sessions[id] == t.sessions[id]
    ensures Later(t, u)
  {
  }

  lemma EntryOk(a: Authority, entry: Increment, p: Approval, peak: nat)
    requires p in a.approvals && !p.ForClass? && entry.via == ApprovedPolicy(a, p)
    requires p.First? ==> entry.before == None
    requires p.From? ==> entry.checked == p.n
    requires entry.checked <= peak < entry.after
    ensures ThroughApproval(a, entry)
  {
    hide IncrementFrom, IncrementFirst, RName;
    if p.From? { assert From(p.n) in a.approvals && entry.checked == p.n < entry.after; }
  }

  lemma LogGrows(a: Authority, peak: nat, log: seq<Increment>, entry: Increment)
    requires LogOk(a, peak, log) && peak < entry.after && ThroughApproval(a, entry)
    ensures LogOk(a, entry.after, log + [entry])
  {
    hide ThroughApproval;
  }

  lemma OwnerKeeps(a: Authority, t: Tpm, e: Event)
    requires ValidAuthority(a) && Inv(a, t) && (e.Define? || e.Undefine? || e.NvWrite? || e.OtherCounterDeleted?)
    ensures Inv(a, Step(a, t, e)) && Later(t, Step(a, t, e))
  {
    hide SessionsOk, LogOk, BaseInputs, BigEndian, Number, Later, ClassPolicy;
    var u := Step(a, t, e);
    Widths();
    NumberOfBigEndian(t.peak, 8);
    assert NvOk(a, u);
    LaterByClosing(t, u);
  }

  lemma SessionsKeep(a: Authority, t: Tpm, e: Event)
    requires ValidAuthority(a) && Inv(a, t) && (e.StartSession? || e.FlushSession? || e.Reboot?)
    ensures Inv(a, Step(a, t, e)) && Later(t, Step(a, t, e))
  {
    hide LogOk, BaseInputs, BigEndian, Later, SessionOk;
    var u := Step(a, t, e);
    assert NvOk(a, u);
    if e.StartSession? {
      NewSessionOk(a, t.hashed, t.peak);
      LaterByStarting(a, t, u);
    } else {
      SessionsStay(a, t.hashed, u.hashed, t.peak, u.peak, t.next, t.sessions, u.sessions);
      LaterByClosing(t, u);
    }
  }

  lemma NewSessionOk(a: Authority, hashed: set<bytes>, peak: nat)
    ensures SessionOk(a, hashed, peak, Session(ZERO, [], [], None, None))
  {
  }

  lemma LaterByStarting(a: Authority, t: Tpm, u: Tpm)
    requires SessionsOk(a, t.hashed, t.peak, t.next, t.sessions)
    requires u == t.(sessions := t.sessions[t.next := Session(ZERO, [], [], None, None)], next := t.next + 1)
    ensures Later(t, u)
  {
    hide SessionOk;
  }

  lemma StepKeeps(a: Authority, t: Tpm, e: Event)
    requires ValidAuthority(a) && Inv(a, t) && ClashFree(a.hash, Step(a, t, e).hashed)
    ensures Inv(a, Step(a, t, e)) && Later(t, Step(a, t, e))
  {
    hide Inv, Later, ClashFree, StepNvRead, StepOther;
    match e
    case PolicyNvRead(_, _, _, _, _) => NvReadKeeps(a, t, e);
    case PolicyOther(_, _) => OtherKeeps(a, t, e);
    case NvIncrement(_, _) =>
      HashedGrows(a, t, e);
      ClashFreeBefore(a.hash, t.hashed, Step(a, t, e).hashed);
      IncrementKeeps(a, t, e);
    case Define(_, _, _, _) => OwnerKeeps(a, t, e);
    case Undefine(_) => OwnerKeeps(a, t, e);
    case NvWrite(_, _) => OwnerKeeps(a, t, e);
    case OtherCounterDeleted(_) => OwnerKeeps(a, t, e);
    case _ => SessionsKeep(a, t, e);
  }

  lemma LaterTransitive(t: Tpm, u: Tpm, v: Tpm)
    requires Later(t, u) && Later(u, v)
    requires forall id | id in t.sessions :: id < t.next
    requires forall id | id in u.sessions :: id < u.next
    ensures Later(t, v)
  {
    forall i | |t.log| <= i < |v.log| ensures t.peak < v.log[i].after {
      if i < |u.log| { assert v.log[i] == u.log[i]; }
    }
    forall id, k | id in v.sessions && Before(t, id) <= k < |v.sessions[id].marks|
      ensures t.peak <= v.sessions[id].marks[k] {
      if id in u.sessions && k < |u.sessions[id].marks| {
        assert v.sessions[id].marks[k] == u.sessions[id].marks[k];
      } else {
        assert Before(u, id) <= k;
      }
    }
  }

  lemma SessionIds(a: Authority, t: Tpm)
    requires Inv(a, t)
    ensures forall id | id in t.sessions :: id < t.next
  {
    hide SessionOk, LogOk, BaseInputs, NvOk;
  }

  /** Every run keeps the invariant and everything `Later` says, whatever the owner, the sessions and the counters
      do. */
  lemma {:induction false} RunKeeps(a: Authority, t: Tpm, es: seq<Event>)
    requires ValidAuthority(a) && Inv(a, t) && ClashFree(a.hash, Run(a, t, es).hashed)
    ensures Inv(a, Run(a, t, es)) && Later(t, Run(a, t, es))
  {
    hide Inv, Later, ClashFree, Step;
    if es != [] {
      var u := Run(a, t, es[..|es| - 1]);
      HashedGrows(a, u, es[|es| - 1]);
      ClashFreeBefore(a.hash, u.hashed, Run(a, t, es).hashed);
      RunKeeps(a, t, es[..|es| - 1]);
      StepKeeps(a, u, es[|es| - 1]);
      SessionIds(a, t);
      SessionIds(a, u);
      LaterTransitive(t, u, Run(a, t, es));
    } else {
      LaterSelf(t);
    }
  }
}
