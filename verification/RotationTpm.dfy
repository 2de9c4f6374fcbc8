/** A TPM under the anchor-policy design, as a machine over its commands: policy sessions (any number open
    at once), NV indices the owner defines and undefines as they like, the saved highest count, and the
    rotation counter R. A run is any sequence of commands; a refused command changes nothing.

    PolicyNV is checked when it runs, PolicyCommandCode and PolicyNvWritten when the session is used. */
module RotationTpm {
  import opened Octets
  import opened Results
  import opened AnchorPolicy

  /** What K_A signs: P(K, G) for a class other than "rotation", and the two kinds of increment for that one. */
  datatype Approval =
    | ForClass(cls: Class, ksysName: bytes, generation: Count)
    | First
    | From(n: Count)

  datatype Authority = Authority(hash: Hash, kaName: bytes, index: nat, approvals: set<Approval>)

  predicate ValidAuthority(a: Authority) {
    && a.index < 0x1_0000_0000
    && forall p | p in a.approvals :: p.ForClass? ==> p.cls != Rotation
  }

  function ApprovedClass(p: Approval): Class {
    if p.ForClass? then p.cls else Rotation
  }

  /** R's Name once written: the one every approval naming R is computed with. */
  function RName(a: Authority): bytes { RotationName(a.hash, a.kaName, a.index, true) }

  function ApprovedPolicy(a: Authority, p: Approval): Digest {
    match p
    case ForClass(_, ksysName, generation) => Approved(a.hash, ksysName, RName(a), generation)
    case First => IncrementFirst(a.hash)
    case From(n) => IncrementFrom(a.hash, RName(a), n)
  }

  function AtMost(a: Authority, g: Count): Command { Nv(RName(a), BigEndian(g, 8), 0, EO_UNSIGNED_LE) }

  function Exactly(a: Authority, n: Count): Command { Nv(RName(a), BigEndian(n, 8), 0, EO_EQ) }

  /** The commands whose digest an approval names. */
  function Script(a: Authority, p: Approval): seq<Command> {
    match p
    case ForClass(_, ksysName, generation) => [Authorize(ksysName, []), AtMost(a, generation)]
    case First => [CommandCode(CC_NV_INCREMENT), NvWritten(false)]
    case From(n) => [CommandCode(CC_NV_INCREMENT), Exactly(a, n)]
  }

  function RArea(a: Authority): bytes {
    NvArea(a.index, ROTATION_ATTRIBUTES + NV_WRITTEN, ClassPolicy(a.hash, a.kaName, Rotation), ROTATION_SIZE)
  }

  /** What computing the design's own Names, policies and messages hashes. */
  ghost function BaseInputs(a: Authority): set<bytes> {
    {RArea(a)}
    + (set p, x | p in a.approvals && x in Hashed(a.hash, Script(a, p)) :: x)
    + (set p | p in a.approvals :: AuthorizeMessage(ApprovedPolicy(a, p), ApprovedClass(p)))
    + (set c: Class, x | x in Hashed(a.hash, [Authorize(a.kaName, Ref(c))]) :: x)
  }

  // ---- the machine ----

  /** `attributes` without TPMA_NV_WRITTEN, which is `written`. */
  datatype NvIndex = NvIndex(attributes: nat, authPolicy: bytes, size: nat, written: bool, data: bytes)

  predicate IsCounter(ix: NvIndex) { (ix.attributes / 16) % 16 == 1 }

  predicate WrittenByPolicyOnly(ix: NvIndex) { ix.attributes % 16 == 8 }

  /** The index is R, as the design defines it. */
  predicate IsR(a: Authority, handle: nat, ix: NvIndex) {
    && handle == a.index && ix.attributes == ROTATION_ATTRIBUTES && ix.size == ROTATION_SIZE
    && ix.authPolicy == ClassPolicy(a.hash, a.kaName, Rotation)
  }

  function Area(handle: nat, ix: NvIndex): bytes {
    NvArea(handle, ix.attributes + (if ix.written then NV_WRITTEN else 0), ix.authPolicy, ix.size)
  }

  /** A policy session: its digest, the flags checked at use, and what it has run (`trace`), each with the
      highest value R had had by then (`marks`). */
  datatype Session = Session(digest: Digest, trace: seq<Command>, marks: seq<nat>, code: Option<nat>,
                             nvWritten: Option<bool>)

  /** One increment of R: the session and the approved policy it used, R's highest value when the session ran its
      last command before K_A's authorization, the value before (None: never written), and the value after. */
  datatype Increment = Increment(session: nat, via: Digest, checked: nat, before: Option<nat>, after: nat)

  /** `peak` is the highest value R has had, `log` its increments, `hashed` everything hashed so far. */
  datatype Tpm = Tpm(nv: map<nat, NvIndex>, saved: nat, sessions: map<nat, Session>, next: nat,
                     peak: nat, log: seq<Increment>, hashed: set<bytes>)

  datatype Event =
    | StartSession
    | PolicyNvRead(session: nat, handle: nat, operand: bytes, offset: nat, operation: nat)
    | PolicyOther(session: nat, command: Command)
    | NvIncrement(session: nat, handle: nat)
    | Define(handle: nat, attributes: nat, authPolicy: bytes, size: nat)
    | Undefine(handle: nat)
    | NvWrite(handle: nat, data: bytes)
    | OtherCounterDeleted(count: nat)
    | FlushSession(session: nat)
    | Reboot

  /** PolicyNV's comparison. Operations other than the two the design uses are let through. */
  predicate Holds(data: bytes, operand: bytes, offset: nat, operation: nat) {
    && offset + |operand| <= |data|
    && (operation == EO_EQ ==> data[offset..offset + |operand|] == operand)
    && (operation == EO_UNSIGNED_LE ==> Number(data[offset..offset + |operand|]) <= Number(operand))
  }

  /** K_A signed this digest-and-policyRef. Any other key signs anything it is asked to. */
  predicate Signed(a: Authority, keyName: bytes, digest: Digest, ref: bytes) {
    keyName == a.kaName ==>
      exists p | p in a.approvals ::
          a.hash(AuthorizeMessage(ApprovedPolicy(a, p), ApprovedClass(p))) == a.hash(digest + ref)
  }

  predicate Accepts(a: Authority, s: Session, c: Command) {
    && WellFormed(c) && !c.Nv?
    && (c.Authorize? ==> Signed(a, c.keyName, s.digest, c.ref))
    && (c.CommandCode? ==> s.code == None || s.code == Some(c.code))
    && (c.NvWritten? ==> s.nvWritten == None || s.nvWritten == Some(c.written))
  }

  function Ran(a: Authority, s: Session, c: Command, peak: nat): Session {
    Session(Next(a.hash, s.digest, c), s.trace + [c], s.marks + [peak],
            if c.CommandCode? then Some(c.code) else s.code,
            if c.NvWritten? then Some(c.written) else s.nvWritten)
  }

  /** The session may increment the index now. */
  predicate MayIncrement(s: Session, ix: NvIndex) {
    && IsCounter(ix) && WrittenByPolicyOnly(ix) && s.digest == ix.authPolicy
    && (s.code == None || s.code == Some(CC_NV_INCREMENT))
    && (s.nvWritten == None || s.nvWritten == Some(ix.written))
  }

  function Max(x: nat, y: nat): nat { if x < y then y else x }

  function Step(a: Authority, t: Tpm, e: Event): Tpm {
    match e
    case StartSession => t.(sessions := t.sessions[t.next := Session(ZERO, [], [], None, None)], next := t.next + 1)
    case PolicyNvRead(_, _, _, _, _) => StepNvRead(a, t, e)
    case PolicyOther(_, _) => StepOther(a, t, e)
    case NvIncrement(_, _) => StepIncrement(a, t, e)
    case Define(handle, attributes, authPolicy, size) =>
      if handle in t.nv || handle >= 0x1_0000_0000 || attributes >= 0x1_0000_0000 || (attributes / NV_WRITTEN) % 2 == 1
         || |authPolicy| >= 0x1_0000 || size >= 0x1_0000 then t
      else t.(nv := t.nv[handle := NvIndex(attributes, authPolicy, size, false, [])])
    case Undefine(handle) =>
      if handle !in t.nv then t
      else t.(nv := t.nv - {handle},
              saved := if IsCounter(t.nv[handle]) && t.nv[handle].written
                       then Max(t.saved, Number(t.nv[handle].data)) else t.saved)
    case NvWrite(handle, data) =>
      if handle !in t.nv || (IsCounter(t.nv[handle]) && WrittenByPolicyOnly(t.nv[handle]))
         || |data| != t.nv[handle].size then t
      else t.(nv := t.nv[handle := t.nv[handle].(written := true, data := data)])
    case OtherCounterDeleted(count) => t.(saved := Max(t.saved, count))
    case FlushSession(session) => t.(sessions := t.sessions - {session})
    case Reboot => t.(sessions := map[])
  }

  function StepNvRead(a: Authority, t: Tpm, e: Event): Tpm
    requires e.PolicyNvRead?
  {
    if e.session !in t.sessions || e.handle !in t.nv || !t.nv[e.handle].written
       || e.offset >= 0x1_0000 || e.operation >= 0x1_0000
       || !Holds(t.nv[e.handle].data, e.operand, e.offset, e.operation) then t
    else
      var s := t.sessions[e.session];
      var c := Nv(NameOf(a.hash, Area(e.handle, t.nv[e.handle])), e.operand, e.offset, e.operation);
      t.(sessions := t.sessions[e.session := Ran(a, s, c, t.peak)],
         hashed := t.hashed + Inputs(a.hash, s.digest, c) + {Area(e.handle, t.nv[e.handle])})
  }

  function StepOther(a: Authority, t: Tpm, e: Event): Tpm
    requires e.PolicyOther?
  {
    if e.session !in t.sessions || !Accepts(a, t.sessions[e.session], e.command) then t
    else
      var s := t.sessions[e.session];
      t.(sessions := t.sessions[e.session := Ran(a, s, e.command, t.peak)],
         hashed := t.hashed + Inputs(a.hash, s.digest, e.command)
                   + if e.command.Authorize? then {s.digest + e.command.ref} else {})
  }

  /** NV_Increment: an index never written starts above the saved highest count. The session is spent. */
  function StepIncrement(a: Authority, t: Tpm, e: Event): Tpm
    requires e.NvIncrement?
  {
    if e.session !in t.sessions || e.handle !in t.nv || !MayIncrement(t.sessions[e.session], t.nv[e.handle]) then t
    else
      var s, ix := t.sessions[e.session], t.nv[e.handle];
      var after := 1 + if ix.written then Number(ix.data) else t.saved;
      if after >= 0x1_0000_0000_0000_0000 then t else
      var done := t.(nv := t.nv[e.handle := ix.(written := true, data := BigEndian(after, 8))],
                     sessions := t.sessions - {e.session});
      if !IsR(a, e.handle, ix) then done else
      var before := if ix.written then Some(Number(ix.data)) else None;
      var increment := Increment(e.session, Used(a, s), Checked(s), before, after);
      done.(peak := after, log := t.log + [increment])
  }

  function Checked(s: Session): nat {
    if |s.marks| < 2 then 0 else s.marks[|s.marks| - 2]
  }

  /** The digest the session's last command was run on: the policy K_A's approval was presented for. */
  function Used(a: Authority, s: Session): Digest {
    if s.trace == [] then ZERO else Eval(a.hash, s.trace[..|s.trace| - 1])
  }

  ghost function Initial(a: Authority, saved: nat): Tpm {
    Tpm(map[], saved, map[], 0, 0, [], BaseInputs(a))
  }

  function Run(a: Authority, t: Tpm, es: seq<Event>): Tpm {
    if es == [] then t else Step(a, Run(a, t, es[..|es| - 1]), es[|es| - 1])
  }

  // ---- what every run keeps ----

  ghost predicate NvOk(a: Authority, t: Tpm) {
    && (forall h | h in t.nv ::
         && h < 0x1_0000_0000 && t.nv[h].attributes < 0x1_0000_0000 && (t.nv[h].attributes / NV_WRITTEN) % 2 == 0
         && |t.nv[h].authPolicy| < 0x1_0000 && t.nv[h].size < 0x1_0000)
    && t.peak < 0x1_0000_0000_0000_0000
    && (RWritten(a, t) ==> t.nv[a.index].data == BigEndian(t.peak, 8))
    && (!RWritten(a, t) ==> t.peak <= t.saved)
  }

  predicate RWritten(a: Authority, t: Tpm) {
    a.index in t.nv && IsR(a, a.index, t.nv[a.index]) && t.nv[a.index].written
  }

  ghost predicate SessionOk(a: Authority, hashed: set<bytes>, peak: nat, s: Session) {
    && AllWellFormed(s.trace) && s.digest == Eval(a.hash, s.trace) && Hashed(a.hash, s.trace) <= hashed
    && |s.marks| == |s.trace| && (forall k | 0 <= k < |s.marks| :: s.marks[k] <= peak) && FlagsOk(s)
    && (forall k | 0 <= k < |s.trace| :: s.trace[k].NvWritten? ==> s.nvWritten == Some(s.trace[k].written))
    && (forall k, g: Count | 0 <= k < |s.trace| && s.trace[k] == AtMost(a, g) :: s.marks[k] <= g)
    && (forall k, n: Count | 0 <= k < |s.trace| && s.trace[k] == Exactly(a, n) :: s.marks[k] == n)
    && (forall k | 0 <= k < |s.trace| && s.trace[k].Authorize? && s.trace[k].keyName == a.kaName ::
          ApprovedBefore(a, s.trace, k))
  }

  /** A flag that is checked at use was set by a command the session ran. */
  ghost predicate FlagsOk(s: Session) {
    && (s.code.Some? ==> CommandCode(s.code.value) in s.trace)
    && (s.nvWritten.Some? ==> NvWritten(s.nvWritten.value) in s.trace)
  }

  /** The command at k is K_A's authorization of a policy it did approve, for that class. */
  ghost predicate ApprovedBefore(a: Authority, trace: seq<Command>, k: nat)
    requires k < |trace| && trace[k].Authorize?
  {
    exists p | p in a.approvals ::
      Eval(a.hash, trace[..k]) == ApprovedPolicy(a, p) && trace[k].ref == Ref(ApprovedClass(p))
  }

  ghost predicate SessionsOk(a: Authority, hashed: set<bytes>, peak: nat, next: nat, sessions: map<nat, Session>) {
    forall id | id in sessions :: id < next && SessionOk(a, hashed, peak, sessions[id])
  }

  /** The increment went through one of K_A's approvals, in a session that satisfied it. */
  ghost predicate ThroughApproval(a: Authority, e: Increment) {
    || (First in a.approvals && e.via == IncrementFirst(a.hash) && e.before == None)
    || (exists n: Count | From(n) in a.approvals ::
        e.via == IncrementFrom(a.hash, RName(a), n) && e.checked == n < e.after)
  }

  ghost predicate LogOk(a: Authority, peak: nat, log: seq<Increment>) {
    && (forall i | 0 <= i < |log| :: log[i].after <= peak && ThroughApproval(a, log[i]))
    && (forall i, j | 0 <= i < j < |log| :: log[i].after < log[j].after)
  }

  ghost predicate Inv(a: Authority, t: Tpm) {
    && BaseInputs(a) <= t.hashed
    && NvOk(a, t)
    && SessionsOk(a, t.hashed, t.peak, t.next, t.sessions)
    && LogOk(a, t.peak, t.log)
  }

  /** What a later state keeps of an earlier one. */
  ghost predicate Later(t: Tpm, u: Tpm) {
    && t.peak <= u.peak && t.next <= u.next && t.hashed <= u.hashed && t.log <= u.log
    && (forall i | |t.log| <= i < |u.log| :: t.peak < u.log[i].after)
    && (forall id | id in u.sessions && id < t.next ::
          id in t.sessions && t.sessions[id].trace <= u.sessions[id].trace
              && t.sessions[id].marks <= u.sessions[id].marks)
    && (forall id, k | id in u.sessions && Before(t, id) <= k < |u.sessions[id].marks| ::
        t.peak <= u.sessions[id].marks[k])
  }

  /** How many commands a session had run by then. */
  function Before(t: Tpm, id: nat): nat {
    if id in t.sessions then |t.sessions[id].marks| else 0
  }
}
