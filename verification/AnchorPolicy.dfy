/** The anchor-policy authority's arithmetic: TPM Names and policy digests computed by hashing bytes,
    and the proof that policy digests separate the command sequences that produce them.

    The hash is a parameter. Nothing is assumed about it: every statement is about the finite set of
    byte strings that were hashed, and holds unless two of those collide or one hashes to zeros. */
module AnchorPolicy {
  import opened Octets
  import opened Results

  const CC_NV_INCREMENT: nat := 0x134
  const CC_POLICY_NV: nat := 0x149
  const CC_POLICY_AUTHORIZE: nat := 0x16A
  const CC_POLICY_COMMAND_CODE: nat := 0x16C
  const CC_POLICY_NV_WRITTEN: nat := 0x18F
  const EO_EQ: nat := 0x0000
  const EO_UNSIGNED_LE: nat := 0x0009

  const ALG_SHA256: nat := 0x000B
  const ALG_NULL: nat := 0x0010
  const ALG_ECC: nat := 0x0023
  const CURVE_P256: nat := 0x0003
  const K_A_ATTRIBUTES: nat := 0x0006_0040
  // nt=counter (0x10) | policywrite (0x8) | authread (0x40000) | no_da (0x2000000)
  const ROTATION_ATTRIBUTES: nat := 0x0204_0018
  const NV_WRITTEN: nat := 0x2000_0000
  const ROTATION_SIZE: nat := 8

  /** The other policy commands of the TPM, so that a session may run any of them. PolicySecret and
      PolicySigned hash twice, as PolicyAuthorize does; PolicyOR and PolicyAuthorizeNV start from zeros. */
  predicate IsSecretCode(code: nat) { code == 0x151 || code == 0x160 }

  predicate IsRestartCode(code: nat) { code == 0x171 || code == 0x192 }

  predicate IsNamedCode(code: nat) {
    || code == CC_POLICY_NV || code == CC_POLICY_AUTHORIZE
    || code == CC_POLICY_COMMAND_CODE || code == CC_POLICY_NV_WRITTEN
  }

  type Count = n: nat | n < 0x1_0000_0000_0000_0000

  /** The classes of object K_A approves policies for, one policyRef each. */
  datatype Class = Anchor | Slots | Heartbeat | SigningCounter | Rotation | Signing

  function Ref(cls: Class): bytes {
    match cls
    case Anchor => [0x61, 0x6E, 0x63, 0x68, 0x6F, 0x72]
    case Slots => [0x73, 0x6C, 0x6F, 0x74, 0x73]
    case Heartbeat => [0x68, 0x65, 0x61, 0x72, 0x74, 0x62, 0x65, 0x61, 0x74]
    case SigningCounter =>
      [0x73, 0x69, 0x67, 0x6E, 0x69, 0x6E, 0x67, 0x2D, 0x63, 0x6F, 0x75, 0x6E, 0x74, 0x65, 0x72]
    case Rotation => [0x72, 0x6F, 0x74, 0x61, 0x74, 0x69, 0x6F, 0x6E]
    case Signing => [0x73, 0x69, 0x67, 0x6E, 0x69, 0x6E, 0x67]
  }

  lemma RefInjective(c: Class, d: Class)
    requires Ref(c) == Ref(d)
    ensures c == d
  {
    assert Ref(c)[0] == Ref(d)[0] && |Ref(c)| == |Ref(d)|;
  }

  // ---- Names ----

  function NameOf(hash: Hash, area: bytes): bytes {
    BigEndian(ALG_SHA256, 2) + hash(area)
  }

  /** The public area K_A's point is loaded with; None where the point is not an uncompressed P-256 point. */
  function KaArea(point: bytes): Option<bytes> {
    if |point| != 65 || point[0] != 4 then None else
    Some(BigEndian(ALG_ECC, 2) + BigEndian(ALG_SHA256, 2) + BigEndian(K_A_ATTRIBUTES, 4) + BigEndian(0, 2)
         + BigEndian(ALG_NULL, 2) + BigEndian(ALG_NULL, 2) + BigEndian(CURVE_P256, 2) + BigEndian(ALG_NULL, 2)
         + BigEndian(32, 2) + point[1..33] + BigEndian(32, 2) + point[33..])
  }

  function KaName(hash: Hash, point: bytes): Option<bytes> {
    if KaArea(point).None? then None else Some(NameOf(hash, KaArea(point).value))
  }

  /** A field of a known width, as it reads. */
  lemma FieldReads(n: nat, width: nat)
    requires (width == 2 && n < 0x1_0000) || (width == 4 && n < 0x1_0000_0000)
    ensures Number(BigEndian(n, width)) == n
  {
    Widths();
    NumberOfBigEndian(n, width);
  }

  lemma FieldsOfKa()
    ensures BigEndian(0x0023, 2) == [0x00, 0x23] && BigEndian(0x000B, 2) == [0x00, 0x0B]
    ensures BigEndian(0x0006_0040, 4) == [0x00, 0x06, 0x00, 0x40] && BigEndian(0, 2) == [0x00, 0x00]
    ensures BigEndian(0x0010, 2) == [0x00, 0x10] && BigEndian(0x0003, 2) == [0x00, 0x03]
    ensures BigEndian(32, 2) == [0x00, 0x20]
  {
    assert BigEndian(0, 1) == [0x00];
    assert BigEndian(6, 2) == [0x00, 0x06] && BigEndian(0x600, 3) == [0x00, 0x06, 0x00];
  }

  /** K_A's area as TPMT_PUBLIC of the TPM 2.0 Library, Part 2, has it: an ECC key with a SHA-256 Name, its attributes,
      no policy, no symmetric algorithm, no scheme, NIST P-256, no KDF, and the two coordinates after their lengths. */
  lemma KaAreaReads(p: bytes)
    ensures KaArea(p).Some? <==> |p| == 65 && p[0] == 4
    ensures KaArea(p).Some?
            ==> KaArea(p).value
                == [0x00, 0x23, 0x00, 0x0B, 0x00, 0x06, 0x00, 0x40, 0x00, 0x00]
                   + [0x00, 0x10, 0x00, 0x10, 0x00, 0x03, 0x00, 0x10]
                   + [0x00, 0x20] + p[1..33] + [0x00, 0x20] + p[33..65]
  {
    FieldsOfKa();
    hide BigEndian;
    if |p| == 65 {
      var head := BigEndian(ALG_ECC, 2) + BigEndian(ALG_SHA256, 2) + BigEndian(K_A_ATTRIBUTES, 4) + BigEndian(0, 2);
      var params := BigEndian(ALG_NULL, 2) + BigEndian(ALG_NULL, 2) + BigEndian(CURVE_P256, 2) + BigEndian(ALG_NULL, 2);
      assert head == [0x00, 0x23, 0x00, 0x0B, 0x00, 0x06, 0x00, 0x40, 0x00, 0x00];
      assert params == [0x00, 0x10, 0x00, 0x10, 0x00, 0x03, 0x00, 0x10];
      Regrouped(head, BigEndian(ALG_NULL, 2), BigEndian(ALG_NULL, 2), BigEndian(CURVE_P256, 2), BigEndian(ALG_NULL, 2));
    }
  }

  lemma Regrouped(h: bytes, a: bytes, b: bytes, c: bytes, d: bytes)
    ensures h + a + b + c + d == h + (a + b + c + d)
  {
  }

  lemma CoordinatesTell(head: bytes, mid: bytes, x: bytes, y: bytes, x': bytes, y': bytes)
    requires |x| == |x'| && head + x + mid + y == head + x' + mid + y'
    ensures x == x' && y == y'
  {
    SplitEqual(head + x + mid, y, head + x' + mid, y');
    SplitEqual(head + x, mid, head + x', mid);
    SplitEqual(head, x, head, x');
  }

  lemma PointsOfKa(p: bytes, q: bytes)
    requires KaArea(p).Some? && KaArea(q) == KaArea(p)
    ensures p == q
  {
    KaAreaReads(p);
    KaAreaReads(q);
    hide KaArea;
    var head: bytes := [0x00, 0x23, 0x00, 0x0B, 0x00, 0x06, 0x00, 0x40, 0x00, 0x00]
                       + [0x00, 0x10, 0x00, 0x10, 0x00, 0x03, 0x00, 0x10] + [0x00, 0x20];
    CoordinatesTell(head, [0x00, 0x20], p[1..33], p[33..65], q[1..33], q[33..65]);
    assert p == [4] + p[1..33] + p[33..65] && q == [4] + q[1..33] + q[33..65];
  }

  /** K_A's Name tells its point, unless the two areas collide. */
  lemma KaNameTells(hash: Hash, p: bytes, q: bytes)
    requires KaName(hash, p).Some? && KaName(hash, q) == KaName(hash, p)
    ensures p == q || !ClashFree(hash, {KaArea(p).value, KaArea(q).value})
  {
    hide KaArea, BigEndian;
    var a, b := KaArea(p).value, KaArea(q).value;
    SplitEqual(BigEndian(ALG_SHA256, 2), hash(a), BigEndian(ALG_SHA256, 2), hash(b));
    if a == b { PointsOfKa(p, q); }
  }

  /** TPMS_NV_PUBLIC of an index: what its Name is the hash of. */
  function NvArea(index: nat, attributes: nat, authPolicy: bytes, size: nat): bytes {
    BigEndian(index, 4) + BigEndian(ALG_SHA256, 2) + BigEndian(attributes, 4)
    + BigEndian(|authPolicy|, 2) + authPolicy + BigEndian(size, 2)
  }

  function NvName(hash: Hash, index: nat, attributes: nat, authPolicy: bytes, size: nat): bytes {
    NameOf(hash, NvArea(index, attributes, authPolicy, size))
  }

  /** The area as TPMS_NV_PUBLIC of the TPM 2.0 Library, Part 2, has it: the index, SHA-256 as its Name's algorithm,
      the attributes, the policy after its length, and the size of the data. */
  lemma NvAreaReads(index: nat, attributes: nat, policy: bytes, size: nat)
    requires index < 0x1_0000_0000 && attributes < 0x1_0000_0000 && |policy| < 0x1_0000 && size < 0x1_0000
    ensures var a, n := NvArea(index, attributes, policy, size), |policy|;
            && |a| == 14 + n
            && Number(a[0..4]) == index && Number(a[4..6]) == 0x000B && Number(a[6..10]) == attributes
            && Number(a[10..12]) == n && a[12..12 + n] == policy && Number(a[12 + n..14 + n]) == size
  {
    FieldReads(index, 4);
    FieldReads(ALG_SHA256, 2);
    FieldReads(attributes, 4);
    FieldReads(|policy|, 2);
    FieldReads(size, 2);
    hide BigEndian, Number;
    var a, n := NvArea(index, attributes, policy, size), |policy|;
    assert a[0..4] == BigEndian(index, 4) && a[4..6] == BigEndian(ALG_SHA256, 2);
    assert a[6..10] == BigEndian(attributes, 4) && a[10..12] == BigEndian(n, 2);
    assert a[12 + n..14 + n] == BigEndian(size, 2);
  }

  /** A Name is the identifier of SHA-256 and the area's hash; the counter R is readable by its authorization, writable
      by policy alone, a counter of eight bytes outside the dictionary-attack logic, and written once incremented. */
  lemma NamesRead(hash: Hash, kaName: bytes, index: nat)
    requires index < 0x1_0000_0000
    ensures RotationName(hash, kaName, index, true)
            == [0x00, 0x0B] + hash(NvArea(index, 0x2204_0018, ClassPolicy(hash, kaName, Rotation), 8))
    ensures RotationName(hash, kaName, index, false)
            == [0x00, 0x0B] + hash(NvArea(index, 0x0204_0018, ClassPolicy(hash, kaName, Rotation), 8))
  {
    assert BigEndian(0x000B, 2) == [0x00, 0x0B] by { assert BigEndian(0, 1) == [0]; }
    hide BigEndian, NvArea, ClassPolicy;
  }

  /** An index's Name fixes everything in its public area. */
  lemma NvAreaInjective(i: nat, a: nat, p: bytes, s: nat, i': nat, a': nat, p': bytes, s': nat)
    requires i < 0x1_0000_0000 && i' < 0x1_0000_0000 && a < 0x1_0000_0000 && a' < 0x1_0000_0000
    requires |p| < 0x1_0000 && |p'| < 0x1_0000 && s < 0x1_0000 && s' < 0x1_0000
    requires NvArea(i, a, p, s) == NvArea(i', a', p', s')
    ensures i == i' && a == a' && p == p' && s == s'
  {
    Widths();
    var h, h' := BigEndian(i, 4) + BigEndian(ALG_SHA256, 2) + BigEndian(a, 4),
                 BigEndian(i', 4) + BigEndian(ALG_SHA256, 2) + BigEndian(a', 4);
    var t, t' := BigEndian(|p|, 2) + (p + BigEndian(s, 2)), BigEndian(|p'|, 2) + (p' + BigEndian(s', 2));
    assert NvArea(i, a, p, s) == h + t && NvArea(i', a', p', s') == h' + t';
    SplitEqual(h, t, h', t');
    SplitEqual(BigEndian(i, 4) + BigEndian(ALG_SHA256, 2), BigEndian(a, 4),
               BigEndian(i', 4) + BigEndian(ALG_SHA256, 2), BigEndian(a', 4));
    SplitEqual(BigEndian(i, 4), BigEndian(ALG_SHA256, 2), BigEndian(i', 4), BigEndian(ALG_SHA256, 2));
    SplitEqual(BigEndian(|p|, 2), p + BigEndian(s, 2), BigEndian(|p'|, 2), p' + BigEndian(s', 2));
    BigEndianInjective(i, i', 4);
    BigEndianInjective(a, a', 4);
    BigEndianInjective(|p|, |p'|, 2);
    SplitEqual(p, BigEndian(s, 2), p', BigEndian(s', 2));
    BigEndianInjective(s, s', 2);
  }

  // ---- policy digests ----

  function Code(c: nat): bytes { BigEndian(c, 4) }

  function PolicyAuthorize(hash: Hash, keyName: bytes, ref: bytes): Digest {
    hash(hash(ZERO + Code(CC_POLICY_AUTHORIZE) + keyName) + ref)
  }

  function NvArgs(operand: bytes, offset: nat, operation: nat): bytes {
    operand + BigEndian(offset, 2) + BigEndian(operation, 2)
  }

  function PolicyNv(hash: Hash, previous: Digest, name: bytes, operand: bytes, offset: nat, operation: nat): Digest {
    hash(previous + (Code(CC_POLICY_NV) + (hash(NvArgs(operand, offset, operation)) + name)))
  }

  function PolicyCommandCode(hash: Hash, previous: Digest, code: nat): Digest {
    hash(previous + (Code(CC_POLICY_COMMAND_CODE) + BigEndian(code, 4)))
  }

  function PolicyNvWritten(hash: Hash, previous: Digest, written: bool): Digest {
    hash(previous + (Code(CC_POLICY_NV_WRITTEN) + [if written then 1 else 0]))
  }

  function ClassPolicy(hash: Hash, kaName: bytes, cls: Class): Digest {
    PolicyAuthorize(hash, kaName, Ref(cls))
  }

  function RotationName(hash: Hash, kaName: bytes, index: nat, written: bool): bytes {
    NvName(hash, index, ROTATION_ATTRIBUTES + if written then NV_WRITTEN else 0,
           ClassPolicy(hash, kaName, Rotation), ROTATION_SIZE)
  }

  /** P(K_sys, G). */
  function Approved(hash: Hash, ksysName: bytes, rotation: bytes, generation: Count): Digest {
    PolicyNv(hash, PolicyAuthorize(hash, ksysName, []), rotation, BigEndian(generation, 8), 0, EO_UNSIGNED_LE)
  }

  function IncrementFirst(hash: Hash): Digest {
    PolicyNvWritten(hash, PolicyCommandCode(hash, ZERO, CC_NV_INCREMENT), false)
  }

  function IncrementFrom(hash: Hash, rotation: bytes, n: Count): Digest {
    PolicyNv(hash, PolicyCommandCode(hash, ZERO, CC_NV_INCREMENT), rotation, BigEndian(n, 8), 0, EO_EQ)
  }

  /** What K_A signs to approve a policy for a class. */
  function AuthorizeMessage(policy: Digest, cls: Class): bytes {
    policy + Ref(cls)
  }

  lemma CodesRead()
    ensures Code(0x149) == [0x00, 0x00, 0x01, 0x49] && Code(0x16A) == [0x00, 0x00, 0x01, 0x6A]
    ensures Code(0x16C) == [0x00, 0x00, 0x01, 0x6C] && Code(0x18F) == [0x00, 0x00, 0x01, 0x8F]
    ensures BigEndian(0x134, 4) == [0x00, 0x00, 0x01, 0x34]
    ensures BigEndian(0, 2) == [0x00, 0x00] && BigEndian(9, 2) == [0x00, 0x09]
  {
    assert BigEndian(0, 1) == [0x00] && BigEndian(1, 1) == [0x01];
    assert BigEndian(0, 2) == [0x00, 0x00] && BigEndian(1, 2) == [0x00, 0x01];
    assert BigEndian(1, 3) == [0x00, 0x00, 0x01];
  }

  /** The digests byte by byte, as the TPM 2.0 Library, Part 3, has them: PolicyAuthorize starts from zeros and hashes
      twice; the others extend the digest there is by the command's code and its arguments. */
  lemma DigestsRead(hash: Hash, previous: Digest, name: bytes, value: Count, ref: bytes, written: bool)
    ensures PolicyAuthorize(hash, name, ref) == hash(hash(Zeros(32) + [0x00, 0x00, 0x01, 0x6A] + name) + ref)
    ensures PolicyNv(hash, previous, name, BigEndian(value, 8), 0, EO_UNSIGNED_LE)
            == hash(previous + [0x00, 0x00, 0x01, 0x49] + hash(BigEndian(value, 8) + [0x00, 0x00, 0x00, 0x09]) + name)
    ensures PolicyNv(hash, previous, name, BigEndian(value, 8), 0, EO_EQ)
            == hash(previous + [0x00, 0x00, 0x01, 0x49] + hash(BigEndian(value, 8) + [0x00, 0x00, 0x00, 0x00]) + name)
    ensures PolicyCommandCode(hash, previous, CC_NV_INCREMENT)
            == hash(previous + [0x00, 0x00, 0x01, 0x6C, 0x00, 0x00, 0x01, 0x34])
    ensures PolicyNvWritten(hash, previous, written)
            == hash(previous + [0x00, 0x00, 0x01, 0x8F] + [if written then 0x01 else 0x00])
  {
    CodesRead();
    hide BigEndian, Code;
    assert ZERO == Zeros(32);
    var nv, v := Code(CC_POLICY_NV), BigEndian(value, 8);
    var le, eq := NvArgs(v, 0, EO_UNSIGNED_LE), NvArgs(v, 0, EO_EQ);
    assert le == v + [0x00, 0x00, 0x00, 0x09] && eq == v + [0x00, 0x00, 0x00, 0x00];
    assert previous + (nv + (hash(le) + name)) == previous + nv + hash(le) + name;
    assert previous + (nv + (hash(eq) + name)) == previous + nv + hash(eq) + name;
    assert previous + (Code(CC_POLICY_COMMAND_CODE) + BigEndian(CC_NV_INCREMENT, 4))
           == previous + [0x00, 0x00, 0x01, 0x6C, 0x00, 0x00, 0x01, 0x34];
    assert previous + (Code(CC_POLICY_NV_WRITTEN) + [if written then 1 else 0])
           == previous + [0x00, 0x00, 0x01, 0x8F] + [if written then 0x01 else 0x00];
  }

  function ClassName(cls: Class): string {
    match cls
    case Anchor => "anchor"
    case Slots => "slots"
    case Heartbeat => "heartbeat"
    case SigningCounter => "signing-counter"
    case Rotation => "rotation"
    case Signing => "signing"
  }

  /** A class's policyRef is its name, and what K_A signs for it is the policy and then that name. */
  lemma RefsAreNames(policy: Digest, cls: Class)
    ensures |Ref(cls)| == |ClassName(cls)| && forall i | 0 <= i < |Ref(cls)| :: Ref(cls)[i] == ClassName(cls)[i] as int
    ensures AuthorizeMessage(policy, cls)[..32] == policy && AuthorizeMessage(policy, cls)[32..] == Ref(cls)
  {
  }

  // ---- sequences of policy commands ----

  datatype Command =
    | Authorize(keyName: bytes, ref: bytes)
    | Nv(name: bytes, operand: bytes, offset: nat, operation: nat)
    | CommandCode(code: nat)
    | NvWritten(written: bool)
    | Secret(code: nat, name: bytes, ref: bytes)
    | Extend(code: nat, data: bytes)
    | Restart(code: nat, data: bytes)

  predicate WellFormed(c: Command) {
    match c
    case Authorize(_, _) => true
    case Nv(_, _, offset, operation) => offset < 0x1_0000 && operation < 0x1_0000
    case CommandCode(code) => code < 0x1_0000_0000
    case NvWritten(_) => true
    case Secret(code, _, _) => IsSecretCode(code)
    case Extend(code, _) =>
      code < 0x1_0000_0000 && !IsNamedCode(code) && !IsSecretCode(code) && !IsRestartCode(code)
    case Restart(code, _) => IsRestartCode(code)
  }

  /** Commands whose digest does not depend on what came before. */
  predicate Resets(c: Command) { c.Authorize? || c.Restart? }

  predicate TwoStep(c: Command) { c.Authorize? || c.Secret? }

  /** What a two-step command hashes first. */
  function InnerInput(digest: Digest, c: Command): bytes
    requires TwoStep(c)
  {
    match c
    case Authorize(keyName, _) => ZERO + (Code(CC_POLICY_AUTHORIZE) + keyName)
    case Secret(code, name, _) => digest + (Code(code) + name)
  }

  /** A command's last hash is over a 32-byte head and a body. */
  function Head(hash: Hash, digest: Digest, c: Command): Digest {
    if TwoStep(c) then hash(InnerInput(digest, c)) else if Resets(c) then ZERO else digest
  }

  function OneStepCode(c: Command): nat
    requires !TwoStep(c)
  {
    match c
    case Nv(_, _, _, _) => CC_POLICY_NV
    case CommandCode(_) => CC_POLICY_COMMAND_CODE
    case NvWritten(_) => CC_POLICY_NV_WRITTEN
    case Extend(code, _) => code
    case Restart(code, _) => code
  }

  function Payload(hash: Hash, c: Command): bytes
    requires !TwoStep(c)
  {
    match c
    case Nv(_, _, _, _) => hash(NvArgs(c.operand, c.offset, c.operation)) + c.name
    case CommandCode(code) => BigEndian(code, 4)
    case NvWritten(written) => [if written then 1 else 0]
    case Extend(_, data) => data
    case Restart(_, data) => data
  }

  function Body(hash: Hash, c: Command): bytes {
    match c
    case Authorize(_, ref) => ref
    case Secret(_, _, ref) => ref
    case _ => Code(OneStepCode(c)) + Payload(hash, c)
  }

  function Next(hash: Hash, digest: Digest, c: Command): Digest {
    hash(Head(hash, digest, c) + Body(hash, c))
  }

  /** Every byte string hashed by running c from a digest. */
  function Inputs(hash: Hash, digest: Digest, c: Command): set<bytes> {
    {Head(hash, digest, c) + Body(hash, c)}
    + (if TwoStep(c) then {InnerInput(digest, c)} else {})
    + (if c.Nv? then {NvArgs(c.operand, c.offset, c.operation)} else {})
  }

  /** The session digest after a sequence of commands. */
  function Eval(hash: Hash, t: seq<Command>): Digest {
    if t == [] then ZERO else Next(hash, Eval(hash, t[..|t| - 1]), t[|t| - 1])
  }

  function Hashed(hash: Hash, t: seq<Command>): set<bytes> {
    if t == [] then {} else
    Hashed(hash, t[..|t| - 1]) + Inputs(hash, Eval(hash, t[..|t| - 1]), t[|t| - 1])
  }

  ghost predicate AllWellFormed(t: seq<Command>) {
    forall c | c in t :: WellFormed(c)
  }

  /** The commands from the last one that resets the digest on. */
  function Tail(t: seq<Command>): seq<Command> {
    if t == [] then [] else
    if Resets(t[|t| - 1]) then [t[|t| - 1]] else Tail(t[..|t| - 1]) + [t[|t| - 1]]
  }

  lemma {:induction false} TailDecides(hash: Hash, t: seq<Command>, u: seq<Command>)
    requires Tail(t) == Tail(u)
    ensures Eval(hash, t) == Eval(hash, u)
  {
    assert u != [] ==> |Tail(u)| > 0;
    if t != [] {
      assert Tail(t)[|Tail(t)| - 1] == t[|t| - 1] && u != [];
      assert Tail(u)[|Tail(u)| - 1] == u[|u| - 1];
      if !Resets(t[|t| - 1]) {
        assert Tail(t)[..|Tail(t)| - 1] == Tail(t[..|t| - 1]);
        assert Tail(u)[..|Tail(u)| - 1] == Tail(u[..|u| - 1]);
        TailDecides(hash, t[..|t| - 1], u[..|u| - 1]);
      }
    }
  }

  /** The source's digest functions are the sequences they stand for. */
  lemma PoliciesAreSequences(hash: Hash, ksysName: bytes, rotation: bytes, n: Count, keyName: bytes, ref: bytes)
    ensures PolicyAuthorize(hash, keyName, ref) == Eval(hash, [Authorize(keyName, ref)])
    ensures Approved(hash, ksysName, rotation, n)
         == Eval(hash, [Authorize(ksysName, []), Nv(rotation, BigEndian(n, 8), 0, EO_UNSIGNED_LE)])
    ensures IncrementFirst(hash) == Eval(hash, [CommandCode(CC_NV_INCREMENT), NvWritten(false)])
    ensures IncrementFrom(hash, rotation, n)
         == Eval(hash, [CommandCode(CC_NV_INCREMENT), Nv(rotation, BigEndian(n, 8), 0, EO_EQ)])
  {
    EvalOne(hash, Authorize(keyName, ref));
    assert ZERO + (Code(CC_POLICY_AUTHORIZE) + keyName) == ZERO + Code(CC_POLICY_AUTHORIZE) + keyName;
    assert ZERO + (Code(CC_POLICY_AUTHORIZE) + ksysName) == ZERO + Code(CC_POLICY_AUTHORIZE) + ksysName;
    EvalTwo(hash, Authorize(ksysName, []), Nv(rotation, BigEndian(n, 8), 0, EO_UNSIGNED_LE));
    EvalTwo(hash, CommandCode(CC_NV_INCREMENT), NvWritten(false));
    EvalTwo(hash, CommandCode(CC_NV_INCREMENT), Nv(rotation, BigEndian(n, 8), 0, EO_EQ));
  }

  lemma EvalOne(hash: Hash, c: Command)
    ensures Eval(hash, [c]) == Next(hash, ZERO, c)
  {
    assert [c][..0] == [];
  }

  lemma EvalTwo(hash: Hash, c: Command, d: Command)
    ensures Eval(hash, [c, d]) == Next(hash, Next(hash, ZERO, c), d)
  {
    EvalOne(hash, c);
    assert [c, d][..1] == [c];
  }

  lemma CodesDiffer(c: nat, d: nat, x: bytes, y: bytes)
    requires c < 0x1_0000_0000 && d < 0x1_0000_0000
    requires Code(c) + x == Code(d) + y
    ensures c == d && x == y
  {
    Widths();
    SplitEqual(Code(c), x, Code(d), y);
    BigEndianInjective(c, d, 4);
  }

  /** No session digest is ever the first hash of a two-step command, unless a clash shows itself: the
      two cases where preimage lengths coincide cannot be confused. */
  lemma {:induction false} InnerUnreachable(hash: Hash, s: set<bytes>, t: seq<Command>, u: seq<Command>, c: Command)
    requires TwoStep(c) && WellFormed(c) && AllWellFormed(t) && AllWellFormed(u)
    requires ClashFree(hash, s) && Hashed(hash, t) <= s && Hashed(hash, u) <= s
    requires InnerInput(Eval(hash, u), c) in s
    ensures Eval(hash, t) != hash(InnerInput(Eval(hash, u), c))
    decreases |t| + |u|
  {
    var inner := InnerInput(Eval(hash, u), c);
    if t != [] && Eval(hash, t) == hash(inner) {
      var p, e := t[..|t| - 1], t[|t| - 1];
      var d := Eval(hash, p);
      var z: Digest := if c.Authorize? then ZERO else Eval(hash, u);
      var code := if c.Authorize? then CC_POLICY_AUTHORIZE else c.code;
      var rest := if c.Authorize? then c.keyName else c.name;
      assert Head(hash, d, e) + Body(hash, e) in Inputs(hash, d, e);
      assert inner == z + (Code(code) + rest);
      SplitEqual(Head(hash, d, e), Body(hash, e), z, Code(code) + rest);
      if TwoStep(e) {
        assert InnerInput(d, e) in Inputs(hash, d, e);
        if c.Secret? {
          InnerUnreachable(hash, s, u, p, e);
        }
      } else {
        assert WellFormed(e) && WellFormed(c);
        CodesDiffer(OneStepCode(e), code, Payload(hash, e), rest);
      }
    }
  }

  lemma OneStepInjective(hash: Hash, s: set<bytes>, c: Command, d: Command)
    requires !TwoStep(c) && !TwoStep(d) && WellFormed(c) && WellFormed(d)
    requires ClashFree(hash, s)
    requires c.Nv? ==> NvArgs(c.operand, c.offset, c.operation) in s
    requires d.Nv? ==> NvArgs(d.operand, d.offset, d.operation) in s
    requires Body(hash, c) == Body(hash, d)
    ensures c == d
  {
    Widths();
    CodesDiffer(OneStepCode(c), OneStepCode(d), Payload(hash, c), Payload(hash, d));
    if c.Nv? {
      SplitEqual(hash(NvArgs(c.operand, c.offset, c.operation)), c.name, hash(NvArgs(d.operand, d.offset, d.operation)),
                 d.name);
      NvArgsInjective(c.operand, c.offset, c.operation, d.operand, d.offset, d.operation);
    } else if c.CommandCode? {
      BigEndianInjective(c.code, d.code, 4);
    }
  }

  lemma NvArgsInjective(a: bytes, i: nat, o: nat, b: bytes, j: nat, q: nat)
    requires i < 0x1_0000 && o < 0x1_0000 && j < 0x1_0000 && q < 0x1_0000
    requires NvArgs(a, i, o) == NvArgs(b, j, q)
    ensures a == b && i == j && o == q
  {
    Widths();
    assert |a| == |b|;
    SplitEqual(a + BigEndian(i, 2), BigEndian(o, 2), b + BigEndian(j, 2), BigEndian(q, 2));
    SplitEqual(a, BigEndian(i, 2), b, BigEndian(j, 2));
    BigEndianInjective(i, j, 2);
    BigEndianInjective(o, q, 2);
  }

  /** One command: equal digests come from the same command, and from equal digests before it unless it resets. */
  lemma NextInjective(hash: Hash, s: set<bytes>, t: seq<Command>, c: Command, u: seq<Command>, d: Command)
    requires AllWellFormed(t) && AllWellFormed(u) && WellFormed(c) && WellFormed(d)
    requires ClashFree(hash, s) && Hashed(hash, t) <= s && Hashed(hash, u) <= s
    requires Inputs(hash, Eval(hash, t), c) <= s && Inputs(hash, Eval(hash, u), d) <= s
    requires Next(hash, Eval(hash, t), c) == Next(hash, Eval(hash, u), d)
    ensures c == d && (Resets(c) || Eval(hash, t) == Eval(hash, u))
  {
    var x, y := Eval(hash, t), Eval(hash, u);
    assert Head(hash, x, c) + Body(hash, c) in Inputs(hash, x, c);
    assert Head(hash, y, d) + Body(hash, d) in Inputs(hash, y, d);
    SplitEqual(Head(hash, x, c), Body(hash, c), Head(hash, y, d), Body(hash, d));
    if TwoStep(c) && TwoStep(d) {
      assert InnerInput(x, c) in Inputs(hash, x, c) && InnerInput(y, d) in Inputs(hash, y, d);
      TwoStepInjective(x, c, y, d);
    } else if TwoStep(c) {
      assert InnerInput(x, c) in Inputs(hash, x, c);
      if !Resets(d) { InnerUnreachable(hash, s, u, t, c); }
      assert false;
    } else if TwoStep(d) {
      assert InnerInput(y, d) in Inputs(hash, y, d);
      if !Resets(c) { InnerUnreachable(hash, s, t, u, d); }
      assert false;
    } else {
      OneStepInjective(hash, s, c, d);
    }
  }

  lemma TwoStepInjective(x: Digest, c: Command, y: Digest, d: Command)
    requires TwoStep(c) && TwoStep(d) && WellFormed(c) && WellFormed(d)
    requires InnerInput(x, c) == InnerInput(y, d)
    requires c.ref == d.ref
    ensures c == d && (c.Authorize? || x == y)
  {
    var z: Digest := if c.Authorize? then ZERO else x;
    var w: Digest := if d.Authorize? then ZERO else y;
    var cc := if c.Authorize? then CC_POLICY_AUTHORIZE else c.code;
    var dc := if d.Authorize? then CC_POLICY_AUTHORIZE else d.code;
    var cn := if c.Authorize? then c.keyName else c.name;
    var dn := if d.Authorize? then d.keyName else d.name;
    SplitEqual(z, Code(cc) + cn, w, Code(dc) + dn);
    CodesDiffer(cc, dc, cn, dn);
  }

  /** SEPARATION. Two sequences of policy commands reach one digest exactly when they agree from their last reset
      (PolicyAuthorize, PolicyOR, PolicyAuthorizeNV) on, unless two of the byte strings they hashed collide or one of
      them hashes to zeros. */
  lemma {:induction false} DigestsSeparate(hash: Hash, t: seq<Command>, u: seq<Command>)
    requires AllWellFormed(t) && AllWellFormed(u)
    ensures Tail(t) == Tail(u) ==> Eval(hash, t) == Eval(hash, u)
    ensures Eval(hash, t) == Eval(hash, u) ==> Tail(t) == Tail(u) || !ClashFree(hash, Hashed(hash, t) + Hashed(hash, u))
  {
    if Eval(hash, t) == Eval(hash, u) && ClashFree(hash, Hashed(hash, t) + Hashed(hash, u)) {
      Separate(hash, Hashed(hash, t) + Hashed(hash, u), t, u);
    }
    if Tail(t) == Tail(u) { TailDecides(hash, t, u); }
  }

  lemma {:induction false} Separate(hash: Hash, s: set<bytes>, t: seq<Command>, u: seq<Command>)
    requires AllWellFormed(t) && AllWellFormed(u)
    requires ClashFree(hash, s) && Hashed(hash, t) <= s && Hashed(hash, u) <= s
    requires Eval(hash, t) == Eval(hash, u)
    ensures Tail(t) == Tail(u)
  {
    if t == [] || u == [] {
      if t != [] { NeverZero(hash, s, t); }
      if u != [] { NeverZero(hash, s, u); }
    } else {
      var p, q := t[..|t| - 1], u[..|u| - 1];
      NextInjective(hash, s, p, t[|t| - 1], q, u[|u| - 1]);
      if !Resets(t[|t| - 1]) { Separate(hash, s, p, q); }
    }
  }

  lemma NeverZero(hash: Hash, s: set<bytes>, t: seq<Command>)
    requires t != [] && ClashFree(hash, s) && Hashed(hash, t) <= s
    ensures Eval(hash, t) != ZERO
  {
    var d, c := Eval(hash, t[..|t| - 1]), t[|t| - 1];
    assert Head(hash, d, c) + Body(hash, c) in Inputs(hash, d, c);
  }

  /** An approval names one class: the digest a TPM checks K_A's signature over is that of one policy and
      one policyRef, so an approval for one class is no approval for another, nor of another policy. */
  lemma ApprovalNamesOneClass(hash: Hash, policy: Digest, cls: Class, digest: Digest, ref: bytes)
    requires ClashFree(hash, {AuthorizeMessage(policy, cls), digest + ref})
    requires hash(AuthorizeMessage(policy, cls)) == hash(digest + ref)
    ensures digest == policy && ref == Ref(cls)
    ensures forall other: Class | Ref(other) == ref :: other == cls
  {
    assert AuthorizeMessage(policy, cls) == digest + ref;
    SplitEqual(policy, Ref(cls), digest, ref);
    forall other: Class | Ref(other) == ref ensures other == cls { RefInjective(other, cls); }
  }

  /** The classes' authPolicies are pairwise different. */
  lemma ClassPoliciesDiffer(hash: Hash, kaName: bytes, c: Class, d: Class)
    requires ClassPolicy(hash, kaName, c) == ClassPolicy(hash, kaName, d)
    ensures c == d
            || !ClashFree(hash, Hashed(hash, [Authorize(kaName, Ref(c))]) + Hashed(hash, [Authorize(kaName, Ref(d))]))
  {
    PoliciesAreSequences(hash, [], [], 0, kaName, Ref(c));
    PoliciesAreSequences(hash, [], [], 0, kaName, Ref(d));
    DigestsSeparate(hash, [Authorize(kaName, Ref(c))], [Authorize(kaName, Ref(d))]);
    if c != d && Ref(c) == Ref(d) { RefInjective(c, d); }
  }
}
