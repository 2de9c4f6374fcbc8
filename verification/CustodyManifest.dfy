/** The custody manifest's validator: every check of one object, in the order they are made, and of a manifest of
    objects. A check refuses with the rule that failed, or, in one place, breaks on a value the code did not
    expect. */
module CustodyManifest {
  import opened Results

  datatype Json =
    | Null
    | Bool(flag: bool)
    | Int(number: int)
    | Float(fraction: real)
    | Str(text: string)
    | List(items: seq<Json>)
    | Obj(fields: map<string, Json>)

  /** What a check says: which value, and what is wrong with it. */
  datatype Fault =
    | NotAnObject(at: string)
    | MissingFields(at: string)
    | UnknownFields(at: string)
    | NotText(at: string)
    | NotOneOf(at: string)
    | Malformed(at: string)
    | Broken(rule: Rule)
    | TypeError

  datatype Rule =
    | NeedsFingerprint | NitrokeyIdentity | LabelBackend | YubiKeySerial | YubiKeyTouch | YubiKeyPin | PolicyBackend
    | DuplicateOperations | Unsupported | KekMissing | KekCannotUnwrap | KekVersionMissing | KekUnexpected
    | ProductionNeedsTwo | SharedDevice | FidoKind | FidoSites | FidoElsewhere | Replicas | EnrollmentBackend
    | EnrollmentSites | NeedsShamir | NeedsEnrollment | NeverVerified | StaleVerification | ExpiredException
    | ExceptionElsewhere | DuplicateId | HoldsSecret | UnknownVersion

  datatype Check = Pass | Refuse(fault: Fault) {
    predicate IsFailure() { Refuse? }
    function PropagateFailure(): Check { this }
  }

  /** What the validator takes from outside: the backend capabilities, the day, how dates and timestamps read as days,
      what counts as white space, and which field names and texts look like secrets. */
  datatype Env = Env(capabilities: map<string, map<string, set<string>>>, today: int, date: string -> Option<int>,
                     timestamp: string -> Option<int>, isSpace: char -> bool, secretName: string -> bool,
                     secretText: string -> bool)

  const FIDO := "fido-multi-enrollment"
  const COMMISSIONED: set<string> := {"qualified", "active", "standby"}
  const STATES: set<string> := {"planned", "qualified", "active", "standby", "retired", "revoked"}
  const BACKENDS: set<string> := {"nitrokey-pkcs11", "yubikey-piv", "yubikey-openpgp", "fido2"}
  const KINDS: set<string> := {"asymmetric-key", "symmetric-key", "opaque-secret", "password", "api-token", "seed",
                               "certificate", "fido-credential", "sops-recipient"}
  const CLASSIFICATIONS: set<string> := {"public", "internal", "confidential", "restricted", "critical"}
  const ENVIRONMENTS: set<string> := {"production", "staging", "development"}
  const CUSTODY_MODES: set<string> := {"direct-hardware", "hardware-envelope", "fido-multi-enrollment", "exception"}
  const RECOVERY_MODES: set<string> := {"multi-enrollment", "rebuild-public", "exception"}
  const RECOVERY_STATES: set<string> := {"planned", "tested", "accepted", "overdue"}
  const MIGRATION_STATES: set<string> := {"planned", "in-progress", "migrated", "exception", "not-applicable"}
  const VERIFICATION_STATES: set<string> := {"planned", "verified", "failed", "overdue"}
  const VERIFICATION_MAX_AGE_DAYS := 365

  const OBJECT_REQUIRED: set<string> := {"id", "name", "kind", "classification", "environment", "owner", "purpose",
                                         "custody", "algorithm", "operations", "policy_id", "bindings", "recovery",
                                         "rotation", "migration", "verification"}
  const OBJECT_FIELDS: set<string> := OBJECT_REQUIRED + {"exception", "notes"}
  const BINDING_REQUIRED: set<string> := {"site", "backend", "device_id", "object_id", "state"}
  const BINDING_FIELDS: set<string> :=
    BINDING_REQUIRED + {"public_fingerprint", "key_check", "pin_policy", "touch_policy", "device_serial",
                        "devaut_fingerprint", "public_key_sha256", "kek_algorithm", "kek_version", "token_label"}
  const EXCEPTION_FIELDS: set<string> := {"reason", "expires", "approved_by"}
  const VERIFICATION_FIELDS: set<string> := {"status", "last_verified", "evidence"}

  // ---- single values ----

  function Need(holds: bool, fault: Fault): Check { if holds then Pass else Refuse(fault) }

  function NeedRule(holds: bool, rule: Rule): Check { if holds then Pass else Refuse(Broken(rule)) }

  /** A field's value; a missing one reads as null. */
  function Get(f: map<string, Json>, key: string): Json { if key in f then f[key] else Null }

  predicate Truthy(j: Json) {
    match j
    case Null => false
    case Bool(flag) => flag
    case Int(n) => n != 0
    case Float(x) => x != 0.0
    case Str(s) => s != ""
    case List(items) => items != []
    case Obj(fields) => fields != map[]
  }

  function RequireFields(f: map<string, Json>, required: set<string>, allowed: set<string>, at: string): (c: Check)
    ensures c != Refuse(TypeError)
  {
    if !(required <= f.Keys) then Refuse(MissingFields(at)) else Need(f.Keys <= allowed, UnknownFields(at))
  }

  predicate IsText(env: Env, j: Json) { j.Str? && exists i | 0 <= i < |j.text| :: !env.isSpace(j.text[i]) }

  function Text(env: Env, j: Json, at: string): (c: Check)
    ensures c != Refuse(TypeError)
  { Need(IsText(env, j), NotText(at)) }

  function OneOf(env: Env, j: Json, choices: set<string>, at: string): (c: Check)
    ensures c != Refuse(TypeError)
  {
    if !IsText(env, j) then Refuse(NotText(at)) else Need(j.text in choices, NotOneOf(at))
  }

  predicate IsLowerAlnum(c: char) { 'a' <= c <= 'z' || '0' <= c <= '9' }

  predicate IsId(s: string) {
    3 <= |s| <= 63 && IsLowerAlnum(s[0]) && forall i | 0 <= i < |s| :: IsLowerAlnum(s[i]) || s[i] == '-'
  }

  predicate IsFingerprint(s: string) {
    |s| == 71 && s[..7] == "sha256:" && forall i | 7 <= i < 71 :: '0' <= s[i] <= '9' || 'a' <= s[i] <= 'f'
  }

  predicate IsTokenLabel(s: string) {
    1 <= |s| <= 32 && s[0] != ' ' && s[|s| - 1] != ' ' && forall i | 0 <= i < |s| :: ' ' <= s[i] <= '~'
  }

  predicate IsKekVersion(s: string) {
    1 <= |s| <= 32 && s[0] !in "._-"
    && forall i | 0 <= i < |s| :: IsLowerAlnum(s[i]) || 'A' <= s[i] <= 'Z' || s[i] in "._-"
  }

  function TwoDigits(n: nat): string
    requires n < 100
  {
    var digit := (d: nat) requires d < 10 => ('0' as int + d) as char;
    if n < 10 then [digit(n)] else [digit(n / 10), digit(n % 10)]
  }

  /** shamir-k-of-n with 2 <= k <= n <= 16, no leading zeros. */
  predicate IsShamir(mode: string) {
    exists k, n | 2 <= k <= n <= 16 :: mode == "shamir-" + TwoDigits(k) + "-of-" + TwoDigits(n)
  }

  function Days(j: Json, at: string): (c: Check)
    ensures c != Refuse(TypeError)
  {
    Need(j.Int? && j.number >= 1, Malformed(at))
  }

  function Date(env: Env, parse: string -> Option<int>, j: Json, at: string): (c: Check)
    ensures c != Refuse(TypeError)
  {
    if !IsText(env, j) then Refuse(NotText(at)) else Need(parse(j.text).Some?, Malformed(at))
  }

  // ---- a binding ----

  /** A binding whose first fields are there and are text: what the later checks read. */
  predicate IsBinding(b: Json) {
    b.Obj? && BINDING_REQUIRED <= b.fields.Keys
    && b.fields["site"].Str? && b.fields["backend"].Str? && b.fields["device_id"].Str? && b.fields["state"].Str?
  }

  function Site(b: Json): string
    requires IsBinding(b)
  {
    b.fields["site"].text
  }

  function Backend(b: Json): string
    requires IsBinding(b)
  {
    b.fields["backend"].text
  }

  function Device(b: Json): string
    requires IsBinding(b)
  {
    b.fields["device_id"].text
  }

  predicate IsCommissioned(b: Json)
    requires IsBinding(b)
  {
    b.fields["state"].text in COMMISSIONED
  }

  function FingerprintField(env: Env, f: map<string, Json>, name: string): (c: Check)
    ensures c != Refuse(TypeError)
  {
    if name !in f then Pass
    else
      :- Text(env, f[name], name);
      Need(IsFingerprint(f[name].text), Malformed(name))
  }

  function Fingerprints(env: Env, f: map<string, Json>): (c: Check)
    ensures c != Refuse(TypeError)
  {
    if "public_fingerprint" !in f && "key_check" !in f then Refuse(Broken(NeedsFingerprint))
    else
      :- FingerprintField(env, f, "public_fingerprint");
      FingerprintField(env, f, "key_check")
  }

  function Nitrokey(env: Env, f: map<string, Json>): (c: Check)
    ensures c != Refuse(TypeError)
  {
    var pinned := Truthy(Get(f, "devaut_fingerprint")) || Truthy(Get(f, "public_key_sha256"));
    :- NeedRule(Truthy(Get(f, "device_serial")) && pinned, NitrokeyIdentity);
    :- Text(env, Get(f, "device_serial"), "device_serial");
    :- FingerprintField(env, f, "devaut_fingerprint");
    FingerprintField(env, f, "public_key_sha256")
  }

  function TokenLabel(env: Env, f: map<string, Json>, backend: string): (c: Check)
    ensures c != Refuse(TypeError)
  {
    if "token_label" !in f then Pass
    else
      :- Text(env, f["token_label"], "token_label");
      :- NeedRule(backend in {"nitrokey-pkcs11", "yubikey-openpgp"}, LabelBackend);
      Need(IsTokenLabel(f["token_label"].text), Malformed("token_label"))
  }

  /** A list or an object as PIN policy cannot be looked up in a set: there the code breaks rather than refuses. */
  function YubiKey(f: map<string, Json>, commissioned: bool): Check {
    var pin := Get(f, "pin_policy");
    :- NeedRule(commissioned ==> Truthy(Get(f, "device_serial")), YubiKeySerial);
    :- NeedRule(Get(f, "touch_policy") == Str("never"), YubiKeyTouch);
    :- Need(!pin.List? && !pin.Obj?, TypeError);
    NeedRule(pin == Str("once") || pin == Str("always"), YubiKeyPin)
  }

  /** The fields every binding has. */
  function NamedFields(env: Env, b: Json): (c: Check)
    ensures c != Refuse(TypeError)
    ensures c.Pass?
            ==> b.Obj? && BINDING_REQUIRED <= b.fields.Keys && b.fields["site"].Str? && b.fields["backend"].Str?
                && b.fields["device_id"].Str?
  {
    if !b.Obj? then Refuse(NotAnObject("binding"))
    else
      var f := b.fields;
      :- RequireFields(f, BINDING_REQUIRED, BINDING_FIELDS, "binding");
      :- Text(env, f["site"], "site");
      :- Text(env, f["backend"], "backend");
      :- Need(f["backend"].text in BACKENDS, NotOneOf("backend"));
      :- Text(env, f["device_id"], "device_id");
      Text(env, f["object_id"], "object_id")
  }

  /** What comes before the policies of a binding: none of it breaks. */
  function BeforePolicies(env: Env, b: Json): (c: Check)
    ensures c.Pass? ==> IsBinding(b)
    ensures c != Refuse(TypeError)
  {
    var named := NamedFields(env, b);
    :- named;
    :- Fingerprints(env, b.fields);
    :- OneOf(env, b.fields["state"], STATES, "state");
    :- if Backend(b) == "nitrokey-pkcs11" && IsCommissioned(b) then Nitrokey(env, b.fields) else Pass;
    TokenLabel(env, b.fields, Backend(b))
  }

  function CheckBinding(env: Env, b: Json): (c: Check)
    ensures c.Pass? ==> IsBinding(b)
  {
    var before := BeforePolicies(env, b);
    :- before;
    if Backend(b) in {"yubikey-piv", "yubikey-openpgp"} then YubiKey(b.fields, IsCommissioned(b))
    else NeedRule("pin_policy" !in b.fields && "touch_policy" !in b.fields, PolicyBackend)
  }

  function Capability(env: Env, backend: string, algorithm: string): set<string> {
    if backend in env.capabilities && algorithm in env.capabilities[backend]
    then env.capabilities[backend][algorithm] else {}
  }

  /** The key-encryption key of a binding that releases a secret; and of no other. */
  function Kek(env: Env, b: Json, operations: set<string>): (c: Check)
    requires IsBinding(b)
    ensures c != Refuse(TypeError)
  {
    var kek, version := Get(b.fields, "kek_algorithm"), Get(b.fields, "kek_version");
    if "release-secret" in operations then
      :- NeedRule(!kek.Null?, KekMissing);
      :- Text(env, kek, "kek_algorithm");
      :- NeedRule("unwrap" in Capability(env, Backend(b), kek.text), KekCannotUnwrap);
      :- NeedRule(!version.Null?, KekVersionMissing);
      :- Text(env, version, "kek_version");
      Need(IsKekVersion(version.text), Malformed("kek_version"))
    else NeedRule(kek.Null? && version.Null?, KekUnexpected)
  }

  function Supported(env: Env, b: Json, algorithm: string, operations: set<string>): (c: Check)
    requires IsBinding(b)
    ensures c != Refuse(TypeError)
  {
    if !(operations <= Capability(env, Backend(b), algorithm)) then Refuse(Broken(Unsupported))
       else Kek(env, b, operations)
  }

  function EachBinding(env: Env, bs: seq<Json>): (c: Check)
    ensures c.Pass? <==> forall b | b in bs :: CheckBinding(env, b).Pass?
    ensures c.Pass? ==> forall b | b in bs :: IsBinding(b)
  {
    if bs == [] then Pass
    else
      :- EachBinding(env, bs[..|bs| - 1]);
      CheckBinding(env, bs[|bs| - 1])
  }

  function EachSupported(env: Env, bs: seq<Json>, algorithm: string, operations: set<string>): (c: Check)
    requires forall b | b in bs :: IsBinding(b)
    ensures c.Pass? <==> forall b | b in bs :: Supported(env, b, algorithm, operations).Pass?
    ensures c != Refuse(TypeError)
  {
    if bs == [] then Pass
    else
      :- EachSupported(env, bs[..|bs| - 1], algorithm, operations);
      Supported(env, bs[|bs| - 1], algorithm, operations)
  }

  // ---- the parts of an object ----

  function Identity(env: Env, f: map<string, Json>): (c: Check)
    requires OBJECT_REQUIRED <= f.Keys
    ensures c != Refuse(TypeError)
    ensures c.Pass?
            ==> f["id"].Str? && f["kind"].Str? && f["environment"].Str? && f["custody"].Str? && f["algorithm"].Str?
  {
    var id := f["id"];
    :- Text(env, id, "id");
    :- Need(IsId(id.text), Malformed("id"));
    :- Text(env, f["name"], "name");
    :- OneOf(env, f["kind"], KINDS, "kind");
    :- OneOf(env, f["classification"], CLASSIFICATIONS, "classification");
    :- OneOf(env, f["environment"], ENVIRONMENTS, "environment");
    :- Text(env, f["owner"], "owner");
    :- Text(env, f["purpose"], "purpose");
    :- Need(IsId(f["purpose"].text), Malformed("purpose"));
    :- OneOf(env, f["custody"], CUSTODY_MODES, "custody");
    :- Text(env, f["algorithm"], "algorithm");
    Text(env, f["policy_id"], "policy_id")
  }

  function Operations(j: Json): (c: Check)
    ensures c != Refuse(TypeError)
    ensures c.Pass? ==> j.List? && forall i | 0 <= i < |j.items| :: j.items[i].Str?
  {
    if !(j.List? && j.items != [] && forall i | 0 <= i < |j.items| :: j.items[i].Str? && j.items[i].text != "")
       then Refuse(Malformed("operations"))
    else NeedRule(forall i, k | 0 <= i < k < |j.items| :: j.items[i] != j.items[k], DuplicateOperations)
  }

  function OperationSet(j: Json): set<string>
    requires j.List? && forall i | 0 <= i < |j.items| :: j.items[i].Str?
  {
    set i | 0 <= i < |j.items| :: j.items[i].text
  }

  predicate DistinctDevices(bs: seq<Json>)
    requires forall b | b in bs :: IsBinding(b)
  {
    forall i, k | 0 <= i < k < |bs| :: Device(bs[i]) != Device(bs[k])
  }

  function Sites(bs: seq<Json>): set<string>
    requires forall b | b in bs :: IsBinding(b)
  {
    set b | b in bs :: Site(b)
  }

  predicate AllBackend(bs: seq<Json>, backend: string)
    requires forall b | b in bs :: IsBinding(b)
  {
    forall b | b in bs :: Backend(b) == backend
  }

  /** How many enrollments there must be, and where. */
  function Enrollment(kind: string, environment: string, custody: string, bs: seq<Json>): (c: Check)
    requires forall b | b in bs :: IsBinding(b)
    ensures c != Refuse(TypeError)
  {
    var fido := custody == FIDO;
    :- NeedRule(environment == "production" && custody != "exception" ==> |bs| >= 2, ProductionNeedsTwo);
    :- NeedRule(DistinctDevices(bs), SharedDevice);
    :- NeedRule(fido ==> kind == "fido-credential" && AllBackend(bs, "fido2"), FidoKind);
    :- NeedRule(fido ==> |Sites(bs)| >= 2, FidoSites);
    NeedRule(fido || forall b | b in bs :: Backend(b) != "fido2", FidoElsewhere)
  }

  function Recovery(env: Env, j: Json, custody: string, bs: seq<Json>): (c: Check)
    requires forall b | b in bs :: IsBinding(b)
    ensures c != Refuse(TypeError)
  {
    if !j.Obj? then Refuse(NotAnObject("recovery"))
    else
      var f := j.fields;
      :- RequireFields(f, {"mode", "status"}, {"mode", "authority_id", "minimum_replicas", "status", "last_drill"},
                       "recovery");
      :- Text(env, f["mode"], "mode");
      var mode := f["mode"].text;
      :- Need(IsShamir(mode) || mode in RECOVERY_MODES, NotOneOf("mode"));
      :- OneOf(env, f["status"], RECOVERY_STATES, "status");
      :- if IsShamir(mode) then Shamir(env, f) else Pass;
      :- Continuity(custody, mode, bs);
      NeedRule(custody == FIDO ==> mode == "multi-enrollment", NeedsEnrollment)
  }

  function Shamir(env: Env, f: map<string, Json>): (c: Check)
    ensures c != Refuse(TypeError)
  {
    var replicas := Get(f, "minimum_replicas");
    :- Text(env, Get(f, "authority_id"), "authority_id");
    NeedRule(replicas == Int(2) || replicas == Float(2.0), Replicas)
  }

  /** Hardware custody recovers by shares, or, for keys made on a YubiKey, by several enrollments. */
  function Continuity(custody: string, mode: string, bs: seq<Json>): (c: Check)
    requires forall b | b in bs :: IsBinding(b)
    ensures c != Refuse(TypeError)
  {
    if custody == "direct-hardware" && mode == "multi-enrollment" then
      :- NeedRule(bs != [] && AllBackend(bs, "yubikey-piv"), EnrollmentBackend);
      NeedRule(|bs| >= 2 && |Sites(bs)| >= 2, EnrollmentSites)
    else NeedRule(custody in {"direct-hardware", "hardware-envelope"} ==> IsShamir(mode), NeedsShamir)
  }

  function Rotation(env: Env, j: Json): (c: Check)
    ensures c != Refuse(TypeError)
  {
    if !j.Obj? then Refuse(NotAnObject("rotation"))
    else
      var f := j.fields;
      :- RequireFields(f, {"maximum_age_days", "last_rotated"},
                       {"maximum_age_days", "last_rotated", "envelope_max_age_days"}, "rotation");
      :- if "envelope_max_age_days" in f then Days(f["envelope_max_age_days"], "envelope_max_age_days") else Pass;
      :- Days(f["maximum_age_days"], "maximum_age_days");
      if f["last_rotated"].Null? then Pass else Date(env, env.date, f["last_rotated"], "last_rotated")
  }

  function Migration(env: Env, j: Json): (c: Check)
    ensures c != Refuse(TypeError)
  {
    if !j.Obj? then Refuse(NotAnObject("migration"))
    else
      var f := j.fields;
      :- RequireFields(f, {"status", "source"}, {"status", "source", "owner_repository"}, "migration");
      :- OneOf(env, f["status"], MIGRATION_STATES, "status");
      Text(env, f["source"], "source")
  }

  /** A verification is dated, and not older than a year. */
  function Verification(env: Env, j: Json): (c: Check)
    ensures c != Refuse(TypeError)
  {
    if !j.Obj? then Refuse(NotAnObject("verification"))
    else
      var f := j.fields;
      :- RequireFields(f, VERIFICATION_FIELDS, VERIFICATION_FIELDS, "verification");
      :- OneOf(env, f["status"], VERIFICATION_STATES, "status");
      :- Text(env, f["evidence"], "evidence");
      var last := f["last_verified"];
      :- if last.Null? then Pass else Date(env, env.timestamp, last, "last_verified");
      if f["status"].text != "verified" then Pass
      else
        :- NeedRule(!last.Null?, NeverVerified);
        NeedRule(env.timestamp(last.text).value >= env.today - VERIFICATION_MAX_AGE_DAYS, StaleVerification)
  }

  function Exception(env: Env, custody: string, f: map<string, Json>): (c: Check)
    ensures c != Refuse(TypeError)
  {
    if custody != "exception" then NeedRule("exception" !in f, ExceptionElsewhere)
    else
      :- Need(Get(f, "exception").Obj?, NotAnObject("exception"));
      var e := Get(f, "exception").fields;
      :- RequireFields(e, EXCEPTION_FIELDS, EXCEPTION_FIELDS, "exception");
      :- Text(env, e["reason"], "reason");
      :- Text(env, e["approved_by"], "approved_by");
      :- Date(env, env.date, e["expires"], "expires");
      NeedRule(env.date(e["expires"].text).value >= env.today, ExpiredException)
  }

  function Bindings(env: Env, j: Json, algorithm: string, operations: set<string>): (c: Check)
    ensures c.Pass? ==> j.List? && forall b | b in j.items :: IsBinding(b)
  {
    if !j.List? then Refuse(Malformed("bindings"))
    else
      :- EachBinding(env, j.items);
      EachSupported(env, j.items, algorithm, operations)
  }

  function CheckObject(env: Env, raw: Json): (c: Check)
    ensures c.Pass? ==> raw.Obj? && "id" in raw.fields && raw.fields["id"].Str?
  {
    if !raw.Obj? then Refuse(NotAnObject("object"))
    else
      var f := raw.fields;
      :- RequireFields(f, OBJECT_REQUIRED, OBJECT_FIELDS, "object");
      :- Identity(env, f);
      :- Operations(f["operations"]);
      :- Bindings(env, f["bindings"], f["algorithm"].text, OperationSet(f["operations"]));
      :- Enrollment(f["kind"].text, f["environment"].text, f["custody"].text, f["bindings"].items);
      :- Recovery(env, f["recovery"], f["custody"].text, f["bindings"].items);
      :- Rotation(env, f["rotation"]);
      :- Migration(env, f["migration"]);
      :- Verification(env, f["verification"]);
      Exception(env, f["custody"].text, f)
  }

  // ---- the loops ----

  lemma {:induction false} FirstBadBinding(env: Env, bs: seq<Json>, i: nat)
    requires i < |bs| && EachBinding(env, bs[..i]).Pass? && CheckBinding(env, bs[i]).Refuse?
    ensures EachBinding(env, bs) == CheckBinding(env, bs[i])
  {
    hide CheckBinding;
    var n := |bs| - 1;
    assert bs[..n + 1] == bs;
    if i < n {
      assert bs[..n][..i] == bs[..i];
      FirstBadBinding(env, bs[..n], i);
    }
  }

  lemma {:induction false} FirstUnsupported(env: Env, bs: seq<Json>, algorithm: string, operations: set<string>, i: nat)
    requires (forall b | b in bs :: IsBinding(b)) && i < |bs|
    requires EachSupported(env, bs[..i], algorithm, operations).Pass?
             && Supported(env, bs[i], algorithm, operations).Refuse?
    ensures EachSupported(env, bs, algorithm, operations) == Supported(env, bs[i], algorithm, operations)
  {
    hide Supported, IsBinding;
    var n := |bs| - 1;
    assert bs[..n + 1] == bs;
    if i < n {
      assert bs[..n][..i] == bs[..i];
      FirstUnsupported(env, bs[..n], algorithm, operations, i);
    }
  }

  /** Every binding checked by itself first, then each against the capabilities: the first refusal in that order is
      the answer. */
  method ValidateBindings(env: Env, j: Json, algorithm: string, operations: set<string>) returns (c: Check)
    ensures c == Bindings(env, j, algorithm, operations)
  {
    hide CheckBinding, Supported, IsBinding;
    if !j.List? { return Refuse(Malformed("bindings")); }
    var bs := j.items;
    for i := 0 to |bs|
      invariant EachBinding(env, bs[..i]).Pass?
    {
      c := CheckBinding(env, bs[i]);
      if c.Refuse? {
        FirstBadBinding(env, bs, i);
        return;
      }
      assert bs[..i + 1][..i] == bs[..i];
    }
    assert bs[..|bs|] == bs;
    for i := 0 to |bs|
      invariant EachSupported(env, bs[..i], algorithm, operations).Pass?
    {
      c := Supported(env, bs[i], algorithm, operations);
      if c.Refuse? {
        FirstUnsupported(env, bs, algorithm, operations, i);
        return;
      }
      assert bs[..i + 1][..i] == bs[..i];
    }
    assert bs[..|bs|] == bs;
    c := Pass;
  }

  method ValidateObject(env: Env, raw: Json) returns (c: Check)
    ensures c == CheckObject(env, raw)
  {
    hide Identity, Operations, Bindings, Enrollment, Recovery, Rotation, Migration, Verification, Exception,
      RequireFields, IsBinding;
    if !raw.Obj? { return Refuse(NotAnObject("object")); }
    var f := raw.fields;
    c := RequireFields(f, OBJECT_REQUIRED, OBJECT_FIELDS, "object");
    if c.Refuse? { return; }
    FieldsAreThere(f);
    c := Identity(env, f);
    if c.Refuse? { return; }
    c := Operations(f["operations"]);
    if c.Refuse? { return; }
    c := ValidateBindings(env, f["bindings"], f["algorithm"].text, OperationSet(f["operations"]));
    if c.Refuse? { return; }
    c := Enrollment(f["kind"].text, f["environment"].text, f["custody"].text, f["bindings"].items);
    if c.Refuse? { return; }
    c := Recovery(env, f["recovery"], f["custody"].text, f["bindings"].items);
    if c.Refuse? { return; }
    c := Rotation(env, f["rotation"]);
    if c.Refuse? { return; }
    c := Migration(env, f["migration"]);
    if c.Refuse? { return; }
    c := Verification(env, f["verification"]);
    if c.Refuse? { return; }
    c := Exception(env, f["custody"].text, f);
  }

  lemma FieldsAreThere(f: map<string, Json>)
    ensures RequireFields(f, OBJECT_REQUIRED, OBJECT_FIELDS, "object").Pass? ==> OBJECT_REQUIRED <= f.Keys
  {
  }

  // ---- what a valid object is ----

  /** All the parts of the check, read together. */
  ghost predicate Parts(env: Env, f: map<string, Json>) {
    && RequireFields(f, OBJECT_REQUIRED, OBJECT_FIELDS, "object").Pass? && Identity(env, f).Pass?
       && Operations(f["operations"]).Pass?
    && Bindings(env, f["bindings"], f["algorithm"].text, OperationSet(f["operations"])).Pass?
    && Enrollment(f["kind"].text, f["environment"].text, f["custody"].text, f["bindings"].items).Pass?
    && Recovery(env, f["recovery"], f["custody"].text, f["bindings"].items).Pass?
    && Rotation(env, f["rotation"]).Pass? && Migration(env, f["migration"]).Pass?
       && Verification(env, f["verification"]).Pass?
    && Exception(env, f["custody"].text, f).Pass?
  }

  lemma PassIffParts(env: Env, f: map<string, Json>)
    ensures CheckObject(env, Obj(f)).Pass? <==> Parts(env, f)
  {
    hide Identity, Operations, Bindings, Enrollment, Recovery, Rotation, Migration, Verification, Exception, IsBinding;
  }

  /** Every operation is one its backend can do with the algorithm, and a secret is released only under a key it can
      unwrap with. */
  ghost predicate Serviceable(env: Env, b: Json, algorithm: string, operations: set<string>)
    requires IsBinding(b)
  {
    && (forall op | op in operations :: op in Capability(env, Backend(b), algorithm))
    && ("release-secret" in operations
        ==> var kek := Get(b.fields, "kek_algorithm"); kek.Str? && "unwrap" in Capability(env, Backend(b), kek.text))
  }

  lemma SupportedIsServiceable(env: Env, b: Json, algorithm: string, operations: set<string>)
    requires IsBinding(b) && Supported(env, b, algorithm, operations).Pass?
    ensures Serviceable(env, b, algorithm, operations)
  {
    hide IsBinding;
  }

  /** Continuity: by shares; or, for FIDO and for keys made on a YubiKey, by enrollments of that kind at two sites or
      more. */
  ghost predicate Continues(custody: string, mode: string, bs: seq<Json>)
    requires forall b | b in bs :: IsBinding(b)
  {
    && (custody == FIDO ==> mode == "multi-enrollment" && AllBackend(bs, "fido2") && |Sites(bs)| >= 2)
    && (custody in {"direct-hardware", "hardware-envelope"}
        ==> || IsShamir(mode)
            || (custody == "direct-hardware" && mode == "multi-enrollment" && AllBackend(bs, "yubikey-piv")
                && |Sites(bs)| >= 2))
  }

  lemma RecoveryMeans(env: Env, j: Json, custody: string, bs: seq<Json>)
    requires (forall b | b in bs :: IsBinding(b)) && Recovery(env, j, custody, bs).Pass?
    requires custody == FIDO ==> AllBackend(bs, "fido2") && |Sites(bs)| >= 2
    ensures j.Obj? && "mode" in j.fields && j.fields["mode"].Str? && Continues(custody, j.fields["mode"].text, bs)
  {
    hide IsShamir, Shamir, Sites, AllBackend, IsBinding;
    assert FIDO != "direct-hardware" && FIDO != "hardware-envelope";
  }

  lemma VerificationMeans(env: Env, j: Json)
    requires Verification(env, j).Pass?
    ensures j.Obj? && VERIFICATION_FIELDS <= j.fields.Keys
    ensures j.fields["status"] == Str("verified")
            ==> var last := j.fields["last_verified"];
                last.Str? && env.timestamp(last.text).Some?
                    && env.timestamp(last.text).value >= env.today - VERIFICATION_MAX_AGE_DAYS
  {
  }

  lemma ExceptionMeans(env: Env, custody: string, f: map<string, Json>)
    requires Exception(env, custody, f).Pass?
    ensures "exception" in f <==> custody == "exception"
    ensures "exception" in f
            ==> var e := f["exception"];
                && e.Obj? && "expires" in e.fields && e.fields["expires"].Str?
                   && env.date(e.fields["expires"].text).Some?
                && env.date(e.fields["expires"].text).value >= env.today
  {
  }

  /** The fields are those of an object, as far as the rest is about them. */
  ghost predicate Shaped(f: map<string, Json>) {
    && OBJECT_REQUIRED <= f.Keys <= OBJECT_FIELDS
    && f["environment"].Str? && f["custody"].Str? && f["algorithm"].Str?
    && f["operations"].List? && (forall i | 0 <= i < |f["operations"].items| :: f["operations"].items[i].Str?)
    && f["bindings"].List? && (forall b | b in f["bindings"].items :: IsBinding(b))
    && f["recovery"].Obj? && "mode" in f["recovery"].fields && f["recovery"].fields["mode"].Str?
       && f["verification"].Obj?
  }

  /** What a caller has of an object that validates: enough devices, all different and able to do what they are for;
      continuity; a verification that is fresh if it claims to be one; and an exception exactly under that custody,
      not expired. */
  ghost predicate Sound(env: Env, f: map<string, Json>)
    requires Shaped(f)
  {
    var custody, bs, last := f["custody"].text, f["bindings"].items, Get(f["verification"].fields, "last_verified");
    && (f["environment"].text == "production" && custody != "exception" ==> |bs| >= 2) && DistinctDevices(bs)
    && (forall b | b in bs :: Serviceable(env, b, f["algorithm"].text, OperationSet(f["operations"])))
    && Continues(custody, f["recovery"].fields["mode"].text, bs)
    && (custody != FIDO ==> forall b | b in bs :: Backend(b) != "fido2")
    && (Get(f["verification"].fields, "status") == Str("verified")
        ==> last.Str? && env.timestamp(last.text).Some?
            && env.timestamp(last.text).value >= env.today - VERIFICATION_MAX_AGE_DAYS)
    && ("exception" in f <==> custody == "exception")
    && ("exception" in f
        ==> var e := f["exception"];
            && e.Obj? && "expires" in e.fields && e.fields["expires"].Str? && env.date(e.fields["expires"].text).Some?
            && env.date(e.fields["expires"].text).value >= env.today)
  }

  lemma ValidObjectGuarantees(env: Env, raw: Json)
    requires CheckObject(env, raw).Pass?
    ensures raw.Obj? && Shaped(raw.fields) && Sound(env, raw.fields)
  {
    PassIffParts(env, raw.fields);
    hide CheckObject, Parts, Shaped, Sound;
    PartsAreShaped(env, raw.fields);
    PartsAreSound(env, raw.fields);
  }

  lemma PartsAreShaped(env: Env, f: map<string, Json>)
    requires Parts(env, f)
    ensures Shaped(f)
  {
    hide Identity, Operations, Bindings, Enrollment, Rotation, Migration, Exception, IsBinding, Continuity, IsShamir;
    VerificationMeans(env, f["verification"]);
  }

  lemma PartsAreSound(env: Env, f: map<string, Json>)
    requires Parts(env, f) && Shaped(f)
    ensures Sound(env, f)
  {
    hide Identity, Operations, Recovery, Rotation, Migration, Verification, Exception, IsBinding, DistinctDevices,
      Sites, AllBackend, Supported, CheckBinding, Continues, Serviceable, EachBinding;
    var bs := f["bindings"].items;
    forall b | b in bs ensures Serviceable(env, b, f["algorithm"].text, OperationSet(f["operations"])) {
      SupportedIsServiceable(env, b, f["algorithm"].text, OperationSet(f["operations"]));
    }
    RecoveryMeans(env, f["recovery"], f["custody"].text, bs);
    VerificationMeans(env, f["verification"]);
    ExceptionMeans(env, f["custody"].text, f);
  }

  // ---- where the validator breaks ----

  /** The binding with another PIN policy. */
  function WithPin(b: Json, pin: Json): Json
    requires b.Obj?
  {
    Obj(b.fields["pin_policy" := pin])
  }

  predicate Unhashable(j: Json) { j.List? || j.Obj? }

  lemma OtherThanPin(f: map<string, Json>, pin: Json)
    requires "pin_policy" in f
    ensures var g := f["pin_policy" := pin];
            && g.Keys == f.Keys && Get(g, "pin_policy") == pin
            && forall k | k in BINDING_FIELDS && k != "pin_policy" :: Get(g, k) == Get(f, k) && (k in g <==> k in f)
  {
  }

  lemma PinBreaksIff(f: map<string, Json>, commissioned: bool)
    ensures YubiKey(f, commissioned) == Refuse(TypeError)
            <==> Unhashable(Get(f, "pin_policy")) && YubiKey(f["pin_policy" := Str("once")], commissioned).Pass?
  {
    assert "touch_policy" != "pin_policy" && "device_serial" != "pin_policy";
    assert Get(f["pin_policy" := Str("once")], "pin_policy") == Str("once");
  }

  lemma SameBeforePolicies(env: Env, b: Json, pin: Json)
    requires b.Obj? && "pin_policy" in b.fields
    ensures BeforePolicies(env, WithPin(b, pin)).Pass? <==> BeforePolicies(env, b).Pass?
    ensures BeforePolicies(env, b).Pass?
            ==> Backend(WithPin(b, pin)) == Backend(b) && IsCommissioned(WithPin(b, pin)) == IsCommissioned(b)
  {
    OtherThanPin(b.fields, pin);
    SameOptionalFields(env, b.fields, pin);
    SameNamedFields(env, b, pin);
    hide OneOf, NamedFields, Fingerprints, Nitrokey, TokenLabel;
  }

  lemma SameNamedFields(env: Env, b: Json, pin: Json)
    requires b.Obj? && "pin_policy" in b.fields
    ensures NamedFields(env, WithPin(b, pin)) == NamedFields(env, b)
    ensures NamedFields(env, b).Pass? ==> forall k | k in BINDING_REQUIRED :: WithPin(b, pin).fields[k] == b.fields[k]
  {
    OtherThanPin(b.fields, pin);
    hide Text;
  }

  lemma SameOptionalFields(env: Env, f: map<string, Json>, pin: Json)
    requires "pin_policy" in f
    ensures var g := f["pin_policy" := pin];
            && Fingerprints(env, g) == Fingerprints(env, f) && Nitrokey(env, g) == Nitrokey(env, f)
            && forall backend :: TokenLabel(env, g, backend) == TokenLabel(env, f, backend)
  {
    OtherThanPin(f, pin);
    hide Text, IsFingerprint, IsTokenLabel, Truthy;
  }

  /** The check of a binding breaks exactly on one that would pass if its PIN policy, a list or an object, were
      "once". */
  lemma BindingBreaksIff(env: Env, b: Json)
    ensures CheckBinding(env, b) == Refuse(TypeError)
            <==> b.Obj? && Unhashable(Get(b.fields, "pin_policy")) && CheckBinding(env, WithPin(b, Str("once"))).Pass?
                 && b.fields["backend"] in {Str("yubikey-piv"), Str("yubikey-openpgp")}
  {
    if b.Obj? {
      PinBreaksIff(b.fields, false);
      PinBreaksIff(b.fields, true);
      if "pin_policy" in b.fields { SameBeforePolicies(env, b, Str("once")); }
      hide BeforePolicies, YubiKey;
    }
  }

  /** A binding like any other, but for a list as its PIN policy. */
  const LISTED_PIN: map<string, Json> :=
    map["site" := Str("a"), "backend" := Str("yubikey-piv"), "device_id" := Str("d"), "object_id" := Str("o"),
        "state" := Str("planned"), "public_fingerprint" := Str("sha256:" + seq(64, i => '0')),
        "touch_policy" := Str("never"), "pin_policy" := List([])]

  /** It breaks the validator, which the same binding with "once" passes. */
  lemma ListedPinBreaks(env: Env)
    requires forall c | 'a' <= c <= 'z' :: !env.isSpace(c)
    ensures CheckBinding(env, Obj(LISTED_PIN)) == Refuse(TypeError)
    ensures CheckBinding(env, WithPin(Obj(LISTED_PIN), Str("once"))).Pass?
  {
    ListedPinComesThere(env);
    hide BeforePolicies;
    assert Get(LISTED_PIN, "touch_policy") == Str("never") && Get(LISTED_PIN, "pin_policy") == List([]);
    assert Backend(Obj(LISTED_PIN)) == "yubikey-piv" && !IsCommissioned(Obj(LISTED_PIN));
    BindingBreaksIff(env, Obj(LISTED_PIN));
  }

  lemma ListedPinComesThere(env: Env)
    requires forall c | 'a' <= c <= 'z' :: !env.isSpace(c)
    ensures BeforePolicies(env, Obj(LISTED_PIN)).Pass?
  {
    ListedPinIsNamed(env);
    ListedPinHasFingerprint(env);
    hide NamedFields, Fingerprints;
    assert LISTED_PIN["state"] == Str("planned") && "planned"[0] == 'p' && "token_label" !in LISTED_PIN;
    assert Backend(Obj(LISTED_PIN)) == "yubikey-piv";
  }

  lemma ListedPinHasFingerprint(env: Env)
    requires forall c | 'a' <= c <= 'z' :: !env.isSpace(c)
    ensures Fingerprints(env, LISTED_PIN).Pass?
  {
    var s := LISTED_PIN["public_fingerprint"].text;
    assert s[..7] == "sha256:" && s[0] == 's' && |s| == 71;
    assert forall i | 7 <= i < 71 :: s[i] == '0';
    assert "key_check" !in LISTED_PIN;
  }

  lemma ListedPinIsNamed(env: Env)
    requires forall c | 'a' <= c <= 'z' :: !env.isSpace(c)
    ensures NamedFields(env, Obj(LISTED_PIN)).Pass?
  {
    var f := LISTED_PIN;
    assert f["site"].text[0] == 'a' && f["device_id"].text[0] == 'd' && f["object_id"].text[0] == 'o'
           && f["backend"].text[0] == 'y';
  }

  lemma {:induction false} EachBreaksIff(env: Env, bs: seq<Json>)
    ensures EachBinding(env, bs) == Refuse(TypeError) <==> exists i: nat :: BreaksAt(env, bs, i)
  {
    hide CheckBinding;
    if bs != [] {
      var n := |bs| - 1;
      EachBreaksIff(env, bs[..n]);
      if i: nat :| BreaksAt(env, bs[..n], i) { assert BreaksAt(env, bs, i); }
      if i: nat :| BreaksAt(env, bs, i) {
        if i < n {
          assert BreaksAt(env, bs[..n], i);
        } else {
          assert forall b | b in bs[..n] :: CheckBinding(env, b).Pass?;
        }
      }
      if EachBinding(env, bs[..n]).Pass? {
        assert forall k | 0 <= k < n :: bs[k] in bs[..n];
        if CheckBinding(env, bs[n]) == Refuse(TypeError) { assert BreaksAt(env, bs, n); }
      }
    }
  }

  /** Binding i is the first that does not pass, and its check breaks. */
  ghost predicate BreaksAt(env: Env, bs: seq<Json>, i: nat) {
    i < |bs| && (forall k | 0 <= k < i :: CheckBinding(env, bs[k]).Pass?)
        && CheckBinding(env, bs[i]) == Refuse(TypeError)
  }

  /** The validator breaks on an object exactly when it comes to its bindings and one of them breaks before any is
      refused; every other malformed object is refused by name. */
  lemma ObjectBreaksIff(env: Env, raw: Json)
    ensures CheckObject(env, raw) == Refuse(TypeError)
            <==> && raw.Obj? && RequireFields(raw.fields, OBJECT_REQUIRED, OBJECT_FIELDS, "object").Pass?
                 && Identity(env, raw.fields).Pass? && Operations(raw.fields["operations"]).Pass?
                 && raw.fields["bindings"].List? && exists i: nat :: BreaksAt(env, raw.fields["bindings"].items, i)
  {
    hide Identity, Operations, Bindings, EachBinding, Enrollment, Recovery, Rotation, Migration, Verification,
      Exception, IsBinding, BreaksAt;
    if raw.Obj? && OBJECT_REQUIRED <= raw.fields.Keys && Identity(env, raw.fields).Pass?
       && Operations(raw.fields["operations"]).Pass? {
      var f := raw.fields;
      BindingsBreakIff(env, f["bindings"], f["algorithm"].text, OperationSet(f["operations"]));
      if f["bindings"].List? { EachBreaksIff(env, f["bindings"].items); }
    }
  }

  lemma BindingsBreakIff(env: Env, j: Json, algorithm: string, operations: set<string>)
    ensures Bindings(env, j, algorithm, operations) == Refuse(TypeError)
            <==> j.List? && EachBinding(env, j.items) == Refuse(TypeError)
  {
    hide EachBinding, EachSupported, IsBinding;
  }

  // ---- the manifest ----

  /** Nothing in it, however deep, has a secret's name or looks like one. */
  predicate Clean(env: Env, j: Json) {
    match j
    case Obj(fields) => forall k | k in fields :: !env.secretName(k) && Clean(env, fields[k])
    case List(items) => forall i | 0 <= i < |items| :: Clean(env, items[i])
    case Str(text) => !env.secretText(text)
    case _ => true
  }

  /** The number one, as the comparison takes it: true is one too. */
  predicate IsOne(j: Json) { j == Int(1) || j == Float(1.0) || j == Bool(true) }

  const TOP_FIELDS: set<string> := {"schema_version", "manifest_id", "generated_at", "objects"}

  function IdOf(item: Json): string
    requires item.Obj? && "id" in item.fields && item.fields["id"].Str?
  {
    item.fields["id"].text
  }

  ghost predicate ObjectsOk(env: Env, items: seq<Json>) {
    && (forall i | 0 <= i < |items| :: CheckObject(env, items[i]).Pass?)
    && (forall i, k | 0 <= i < k < |items| :: IdOf(items[i]) != IdOf(items[k]))
  }

  ghost predicate ManifestOk(env: Env, raw: Json) {
    && Clean(env, raw) && raw.Obj? && raw.fields.Keys == TOP_FIELDS
    && IsOne(raw.fields["schema_version"]) && IsText(env, raw.fields["manifest_id"])
    && IsText(env, raw.fields["generated_at"]) && env.timestamp(raw.fields["generated_at"].text).Some?
    && raw.fields["objects"].List? && raw.fields["objects"].items != [] && ObjectsOk(env, raw.fields["objects"].items)
  }

  /** A manifest passes exactly when it is clean, its own fields are right, every object passes, and no two share an
      ID. */
  method ValidateManifest(env: Env, raw: Json) returns (c: Check)
    ensures c.Pass? <==> ManifestOk(env, raw)
  {
    hide CheckObject, Clean;
    if !Clean(env, raw) { return Refuse(Broken(HoldsSecret)); }
    if !raw.Obj? { return Refuse(NotAnObject("manifest")); }
    var f := raw.fields;
    c := RequireFields(f, TOP_FIELDS, TOP_FIELDS, "manifest");
    if c.Refuse? { return; }
    if !IsOne(f["schema_version"]) { return Refuse(Broken(UnknownVersion)); }
    c := Text(env, f["manifest_id"], "manifest_id");
    if c.Refuse? { return; }
    c := Date(env, env.timestamp, f["generated_at"], "generated_at");
    if c.Refuse? { return; }
    if !f["objects"].List? || f["objects"].items == [] { return Refuse(Malformed("objects")); }
    c := ValidateObjects(env, f["objects"].items);
  }

  method ValidateObjects(env: Env, items: seq<Json>) returns (c: Check)
    ensures c.Pass? <==> ObjectsOk(env, items)
  {
    hide CheckObject;
    var seen: set<string> := {};
    for i := 0 to |items|
      invariant ObjectsOk(env, items[..i])
      invariant forall k | 0 <= k < i :: CheckObject(env, items[k]).Pass? && IdOf(items[k]) in seen
      invariant forall id | id in seen :: exists k | 0 <= k < i :: IdOf(items[k]) == id
    {
      c := ValidateObject(env, items[i]);
      if c.Refuse? { return; }
      if IdOf(items[i]) in seen {
        assert !ObjectsOk(env, items);
        return Refuse(Broken(DuplicateId));
      }
      seen := seen + {IdOf(items[i])};
    }
    assert items[..|items|] == items;
    c := Pass;
  }
}
