/** What a custody object is, said of its fields alone: a definition of its own, which the validator's checks, one by
    one in their order, are proved to decide. */
module CustodyObject {
  import opened Results
  import opened CustodyManifest

  // ---- values ----

  /** A text with something to see in it. */
  ghost predicate Shows(env: Env, j: Json) { j.Str? && exists c | c in j.text :: !env.isSpace(c) }

  ghost predicate Among(env: Env, j: Json, choices: set<string>) { Shows(env, j) && j.text in choices }

  /** ^[a-z0-9][a-z0-9-]{2,62}$ */
  predicate IsKebab(s: string) {
    && 2 < |s| < 64 && s[0] != '-'
    && forall c | c in s :: 'a' <= c <= 'z' || '0' <= c <= '9' || c == '-'
  }

  /** ^sha256:[0-9a-f]{64}$ */
  predicate IsSha256(s: string) {
    |s| == 7 + 64 && s[..7] == "sha256:" && forall c | c in s[7..] :: '0' <= c <= '9' || 'a' <= c <= 'f'
  }

  /** [!-~]([ -~]{0,30}[!-~])? */
  predicate IsLabel(s: string) {
    0 < |s| < 33 && ' ' != s[0] && ' ' != s[|s| - 1] && forall c | c in s :: ' ' <= c <= '~'
  }

  /** ^[A-Za-z0-9][A-Za-z0-9._-]{0,31}$ */
  predicate IsVersion(s: string) {
    && 0 < |s| < 33 && s[0] != '.' && s[0] != '_' && s[0] != '-'
    && forall c | c in s ::
      'A' <= c <= 'Z' || 'a' <= c <= 'z' || '0' <= c <= '9' || c == '.' || c == '_' || c == '-'
  }

  function Numeral(n: nat): string
    requires 2 <= n <= 16
  {
    match n
    case 2 => "2" case 3 => "3" case 4 => "4" case 5 => "5" case 6 => "6" case 7 => "7" case 8 => "8" case 9 => "9"
    case 10 => "10" case 11 => "11" case 12 => "12" case 13 => "13" case 14 => "14" case 15 => "15" case 16 => "16"
  }

  /** shamir-k-of-n, with 2 <= k <= n <= 16. */
  ghost predicate IsShares(mode: string) {
    exists k, n | 2 <= k <= n <= 16 :: mode == "shamir-" + Numeral(k) + "-of-" + Numeral(n)
  }

  /** The field is there, and not null. */
  predicate Given(f: map<string, Json>, key: string) { key in f && f[key] != Null }

  /** The field is there, and not null, false, zero or empty. */
  predicate Set(f: map<string, Json>, key: string) {
    key in f && f[key] !in {Null, Bool(false), Int(0), Float(0.0), Str(""), List([]), Obj(map[])}
  }

  ghost predicate IsDay(env: Env, parse: string -> Option<int>, j: Json) { Shows(env, j) && parse(j.text).Some? }

  predicate IsCount(j: Json) { j.Int? && j.number > 0 }

  // ---- a binding ----

  ghost predicate IsDevice(env: Env, b: Json) {
    && b.Obj?
    && {"site", "backend", "device_id", "object_id", "state"} <= b.fields.Keys
       <= {"site", "backend", "device_id", "object_id", "public_fingerprint", "key_check", "state", "pin_policy",
           "touch_policy", "device_serial", "devaut_fingerprint", "public_key_sha256", "kek_algorithm", "kek_version",
           "token_label"}
    && Shows(env, b.fields["site"]) && Shows(env, b.fields["device_id"]) && Shows(env, b.fields["object_id"])
    && Among(env, b.fields["backend"], {"nitrokey-pkcs11", "yubikey-piv", "yubikey-openpgp", "fido2"})
    && Among(env, b.fields["state"], {"planned", "qualified", "active", "standby", "retired", "revoked"})
    && ("public_fingerprint" in b.fields || "key_check" in b.fields)
    && IsPrint(env, b.fields, "public_fingerprint") && IsPrint(env, b.fields, "key_check")
  }

  /** If the fingerprint is there, it is one. */
  ghost predicate IsPrint(env: Env, f: map<string, Json>, key: string) {
    key in f ==> Shows(env, f[key]) && IsSha256(f[key].text)
  }

  /** Its state says that a device is there. */
  predicate IsThere(b: Json) { b.Obj? && "state" in b.fields && b.fields["state"] in THERE }

  const THERE: set<Json> := {Str("qualified"), Str("active"), Str("standby")}

  /** What the backend asks of it: of a Nitrokey that is there, a serial and what pins it; of a YubiKey, that no touch
      and a PIN are needed, and if it is there a serial; of others, no such policy. A label only where PKCS#11 is. */
  ghost predicate SuitsBackend(env: Env, f: map<string, Json>, backend: string, there: bool) {
    && (backend == "nitrokey-pkcs11" && there
        ==> && Set(f, "device_serial") && (Set(f, "devaut_fingerprint") || Set(f, "public_key_sha256"))
            && Shows(env, f["device_serial"])
            && IsPrint(env, f, "devaut_fingerprint") && IsPrint(env, f, "public_key_sha256"))
    && ("token_label" in f
        ==> && (backend == "nitrokey-pkcs11" || backend == "yubikey-openpgp")
            && Shows(env, f["token_label"]) && IsLabel(f["token_label"].text))
    && (if backend == "yubikey-piv" || backend == "yubikey-openpgp"
        then && (there ==> Set(f, "device_serial"))
             && "touch_policy" in f && f["touch_policy"] == Str("never")
             && "pin_policy" in f && f["pin_policy"] in {Str("once"), Str("always")}
        else "pin_policy" !in f && "touch_policy" !in f)
  }

  ghost predicate IsEnrolled(env: Env, b: Json) {
    IsDevice(env, b) && SuitsBackend(env, b.fields, b.fields["backend"].text, IsThere(b))
  }

  /** What the backend can do with an algorithm. */
  predicate Can(env: Env, backend: string, algorithm: string, operation: string) {
    && backend in env.capabilities && algorithm in env.capabilities[backend]
    && operation in env.capabilities[backend][algorithm]
  }

  /** It can do what the object is for; and it names its key-encryption key exactly if it releases secrets. */
  ghost predicate Serves(env: Env, b: Json, algorithm: string, operations: set<string>)
    requires IsEnrolled(env, b)
  {
    var f, backend := b.fields, b.fields["backend"].text;
    && (forall op | op in operations :: Can(env, backend, algorithm, op))
    && (if "release-secret" in operations
        then && Given(f, "kek_algorithm") && Shows(env, f["kek_algorithm"])
             && Can(env, backend, f["kek_algorithm"].text, "unwrap")
             && Given(f, "kek_version") && Shows(env, f["kek_version"]) && IsVersion(f["kek_version"].text)
        else !Given(f, "kek_algorithm") && !Given(f, "kek_version"))
  }

  // ---- the parts of an object ----

  ghost predicate IsNamed(env: Env, f: map<string, Json>) {
    && {"id", "name", "kind", "classification", "environment", "owner", "purpose", "custody", "algorithm",
        "operations", "policy_id", "bindings", "recovery", "rotation", "migration", "verification"} <= f.Keys
       <= {"id", "name", "kind", "classification", "environment", "owner", "purpose", "custody", "algorithm",
           "operations", "policy_id", "bindings", "recovery", "rotation", "migration", "verification", "exception",
           "notes"}
    && Shows(env, f["id"]) && IsKebab(f["id"].text) && Shows(env, f["purpose"]) && IsKebab(f["purpose"].text)
    && Shows(env, f["name"]) && Shows(env, f["owner"]) && Shows(env, f["algorithm"]) && Shows(env, f["policy_id"])
    && Among(env, f["kind"], {"asymmetric-key", "symmetric-key", "opaque-secret", "password", "api-token", "seed",
                              "certificate", "fido-credential", "sops-recipient"})
    && Among(env, f["classification"], {"public", "internal", "confidential", "restricted", "critical"})
    && Among(env, f["environment"], {"production", "staging", "development"})
    && Among(env, f["custody"], {"direct-hardware", "hardware-envelope", "fido-multi-enrollment", "exception"})
  }

  /** Some operations, each once. */
  predicate AreOperations(j: Json) {
    && j.List? && j.items != [] && (forall i | 0 <= i < |j.items| :: j.items[i].Str? && j.items[i] != Str(""))
    && forall i, k | 0 <= i < |j.items| && 0 <= k < |j.items| && i != k :: j.items[i] != j.items[k]
  }

  ghost function Doing(j: Json): set<string>
    requires AreOperations(j)
  {
    set x | x in j.items :: x.text
  }

  ghost predicate AreBindings(env: Env, j: Json, algorithm: string, operations: set<string>) {
    && j.List?
    && forall b | b in j.items :: IsEnrolled(env, b) && Serves(env, b, algorithm, operations)
  }

  function Of(b: Json, key: string): Json { if b.Obj? && key in b.fields then b.fields[key] else Null }

  predicate At(bs: seq<Json>, backend: string) { forall b | b in bs :: Of(b, "backend") == Str(backend) }

  /** Two of them are at two sites. */
  predicate AtTwoSites(bs: seq<Json>) { exists a, b | a in bs && b in bs :: Of(a, "site") != Of(b, "site") }

  predicate OnOwnDevices(bs: seq<Json>) {
    forall i, k | 0 <= i < |bs| && 0 <= k < |bs| && i != k :: Of(bs[i], "device_id") != Of(bs[k], "device_id")
  }

  ghost predicate AreEnough(kind: string, environment: string, custody: string, bs: seq<Json>) {
    && (environment == "production" && custody != "exception" ==> |bs| > 1)
    && OnOwnDevices(bs)
    && (if custody == "fido-multi-enrollment"
        then kind == "fido-credential" && At(bs, "fido2") && AtTwoSites(bs)
        else forall b | b in bs :: Of(b, "backend") != Str("fido2"))
  }

  ghost predicate Recovers(env: Env, j: Json, custody: string, bs: seq<Json>) {
    && j.Obj?
    && {"mode", "status"} <= j.fields.Keys <= {"mode", "authority_id", "minimum_replicas", "status", "last_drill"}
    && Shows(env, j.fields["mode"])
    && Among(env, j.fields["status"], {"planned", "tested", "accepted", "overdue"})
    && var mode := j.fields["mode"].text;
    && (IsShares(mode) || mode in {"multi-enrollment", "rebuild-public", "exception"})
    && (IsShares(mode)
        ==> && "authority_id" in j.fields && Shows(env, j.fields["authority_id"])
            && "minimum_replicas" in j.fields && j.fields["minimum_replicas"] in {Int(2), Float(2.0)})
    && (custody == "fido-multi-enrollment" ==> mode == "multi-enrollment")
    && (custody == "hardware-envelope" ==> IsShares(mode))
    && (custody == "direct-hardware"
        ==> IsShares(mode) || (mode == "multi-enrollment" && At(bs, "yubikey-piv") && AtTwoSites(bs)))
  }

  ghost predicate Rotates(env: Env, j: Json) {
    && j.Obj?
    && {"maximum_age_days", "last_rotated"} <= j.fields.Keys
       <= {"maximum_age_days", "last_rotated", "envelope_max_age_days"}
    && IsCount(j.fields["maximum_age_days"])
    && ("envelope_max_age_days" in j.fields ==> IsCount(j.fields["envelope_max_age_days"]))
    && (j.fields["last_rotated"] == Null || IsDay(env, env.date, j.fields["last_rotated"]))
  }

  ghost predicate Migrates(env: Env, j: Json) {
    && j.Obj? && {"status", "source"} <= j.fields.Keys <= {"status", "source", "owner_repository"}
    && Among(env, j.fields["status"], {"planned", "in-progress", "migrated", "exception", "not-applicable"})
    && Shows(env, j.fields["source"])
  }

  ghost predicate IsVerified(env: Env, j: Json) {
    && j.Obj? && j.fields.Keys == {"status", "last_verified", "evidence"}
    && Among(env, j.fields["status"], {"planned", "verified", "failed", "overdue"}) && Shows(env, j.fields["evidence"])
    && var last := j.fields["last_verified"];
    && (last == Null || IsDay(env, env.timestamp, last))
    && (j.fields["status"] == Str("verified")
        ==> last != Null && env.timestamp(last.text).value + 365 >= env.today)
  }

  ghost predicate IsExcepted(env: Env, custody: string, f: map<string, Json>) {
    if custody == "exception"
    then && "exception" in f && f["exception"].Obj?
         && f["exception"].fields.Keys == {"reason", "expires", "approved_by"}
         && var e := f["exception"].fields;
         && Shows(env, e["reason"]) && Shows(env, e["approved_by"]) && IsDay(env, env.date, e["expires"])
         && env.date(e["expires"].text).value >= env.today
    else "exception" !in f
  }

  /** All of it. */
  ghost predicate IsCustodyObject(env: Env, raw: Json) {
    && raw.Obj? && IsNamed(env, raw.fields) && AreOperations(raw.fields["operations"])
    && var f, custody := raw.fields, raw.fields["custody"].text;
    && AreBindings(env, f["bindings"], f["algorithm"].text, Doing(f["operations"]))
    && AreEnough(f["kind"].text, f["environment"].text, custody, f["bindings"].items)
    && Recovers(env, f["recovery"], custody, f["bindings"].items)
    && Rotates(env, f["rotation"]) && Migrates(env, f["migration"]) && IsVerified(env, f["verification"])
    && IsExcepted(env, custody, f)
  }

  // ---- the checks decide it ----

  lemma TextIff(env: Env, j: Json)
    ensures IsText(env, j) <==> Shows(env, j)
  {
    if j.Str? {
      if i :| 0 <= i < |j.text| && !env.isSpace(j.text[i]) { assert j.text[i] in j.text; }
    }
  }

  lemma AllTextIff(env: Env)
    ensures forall j :: IsText(env, j) <==> Shows(env, j)
  {
    forall j ensures IsText(env, j) <==> Shows(env, j) { TextIff(env, j); }
  }

  lemma KebabIff(s: string)
    ensures IsId(s) <==> IsKebab(s)
  {
    assert forall i | 0 <= i < |s| :: s[i] in s;
  }

  lemma Sha256Iff(s: string)
    ensures IsFingerprint(s) <==> IsSha256(s)
  {
    if |s| == 71 {
      assert forall i | 7 <= i < 71 :: s[7..][i - 7] == s[i];
      assert forall i | 7 <= i < 71 :: s[i] in s[7..];
    }
  }

  lemma LabelIff(s: string)
    ensures IsTokenLabel(s) <==> IsLabel(s)
  {
    assert forall i | 0 <= i < |s| :: s[i] in s;
  }

  lemma VersionIff(s: string)
    ensures IsKekVersion(s) <==> IsVersion(s)
  {
    assert forall i | 0 <= i < |s| :: s[i] in s;
    assert forall c: char :: c in "._-" <==> c == '.' || c == '_' || c == '-';
  }

  lemma NumeralIs(n: nat)
    requires 2 <= n <= 16
    ensures Numeral(n) == TwoDigits(n)
  {
  }

  lemma SharesIff(mode: string)
    ensures IsShamir(mode) <==> IsShares(mode)
  {
    forall n | 2 <= n <= 16 ensures Numeral(n) == TwoDigits(n) { NumeralIs(n); }
    hide Numeral, TwoDigits;
  }

  lemma SetIff(f: map<string, Json>, key: string)
    ensures Truthy(Get(f, key)) <==> Set(f, key)
  {
  }

  // ---- a binding's checks ----

  lemma PrintIff(env: Env, f: map<string, Json>, key: string)
    ensures FingerprintField(env, f, key).Pass? <==> IsPrint(env, f, key)
  {
    if key in f {
      TextIff(env, f[key]);
      if f[key].Str? { Sha256Iff(f[key].text); }
    }
    hide IsFingerprint, IsSha256, IsText, Shows;
  }

  lemma DeviceIff(env: Env, b: Json)
    ensures NamedFields(env, b).Pass? && Fingerprints(env, b.fields).Pass?
            && OneOf(env, b.fields["state"], STATES, "state").Pass?
            <==> IsDevice(env, b)
  {
    AllTextIff(env);
    if b.Obj? {
      PrintIff(env, b.fields, "public_fingerprint");
      PrintIff(env, b.fields, "key_check");
    }
    hide IsText, Shows, FingerprintField, IsPrint;
  }

  lemma NitrokeyIff(env: Env, f: map<string, Json>)
    ensures Nitrokey(env, f).Pass?
            <==> && Set(f, "device_serial") && (Set(f, "devaut_fingerprint") || Set(f, "public_key_sha256"))
                 && Shows(env, f["device_serial"])
                 && IsPrint(env, f, "devaut_fingerprint") && IsPrint(env, f, "public_key_sha256")
  {
    AllTextIff(env);
    SetIff(f, "device_serial");
    SetIff(f, "devaut_fingerprint");
    SetIff(f, "public_key_sha256");
    PrintIff(env, f, "devaut_fingerprint");
    PrintIff(env, f, "public_key_sha256");
    assert Set(f, "device_serial") ==> Get(f, "device_serial") == f["device_serial"];
    hide IsText, Shows, FingerprintField, IsPrint, Truthy, Set;
  }

  lemma LabelFieldIff(env: Env, f: map<string, Json>, backend: string)
    ensures TokenLabel(env, f, backend).Pass?
            <==> ("token_label" in f
                  ==> && (backend == "nitrokey-pkcs11" || backend == "yubikey-openpgp")
                      && Shows(env, f["token_label"]) && IsLabel(f["token_label"].text))
  {
    if "token_label" in f {
      TextIff(env, f["token_label"]);
      if f["token_label"].Str? { LabelIff(f["token_label"].text); }
    }
    hide IsText, Shows, IsTokenLabel, IsLabel;
  }

  lemma YubiKeyIff(f: map<string, Json>, there: bool)
    ensures YubiKey(f, there).Pass?
            <==> && (there ==> Set(f, "device_serial"))
                 && "touch_policy" in f && f["touch_policy"] == Str("never")
                 && "pin_policy" in f && f["pin_policy"] in {Str("once"), Str("always")}
  {
    SetIff(f, "device_serial");
    hide Truthy, Set;
  }

  lemma ThereIff(b: Json)
    requires IsBinding(b)
    ensures IsCommissioned(b) <==> IsThere(b)
  {
  }

  lemma EnrolledIff(env: Env, b: Json)
    ensures CheckBinding(env, b).Pass? <==> IsEnrolled(env, b)
  {
    DeviceIff(env, b);
    if b.Obj? && IsBinding(b) {
      ThereIff(b);
      NitrokeyIff(env, b.fields);
      LabelFieldIff(env, b.fields, Backend(b));
      YubiKeyIff(b.fields, IsThere(b));
    }
    DeviceIsBinding(env, b);
    hide NamedFields, Fingerprints, OneOf, Nitrokey, TokenLabel, YubiKey, IsDevice, IsThere, IsCommissioned, Set,
      IsPrint, Shows, IsLabel;
  }

  lemma DeviceIsBinding(env: Env, b: Json)
    ensures IsDevice(env, b) ==> b.Obj? && IsBinding(b) && Backend(b) == b.fields["backend"].text
  {
    hide IsPrint;
  }

  lemma ServesIff(env: Env, b: Json, algorithm: string, operations: set<string>)
    requires IsEnrolled(env, b) && IsBinding(b)
    ensures Supported(env, b, algorithm, operations).Pass? <==> Serves(env, b, algorithm, operations)
  {
    var f := b.fields;
    AllTextIff(env);
    if Given(f, "kek_version") && f["kek_version"].Str? { VersionIff(f["kek_version"].text); }
    hide IsText, Shows, IsKekVersion, IsVersion, IsEnrolled;
  }

  // ---- an object's checks ----

  lemma NamedIff(env: Env, f: map<string, Json>)
    ensures RequireFields(f, OBJECT_REQUIRED, OBJECT_FIELDS, "object").Pass? && Identity(env, f).Pass?
            <==> IsNamed(env, f)
  {
    AllTextIff(env);
    if "id" in f && f["id"].Str? { KebabIff(f["id"].text); }
    if "purpose" in f && f["purpose"].Str? { KebabIff(f["purpose"].text); }
    hide IsText, Shows, IsId, IsKebab;
  }

  lemma OperationsIff(j: Json)
    ensures Operations(j).Pass? <==> AreOperations(j)
    ensures AreOperations(j) ==> OperationSet(j) == Doing(j)
  {
    if AreOperations(j) { assert forall x | x in j.items :: x.text in OperationSet(j); }
  }

  lemma BindingsIff(env: Env, j: Json, algorithm: string, operations: set<string>)
    ensures Bindings(env, j, algorithm, operations).Pass? <==> AreBindings(env, j, algorithm, operations)
    ensures AreBindings(env, j, algorithm, operations) ==> forall b | b in j.items :: IsBinding(b)
  {
    hide CheckBinding, IsEnrolled, Supported, Serves, IsBinding;
    if j.List? {
      forall b | b in j.items ensures CheckBinding(env, b).Pass? <==> IsEnrolled(env, b) { EnrolledIff(env, b); }
      forall b | b in j.items && IsEnrolled(env, b) && IsBinding(b)
        ensures Supported(env, b, algorithm, operations).Pass? <==> Serves(env, b, algorithm, operations)
      {
        ServesIff(env, b, algorithm, operations);
      }
      forall b | b in j.items && IsEnrolled(env, b) ensures IsBinding(b) { EnrolledIsBinding(env, b); }
    }
  }

  lemma EnrolledIsBinding(env: Env, b: Json)
    requires IsEnrolled(env, b)
    ensures IsBinding(b)
  {
    hide SuitsBackend, IsDevice;
    DeviceIsBinding(env, b);
  }

  lemma AtIff(bs: seq<Json>, backend: string)
    requires forall b | b in bs :: IsBinding(b)
    ensures AllBackend(bs, backend) <==> At(bs, backend)
    ensures (forall b | b in bs :: Backend(b) != backend) <==> forall b | b in bs :: Of(b, "backend") != Str(backend)
  {
    forall b | b in bs ensures Of(b, "backend") == Str(Backend(b)) { SiteIs(b); }
    hide IsBinding, Backend, Of;
  }

  lemma TwoOf(s: set<string>)
    requires |s| >= 2
    ensures exists x, y | x in s && y in s :: x != y
  {
    var x :| x in s;
    assert |s - {x}| == |s| - 1;
    var y :| y in s - {x};
    assert x in s && y in s && x != y;
  }

  lemma SiteIs(b: Json)
    requires IsBinding(b)
    ensures Of(b, "site") == Str(Site(b)) && Of(b, "backend") == Str(Backend(b)) && Of(b, "device_id") == Str(Device(b))
  {
  }

  lemma TwoSitesIff(bs: seq<Json>)
    requires forall b | b in bs :: IsBinding(b)
    ensures |Sites(bs)| >= 2 <==> AtTwoSites(bs)
  {
    forall b | b in bs ensures Of(b, "site") == Str(Site(b)) { SiteIs(b); }
    hide IsBinding, Site, Of;
    if |Sites(bs)| >= 2 {
      TwoOf(Sites(bs));
      var x, y :| x in Sites(bs) && y in Sites(bs) && x != y;
      var a :| a in bs && Site(a) == x;
      var b :| b in bs && Site(b) == y;
      assert Of(a, "site") != Of(b, "site");
    }
    if a, b :| a in bs && b in bs && Of(a, "site") != Of(b, "site") {
      assert Site(a) in Sites(bs) && Site(b) in Sites(bs) && Site(a) != Site(b);
      AtLeast({Site(a), Site(b)}, Sites(bs));
    }
  }

  lemma AtLeast(s: set<string>, t: set<string>)
    requires s <= t
    ensures |s| <= |t|
  {
    assert t == s + (t - s);
  }

  lemma EnoughIff(kind: string, environment: string, custody: string, bs: seq<Json>)
    requires forall b | b in bs :: IsBinding(b)
    ensures Enrollment(kind, environment, custody, bs).Pass? <==> AreEnough(kind, environment, custody, bs)
  {
    AtIff(bs, "fido2");
    TwoSitesIff(bs);
    DevicesIff(bs);
    hide AllBackend, At, Sites, AtTwoSites, DistinctDevices, OnOwnDevices, IsBinding, Backend, Of;
  }

  lemma DevicesIff(bs: seq<Json>)
    requires forall b | b in bs :: IsBinding(b)
    ensures DistinctDevices(bs) <==> OnOwnDevices(bs)
  {
    forall i | 0 <= i < |bs| ensures Of(bs[i], "device_id") == Str(Device(bs[i])) { SiteIs(bs[i]); }
    hide IsBinding, Device, Of;
    if i, k :| 0 <= i < k < |bs| && Device(bs[i]) == Device(bs[k]) {
      assert Of(bs[i], "device_id") == Of(bs[k], "device_id");
    }
  }

  lemma ShamirIff(env: Env, f: map<string, Json>)
    ensures Shamir(env, f).Pass?
            <==> && "authority_id" in f && Shows(env, f["authority_id"])
                 && "minimum_replicas" in f && f["minimum_replicas"] in {Int(2), Float(2.0)}
  {
    AllTextIff(env);
    hide IsText;
  }

  lemma ContinuityIff(custody: string, mode: string, bs: seq<Json>)
    requires forall b | b in bs :: IsBinding(b)
    ensures Continuity(custody, mode, bs).Pass?
            <==> && (custody == "hardware-envelope" ==> IsShares(mode))
                 && (custody == "direct-hardware"
                     ==> IsShares(mode) || (mode == "multi-enrollment" && At(bs, "yubikey-piv") && AtTwoSites(bs)))
  {
    AtIff(bs, "yubikey-piv");
    TwoSitesIff(bs);
    TwoSitesTwo(bs);
    SharesIff(mode);
    hide IsShamir, IsShares, AllBackend, At, Sites, AtTwoSites, IsBinding;
  }

  lemma RecoversIff(env: Env, j: Json, custody: string, bs: seq<Json>)
    requires forall b | b in bs :: IsBinding(b)
    ensures Recovery(env, j, custody, bs).Pass? <==> Recovers(env, j, custody, bs)
  {
    AllTextIff(env);
    if j.Obj? && "mode" in j.fields && j.fields["mode"].Str? {
      SharesIff(j.fields["mode"].text);
      ShamirIff(env, j.fields);
      ContinuityIff(custody, j.fields["mode"].text, bs);
    }
    hide IsText, Shows, IsShamir, IsShares, Shamir, Continuity, At, AtTwoSites, IsBinding;
  }

  /** Two sites take two bindings. */
  lemma TwoSitesTwo(bs: seq<Json>)
    ensures AtTwoSites(bs) ==> |bs| >= 2
  {
  }

  lemma RotatesIff(env: Env, j: Json)
    ensures Rotation(env, j).Pass? <==> Rotates(env, j)
  {
    AllTextIff(env);
    hide IsText, Shows;
  }

  lemma MigratesIff(env: Env, j: Json)
    ensures Migration(env, j).Pass? <==> Migrates(env, j)
  {
    AllTextIff(env);
    hide IsText, Shows;
  }

  lemma VerifiedIff(env: Env, j: Json)
    ensures Verification(env, j).Pass? <==> IsVerified(env, j)
  {
    AllTextIff(env);
    if j.Obj? && "status" in j.fields { TextIff(env, j.fields["status"]); }
    assert forall x | Shows(env, x) :: x.Str?;
    hide IsText, Shows;
  }

  lemma ExceptedIff(env: Env, custody: string, f: map<string, Json>)
    ensures Exception(env, custody, f).Pass? <==> IsExcepted(env, custody, f)
  {
    AllTextIff(env);
    assert forall x | Shows(env, x) :: x.Str?;
    hide IsText, Shows;
  }

  /** THE VALIDATOR DECIDES CUSTODY OBJECTS: it passes exactly what is one. */
  lemma ValidIff(env: Env, raw: Json)
    ensures CheckObject(env, raw).Pass? <==> IsCustodyObject(env, raw)
  {
    if raw.Obj? {
      var f := raw.fields;
      PassIffParts(env, f);
      NamedIff(env, f);
      hide CheckObject, RequireFields, Identity, Operations, Bindings, Enrollment, Recovery, Rotation, Migration,
        Verification, Exception, IsNamed, AreOperations, AreBindings, AreEnough, Recovers, Rotates, Migrates,
        IsVerified, IsExcepted, IsBinding, Doing, OperationSet;
      if IsNamed(env, f) {
        NamedHas(env, f);
        OperationsIff(f["operations"]);
        if AreOperations(f["operations"]) {
          BindingsIff(env, f["bindings"], f["algorithm"].text, Doing(f["operations"]));
          if AreBindings(env, f["bindings"], f["algorithm"].text, Doing(f["operations"])) {
            BindingsAreList(env, f["bindings"], f["algorithm"].text, Doing(f["operations"]));
            EnoughIff(f["kind"].text, f["environment"].text, f["custody"].text, f["bindings"].items);
            RecoversIff(env, f["recovery"], f["custody"].text, f["bindings"].items);
          }
        }
        RotatesIff(env, f["rotation"]);
        MigratesIff(env, f["migration"]);
        VerifiedIff(env, f["verification"]);
        ExceptedIff(env, f["custody"].text, f);
      }
    }
  }

  lemma NamedHas(env: Env, f: map<string, Json>)
    requires IsNamed(env, f)
    ensures OBJECT_REQUIRED <= f.Keys && f["kind"].Str? && f["environment"].Str? && f["custody"].Str?
            && f["algorithm"].Str?
  {
    hide IsKebab;
  }

  lemma BindingsAreList(env: Env, j: Json, algorithm: string, operations: set<string>)
    requires AreBindings(env, j, algorithm, operations)
    ensures j.List?
  {
  }

  /** A manifest: nothing in it has a secret's name or looks like one; its own four fields; and some custody objects, no
      two with one ID. */
  ghost predicate IsManifest(env: Env, raw: Json) {
    && Clean(env, raw) && raw.Obj? && raw.fields.Keys == {"schema_version", "manifest_id", "generated_at", "objects"}
    && raw.fields["schema_version"] in {Int(1), Float(1.0), Bool(true)}
    && Shows(env, raw.fields["manifest_id"]) && IsDay(env, env.timestamp, raw.fields["generated_at"])
    && raw.fields["objects"].List? && raw.fields["objects"].items != []
    && var items := raw.fields["objects"].items;
    && (forall x | x in items :: IsCustodyObject(env, x))
    && forall i, k | 0 <= i < |items| && 0 <= k < |items| && i != k :: Of(items[i], "id") != Of(items[k], "id")
  }

  lemma ManifestIff(env: Env, raw: Json)
    ensures ManifestOk(env, raw) <==> IsManifest(env, raw)
  {
    AllTextIff(env);
    if raw.Obj? && "objects" in raw.fields && raw.fields["objects"].List? {
      ObjectsIff(env, raw.fields["objects"].items);
    }
    hide IsText, Shows, Clean, ObjectsOk, IsCustodyObject, Of;
  }

  lemma ObjectsIff(env: Env, items: seq<Json>)
    ensures ObjectsOk(env, items)
            <==> && (forall x | x in items :: IsCustodyObject(env, x))
                 && forall i, k | 0 <= i < |items| && 0 <= k < |items| && i != k ::
                   Of(items[i], "id") != Of(items[k], "id")
  {
    hide CheckObject, IsCustodyObject;
    forall i | 0 <= i < |items|
      ensures CheckObject(env, items[i]).Pass? <==> IsCustodyObject(env, items[i])
      ensures CheckObject(env, items[i]).Pass? ==> Of(items[i], "id") == Str(IdOf(items[i]))
    {
      ValidIff(env, items[i]);
    }
    hide Of, IdOf;
    if forall i | 0 <= i < |items| :: CheckObject(env, items[i]).Pass? {
      if !ObjectsOk(env, items) {
        var i, k :| 0 <= i < k < |items| && IdOf(items[i]) == IdOf(items[k]);
        assert Of(items[i], "id") == Of(items[k], "id");
      }
    }
  }
}
