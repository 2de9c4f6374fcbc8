/** A FIDO credential enrolled three times, at three sites: that it is a custody object, and exactly when one of its
    enrollments may be retired. */
module FidoExample {
  import opened Collections
  import opened Results
  import opened CustodyManifest
  import opened CustodyObject
  import opened FidoContinuity

  /** Letters can be seen, and FIDO devices authenticate. */
  ghost predicate IsUsual(env: Env) {
    && (forall c | 'a' <= c <= 'z' :: !env.isSpace(c))
    && Can(env, "fido2", "device-managed", "authenticate")
  }

  const STATE_NAMES: set<string> := {"planned", "qualified", "active", "standby", "retired", "revoked"}

  function Enrolled(site: string, device: string, state: string): Json {
    Obj(map["site" := Str(site), "backend" := Str("fido2"), "device_id" := Str(device), "object_id" := Str("github"),
            "public_fingerprint" := Str(Mark()), "state" := Str(state)])
  }

  function Three(s: string, t: string, u: string): seq<Json> {
    [Enrolled("a", "fido-a", s), Enrolled("b", "fido-b", t), Enrolled("c", "fido-c", u)]
  }

  function Names(): map<string, Json> {
    map["id" := Str("github-admin"), "name" := Str("github"), "kind" := Str("fido-credential"),
        "classification" := Str("critical"), "environment" := Str("production"), "owner" := Str("security"),
        "purpose" := Str("github-login"), "custody" := Str("fido-multi-enrollment"),
        "algorithm" := Str("device-managed"), "policy_id" := Str("github")]
  }

  function Rest(bs: seq<Json>): map<string, Json> {
    map["operations" := List([Str("authenticate")]), "bindings" := List(bs),
        "recovery" := Obj(map["mode" := Str("multi-enrollment"), "status" := Str("planned")]),
        "rotation" := Obj(map["maximum_age_days" := Int(730), "last_rotated" := Null]),
        "migration" := Obj(map["status" := Str("planned"), "source" := Str("github")]),
        "verification" := Obj(map["status" := Str("planned"), "last_verified" := Null, "evidence" := Str("issue")])]
  }

  function Credential(bs: seq<Json>): Json { Obj(Names() + Rest(bs)) }

  lemma Visible(env: Env, s: string)
    requires IsUsual(env) && s != "" && 'a' <= s[0] <= 'z'
    ensures Shows(env, Str(s))
  {
    assert s[0] in s;
  }

  // ---- the bindings ----

  function Mark(): string { "sha256:" + seq(64, i => 'd') }

  /** The fields of an enrollment. */
  ghost predicate IsEnrollment(b: Json, site: string, device: string, state: string) {
    && b.Obj? && b.fields.Keys == {"site", "backend", "device_id", "object_id", "public_fingerprint", "state"}
    && b.fields["site"] == Str(site) && b.fields["backend"] == Str("fido2") && b.fields["device_id"] == Str(device)
    && b.fields["object_id"] == Str("github") && b.fields["state"] == Str(state)
    && b.fields["public_fingerprint"] == Str(Mark())
  }

  lemma EnrolledHas(site: string, device: string, state: string)
    ensures IsEnrollment(Enrolled(site, device, state), site, device, state)
  {
  }

  lemma MarkIsOne(env: Env)
    requires IsUsual(env)
    ensures Shows(env, Str(Mark())) && IsSha256(Mark())
  {
    assert Mark()[..7] == "sha256:" && Mark()[7..] == seq(64, i => 'd') && Mark()[0] == 's';
    Visible(env, Mark());
  }

  lemma DeviceOf(env: Env, b: Json, site: string, device: string, state: string)
    requires IsEnrollment(b, site, device, state) && state in STATE_NAMES
    requires Shows(env, Str(site)) && Shows(env, Str(device)) && Shows(env, Str("github")) && Shows(env, Str("fido2"))
             && Shows(env, Str(state)) && Shows(env, Str(Mark())) && IsSha256(Mark())
    ensures IsDevice(env, b)
  {
    hide Shows, IsSha256;
  }

  lemma SuitsOf(env: Env, b: Json, site: string, device: string, state: string)
    requires IsEnrollment(b, site, device, state)
    ensures SuitsBackend(env, b.fields, "fido2", IsThere(b))
  {
    hide Shows, IsSha256, IsLabel;
  }

  lemma EnrolledIsOne(env: Env, b: Json, site: string, device: string, state: string)
    requires IsUsual(env) && state in STATE_NAMES && Shows(env, Str(site)) && Shows(env, Str(device))
    requires IsEnrollment(b, site, device, state)
    ensures IsEnrolled(env, b)
  {
    MarkIsOne(env);
    Visible(env, "github");
    Visible(env, "fido2");
    Visible(env, state);
    hide IsUsual, Shows, IsSha256;
    DeviceOf(env, b, site, device, state);
    SuitsOf(env, b, site, device, state);
    hide IsDevice, SuitsBackend;
  }

  lemma EnrolledServes(env: Env, b: Json, site: string, device: string, state: string)
    requires IsUsual(env) && IsEnrollment(b, site, device, state) && IsEnrolled(env, b)
    ensures Serves(env, b, "device-managed", {"authenticate"})
  {
    hide IsEnrolled;
  }

  lemma OneOfThree(env: Env, b: Json, site: string, device: string, state: string)
    requires IsUsual(env) && state in STATE_NAMES && IsEnrollment(b, site, device, state)
    requires site != "" && 'a' <= site[0] <= 'z' && device != "" && 'a' <= device[0] <= 'z'
    ensures IsEnrolled(env, b) && Serves(env, b, "device-managed", {"authenticate"})
  {
    Visible(env, site);
    Visible(env, device);
    EnrolledIsOne(env, b, site, device, state);
    EnrolledServes(env, b, site, device, state);
  }

  lemma ThreeAreBindings(env: Env, s: string, t: string, u: string)
    requires IsUsual(env) && s in STATE_NAMES && t in STATE_NAMES && u in STATE_NAMES
    ensures AreBindings(env, List(Three(s, t, u)), "device-managed", {"authenticate"})
  {
    EnrolledHas("a", "fido-a", s);
    EnrolledHas("b", "fido-b", t);
    EnrolledHas("c", "fido-c", u);
    hide IsUsual, Enrolled, IsEnrolled, Serves, IsEnrollment;
    OneOfThree(env, Enrolled("a", "fido-a", s), "a", "fido-a", s);
    OneOfThree(env, Enrolled("b", "fido-b", t), "b", "fido-b", t);
    OneOfThree(env, Enrolled("c", "fido-c", u), "c", "fido-c", u);
  }

  lemma DevicesDiffer()
    ensures "fido-a" != "fido-b" && "fido-a" != "fido-c" && "fido-b" != "fido-c"
  {
    assert "fido-a"[5] == 'a' && "fido-b"[5] == 'b' && "fido-c"[5] == 'c';
  }

  lemma ThreeAreEnough(s: string, t: string, u: string)
    ensures AreEnough("fido-credential", "production", "fido-multi-enrollment", Three(s, t, u))
  {
    EnrolledHas("a", "fido-a", s);
    EnrolledHas("b", "fido-b", t);
    EnrolledHas("c", "fido-c", u);
    DevicesDiffer();
    hide Enrolled;
    var bs := Three(s, t, u);
    assert bs[0] in bs && bs[1] in bs && Of(bs[0], "site") == Str("a") && Of(bs[1], "site") == Str("b");
    assert OnOwnDevices(bs);
  }

  // ---- the object ----

  ghost predicate HasNames(f: map<string, Json>) {
    && {"id", "name", "kind", "classification", "environment", "owner", "purpose", "custody", "algorithm",
        "policy_id"} <= f.Keys
    && f["id"] == Str("github-admin") && f["name"] == Str("github") && f["kind"] == Str("fido-credential")
    && f["classification"] == Str("critical") && f["environment"] == Str("production")
    && f["owner"] == Str("security") && f["purpose"] == Str("github-login")
    && f["custody"] == Str("fido-multi-enrollment") && f["algorithm"] == Str("device-managed")
    && f["policy_id"] == Str("github")
  }

  ghost predicate HasParts(f: map<string, Json>, bs: seq<Json>) {
    && {"operations", "bindings", "recovery", "rotation", "migration", "verification"} <= f.Keys
    && f["operations"] == List([Str("authenticate")]) && f["bindings"] == List(bs)
    && f["recovery"] == Obj(map["mode" := Str("multi-enrollment"), "status" := Str("planned")])
    && f["rotation"] == Obj(map["maximum_age_days" := Int(730), "last_rotated" := Null])
    && f["migration"] == Obj(map["status" := Str("planned"), "source" := Str("github")])
    && f["verification"]
       == Obj(map["status" := Str("planned"), "last_verified" := Null, "evidence" := Str("issue")])
  }

  const ALL_KEYS: set<string> :=
    {"id", "name", "kind", "classification", "environment", "owner", "purpose", "custody", "algorithm", "operations",
     "policy_id", "bindings", "recovery", "rotation", "migration", "verification"}

  lemma NamesHave()
    ensures HasNames(Names())
    ensures Names().Keys == {"id", "name", "kind", "classification", "environment", "owner", "purpose", "custody",
                             "algorithm", "policy_id"}
  {
  }

  lemma RestHas(bs: seq<Json>)
    ensures HasParts(Rest(bs), bs)
    ensures Rest(bs).Keys == {"operations", "bindings", "recovery", "rotation", "migration", "verification"}
  {
  }

  lemma KeysApart()
    ensures {"id", "name", "kind", "classification", "environment", "owner", "purpose", "custody", "algorithm",
             "policy_id"} !! {"operations", "bindings", "recovery", "rotation", "migration", "verification"}
  {
  }

  lemma CredentialHas(bs: seq<Json>)
    ensures Credential(bs).Obj? && Credential(bs).fields.Keys == ALL_KEYS
    ensures HasNames(Credential(bs).fields) && HasParts(Credential(bs).fields, bs)
  {
    NamesHave();
    RestHas(bs);
    KeysApart();
    hide Names, Rest;
    var f := Credential(bs).fields;
    assert f.Keys == Names().Keys + Rest(bs).Keys;
    assert forall k | k in Names() :: k !in Rest(bs) && f[k] == Names()[k];
    assert forall k | k in Rest(bs) :: f[k] == Rest(bs)[k];
  }

  lemma CredentialIsNamed(env: Env, f: map<string, Json>)
    requires IsUsual(env) && HasNames(f) && f.Keys == ALL_KEYS
    ensures IsNamed(env, f)
  {
    assert IsKebab("github-admin") && IsKebab("github-login");
    Visible(env, "github-admin");
    Visible(env, "github");
    Visible(env, "fido-credential");
    Visible(env, "critical");
    Visible(env, "production");
    Visible(env, "security");
    Visible(env, "github-login");
    Visible(env, "fido-multi-enrollment");
    Visible(env, "device-managed");
    hide Shows, IsUsual, IsKebab;
  }

  lemma NotShares()
    ensures !IsShares("multi-enrollment")
  {
    forall k, n | 2 <= k <= n <= 16 ensures "multi-enrollment" != "shamir-" + Numeral(k) + "-of-" + Numeral(n) {
      assert ("shamir-" + Numeral(k) + "-of-" + Numeral(n))[0] == 's' && "multi-enrollment"[0] == 'm';
    }
  }

  lemma RecoversByEnrolling(env: Env, bs: seq<Json>)
    requires IsUsual(env)
    ensures Recovers(env, Obj(map["mode" := Str("multi-enrollment"), "status" := Str("planned")]),
                     "fido-multi-enrollment", bs)
  {
    NotShares();
    Visible(env, "multi-enrollment");
    Visible(env, "planned");
    hide Shows, IsUsual, IsShares;
  }

  lemma RestIsThere(env: Env)
    requires IsUsual(env)
    ensures Rotates(env, Obj(map["maximum_age_days" := Int(730), "last_rotated" := Null]))
    ensures Migrates(env, Obj(map["status" := Str("planned"), "source" := Str("github")]))
    ensures IsVerified(env, Obj(map["status" := Str("planned"), "last_verified" := Null, "evidence" := Str("issue")]))
  {
    Visible(env, "planned");
    Visible(env, "github");
    Visible(env, "issue");
    hide Shows, IsUsual;
  }

  lemma OneOperation()
    ensures AreOperations(List([Str("authenticate")])) && Doing(List([Str("authenticate")])) == {"authenticate"}
  {
  }

  /** THERE ARE SUCH OBJECTS: enrolled three times in any states, it passes the validator. */
  lemma CredentialPasses(env: Env, s: string, t: string, u: string)
    requires IsUsual(env) && s in STATE_NAMES && t in STATE_NAMES && u in STATE_NAMES
    ensures CheckObject(env, Credential(Three(s, t, u))).Pass?
  {
    var bs := Three(s, t, u);
    CredentialHas(bs);
    ThreeAreBindings(env, s, t, u);
    ThreeAreEnough(s, t, u);
    RecoversByEnrolling(env, bs);
    RestIsThere(env);
    OneOperation();
    CredentialIsNamed(env, Credential(bs).fields);
    ValidIff(env, Credential(bs));
    hide Credential, Three, IsUsual, CheckObject;
    MakesAnObject(env, Credential(bs), bs);
  }

  lemma MakesAnObject(env: Env, raw: Json, bs: seq<Json>)
    requires raw.Obj? && HasNames(raw.fields) && HasParts(raw.fields, bs) && IsNamed(env, raw.fields)
    requires raw.fields.Keys == ALL_KEYS
    requires AreOperations(List([Str("authenticate")])) && Doing(List([Str("authenticate")])) == {"authenticate"}
    requires AreBindings(env, List(bs), "device-managed", {"authenticate"})
    requires AreEnough("fido-credential", "production", "fido-multi-enrollment", bs)
    requires Recovers(env, Obj(map["mode" := Str("multi-enrollment"), "status" := Str("planned")]),
                      "fido-multi-enrollment", bs)
    requires Rotates(env, Obj(map["maximum_age_days" := Int(730), "last_rotated" := Null]))
    requires Migrates(env, Obj(map["status" := Str("planned"), "source" := Str("github")]))
    requires IsVerified(env, Obj(map["status" := Str("planned"), "last_verified" := Null, "evidence" := Str("issue")]))
    ensures IsCustodyObject(env, raw)
  {
    hide IsNamed, AreOperations, Doing, AreBindings, AreEnough, Recovers, Rotates, Migrates, IsVerified;
  }

  // ---- retiring one ----

  /** Exactly these states mean that a device is there. */
  predicate Holds(state: string) { state == "qualified" || state == "active" || state == "standby" }

  lemma EnrolledIsBinding(site: string, device: string, state: string)
    ensures var b := Enrolled(site, device, state);
            && IsBinding(b) && Site(b) == site && Device(b) == device && (IsCommissioned(b) <==> Holds(state))
            && Get(b.fields, "device_id") == Str(device)
  {
    EnrolledHas(site, device, state);
    hide Enrolled;
  }

  /** What is left of the three without the first, on devices that are there. */
  lemma SurvivorsAre(s: string, t: string, u: string)
    ensures forall x ::
              x in Survivors(Remaining(Three(s, t, u), "fido-a"))
              <==> (x == Enrolled("b", "fido-b", t) && Holds(t)) || (x == Enrolled("c", "fido-c", u) && Holds(u))
  {
    EnrolledIsBinding("a", "fido-a", s);
    EnrolledIsBinding("b", "fido-b", t);
    EnrolledIsBinding("c", "fido-c", u);
    DevicesDiffer();
    hide Enrolled, Filter, IsCommissioned, Holds;
  }

  /** EXACTLY WHEN. The first enrollment may be retired if and only if both others are on devices that are there. */
  lemma RetiresIff(env: Env, s: string, t: string, u: string)
    requires IsUsual(env) && s in STATE_NAMES && t in STATE_NAMES && u in STATE_NAMES
    ensures MayRetire(env, Credential(Three(s, t, u)), "fido-a") <==> Holds(t) && Holds(u)
  {
    var item, bs := Credential(Three(s, t, u)), Three(s, t, u);
    CredentialPasses(env, s, t, u);
    CredentialHas(bs);
    assert Get(item.fields, "custody") == Str(FIDO) && Get(item.fields, "bindings") == List(bs);
    EnrolledIsBinding("a", "fido-a", s);
    EnrolledIsBinding("b", "fido-b", t);
    EnrolledIsBinding("c", "fido-c", u);
    SurvivorsAre(s, t, u);
    var a, b, c := Enrolled("a", "fido-a", s), Enrolled("b", "fido-b", t), Enrolled("c", "fido-c", u);
    assert a in bs;
    hide CheckObject, Credential, Enrolled, Three, Filter, IsBinding, IsUsual, IsCommissioned, Survivors, Remaining,
      HasNames, HasParts, Sites, Holds;
    var left := Survivors(Remaining(bs, "fido-a"));
    assert forall x | x in left :: IsBinding(x);
    TwoSitesIff(left);
    LeftAtTwoSites(left, b, c, Holds(t), Holds(u));
    RetiresBySites(env, item, bs, a);
  }

  lemma RetiresBySites(env: Env, item: Json, bs: seq<Json>, a: Json)
    requires item.Obj? && CheckObject(env, item).Pass? && Get(item.fields, "custody") == Str(FIDO)
    requires Get(item.fields, "bindings") == List(bs) && a in bs && IsBinding(a) && Device(a) == "fido-a"
    requires forall x | x in Survivors(Remaining(bs, "fido-a")) :: IsBinding(x)
    ensures MayRetire(env, item, "fido-a") <==> |Sites(Survivors(Remaining(bs, "fido-a")))| >= 2
  {
    hide CheckObject, IsBinding, Survivors, Remaining, Sites, Device;
  }

  lemma LeftAtTwoSites(left: seq<Json>, b: Json, c: Json, first: bool, second: bool)
    requires IsBinding(b) && IsBinding(c) && Site(b) != Site(c)
    requires forall x :: x in left <==> (x == b && first) || (x == c && second)
    ensures AtTwoSites(left) <==> first && second
  {
    SiteIs(b);
    SiteIs(c);
    hide IsBinding, Site, Of;
    if first && second { assert b in left && c in left && Of(b, "site") != Of(c, "site"); }
  }
}
