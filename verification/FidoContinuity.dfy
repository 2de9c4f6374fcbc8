/** Retiring one enrollment of a FIDO credential: refused unless the object validates as it stands and after the
    removal, and the enrollments that remain on real devices cover two sites. */
module FidoContinuity {
  import opened Collections
  import opened Results
  import opened CustodyManifest

  const MINIMUM_SITES := 2

  function Filter(bs: seq<Json>, keep: Json -> bool): (r: seq<Json>)
    ensures forall b | b in r :: b in bs && keep(b)
    ensures forall b | b in bs && keep(b) :: b in r
    ensures |r| <= |bs|
  {
    if bs == [] then []
    else Filter(bs[..|bs| - 1], keep) + if keep(bs[|bs| - 1]) then [bs[|bs| - 1]] else []
  }

  /** The object with its bindings replaced. */
  function WithBindings(item: Json, bs: seq<Json>): Json
    requires item.Obj?
  {
    Obj(item.fields["bindings" := List(bs)])
  }

  // ---- removing bindings from a valid FIDO object ----

  lemma {:induction false} FilterKeepsDistinct(bs: seq<Json>, keep: Json -> bool)
    requires (forall b | b in bs :: IsBinding(b)) && DistinctDevices(bs)
    ensures DistinctDevices(Filter(bs, keep))
  {
    if bs != [] {
      var n := |bs| - 1;
      FilterKeepsDistinct(bs[..n], keep);
      var front := Filter(bs[..n], keep);
      forall i | 0 <= i < |front| ensures Device(front[i]) != Device(bs[n]) {
        assert front[i] in bs[..n];
        var k :| 0 <= k < n && bs[k] == front[i];
      }
    }
  }

  lemma {:induction false} OneSiteEach(bs: seq<Json>)
    requires forall b | b in bs :: IsBinding(b)
    ensures |Sites(bs)| <= |bs|
  {
    hide IsBinding;
    if bs == [] {
      assert Sites(bs) == {};
    } else {
      var n := |bs| - 1;
      SitesSnoc(bs);
      hide Sites, Site;
      OneSiteEach(bs[..n]);
    }
  }

  lemma SitesSnoc(bs: seq<Json>)
    requires bs != [] && forall b | b in bs :: IsBinding(b)
    ensures Sites(bs) == Sites(bs[..|bs| - 1]) + {Site(bs[|bs| - 1])}
  {
    hide IsBinding, Site;
    assert bs == bs[..|bs| - 1] + [bs[|bs| - 1]];
  }

  /** The fields that do not change with the bindings. */
  lemma OtherFields(f: map<string, Json>, bs: seq<Json>)
    requires OBJECT_REQUIRED <= f.Keys
    ensures var g := f["bindings" := List(bs)];
            && g.Keys == f.Keys && g["bindings"] == List(bs) && Get(g, "exception") == Get(f, "exception")
            && forall k | k in OBJECT_REQUIRED && k != "bindings" :: g[k] == f[k]
  {
    assert "bindings" in f && "exception" != "bindings";
  }

  lemma SameIdentity(env: Env, f: map<string, Json>, bs: seq<Json>)
    requires OBJECT_REQUIRED <= f.Keys
    ensures OBJECT_REQUIRED <= f["bindings" := List(bs)].Keys
            && Identity(env, f["bindings" := List(bs)]) == Identity(env, f)
  {
    OtherFields(f, bs);
    hide Text, OneOf, IsId;
  }

  lemma SameException(env: Env, f: map<string, Json>, bs: seq<Json>, custody: string)
    requires OBJECT_REQUIRED <= f.Keys
    ensures Exception(env, custody, f["bindings" := List(bs)]) == Exception(env, custody, f)
  {
    OtherFields(f, bs);
  }

  /** For FIDO custody, recovery asks nothing of the bindings. */
  lemma SameRecovery(env: Env, j: Json, bs: seq<Json>, cs: seq<Json>)
    requires (forall b | b in bs :: IsBinding(b)) && (forall b | b in cs :: IsBinding(b))
    ensures Recovery(env, j, FIDO, bs) == Recovery(env, j, FIDO, cs)
  {
    assert FIDO != "direct-hardware" && FIDO != "hardware-envelope";
    hide Text, OneOf, IsShamir, Shamir, RequireFields;
  }

  lemma FewerBindings(env: Env, bs: seq<Json>, keep: Json -> bool, algorithm: string, operations: set<string>)
    requires Bindings(env, List(bs), algorithm, operations).Pass?
    ensures Bindings(env, List(Filter(bs, keep)), algorithm, operations).Pass?
  {
    hide CheckBinding, Supported;
    assert EachBinding(env, bs).Pass? && EachSupported(env, bs, algorithm, operations).Pass?;
    assert EachBinding(env, Filter(bs, keep)).Pass?;
    assert EachSupported(env, Filter(bs, keep), algorithm, operations).Pass?;
  }

  lemma FewerEnrollments(kind: string, environment: string, bs: seq<Json>, keep: Json -> bool)
    requires (forall b | b in bs :: IsBinding(b)) && Enrollment(kind, environment, FIDO, bs).Pass?
    ensures Enrollment(kind, environment, FIDO, Filter(bs, keep)).Pass? <==> |Sites(Filter(bs, keep))| >= MINIMUM_SITES
  {
    FilterKeepsDistinct(bs, keep);
    OneSiteEach(Filter(bs, keep));
    hide DistinctDevices, Sites;
  }

  /** A valid FIDO object stays valid under the removal of any bindings exactly when what remains covers two sites. */
  lemma ValidAfterRemovalIff(env: Env, item: Json, keep: Json -> bool)
    requires CheckObject(env, item).Pass? && Get(item.fields, "custody") == Str(FIDO)
    ensures "bindings" in item.fields && item.fields["bindings"].List?
            && forall b | b in item.fields["bindings"].items :: IsBinding(b)
    ensures var rest := Filter(item.fields["bindings"].items, keep);
            CheckObject(env, WithBindings(item, rest)).Pass? <==> |Sites(rest)| >= MINIMUM_SITES
  {
    var f, bs := item.fields, item.fields["bindings"].items;
    var rest := Filter(bs, keep);
    var g := f["bindings" := List(rest)];
    OtherFields(f, rest);
    PassIffParts(env, f);
    PassIffParts(env, g);
    hide CheckObject, Identity, Operations, Bindings, Enrollment, Recovery, Rotation, Migration, Verification,
      Exception, EachBinding, EachSupported, Sites, IsBinding, Filter;
    SameIdentity(env, f, rest);
    SameException(env, f, rest, FIDO);
    FewerBindings(env, bs, keep, f["algorithm"].text, OperationSet(f["operations"]));
    FewerEnrollments(f["kind"].text, f["environment"].text, bs, keep);
    SameRecovery(env, f["recovery"], bs, rest);
  }

  // ---- the plan ----

  datatype Refused =
    | NoSuchObject
    | NotFido
    | InvalidBefore(fault: Fault)
    | UnknownDevice
    | InvalidAfter(fault: Fault)
    | TooFewSites
    | Breaks

  /** What going through the manifest's objects comes to: nothing when there are none, the characters of a text, the
      names of an object's fields; and it breaks on a value that cannot be gone through. Only an object can be one of
      the custody objects. */
  function Objects(manifest: map<string, Json>): Option<seq<Json>> {
    if "objects" !in manifest then Some([])
    else
      match manifest["objects"]
      case List(items) => Some(items)
      case Str(_) => Some([])
      case Obj(_) => Some([])
      case _ => None
  }

  predicate Named(item: Json, id: string) { item.Obj? && Get(item.fields, "id") == Str(id) }

  method ObjectById(manifest: map<string, Json>, id: string) returns (r: Result<Json, Refused>)
    ensures Objects(manifest).None? <==> r == Err(Breaks)
    ensures Objects(manifest).Some? && r.Err? ==> r == Err(NoSuchObject) && forall x | x in Objects(manifest).value ::
            !Named(x, id)
    ensures r.Ok? ==> Objects(manifest).Some? && IsFirst(Objects(manifest).value, id, r.value)
  {
    var objects := Objects(manifest);
    if objects.None? { return Err(Breaks); }
    for i := 0 to |objects.value|
      invariant forall k | 0 <= k < i :: !Named(objects.value[k], id)
    {
      if Named(objects.value[i], id) { return Ok(objects.value[i]); }
    }
    r := Err(NoSuchObject);
  }

  /** The first of the objects with this ID. */
  ghost predicate IsFirst(items: seq<Json>, id: string, item: Json) {
    exists i | 0 <= i < |items| :: items[i] == item && Named(item, id) && forall k | 0 <= k < i :: !Named(items[k], id)
  }

  /** In a manifest that validates, no other object has the ID that was looked for. */
  lemma FirstIsOnly(env: Env, items: seq<Json>, id: string, i: nat, k: nat)
    requires ObjectsOk(env, items) && i < |items| && k < |items| && Named(items[i], id) && Named(items[k], id)
    ensures i == k
  {
    hide CheckObject;
    assert CheckObject(env, items[i]).Pass? && CheckObject(env, items[k]).Pass?;
  }

  function Remaining(bs: seq<Json>, device: string): seq<Json> {
    Filter(bs, (b: Json) => b.Obj? && Get(b.fields, "device_id") != Str(device))
  }

  function Survivors(bs: seq<Json>): seq<Json> {
    Filter(bs, (b: Json) => IsBinding(b) && IsCommissioned(b))
  }

  /** The object is FIDO's, validates as it stands and binds the device, and without it two sites still hold a real
      enrollment. */
  ghost predicate MayRetire(env: Env, item: Json, device: string)
    requires item.Obj?
  {
    && Get(item.fields, "custody") == Str(FIDO) && CheckObject(env, item).Pass?
    && var bindings := Get(item.fields, "bindings");
    && bindings.List? && (exists b | b in bindings.items :: IsBinding(b) && Device(b) == device)
    && (forall b | b in Survivors(Remaining(bindings.items, device)) :: IsBinding(b))
    && |Sites(Survivors(Remaining(bindings.items, device)))| >= MINIMUM_SITES
  }

  lemma SitesOfSome(bs: seq<Json>, cs: seq<Json>)
    requires (forall b | b in bs :: IsBinding(b)) && (forall b | b in cs :: b in bs)
    ensures Sites(cs) <= Sites(bs) && |Sites(cs)| <= |Sites(bs)|
  {
    hide IsBinding;
    assert Sites(cs) <= Sites(bs);
    Fewer(Sites(cs), Sites(bs));
  }

  method PlanRetirement(env: Env, manifest: map<string, Json>, id: string, device: string)
    returns (r: Result<seq<Json>, Refused>)
    ensures r.Ok? <==> Objects(manifest).Some? && exists item ::
            IsFirst(Objects(manifest).value, id, item) && item.Obj? && MayRetire(env, item, device)
    ensures r.Ok?
            ==> forall item | Objects(manifest).Some? && IsFirst(Objects(manifest).value, id, item) && item.Obj? ::
                        r.value == Survivors(Remaining(Get(item.fields, "bindings").items, device))
  {
    var found := ObjectById(manifest, id);
    if found.Err? { return Err(found.error); }
    var item := found.value;
    OneFirst(Objects(manifest).value, id);
    r := PlanFor(env, item, device);
  }

  lemma OneFirst(items: seq<Json>, id: string)
    ensures forall x, y | IsFirst(items, id, x) && IsFirst(items, id, y) :: x == y
  {
  }

  /** The checks in their order: custody, the object as it stands, the device, the object as it would be, the sites
      that remain. */
  method PlanFor(env: Env, item: Json, device: string) returns (r: Result<seq<Json>, Refused>)
    requires item.Obj?
    ensures r.Ok? <==> MayRetire(env, item, device)
    ensures r.Ok? ==> r.value == Survivors(Remaining(Get(item.fields, "bindings").items, device))
  {
    hide CheckObject, Filter, Sites, WithBindings;
    if Get(item.fields, "custody") != Str(FIDO) { return Err(NotFido); }
    var before := ValidateObject(env, item);
    if before.Refuse? { return Err(if before.fault.TypeError? then Breaks else InvalidBefore(before.fault)); }
    ValidAfterRemovalIff(env, item, (b: Json) => b.Obj? && Get(b.fields, "device_id") != Str(device));
    var bindings := Get(item.fields, "bindings").items;
    if forall b | b in bindings :: !(b.Obj? && Get(b.fields, "device_id") == Str(device)) { return Err(UnknownDevice); }
    var rest := Remaining(bindings, device);
    var after := ValidateObject(env, WithBindings(item, rest));
    var survivors := Survivors(rest);
    SitesOfSome(rest, survivors);
    if after.Refuse? { return Err(if after.fault.TypeError? then Breaks else InvalidAfter(after.fault)); }
    if |Sites(survivors)| < MINIMUM_SITES { return Err(TooFewSites); }
    r := Ok(survivors);
  }

  // ---- what follows ----

  lemma {:induction false} FilterDrops(bs: seq<Json>, keep: Json -> bool, b: Json)
    requires b in bs && !keep(b)
    ensures |Filter(bs, keep)| < |bs|
  {
    var n := |bs| - 1;
    if bs[n] != b { FilterDrops(bs[..n], keep, b); }
  }

  /** Retiring one of two enrollments always fails. */
  lemma OneOfTwoNeverRetires(env: Env, item: Json, device: string)
    requires item.Obj? && Get(item.fields, "bindings").List? && |Get(item.fields, "bindings").items| <= 2
    ensures !MayRetire(env, item, device)
  {
    if MayRetire(env, item, device) {
      var bs := Get(item.fields, "bindings").items;
      var b :| b in bs && IsBinding(b) && Device(b) == device;
      hide CheckObject;
      var keep := (b: Json) => b.Obj? && Get(b.fields, "device_id") != Str(device);
      FilterDrops(bs, keep, b);
      OneSiteEach(Survivors(Remaining(bs, device)));
      assert false;
    }
  }

  /** What is left after an approved retirement is again a valid FIDO object, so the next one starts from a sound
      manifest. */
  lemma ApprovedLeavesValid(env: Env, item: Json, device: string)
    requires item.Obj? && MayRetire(env, item, device)
    ensures CheckObject(env, WithBindings(item, Remaining(Get(item.fields, "bindings").items, device))).Pass?
  {
    var bs := Get(item.fields, "bindings").items;
    ValidAfterRemovalIff(env, item, (b: Json) => b.Obj? && Get(b.fields, "device_id") != Str(device));
    hide CheckObject, Filter;
    SitesOfSome(Remaining(bs, device), Survivors(Remaining(bs, device)));
  }
}
