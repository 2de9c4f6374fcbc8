/** Reading the PCRs a quote is over: a TPM may answer part of a selection per call, in any way, and the values count
    only if they hash, in index order, to the digest the quote itself holds. The TPM is an arbitrary function of the
    calls made to it. */
module PcrReading {
  import opened Arithmetic
  import opened Collections
  import opened Octets
  import opened Results

  const MAX_READS := 4
  const MAX_QUOTES := 3

  datatype Reading = Refused | Read(banks: nat, sha256: bool, select: bytes, digests: seq<bytes>)

  /** What the TPM says to PCR_Read number n of the PCRs in the set. */
  type Reader = (nat, set<nat>) -> Reading

  // ---- the PCRs of a selection ----

  predicate IsSet(bits: byte, bit: nat) { bits / Pow2(bit) % 2 == 1 }

  function BitsOf(bits: byte, base: nat, upTo: nat): seq<nat> {
    if upTo == 0 then [] else BitsOf(bits, base, upTo - 1) + if IsSet(bits, upTo - 1) then [base + upTo - 1] else []
  }

  /** The PCRs a selection names, lowest first: bit i of byte k is PCR 8k + i. */
  function Selected(select: bytes): seq<nat> {
    if select == [] then [] else Selected(select[..|select| - 1]) + BitsOf(select[|select| - 1], 8 * (|select| - 1), 8)
  }

  ghost predicate Ascending(s: seq<nat>) { forall i, j | 0 <= i < j < |s| :: s[i] < s[j] }

  lemma {:induction false} BitsAscend(bits: byte, base: nat, upTo: nat)
    ensures Ascending(BitsOf(bits, base, upTo)) && forall x | x in BitsOf(bits, base, upTo) :: base <= x < base + upTo
  {
    if upTo > 0 {
      BitsAscend(bits, base, upTo - 1);
      var a := BitsOf(bits, base, upTo - 1);
      assert forall i | 0 <= i < |a| :: a[i] in a;
      hide IsSet;
    }
  }

  lemma {:induction false} BitsAre(bits: byte, base: nat, upTo: nat)
    ensures forall p :: p in BitsOf(bits, base, upTo) <==> base <= p < base + upTo && IsSet(bits, p - base)
  {
    hide IsSet;
    if upTo > 0 { BitsAre(bits, base, upTo - 1); }
  }

  /** A selection names exactly these: PCR p by bit p % 8 of byte p / 8, the least significant bit first. */
  lemma {:induction false} SelectedIff(select: bytes, p: nat)
    ensures p in Selected(select) <==> p / 8 < |select| && select[p / 8] / Pow2(p % 8) % 2 == 1
  {
    if select != [] {
      var n := |select| - 1;
      SelectedIff(select[..n], p);
      BitsAre(select[n], 8 * n, 8);
      hide BitsOf, Pow2;
    }
  }

  lemma {:induction false} SelectedAscends(select: bytes)
    ensures Ascending(Selected(select)) && forall x | x in Selected(select) :: x < 8 * |select|
  {
    if select != [] {
      var n := |select| - 1;
      SelectedAscends(select[..n]);
      BitsAscend(select[n], 8 * n, 8);
      hide BitsOf;
      var a, b := Selected(select[..n]), BitsOf(select[n], 8 * n, 8);
      assert forall i | 0 <= i < |a| :: a[i] in a;
      assert forall i | 0 <= i < |b| :: b[i] in b;
      assert Selected(select) == a + b;
    }
  }

  method Given(select: bytes) returns (given: seq<nat>)
    ensures given == Selected(select)
  {
    given := [];
    for k := 0 to |select|
      invariant given == Selected(select[..k])
    {
      for bit := 0 to 8
        invariant given == Selected(select[..k]) + BitsOf(select[k], 8 * k, bit)
      {
        if IsSet(select[k], bit) { given := given + [8 * k + bit]; }
      }
      assert select[..k + 1][..k] == select[..k];
    }
    assert select[..|select|] == select;
  }

  // ---- what is left to read ----

  function AsSet(s: seq<nat>): set<nat> { set x | x in s }

  /** What is still wanted after these readings. */
  function Remaining(wanted: set<nat>, readings: seq<Reading>): set<nat> {
    if readings == [] then wanted
    else
      var r := readings[|readings| - 1];
      Remaining(wanted, readings[..|readings| - 1]) - if r.Read? then AsSet(Selected(r.select)) else {}
  }

  /** Reading c gave this PCR this digest. */
  predicate Gave(r: Reading, pcr: nat, digest: bytes) {
    r.Read? && |r.digests| == |Selected(r.select)| && exists n | 0 <= n < |r.digests| ::
        Selected(r.select)[n] == pcr && r.digests[n] == digest
  }

  /** The calls made: each for exactly what the ones before left. */
  ghost predicate Asked(tpm: Reader, wanted: set<nat>, readings: seq<Reading>) {
    forall c | 0 <= c < |readings| :: readings[c] == tpm(c, Remaining(wanted, readings[..c]))
  }

  ghost predicate Sourced(readings: seq<Reading>, values: map<nat, bytes>) {
    forall pcr | pcr in values :: |values[pcr]| == 32 && exists c | 0 <= c < |readings| ::
        Gave(readings[c], pcr, values[pcr])
  }

  /** One answer as it should be: some of what was wanted, eight of it at least if there is so much, each with its
      SHA-256 digest. */
  ghost predicate Conforms(r: Reading, wanted: set<nat>) {
    && r.Read? && r.banks == 1 && r.sha256 && |r.digests| == |Selected(r.select)|
       && (forall d | d in r.digests :: |d| == 32)
    && AsSet(Selected(r.select)) <= wanted && |Selected(r.select)| >= (if |wanted| < 8 then |wanted| else 8)
  }

  ghost predicate ArePcrIndices(s: set<nat>) { forall p | p in s :: p < 24 }

  /** A TPM with 24 PCRs that answers every selection of them as it should. */
  ghost predicate Conforming(tpm: Reader) {
    forall c, wanted | wanted != {} && ArePcrIndices(wanted) :: Conforms(tpm(c, wanted), wanted)
  }

  /** The first n of the PCRs given, each with its digest. */
  ghost predicate TakenTo(given: seq<nat>, digests: seq<bytes>, n: nat, taken: map<nat, bytes>)
    requires n <= |given| == |digests|
  {
    && |taken| == n && (forall pcr | pcr in taken :: exists k | 0 <= k < n :: given[k] == pcr)
    && (forall k | 0 <= k < n :: given[k] in taken && taken[given[k]] == digests[k] && |digests[k]| == 32)
  }

  lemma TakeOne(given: seq<nat>, digests: seq<bytes>, n: nat, taken: map<nat, bytes>)
    requires n < |given| == |digests| && Ascending(given) && TakenTo(given, digests, n, taken) && |digests[n]| == 32
    ensures TakenTo(given, digests, n + 1, taken[given[n] := digests[n]])
  {
  }

  lemma TakenAll(r: Reading, taken: map<nat, bytes>)
    requires r.Read? && |Selected(r.select)| == |r.digests|
             && TakenTo(Selected(r.select), r.digests, |r.digests|, taken)
    ensures taken.Keys == AsSet(Selected(r.select)) && |taken| == |Selected(r.select)|
    ensures forall pcr | pcr in taken :: |taken[pcr]| == 32 && Gave(r, pcr, taken[pcr])
  {
    hide Selected;
    var given := Selected(r.select);
    forall pcr | pcr in taken ensures |taken[pcr]| == 32 && Gave(r, pcr, taken[pcr]) && pcr in given {
      var k :| 0 <= k < |given| && given[k] == pcr;
      assert given[k] == pcr && r.digests[k] == taken[pcr];
    }
    forall pcr | pcr in given ensures pcr in taken {
      var k :| 0 <= k < |given| && given[k] == pcr;
    }
  }

  /** An answer this call could have: of the SHA-256 bank alone, some of what is left to read, each with its digest. */
  ghost predicate Fits(r: Reading, remaining: set<nat>) {
    && r.Read? && r.banks == 1 && r.sha256 && 0 < |Selected(r.select)| == |r.digests|
    && AsSet(Selected(r.select)) <= remaining && forall d | d in r.digests :: |d| == 32
  }

  lemma ConformsFits(r: Reading, remaining: set<nat>)
    requires remaining != {} && Conforms(r, remaining)
    ensures Fits(r, remaining)
  {
    hide Selected;
  }

  lemma FitsByOne(r: Reading, remaining: set<nat>)
    requires r.Read? && r.banks == 1 && r.sha256 && 0 < |Selected(r.select)| == |r.digests|
    ensures Fits(r, remaining)
            <==> forall n | 0 <= n < |r.digests| :: Selected(r.select)[n] in remaining && |r.digests[n]| == 32
  {
    hide Selected;
    var given := Selected(r.select);
    assert forall n | 0 <= n < |given| :: given[n] in AsSet(given) && r.digests[n] in r.digests;
  }

  /** One answer taken in: its digests by PCR, exactly if it is one this call could have. */
  method Take(r: Reading, remaining: set<nat>) returns (ok: bool, taken: map<nat, bytes>)
    requires r.Read?
    ensures ok ==> taken.Keys == AsSet(Selected(r.select)) <= remaining && 0 < |taken| == |Selected(r.select)|
    ensures ok ==> forall pcr | pcr in taken :: |taken[pcr]| == 32 && Gave(r, pcr, taken[pcr])
    ensures ok <==> Fits(r, remaining)
  {
    hide Selected, Gave, TakenTo;
    var given := Given(r.select);
    SelectedAscends(r.select);
    taken := map[];
    if r.banks != 1 || !r.sha256 { return false, taken; }
    if |given| == 0 || |given| != |r.digests| { return false, taken; }
    FitsByOne(r, remaining);
    hide Fits;
    assert TakenTo(given, r.digests, 0, taken) by { TakenNone(given, r.digests); }
    for n := 0 to |given|
      invariant TakenTo(given, r.digests, n, taken)
      invariant forall k | 0 <= k < n :: given[k] in remaining && |r.digests[k]| == 32
    {
      if given[n] !in remaining || |r.digests[n]| != 32 { return false, taken; }
      TakeOne(given, r.digests, n, taken);
      taken := taken[given[n] := r.digests[n]];
    }
    TakenAll(r, taken);
    WithinRemaining(given, remaining);
    ok := true;
  }

  lemma WithinRemaining(given: seq<nat>, remaining: set<nat>)
    requires forall k | 0 <= k < |given| :: given[k] in remaining
    ensures AsSet(given) <= remaining
  {
  }

  lemma TakenNone(given: seq<nat>, digests: seq<bytes>)
    requires |given| == |digests|
    ensures TakenTo(given, digests, 0, map[])
  {
  }

  lemma {:induction false} Bounded(s: set<nat>, n: nat)
    requires forall x | x in s :: x < n
    ensures |s| <= n
  {
    if n == 0 {
      assert s == {};
    } else {
      Bounded(s - {n - 1}, n - 1);
    }
  }

  lemma SourcedGrows(readings: seq<Reading>, r: Reading, values: map<nat, bytes>, taken: map<nat, bytes>)
    requires Sourced(readings, values) && forall pcr | pcr in taken :: |taken[pcr]| == 32 && Gave(r, pcr, taken[pcr])
    ensures Sourced(readings + [r], values + taken)
  {
    hide Gave;
    var all := readings + [r];
    forall pcr | pcr in values + taken
      ensures |(values + taken)[pcr]| == 32 && exists c | 0 <= c < |all| :: Gave(all[c], pcr, (values + taken)[pcr])
    {
      if pcr in taken {
        assert Gave(all[|readings|], pcr, taken[pcr]);
      } else {
        var c :| 0 <= c < |readings| && Gave(readings[c], pcr, values[pcr]);
        assert Gave(all[c], pcr, values[pcr]);
      }
    }
  }

  lemma AskedGrows(tpm: Reader, wanted: set<nat>, readings: seq<Reading>)
    requires Asked(tpm, wanted, readings)
    ensures Asked(tpm, wanted, readings + [tpm(|readings|, Remaining(wanted, readings))])
  {
    var all := readings + [tpm(|readings|, Remaining(wanted, readings))];
    assert all[..|readings|] == readings;
    assert forall c | 0 <= c < |readings| :: all[..c] == readings[..c];
    hide Remaining;
  }

  predicate ArePcrs(pcrs: seq<int>) { forall p | p in pcrs :: 0 <= p <= 23 }

  function Wanted(pcrs: seq<int>): set<nat> { set p | p in pcrs && p >= 0 :: p as nat }

  method ToRead(pcrs: seq<int>) returns (valid: bool, remaining: set<nat>)
    ensures valid <==> ArePcrs(pcrs)
    ensures valid <==> forall p | p in pcrs :: 0 <= p <= 23
    ensures valid ==> forall p: nat :: p in remaining <==> p in pcrs
    ensures valid ==> remaining == Wanted(pcrs) && |remaining| <= 24 && ArePcrIndices(remaining)
  {
    remaining := {};
    for i := 0 to |pcrs|
      invariant forall k | 0 <= k < i :: 0 <= pcrs[k] <= 23 && pcrs[k] in remaining
      invariant forall p | p in remaining :: p in pcrs && p <= 23
    {
      if pcrs[i] < 0 || pcrs[i] > 23 {
        assert pcrs[i] in pcrs;
        return false, remaining;
      }
      remaining := remaining + {pcrs[i]};
    }
    assert remaining == Wanted(pcrs);
    Bounded(remaining, 24);
    valid := true;
  }

  /** From call c on the TPM gives all that is left within the calls allowed, by answers that fit. */
  ghost predicate CanRead(tpm: Reader, c: nat, remaining: set<nat>)
    decreases if c < MAX_READS then MAX_READS - c else 0
  {
    || remaining == {}
    || (&& c < MAX_READS && Fits(tpm(c, remaining), remaining)
        && CanRead(tpm, c + 1, remaining - AsSet(Selected(tpm(c, remaining).select))))
  }

  lemma CanReadOn(tpm: Reader, c: nat, remaining: set<nat>)
    requires remaining != {} && c < MAX_READS
    ensures CanRead(tpm, c, remaining) ==> Fits(tpm(c, remaining), remaining)
    ensures Fits(tpm(c, remaining), remaining)
            ==> (CanRead(tpm, c, remaining)
                 <==> CanRead(tpm, c + 1, remaining - AsSet(Selected(tpm(c, remaining).select))))
  {
    hide Fits, Selected, AsSet;
  }

  lemma CanReadEnds(tpm: Reader, c: nat, remaining: set<nat>)
    requires remaining == {} || c == MAX_READS
    ensures CanRead(tpm, c, remaining) <==> remaining == {}
  {
  }

  /** What the reading loop keeps. */
  ghost predicate Progress(tpm: Reader, wanted: set<nat>, readings: seq<Reading>, remaining: set<nat>,
                           values: map<nat, bytes>)
  {
    && Asked(tpm, wanted, readings) && Sourced(readings, values) && remaining == Remaining(wanted, readings)
    && remaining <= wanted && values.Keys == wanted - remaining && ArePcrIndices(wanted)
    && (Conforming(tpm) && remaining != {} ==> |remaining| <= 24 - 8 * |readings|)
  }

  lemma Begins(tpm: Reader, wanted: set<nat>)
    requires |wanted| <= 24 && ArePcrIndices(wanted)
    ensures Progress(tpm, wanted, [], wanted, map[])
  {
  }

  lemma Proceeds(tpm: Reader, wanted: set<nat>, readings: seq<Reading>, remaining: set<nat>, values: map<nat, bytes>,
                 taken: map<nat, bytes>)
    requires Progress(tpm, wanted, readings, remaining, values) && remaining != {}
    requires var r := tpm(|readings|, remaining);
             r.Read? && taken.Keys == AsSet(Selected(r.select)) <= remaining && |taken| == |Selected(r.select)|
             && forall pcr | pcr in taken :: |taken[pcr]| == 32 && Gave(r, pcr, taken[pcr])
    ensures Progress(tpm, wanted, readings + [tpm(|readings|, remaining)], remaining - taken.Keys, values + taken)
  {
    hide Selected, Gave, Conforms, Remaining, Asked, Sourced, AsSet, Conforming;
    var r := tpm(|readings|, remaining);
    RemainingShrinks(wanted, readings, r);
    AskedGrows(tpm, wanted, readings);
    SourcedGrows(readings, r, values, taken);
    LeftOver(remaining, r, taken);
    if Conforming(tpm) { ConformsHere(tpm, |readings|, remaining); }
    KeysMove(values, taken, wanted, remaining);
  }

  lemma ProgressMeans(tpm: Reader, wanted: set<nat>, readings: seq<Reading>, remaining: set<nat>,
                      values: map<nat, bytes>)
    requires Progress(tpm, wanted, readings, remaining, values)
    ensures Asked(tpm, wanted, readings) && Sourced(readings, values) && remaining == Remaining(wanted, readings)
    ensures values.Keys == wanted - remaining && (remaining == {} ==> values.Keys == wanted)
    ensures Conforming(tpm) && |readings| == MAX_READS ==> remaining == {}
    ensures Conforming(tpm) && remaining != {} ==> Fits(tpm(|readings|, remaining), remaining)
  {
    hide Asked, Sourced, Remaining, Conforming, Fits, Conforms;
    if Conforming(tpm) && remaining != {} {
      ConformsHere(tpm, |readings|, remaining);
      ConformsFits(tpm(|readings|, remaining), remaining);
    }
  }

  lemma KeysMove(values: map<nat, bytes>, taken: map<nat, bytes>, wanted: set<nat>, remaining: set<nat>)
    requires values.Keys == wanted - remaining && taken.Keys <= remaining <= wanted
    ensures (values + taken).Keys == wanted - (remaining - taken.Keys) && remaining - taken.Keys <= wanted
  {
  }

  lemma ConformsHere(tpm: Reader, c: nat, wanted: set<nat>)
    requires Conforming(tpm) && wanted != {} && ArePcrIndices(wanted)
    ensures Conforms(tpm(c, wanted), wanted)
  {
  }

  lemma RemainingShrinks(wanted: set<nat>, readings: seq<Reading>, r: Reading)
    requires r.Read?
    ensures Remaining(wanted, readings + [r]) == Remaining(wanted, readings) - AsSet(Selected(r.select))
  {
    assert (readings + [r])[..|readings|] == readings;
  }

  /** The value of every PCR asked for, and of no other, each the digest the TPM returned for it, in four reads at
      most; or an error. A TPM that answers as it should, however it splits the answer, is never an error. */
  method PcrValues(tpm: Reader, pcrs: seq<int>) returns (r: Option<map<nat, bytes>>, readings: seq<Reading>)
    ensures |readings| <= 4 && Asked(tpm, Wanted(pcrs), readings)
    ensures r.Some? ==> r.value.Keys == Wanted(pcrs) && Sourced(readings, r.value)
    ensures r.Some? <==> ArePcrs(pcrs) && CanRead(tpm, 0, Wanted(pcrs))
    ensures Conforming(tpm) && ArePcrs(pcrs) ==> r.Some?
  {
    hide Selected, Gave, Asked, Conforms, Sourced, Remaining, AsSet, ArePcrs, Wanted, Fits, CanRead,
      Progress, Conforming;
    var values: map<nat, bytes> := map[];
    readings := [];
    ghost var wanted := Wanted(pcrs);
    NothingAsked(tpm, wanted);
    var valid, remaining := ToRead(pcrs);
    if !valid { return None, readings; }
    Begins(tpm, wanted);
    while remaining != {} && |readings| < MAX_READS
      invariant |readings| <= MAX_READS && Progress(tpm, wanted, readings, remaining, values)
      invariant CanRead(tpm, 0, wanted) <==> CanRead(tpm, |readings|, remaining)
      decreases MAX_READS - |readings|
    {
      var read := tpm(|readings|, remaining);
      ProgressMeans(tpm, wanted, readings, remaining, values);
      AskedGrows(tpm, wanted, readings);
      CanReadOn(tpm, |readings|, remaining);
      FitsIsRead(read, remaining);
      if read.Refused? { return None, readings + [read]; }
      var ok, taken := Take(read, remaining);
      if !ok { return None, readings + [read]; }
      Proceeds(tpm, wanted, readings, remaining, values, taken);
      readings := readings + [read];
      values := values + taken;
      remaining := remaining - taken.Keys;
    }
    ProgressMeans(tpm, wanted, readings, remaining, values);
    CanReadEnds(tpm, |readings|, remaining);
    r := if remaining != {} then None else Some(values);
  }

  lemma NothingAsked(tpm: Reader, wanted: set<nat>)
    ensures Asked(tpm, wanted, []) && Sourced([], map[])
  {
  }

  lemma FitsIsRead(r: Reading, remaining: set<nat>)
    ensures Fits(r, remaining) ==> r.Read?
  {
  }

  lemma LeftOver(remaining: set<nat>, r: Reading, taken: map<nat, bytes>)
    requires r.Read? && taken.Keys <= remaining && |taken| == |Selected(r.select)|
    ensures Conforms(r, remaining) && remaining - taken.Keys != {} ==> |remaining - taken.Keys| + 8 <= |remaining|
  {
    hide Selected;
    assert |taken.Keys| == |taken|;
    assert remaining == (remaining - taken.Keys) + taken.Keys;
    assert |remaining| == |remaining - taken.Keys| + |taken.Keys|;
  }

  // ---- the quote's own digest ----

  /** The values in index order, as a quote's digest covers them. */
  function Joined(values: map<nat, bytes>, below: nat): bytes {
    if below == 0 then [] else Joined(values, below - 1) + if below - 1 in values then values[below - 1] else []
  }

  ghost predicate InRange(values: map<nat, bytes>) { forall p | p in values :: p < 24 }

  lemma {:induction false} JoinedSkips(values: map<nat, bytes>, low: nat, high: nat)
    requires low <= high && forall p | low <= p < high :: p !in values
    ensures Joined(values, low) == Joined(values, high)
  {
    if low < high { JoinedSkips(values, low, high - 1); }
  }

  /** How many of these PCRs are below one. */
  function Below(values: map<nat, bytes>, p: nat): nat {
    if p == 0 then 0 else Below(values, p - 1) + if p - 1 in values then 1 else 0
  }

  lemma {:induction false} JoinedLength(values: map<nat, bytes>, below: nat)
    requires forall p | p in values :: |values[p]| == 32
    ensures |Joined(values, below)| == 32 * Below(values, below)
  {
    if below > 0 { JoinedLength(values, below - 1); }
  }

  /** Each value stands after those of the lower PCRs, and nothing else is there. */
  lemma {:induction false} JoinedInOrder(values: map<nat, bytes>, below: nat, p: nat)
    requires (forall q | q in values :: |values[q]| == 32) && p in values && p < below
    ensures var at := 32 * Below(values, p);
            at + 32 <= |Joined(values, below)| && Joined(values, below)[at..at + 32] == values[p]
  {
    JoinedLength(values, below - 1);
    if p < below - 1 {
      JoinedInOrder(values, below - 1, p);
      var front := Joined(values, below - 1);
      var at := 32 * Below(values, p);
      assert Joined(values, below)[at..at + 32] == front[at..at + 32];
    }
  }

  method PcrDigest(hash: Hash, values: map<nat, bytes>) returns (d: Digest)
    requires InRange(values)
    ensures d == hash(Joined(values, 24))
  {
    var rest, written: bytes := values.Keys, [];
    ghost var done := 0;
    while rest != {}
      invariant rest <= values.Keys && 0 <= done <= 24 && written == Joined(values, done)
      invariant forall p | p in values :: p in rest <==> p >= done
      decreases |rest|
    {
      HasLeast(rest);
      var i :| i in rest && forall j | j in rest :: i <= j;
      JoinedSkips(values, done, i);
      written := written + values[i];
      rest := rest - {i};
      done := i + 1;
    }
    JoinedSkips(values, done, 24);
    d := hash(written);
  }

  datatype Attested = Attested(attest: bytes, signature: bytes, pcrDigest: Option<bytes>)

  /** A TPM over the tries: the quote of each, and its readings. `pcrDigest` is what the attestation holds, if it is a
      quote at all. */
  datatype Tpm = Tpm(quote: nat -> Option<Attested>, read: nat -> Reader)

  datatype Quoted = Quoted(attested: Attested, values: Option<map<nat, bytes>>)

  /** What was read beside a quote: the readings, and the values of exactly the quoted PCRs that they gave. */
  datatype Beside = Beside(readings: seq<Reading>, values: map<nat, bytes>)

  ghost predicate IsBeside(tpm: Reader, pcrs: seq<int>, b: Beside) {
    b.values.Keys == Wanted(pcrs) && Asked(tpm, Wanted(pcrs), b.readings) && Sourced(b.readings, b.values)
  }

  /** The values hash, in index order, to the quote's own digest. */
  predicate Matches(hash: Hash, q: Attested, b: Beside) { q.pcrDigest == Some(hash(Joined(b.values, 24))) }

  /** The TPM quotes in this try, the PCRs can be read beside it, and what it made is a quote. */
  ghost predicate Answers(tpm: Tpm, k: nat, pcrs: seq<int>) {
    && tpm.quote(k).Some? && tpm.quote(k).value.pcrDigest.Some?
    && ArePcrs(pcrs) && CanRead(tpm.read(k), 0, Wanted(pcrs))
  }

  /** Values go with a quote only if they are what was read beside it and match it, and no quote before it was matched;
      a quote goes without them only after three quotes were each beside readings that did not match; and there is none
      only if the TPM does not answer, before any match. */
  method TpmQuote(hash: Hash, tpm: Tpm, pcrs: seq<int>) returns (r: Option<Quoted>, at: nat, tries: seq<Beside>)
    ensures |tries| <= 3
    ensures forall k | 0 <= k < |tries| :: tpm.quote(k).Some? && IsBeside(tpm.read(k), pcrs, tries[k])
    ensures at < MAX_QUOTES && at <= |tries| && forall k | 0 <= k < at ::
              Answers(tpm, k, pcrs) && !Matches(hash, tpm.quote(k).value, tries[k])
    ensures r.Some? <==> Answers(tpm, at, pcrs)
    ensures r.Some? ==> |tries| == at + 1 && tpm.quote(at) == Some(r.value.attested)
    ensures r.Some? && r.value.values.Some?
            ==> r.value.values.value == tries[at].values && Matches(hash, r.value.attested, tries[at])
    ensures r.Some? && r.value.values.None?
            ==> at == 2 && !Matches(hash, r.value.attested, tries[at])
    ensures Steady(hash, tpm, pcrs) ==> r.Some? && r.value.values.Some? && at == 0
  {
    hide Sourced, Asked, Conforming, Joined, CanRead, Wanted, ArePcrs, Steady;
    var last: Option<Attested> := None;
    at, tries := 0, [];
    for t := 0 to MAX_QUOTES
      invariant |tries| == t && forall k | 0 <= k < t ::
        && Answers(tpm, k, pcrs) && IsBeside(tpm.read(k), pcrs, tries[k])
        && !Matches(hash, tpm.quote(k).value, tries[k])
      invariant t > 0 ==> at == t - 1 && last == tpm.quote(at)
      invariant Steady(hash, tpm, pcrs) ==> t == 0
    {
      if Steady(hash, tpm, pcrs) { SteadyMeans(hash, tpm, pcrs); }
      at, last := t, tpm.quote(t);
      if last.None? { return None, at, tries; }
      var values, readings := PcrValues(tpm.read(t), pcrs);
      if values.None? { return None, at, tries; }
      WantedInRange(pcrs, values.value);
      tries := tries + [Beside(readings, values.value)];
      if last.value.pcrDigest.None? { return None, at, tries; }
      var d := PcrDigest(hash, values.value);
      if last.value.pcrDigest == Some(d) { return Some(Quoted(last.value, values)), at, tries; }
      if Steady(hash, tpm, pcrs) { SteadyMatches(hash, tpm, pcrs, values.value, readings); }
    }
    r := Some(Quoted(last.value, None));
  }

  /** The PCRs hold still: the first quote is over the values the readings beside it give, and the TPM answers as it
      should. */
  ghost predicate Steady(hash: Hash, tpm: Tpm, pcrs: seq<int>) {
    && Conforming(tpm.read(0)) && ArePcrs(pcrs) && tpm.quote(0).Some?
    && exists held: map<nat, bytes> :: held.Keys == Wanted(pcrs) && Truthful(tpm.read(0), held)
                                       && tpm.quote(0).value.pcrDigest == Some(hash(Joined(held, 24)))
  }

  /** What is read of a PCR is what it holds. */
  ghost predicate Truthful(tpm: Reader, held: map<nat, bytes>) {
    forall c, wanted, pcr, d | pcr in held && Gave(tpm(c, wanted), pcr, d) :: d == held[pcr]
  }

  lemma WantedInRange(pcrs: seq<int>, values: map<nat, bytes>)
    requires ArePcrs(pcrs) && values.Keys == Wanted(pcrs)
    ensures InRange(values)
  {
  }

  lemma SteadyMeans(hash: Hash, tpm: Tpm, pcrs: seq<int>)
    requires Steady(hash, tpm, pcrs)
    ensures Conforming(tpm.read(0)) && ArePcrs(pcrs) && tpm.quote(0).Some? && tpm.quote(0).value.pcrDigest.Some?
  {
    hide Conforming, Joined;
  }

  lemma SteadyMatches(hash: Hash, tpm: Tpm, pcrs: seq<int>, values: map<nat, bytes>, readings: seq<Reading>)
    requires Steady(hash, tpm, pcrs) && values.Keys == Wanted(pcrs) && Sourced(readings, values)
             && Asked(tpm.read(0), Wanted(pcrs), readings)
    ensures tpm.quote(0).value.pcrDigest == Some(hash(Joined(values, 24)))
  {
    hide Joined, Gave, Conforming, Remaining;
    var held: map<nat, bytes> :| held.Keys == Wanted(pcrs) && Truthful(tpm.read(0), held)
                                 && tpm.quote(0).value.pcrDigest == Some(hash(Joined(held, 24)));
    forall pcr | pcr in values ensures values[pcr] == held[pcr] {
      var c :| 0 <= c < |readings| && Gave(readings[c], pcr, values[pcr]);
      assert Gave(tpm.read(0)(c, Remaining(Wanted(pcrs), readings[..c])), pcr, values[pcr]);
    }
    assert values == held;
  }

  // ---- such TPMs there are ----

  function Bit(on: bool): (b: nat)
    ensures b <= 1
  {
    if on then 1 else 0
  }

  /** The byte of a selection that names the PCRs from `base` on that are wanted. */
  function Mask(wanted: set<nat>, base: nat): byte {
    Bit(base in wanted) + 2 * Bit(base + 1 in wanted) + 4 * Bit(base + 2 in wanted) + 8 * Bit(base + 3 in wanted)
    + 16 * Bit(base + 4 in wanted) + 32 * Bit(base + 5 in wanted) + 64 * Bit(base + 6 in wanted)
        + 128 * Bit(base + 7 in wanted)
  }

  lemma BitAt(m: nat, low: nat, weight: nat, on: bool, high: nat)
    requires low < weight && m == low + weight * (Bit(on) + 2 * high)
    ensures m / weight % 2 == Bit(on)
  {
    Division(m, weight, Bit(on) + 2 * high, low);
  }

  lemma MaskBits(wanted: set<nat>, base: nat, bit: nat)
    requires bit < 8
    ensures IsSet(Mask(wanted, base), bit) <==> base + bit in wanted
  {
    assert Pow2(1) == 2 && Pow2(2) == 4 && Pow2(3) == 8 && Pow2(4) == 16;
    assert Pow2(5) == 32 && Pow2(6) == 64 && Pow2(7) == 128;
    assert Bit(base + bit in wanted) == 1 <==> base + bit in wanted;
    hide Bit, Pow2, Mask;
    match bit
    case 0 => LowBits(wanted, base); assert base + 0 == base;
    case 1 => LowBits(wanted, base);
    case 2 => LowBits(wanted, base);
    case 3 => LowBits(wanted, base);
    case _ => HighBits(wanted, base, bit);
  }

  /** The four lowest bits of a number. */
  lemma FourBits(m: nat, b0: bool, b1: bool, b2: bool, b3: bool, high: nat)
    requires m == Bit(b0) + 2 * Bit(b1) + 4 * Bit(b2) + 8 * Bit(b3) + 16 * high
    ensures m / 1 % 2 == Bit(b0) && m / 2 % 2 == Bit(b1)
    ensures m / 4 % 2 == Bit(b2) && m / 8 % 2 == Bit(b3)
  {
    hide Bit;
    assert m / 1 % 2 == Bit(b0) by { BitAt(m, 0, 1, b0, Bit(b1) + 2 * Bit(b2) + 4 * Bit(b3) + 8 * high); }
    assert m / 2 % 2 == Bit(b1) by { BitAt(m, Bit(b0), 2, b1, Bit(b2) + 2 * Bit(b3) + 4 * high); }
    assert m / 4 % 2 == Bit(b2) by { BitAt(m, Bit(b0) + 2 * Bit(b1), 4, b2, Bit(b3) + 2 * high); }
    assert m / 8 % 2 == Bit(b3) by { BitAt(m, Bit(b0) + 2 * Bit(b1) + 4 * Bit(b2), 8, b3, high); }
  }

  function High(wanted: set<nat>, base: nat): nat {
    Bit(base + 4 in wanted) + 2 * Bit(base + 5 in wanted) + 4 * Bit(base + 6 in wanted) + 8 * Bit(base + 7 in wanted)
  }

  lemma MaskIs(wanted: set<nat>, base: nat)
    ensures Mask(wanted, base)
            == Bit(base in wanted) + 2 * Bit(base + 1 in wanted) + 4 * Bit(base + 2 in wanted)
               + 8 * Bit(base + 3 in wanted) + 16 * High(wanted, base)
  {
    hide Bit;
  }

  lemma LowBits(wanted: set<nat>, base: nat)
    ensures var m := Mask(wanted, base);
            && m / 1 % 2 == Bit(base in wanted) && m / 2 % 2 == Bit(base + 1 in wanted)
            && m / 4 % 2 == Bit(base + 2 in wanted) && m / 8 % 2 == Bit(base + 3 in wanted)
  {
    hide Bit, Mask, High;
    MaskIs(wanted, base);
    FourBits(Mask(wanted, base), base in wanted, base + 1 in wanted, base + 2 in wanted, base + 3 in wanted,
             High(wanted, base));
  }

  lemma HighBits(wanted: set<nat>, base: nat, bit: nat)
    requires 4 <= bit < 8
    ensures var weight := if bit == 4 then 16 else if bit == 5 then 32 else if bit == 6 then 64 else 128;
            Mask(wanted, base) / weight % 2 == Bit(base + bit in wanted)
  {
    var m, b, on := Mask(wanted, base), (i: nat) => Bit(base + i in wanted), base + bit in wanted;
    var l4 := b(0) + 2 * b(1) + 4 * b(2) + 8 * b(3);
    var l5 := l4 + 16 * b(4);
    var l6 := l5 + 32 * b(5);
    match bit
    case 4 => BitAt(m, l4, 16, on, b(5) + 2 * b(6) + 4 * b(7));
    case 5 => BitAt(m, l5, 32, on, b(6) + 2 * b(7));
    case 6 => BitAt(m, l6, 64, on, b(7));
    case _ => BitAt(m, l6 + 64 * b(6), 128, on, 0);
  }

  lemma {:induction false} MaskNames(wanted: set<nat>, base: nat, upTo: nat)
    requires upTo <= 8
    ensures forall p :: p in BitsOf(Mask(wanted, base), base, upTo) <==> base <= p < base + upTo && p in wanted
  {
    hide Mask, IsSet;
    if upTo > 0 {
      MaskNames(wanted, base, upTo - 1);
      MaskBits(wanted, base, upTo - 1);
    }
  }

  function Selection(wanted: set<nat>): bytes { [Mask(wanted, 0), Mask(wanted, 8), Mask(wanted, 16)] }

  lemma SelectionNames(wanted: set<nat>)
    requires ArePcrIndices(wanted)
    ensures AsSet(Selected(Selection(wanted))) == wanted
  {
    var s := Selection(wanted);
    ThreeBytes(s);
    MaskNames(wanted, 0, 8);
    MaskNames(wanted, 8, 8);
    MaskNames(wanted, 16, 8);
    hide Mask, BitsOf, Selected;
  }

  lemma ThreeBytes(s: bytes)
    requires |s| == 3
    ensures Selected(s) == BitsOf(s[0], 0, 8) + BitsOf(s[1], 8, 8) + BitsOf(s[2], 16, 8)
  {
    hide BitsOf;
    var one, two := s[..1], s[..2];
    assert one[..0] == [] && two[..1] == one;
    assert Selected(one) == BitsOf(s[0], 0, 8);
    assert Selected(two) == BitsOf(s[0], 0, 8) + BitsOf(s[1], 8, 8);
  }

  /** A TPM that answers the whole of every selection at once with what its PCRs hold. */
  function WholeReader(held: nat -> Digest): Reader {
    (c: nat, wanted: set<nat>) =>
      var given := Selected(Selection(wanted));
      Read(1, true, Selection(wanted), seq(|given|, i requires 0 <= i < |given| => held(given[i])))
  }

  lemma {:induction false} SetOfSeq(s: seq<nat>)
    ensures |AsSet(s)| <= |s|
  {
    if s != [] {
      SetOfSeq(s[..|s| - 1]);
      assert s == s[..|s| - 1] + [s[|s| - 1]];
      assert AsSet(s) == AsSet(s[..|s| - 1]) + {s[|s| - 1]};
    }
  }

  lemma WholeReaderConforms(held: nat -> Digest)
    ensures Conforming(WholeReader(held))
  {
    hide Selected, Selection;
    forall c: nat, wanted: set<nat> | wanted != {} && ArePcrIndices(wanted)
      ensures Conforms(WholeReader(held)(c, wanted), wanted) {
      SelectionNames(wanted);
      SetOfSeq(Selected(Selection(wanted)));
    }
  }

  /** And one whose PCRs hold still, for any values they hold and any of them that are quoted. */
  lemma SteadyTpmExists(hash: Hash, held: nat -> Digest, pcrs: seq<int>)
    requires ArePcrs(pcrs)
    ensures exists tpm :: Steady(hash, tpm, pcrs)
  {
    hide Selected, Selection, Conforming, Joined;
    var values: map<nat, bytes> := map p | p in Wanted(pcrs) :: held(p);
    var attested := Attested([], [], Some(hash(Joined(values, 24))));
    var tpm := Tpm((t: nat) => Some(attested), (t: nat) => WholeReader(held));
    WholeReaderConforms(held);
    assert values.Keys == Wanted(pcrs);
    assert Truthful(tpm.read(0), values);
    assert Steady(hash, tpm, pcrs);
  }
}
