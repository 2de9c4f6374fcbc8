/** The path tokens of a disk: of the tokens in its metadata those usable by this node, by peer, the newest path
    first. What an entry decodes to is given. */
module PathTokens {
  import opened Octets
  import opened UnlockWire
  import opened UnlockAgent
  import opened WireFormats

  const MAX_REPORTED := 16

  /** `isSealed`: the local half in it is a systemd credential sealed to the TPM alone. */
  datatype PathToken = PathToken(version: int, keyslots: seq<bytes>, target: bytes, peer: bytes, pathEpoch: Uint64,
                                 isSealed: bool)

  /** One entry, in the order of the token IDs: not a path token at all, one whose fields are wrong, or one. */
  datatype Entry = Foreign | Garbled | Path(token: PathToken)

  predicate IsKeyslot(s: bytes) { exists n: nat | n <= 31 :: s == Decimal(n) }

  predicate Usable(t: PathToken, nodeId: bytes) {
    && t.version == 1 && |t.keyslots| == 1 && IsNodeId(t.target) && IsNodeId(t.peer) && t.target != t.peer
       && t.target == nodeId
    && 1 <= t.pathEpoch <= MAX_EPOCH && IsKeyslot(t.keyslots[0]) && t.isSealed
  }

  // ---- which tokens are taken ----

  predicate IsBad(e: Entry, nodeId: bytes) { e.Garbled? || (e.Path? && !Usable(e.token, nodeId)) }

  predicate IsGood(e: Entry, nodeId: bytes) { e.Path? && Usable(e.token, nodeId) }

  /** The entries that would be reported. */
  function Bad(es: seq<Entry>, nodeId: bytes): nat {
    if es == [] then 0 else Bad(es[..|es| - 1], nodeId) + if IsBad(es[|es| - 1], nodeId) then 1 else 0
  }

  /** The usable tokens that fewer than sixteen bad entries come before. */
  function Taken(es: seq<Entry>, nodeId: bytes): seq<PathToken> {
    if es == [] then []
    else
      var n := |es| - 1;
      Taken(es[..n], nodeId)
      + if IsGood(es[n], nodeId) && Bad(es[..n], nodeId) < MAX_REPORTED then [es[n].token] else []
  }

  function OfPeer(ts: seq<PathToken>, peer: bytes): seq<PathToken> {
    if ts == [] then [] else OfPeer(ts[..|ts| - 1], peer) + if ts[|ts| - 1].peer == peer then [ts[|ts| - 1]] else []
  }

  /** What is asked of a token: version 1, for this node, from another, by one keyslot from 0 to 31, at an epoch from 1
      to 2^63 - 1, with a sealed credential in it. */
  lemma UsableIff(t: PathToken, nodeId: bytes)
    ensures Usable(t, nodeId)
            <==> && t.version == 1 && t.target == nodeId && t.peer != nodeId && IsName(t.target) && IsName(t.peer)
                 && 0 < t.pathEpoch < 0x8000_0000_0000_0000 && t.isSealed
                 && exists n: nat | n < 32 :: t.keyslots == [Decimal(n)]
  {
    NameIff(t.target);
    NameIff(t.peer);
    hide IsName, IsNodeId, Decimal;
    if |t.keyslots| == 1 { assert t.keyslots == [t.keyslots[0]]; }
    if n: nat :| n < 32 && t.keyslots == [Decimal(n)] { assert t.keyslots[0] == Decimal(n); }
  }

  lemma {:induction false} TakenAreUsable(es: seq<Entry>, nodeId: bytes)
    ensures forall t | t in Taken(es, nodeId) :: Usable(t, nodeId)
  {
    if es != [] { TakenAreUsable(es[..|es| - 1], nodeId); }
  }

  predicate IsTakenAt(es: seq<Entry>, nodeId: bytes, i: nat)
    requires i < |es|
  {
    IsGood(es[i], nodeId) && Bad(es[..i], nodeId) < MAX_REPORTED
  }

  /** The places of the entries that would be reported: no path token at all, or one that cannot be used. */
  function Reported(es: seq<Entry>, nodeId: bytes): set<nat> {
    set i: nat | i < |es| && (es[i].Garbled? || (es[i].Path? && !Usable(es[i].token, nodeId)))
  }

  lemma {:induction false} BadCounts(es: seq<Entry>, nodeId: bytes)
    ensures Bad(es, nodeId) == |Reported(es, nodeId)|
  {
    hide Usable;
    if es != [] {
      var n := |es| - 1;
      BadCounts(es[..n], nodeId);
      var now := Reported(es, nodeId);
      assert now - {n} == Reported(es[..n], nodeId);
      if n in now { assert now == (now - {n}) + {n}; } else { assert now == now - {n}; }
    }
  }

  /** A token is taken exactly when it stands somewhere, usable, with fewer than sixteen bad entries before it. */
  lemma {:induction false} TakenIff(es: seq<Entry>, nodeId: bytes, t: PathToken)
    ensures t in Taken(es, nodeId) <==> exists i: nat | i < |es| && IsTakenAt(es, nodeId, i) :: es[i].token == t
  {
    if es != [] {
      var n := |es| - 1;
      TakenIff(es[..n], nodeId, t);
      forall i: nat | i < n ensures IsTakenAt(es, nodeId, i) <==> IsTakenAt(es[..n], nodeId, i) {
        assert es[..n][..i] == es[..i];
      }
      assert t in Taken(es, nodeId) <==> t in Taken(es[..n], nodeId) || (IsTakenAt(es, nodeId, n) && es[n].token == t);
    }
  }

  lemma {:induction false} BadGrows(es: seq<Entry>, nodeId: bytes, i: nat)
    requires i <= |es|
    ensures Bad(es[..i], nodeId) <= Bad(es, nodeId)
  {
    if i < |es| {
      BadGrows(es[..|es| - 1], nodeId, i);
      assert es[..|es| - 1][..i] == es[..i];
    } else {
      assert es[..i] == es;
    }
  }

  /** After sixteen bad entries nothing more is taken. */
  lemma {:induction false} NothingAfter(es: seq<Entry>, nodeId: bytes, i: nat)
    requires i <= |es| && Bad(es[..i], nodeId) >= MAX_REPORTED
    ensures Taken(es, nodeId) == Taken(es[..i], nodeId)
  {
    if i < |es| {
      var n := |es| - 1;
      assert es[..n][..i] == es[..i];
      NothingAfter(es[..n], nodeId, i);
      BadGrows(es[..n], nodeId, i);
    } else {
      assert es[..i] == es;
    }
  }

  function GarbledEntries(n: nat): seq<Entry> { seq(n, i => Entry.Garbled) }

  lemma {:induction false} AllGarbled(nodeId: bytes, n: nat)
    ensures Bad(GarbledEntries(n), nodeId) == n && Taken(GarbledEntries(n), nodeId) == []
  {
    var all := GarbledEntries(n);
    if n > 0 {
      AllGarbled(nodeId, n - 1);
      assert all[..n - 1] == GarbledEntries(n - 1);
    }
  }

  /** Any usable token after sixteen garbled ones is not taken. */
  lemma SixteenHideAny(nodeId: bytes, t: PathToken)
    requires Usable(t, nodeId)
    ensures IsGood(Path(t), nodeId) && Taken(GarbledEntries(16) + [Path(t)], nodeId) == []
  {
    var bad := GarbledEntries(16);
    var es := bad + [Path(t)];
    AllGarbled(nodeId, 16);
    assert es[..16] == bad;
    NothingAfter(es, nodeId, 16);
  }

  /** Such as the path by which node "b" helps node "a". */
  const A_TOKEN := PathToken(1, [Text("7")], Text("a"), Text("b"), 1, true)

  lemma SixteenHideOne()
    ensures Usable(A_TOKEN, Text("a")) && Taken([Path(A_TOKEN)], Text("a")) == [A_TOKEN]
    ensures Taken(GarbledEntries(16) + [Path(A_TOKEN)], Text("a")) == []
  {
    assert Decimal(7) == [0x37] == Text("7");
    assert IsKeyslot(A_TOKEN.keyslots[0]);
    assert Text("a") == [0x61] && Text("b") == [0x62];
    assert [Path(A_TOKEN)][..0] == [];
    SixteenHideAny(Text("a"), A_TOKEN);
  }

  // ---- newest first ----

  predicate Descending(ts: seq<PathToken>) { forall i, j | 0 <= i < j < |ts| :: ts[i].pathEpoch >= ts[j].pathEpoch }

  function Insert(t: PathToken, ts: seq<PathToken>): seq<PathToken> {
    if ts == [] || t.pathEpoch >= ts[0].pathEpoch then [t] + ts else [ts[0]] + Insert(t, ts[1..])
  }

  function Sorted(ts: seq<PathToken>): seq<PathToken> {
    if ts == [] then [] else Insert(ts[0], Sorted(ts[1..]))
  }

  lemma {:induction false} InsertAdds(t: PathToken, ts: seq<PathToken>)
    ensures multiset(Insert(t, ts)) == multiset(ts) + multiset{t}
    ensures forall x | x in Insert(t, ts) :: x == t || x in ts
  {
    if ts != [] && t.pathEpoch < ts[0].pathEpoch {
      InsertAdds(t, ts[1..]);
      assert ts == [ts[0]] + ts[1..];
    }
  }

  lemma {:induction false} InsertOk(t: PathToken, ts: seq<PathToken>)
    requires Descending(ts)
    ensures Descending(Insert(t, ts)) && multiset(Insert(t, ts)) == multiset(ts) + multiset{t}
  {
    InsertAdds(t, ts);
    if ts == [] || t.pathEpoch >= ts[0].pathEpoch {
      InFront(t, ts);
    } else {
      InsertOk(t, ts[1..]);
      InsertAdds(t, ts[1..]);
      InFront(ts[0], Insert(t, ts[1..]));
    }
  }

  lemma InFront(t: PathToken, ts: seq<PathToken>)
    requires Descending(ts) && forall x | x in ts :: x.pathEpoch <= t.pathEpoch
    ensures Descending([t] + ts)
  {
    var all := [t] + ts;
    assert forall i | 0 < i < |all| :: all[i] == ts[i - 1] && all[i] in ts;
  }

  lemma {:induction false} SortedOk(ts: seq<PathToken>)
    ensures Descending(Sorted(ts)) && multiset(Sorted(ts)) == multiset(ts)
  {
    if ts != [] {
      SortedOk(ts[1..]);
      InsertOk(ts[0], Sorted(ts[1..]));
      assert ts == [ts[0]] + ts[1..];
    }
  }

  // ---- the reading ----

  function At(paths: map<bytes, seq<PathToken>>, peer: bytes): seq<PathToken> {
    if peer in paths then paths[peer] else []
  }

  /** For each peer exactly the tokens taken for it, newest path first. */
  method Read(es: seq<Entry>, nodeId: bytes) returns (paths: map<bytes, seq<PathToken>>, skipped: nat)
    ensures forall peer ::
            multiset(At(paths, peer)) == multiset(OfPeer(Taken(es, nodeId), peer)) && Descending(At(paths, peer))
    ensures skipped == if Bad(es, nodeId) < MAX_REPORTED then Bad(es, nodeId) else MAX_REPORTED
  {
    paths, skipped := Gather(es, nodeId);
    ghost var gathered := paths;
    var peers := paths.Keys;
    while peers != {}
      invariant peers <= paths.Keys == gathered.Keys
      invariant forall p | p in paths :: paths[p] == if p in peers then gathered[p] else Sorted(gathered[p])
      decreases |peers|
    {
      var peer :| peer in peers;
      paths := paths[peer := Sorted(paths[peer])];
      peers := peers - {peer};
    }
    forall peer
      ensures multiset(At(paths, peer)) == multiset(OfPeer(Taken(es, nodeId), peer)) && Descending(At(paths, peer)) {
      SortedOk(At(gathered, peer));
    }
  }

  method Gather(es: seq<Entry>, nodeId: bytes) returns (paths: map<bytes, seq<PathToken>>, skipped: nat)
    ensures Gathered(paths, Taken(es, nodeId))
    ensures skipped == if Bad(es, nodeId) < MAX_REPORTED then Bad(es, nodeId) else MAX_REPORTED
  {
    hide Usable, Taken, Bad, OfPeer, At;
    paths, skipped := map[], 0;
    NothingTaken(nodeId);
    assert es[..0] == [];
    for i := 0 to |es|
      invariant Gathered(paths, Taken(es[..i], nodeId))
      invariant skipped == Bad(es[..i], nodeId) <= MAX_REPORTED
    {
      hide Gathered;
      if skipped >= MAX_REPORTED {
        NothingAfter(es, nodeId, i);
        BadGrows(es, nodeId, i);
        return;
      }
      OneMoreEntry(es, nodeId, i);
      var e := es[i];
      if IsBad(e, nodeId) {
        skipped := skipped + 1;
      } else if e.Path? {
        OneMore(paths, Taken(es[..i], nodeId), e.token);
        paths := paths[e.token.peer := At(paths, e.token.peer) + [e.token]];
      }
    }
    assert es[..|es|] == es;
  }

  ghost predicate Gathered(paths: map<bytes, seq<PathToken>>, ts: seq<PathToken>) {
    forall peer :: At(paths, peer) == OfPeer(ts, peer)
  }

  lemma NothingTaken(nodeId: bytes)
    ensures Taken([], nodeId) == [] && Bad([], nodeId) == 0 && Gathered(map[], [])
  {
  }

  lemma OneMoreEntry(es: seq<Entry>, nodeId: bytes, i: nat)
    requires i < |es|
    ensures Bad(es[..i + 1], nodeId) == Bad(es[..i], nodeId) + if IsBad(es[i], nodeId) then 1 else 0
    ensures var good := IsGood(es[i], nodeId) && Bad(es[..i], nodeId) < MAX_REPORTED;
            Taken(es[..i + 1], nodeId)
            == if good then Taken(es[..i], nodeId) + [es[i].token] else Taken(es[..i], nodeId)
  {
    hide Usable;
    assert es[..i + 1][..i] == es[..i];
  }

  lemma OneMore(paths: map<bytes, seq<PathToken>>, ts: seq<PathToken>, t: PathToken)
    requires Gathered(paths, ts)
    ensures Gathered(paths[t.peer := At(paths, t.peer) + [t]], ts + [t])
  {
    assert (ts + [t])[..|ts|] == ts;
    forall peer ensures At(paths[t.peer := At(paths, t.peer) + [t]], peer) == OfPeer(ts + [t], peer) {
      assert At(paths, peer) == OfPeer(ts, peer);
    }
  }

  // ---- what the agent makes of them ----

  function ForAgent(ts: seq<PathToken>): seq<Token>
    requires forall t | t in ts :: |t.keyslots| == 1
  {
    seq(|ts|, i requires 0 <= i < |ts| => assert ts[i] in ts; Token(ts[i].pathEpoch, ts[i].keyslots[0]))
  }

  /** The first attempt asks each peer by the newest of its paths. */
  lemma FirstAttemptIsNewest(config: Config, round: Round, peer: nat, ts: seq<PathToken>)
    requires peer < |config.peers| && ts != [] && Descending(ts) && forall t | t in ts :: |t.keyslots| == 1
    requires Tokens(config, peer) == ForAgent(ts)
    ensures forall t | t in ts :: t.pathEpoch <= ExchangeOf(config, round, 0, peer).pathEpoch
  {
    assert 0 % |ts| == 0;
    assert ExchangeOf(config, round, 0, peer).pathEpoch == ts[0].pathEpoch;
  }
}
