/** What one boot's session promises over every stream of replies, and what an honest peer gets from it. */
module UnlockGuarantees {
  import opened Octets
  import opened Results
  import opened UnlockWire
  import opened UnlockSession

  ghost predicate Pinned(xs: seq<Exchange>) { forall x | x in xs :: IsPin(x.pin) }

  /** The session after these exchanges, whatever each of them came to. */
  function After(c: Crypto, boot: Boot, xs: seq<Exchange>): Boot
    requires Pinned(xs)
  {
    if xs == [] then boot else Next(c, After(c, boot, xs[..|xs| - 1]), xs[|xs| - 1])
  }

  /** What exchange i of these comes to. */
  function At(c: Crypto, boot: Boot, xs: seq<Exchange>, i: nat): Option<Accepted>
    requires Pinned(xs) && i < |xs|
  {
    Outcome(c, After(c, boot, xs[..i]), xs[i])
  }

  // ---- one acceptance ----

  /** The session is spent after these exchanges if, and only if, it was before or one of them was accepted. */
  lemma {:induction false} SpentByAcceptance(c: Crypto, boot: Boot, xs: seq<Exchange>)
    requires Pinned(xs)
    ensures After(c, boot, xs).consumed <==> boot.consumed || exists i | 0 <= i < |xs| :: At(c, boot, xs, i).Some?
  {
    hide Next, Outcome;
    if xs == [] {
      assert After(c, boot, xs) == boot;
    } else {
      hide At, After;
      var n := |xs| - 1;
      SpentByAcceptance(c, boot, xs[..n]);
      SpentNow(c, boot, xs);
      forall i | 0 <= i < n ensures At(c, boot, xs[..n], i) == At(c, boot, xs, i) { AtPrefix(c, boot, xs, n, i); }
    }
  }

  lemma SpentNow(c: Crypto, boot: Boot, xs: seq<Exchange>)
    requires Pinned(xs) && xs != []
    ensures After(c, boot, xs).consumed <==> After(c, boot, xs[..|xs| - 1]).consumed || At(c, boot, xs, |xs| - 1).Some?
  {
    hide Outcome, SpokeVersion1, Unsteady;
  }

  lemma AtPrefix(c: Crypto, boot: Boot, xs: seq<Exchange>, n: nat, i: nat)
    requires Pinned(xs) && i < n <= |xs|
    ensures At(c, boot, xs[..n], i) == At(c, boot, xs, i)
  {
    assert xs[..n][..i] == xs[..i] && xs[..n][i] == xs[i];
    hide Outcome, After;
  }

  /** In every stream of exchanges, with any peers and any replies, at most one response is accepted. */
  lemma AcceptsAtMostOnce(c: Crypto, boot: Boot, xs: seq<Exchange>, i: nat, j: nat)
    requires Pinned(xs) && i < j < |xs| && At(c, boot, xs, i).Some?
    ensures At(c, boot, xs, j).None?
  {
    AtPrefix(c, boot, xs, j, i);
    SpentByAcceptance(c, boot, xs[..j]);
    SpentStaysSpent(c, After(c, boot, xs[..j]), xs[j]);
  }

  // ---- every other outcome leaves it usable ----

  predicate SameSession(a: Boot, b: Boot) {
    a.nodeId == b.nodeId && a.id == b.id && a.ephemeralPublic == b.ephemeralPublic && a.key == b.key
        && a.consumed == b.consumed
  }

  /** What the diagnostics noted decides nothing. */
  lemma NotesDecideNothing(c: Crypto, a: Boot, b: Boot, x: Exchange)
    requires IsPin(x.pin) && SameSession(a, b)
    ensures Outcome(c, a, x) == Outcome(c, b, x)
  {
    hide Text, TranscriptOf, Genuine, Secret, Hex;
  }

  /** If none of these exchanges was accepted, the next one comes to what it would have come to at the start. */
  lemma {:induction false} FailuresLeaveItUsable(c: Crypto, boot: Boot, xs: seq<Exchange>, x: Exchange)
    requires Pinned(xs) && IsPin(x.pin)
    requires forall i | 0 <= i < |xs| :: At(c, boot, xs, i).None?
    ensures SameSession(After(c, boot, xs), boot)
    ensures Outcome(c, After(c, boot, xs), x) == Outcome(c, boot, x)
  {
    hide Outcome;
    if xs != [] {
      var n := |xs| - 1;
      forall i | 0 <= i < n ensures At(c, boot, xs[..n], i) == At(c, boot, xs, i) { AtPrefix(c, boot, xs, n, i); }
      FailuresLeaveItUsable(c, boot, xs[..n], x);
      assert At(c, boot, xs, n).None?;
    }
    NotesDecideNothing(c, After(c, boot, xs), boot, x);
  }

  // ---- an accepted response names its exchange ----

  lemma AcceptedIsGenuine(c: Crypto, boot: Boot, x: Exchange)
    requires IsPin(x.pin) && Outcome(c, boot, x).Some?
    ensures var e := Outcome(c, boot, x).value;
            && Genuine(c, boot.nodeId, boot.id, x.pin, x.pathEpoch, e.asked.epoch, c.hash(e.asked.Transcript()),
                       e.response, e.signature)
            && e.asked.nodeId == boot.nodeId && e.asked.sessionId == boot.id
               && e.asked.ephemeralPublic == boot.ephemeralPublic
            && |e.asked.nonce| == 32 && |e.secret| == SECRET_BYTES
            && e.response.peerId == x.pin.nodeId && e.response.pathEpoch == x.pathEpoch
            && e.response.nodeId == boot.nodeId && e.response.sessionId == Hex(boot.id)
            && e.response.transcriptSha256 == Hex(c.hash(e.asked.Transcript())) && e.response.epoch == e.asked.epoch
  {
    hide Text, TranscriptOf, Hex, SignedBy, IsValid;
  }

  /** The key of any attestation key with this Name verifies nothing but these digests: what its holder signed. */
  ghost predicate SignsOnly(c: Crypto, akName: bytes, signed: iset<Digest>) {
    forall area, d, sig | c.akIdentity(area).Some? && Hex(c.akIdentity(area).value.name) == akName
                          && c.verify(c.akIdentity(area).value.key, d, sig) :: d in signed
  }

  /** ACCEPTED MEANS SIGNED. If the pinned attestation key signed only these digests, then what an accepted exchange
      came with is one of them: a quote that the key signed, under the pinned endorsement key, over the digest of
      exactly the response that was accepted. */
  lemma AcceptedIsSigned(c: Crypto, boot: Boot, x: Exchange, signed: iset<Digest>)
    requires IsPin(x.pin) && Outcome(c, boot, x).Some? && SignsOnly(c, x.pin.akName, signed)
    ensures var e := Outcome(c, boot, x).value;
            && IsHex(e.signature.quote) && |e.signature.quote| % 2 == 0 && |e.signature.quote| <= 2048
            && |e.signature.akPublic| <= 2048 && |e.signature.sig| <= 512
            && var quote := Unhex(e.signature.quote);
            && c.hash(quote) in signed
            && c.parseAttest(quote)
               == Some(Attest(QualifiedName(c.hash, Unhex(x.pin.ekName), Unhex(x.pin.akName)),
                              c.hash(Signed(e.response))))
  {
    AcceptedIsGenuine(c, boot, x);
    hide Outcome, Text, IsValid, QualifiedName;
    var e := Outcome(c, boot, x).value;
    var ak := c.akIdentity(Unhex(e.signature.akPublic)).value;
    UnhexHex(ak.name);
  }

  /** And what it returns is what the session's own key decrypts of that response, under this transcript. */
  lemma AcceptedIsDecrypted(c: Crypto, boot: Boot, x: Exchange)
    requires IsPin(x.pin) && Outcome(c, boot, x).Some?
    ensures var e := Outcome(c, boot, x).value;
            && !boot.consumed && boot.key.Some? && IsHex(e.response.ciphertext) && |e.response.ciphertext| == 768
            && c.decrypt(boot.key.value, Unhex(e.response.ciphertext),
                         Text("regalia-unlock/v1/contribution\0") + c.hash(e.asked.Transcript()))
               == Some(e.secret)
  {
    hide Text, TranscriptOf, Hex, SignedBy;
  }

  /** A quote is taken, and an answer asked for, only under a hello in the version it was asked in, by the pinned peer,
      with an epoch and a nonce; and over exactly this exchange's transcript. */
  lemma QuotedUnderAGoodHello(c: Crypto, boot: Boot, x: Exchange)
    requires Quoted(c, boot, x).Some?
    ensures var q := Quoted(c, boot, x).value;
            && !boot.consumed && q.version in {1, 2} && x.send.hello(Hello(q.version, boot.nodeId)) == Reply(q.hello)
            && q.hello.v == q.version && q.hello.peerId == x.pin.nodeId && q.hello.error == []
            && 1 <= q.hello.epoch < 0x8000_0000_0000_0000 && |q.hello.nonce| == 64 && IsHex(q.hello.nonce)
            && x.quote(c.hash(TranscriptOf(boot.nodeId, q.hello.epoch, boot.id, boot.ephemeralPublic,
                                           Unhex(q.hello.nonce)))) == Some(q.quote)
  {
    hide Text, TranscriptOf;
  }

  /** What is then sent: this node and session, the path, the session's key, the peer's nonce, the quote and its
      signature; in version 2 with the PCR values, and in version 1 if there are none or the peer speaks no other. */
  lemma RequestReads(c: Crypto, boot: Boot, x: Exchange)
    requires Quoted(c, boot, x).Some?
    ensures var q, sent := Quoted(c, boot, x).value, Sent(c, boot, x);
            && sent != []
            && var values := if q.version == 2 then q.quote.values else None;
            sent[|sent| - 1]
            == Unlock(if values.Some? then 2 else 1, boot.nodeId, Hex(boot.id), x.pathEpoch, Hex(boot.ephemeralPublic),
                      q.hello.nonce, Hex(q.quote.attest), Hex(q.quote.signature), values)
  {
    hide Text, TranscriptOf, Hex, IsHex64, Greeting, SpokeVersion1;
  }

  /** And what is accepted is what the peer replies to that, without an error. */
  lemma AcceptedIsTheReply(c: Crypto, boot: Boot, x: Exchange)
    requires IsPin(x.pin) && Outcome(c, boot, x).Some?
    ensures var e, sent := Outcome(c, boot, x).value, Sent(c, boot, x);
            && sent != [] && sent[|sent| - 1].Unlock?
            && x.send.unlock(sent[|sent| - 1]) == Reply(UnlockReply([], Some(e.response), Some(e.signature)))
  {
    hide Text, TranscriptOf, Hex, IsHex64, Greeting, SpokeVersion1, Genuine, Secret;
  }

  /** The first hello is in version 2; one in version 1 follows if and only if the peer answers INVALID_REQUEST. */
  lemma HellosRead(c: Crypto, boot: Boot, x: Exchange)
    requires !boot.consumed
    ensures var sent, first := Sent(c, boot, x), x.send.hello(Hello(2, boot.nodeId));
            && |sent| >= 1 && sent[0] == Hello(2, boot.nodeId)
            && (Hello(1, boot.nodeId) in sent <==> first.Reply? && first.value.error == Text("INVALID_REQUEST"))
            && (Hello(1, boot.nodeId) in sent ==> |sent| >= 2 && sent[1] == Hello(1, boot.nodeId))
  {
    hide Quoted, Text;
  }

  /** The notes say that a hello in version 1 was sent, and that a quote in version 2 had no values. */
  lemma NotesRead(c: Crypto, boot: Boot, x: Exchange)
    requires IsPin(x.pin) && !boot.consumed
    ensures var q, next := Quoted(c, boot, x), Next(c, boot, x);
            && (next.spokeVersion1 <==> boot.spokeVersion1 || Hello(1, boot.nodeId) in Sent(c, boot, x))
            && (next.unsteadyPcrs
                <==> boot.unsteadyPcrs || (q.Some? && q.value.version == 2 && q.value.quote.values.None?))
  {
    HellosRead(c, boot, x);
    hide Quoted, Sent, Outcome, Text;
  }

  ghost function Hashed(e: Accepted): set<bytes> { {e.asked.Transcript(), Signed(e.response)} }

  /** One peer quote is accepted for one exchange only: whichever two boots accept it, from whichever pins, they are
      the same session of the same node, asking the same peer for the same path under the same nonce and epoch, and
      they get the same response; short of a collision among what was hashed. */
  lemma QuoteServesOneExchange(c: Crypto, b1: Boot, x1: Exchange, b2: Boot, x2: Exchange)
    requires IsPin(x1.pin) && IsPin(x2.pin)
    requires |b1.ephemeralPublic| < 0x1_0000_0000 && |b2.ephemeralPublic| < 0x1_0000_0000
    ensures var o1, o2 := Outcome(c, b1, x1), Outcome(c, b2, x2);
            o1.Some? && o2.Some? && o1.value.signature.quote == o2.value.signature.quote
                && ClashFree(c.hash, Hashed(o1.value) + Hashed(o2.value))
            ==> && o1.value.asked == o2.value.asked && o1.value.response == o2.value.response
                && b1.nodeId == b2.nodeId && b1.id == b2.id && b1.ephemeralPublic == b2.ephemeralPublic
                && x1.pin.nodeId == x2.pin.nodeId && x1.pathEpoch == x2.pathEpoch
  {
    var o1, o2 := Outcome(c, b1, x1), Outcome(c, b2, x2);
    if o1.Some? && o2.Some? && o1.value.signature.quote == o2.value.signature.quote
       && ClashFree(c.hash, Hashed(o1.value) + Hashed(o2.value)) {
      AcceptedIsGenuine(c, b1, x1);
      AcceptedIsGenuine(c, b2, x2);
      hide Outcome;
      SameQuoteSameExchange(c, b1, x1, o1.value, b2, x2, o2.value);
    }
  }

  lemma SameQuoteSameExchange(c: Crypto, b1: Boot, x1: Exchange, e1: Accepted, b2: Boot, x2: Exchange, e2: Accepted)
    requires IsPin(x1.pin) && IsPin(x2.pin)
    requires Genuine(c, b1.nodeId, b1.id, x1.pin, x1.pathEpoch, e1.asked.epoch, c.hash(e1.asked.Transcript()),
                     e1.response, e1.signature)
    requires Genuine(c, b2.nodeId, b2.id, x2.pin, x2.pathEpoch, e2.asked.epoch, c.hash(e2.asked.Transcript()),
                     e2.response, e2.signature)
    requires e1.asked.nodeId == b1.nodeId && e2.asked.nodeId == b2.nodeId
             && |e1.asked.sessionId| == |e2.asked.sessionId| == 32
    requires |e1.asked.nonce| == |e2.asked.nonce| == 32
    requires |e1.asked.ephemeralPublic| < 0x1_0000_0000 && |e2.asked.ephemeralPublic| < 0x1_0000_0000
    requires e1.signature.quote == e2.signature.quote
    ensures ClashFree(c.hash, Hashed(e1) + Hashed(e2)) ==> e1.asked == e2.asked && e1.response == e2.response
    ensures e1.response == e2.response ==> x1.pin.nodeId == x2.pin.nodeId && x1.pathEpoch == x2.pathEpoch
  {
    var s1, s2 := Signed(e1.response), Signed(e2.response);
    var t1, t2 := e1.asked.Transcript(), e2.asked.Transcript();
    assert c.hash(s1) == c.hash(s2);
    assert Hashed(e1) + Hashed(e2) == {t1, t2, s1, s2};
    assert e1.asked.Short() && e2.asked.Short();
    QuoteNamesOneUse(c.hash, e1.asked, e2.asked, e1.response, e2.response);
    if e1.response == e2.response { HexInjective(c.hash(t1), c.hash(t2)); }
  }

  // ---- an honest peer ----

  /** A peer that answers as it should: who it is, what it holds, and how it encrypts and signs. Its decision about the
      requester (its manifest, the requester's quote) is `admits`. */
  datatype Peer = Peer(nodeId: bytes, speaks2: bool, epoch: Uint64, manifestDigest: bytes, nonce: Digest,
                       admits: Request -> bool, contribution: (bytes, Uint64) -> Option<bytes>,
                       encrypt: (bytes, bytes, bytes) -> bytes,
                       akPublic: bytes, quoteOver: Digest -> bytes, sign: bytes -> bytes)

  const DENIED: string := "DENIED"

  function HonestHello(p: Peer, r: Request): Answer<HelloReply> {
    if r.Hello? && (r.v == 1 || (r.v == 2 && p.speaks2))
    then Reply(HelloReply(r.v, p.nodeId, p.epoch, Hex(p.nonce), []))
    else Reply(HelloReply(1, [], 0, [], Text(INVALID_REQUEST)))
  }

  function HonestResponse(hash: Hash, p: Peer, r: Request, contribution: bytes): Response
    requires r.Unlock? && WholeHex(r.sessionId, 32) && WholeHex(r.ephemeralPublic, |r.ephemeralPublic|)
             && WholeHex(r.nonce, 32)
  {
    var transcript := hash(TranscriptOf(r.nodeId, p.epoch, Unhex(r.sessionId), Unhex(r.ephemeralPublic),
                                        Unhex(r.nonce)));
    Response(Text(SCHEMA), p.nodeId, r.nodeId, p.epoch, p.manifestDigest, r.sessionId, Hex(transcript), r.pathEpoch,
             Hex(p.encrypt(Unhex(r.ephemeralPublic), contribution, Text(CONTRIBUTION_LABEL) + transcript)))
  }

  function HonestSignature(p: Peer, digest: Digest): PeerSignature {
    var quote := p.quoteOver(digest);
    PeerSignature(Hex(p.akPublic), Hex(quote), Hex(p.sign(quote)))
  }

  function HonestUnlock(hash: Hash, p: Peer, r: Request): Answer<UnlockReply> {
    if !r.Unlock? || (r.v == 2) != r.values.Some? || !p.admits(r) || p.contribution(r.nodeId, r.pathEpoch).None?
       || !WholeHex(r.sessionId, 32) || !WholeHex(r.ephemeralPublic, |r.ephemeralPublic|) || !WholeHex(r.nonce, 32)
    then Reply(UnlockReply(Text(DENIED), None, None))
    else
      var response := HonestResponse(hash, p, r, p.contribution(r.nodeId, r.pathEpoch).value);
      Reply(UnlockReply([], Some(response), Some(HonestSignature(p, hash(Signed(response))))))
  }

  function Honest(hash: Hash, p: Peer): Transport {
    Transport((r: Request) => HonestHello(p, r), (r: Request) => HonestUnlock(hash, p, r))
  }

  /** What its encryption is for: the session's key opens a contribution encrypted to it, under the same label. */
  ghost predicate Encrypts(c: Crypto, p: Peer, boot: Boot) {
    && boot.key.Some?
    && forall m, l | |m| == SECRET_BYTES ::
      && |p.encrypt(boot.ephemeralPublic, m, l)| == 384
      && c.decrypt(boot.key.value, p.encrypt(boot.ephemeralPublic, m, l), l) == Some(m)
  }

  /** And its attestation key: every quote is over its digest, by the pinned keys. */
  ghost predicate Signs(c: Crypto, p: Peer, pin: Pin)
    requires IsPin(pin)
  {
    && |p.akPublic| <= 1024 && c.akIdentity(p.akPublic).Some?
    && var ak := c.akIdentity(p.akPublic).value;
    && Hex(ak.name) == pin.akName
    && forall d: Digest :: |p.quoteOver(d)| <= 1024 && |p.sign(p.quoteOver(d))| <= 256
                           && c.verify(ak.key, c.hash(p.quoteOver(d)), p.sign(p.quoteOver(d)))
                           && c.parseAttest(p.quoteOver(d)) == Some(Attest(QualifiedName(c.hash, Unhex(pin.ekName),
                              ak.name), d))
  }

  /** The peer the pin names, in epochs the exchange can carry, that holds this contribution for this node and
      path. */
  ghost predicate Serves(p: Peer, pin: Pin, nodeId: bytes, pathEpoch: Uint64, contribution: bytes) {
    && p.nodeId == pin.nodeId && IsNodeId(nodeId) && 1 <= p.epoch <= MAX_EPOCH && 1 <= pathEpoch <= MAX_EPOCH
       && IsHex64(p.manifestDigest)
    && p.contribution(nodeId, pathEpoch) == Some(contribution) && |contribution| == SECRET_BYTES
  }

  /** The TPM quotes for this exchange, and the peer admits the request that carries the quote. */
  ghost predicate Admitted(c: Crypto, p: Peer, boot: Boot, x: Exchange) {
    var q := Quoted(c, boot, x);
    q.Some? && p.admits(UnlockRequest(boot, x.pathEpoch, q.value.version, q.value.hello, q.value.quote))
  }

  lemma HonestSigns(c: Crypto, p: Peer, pin: Pin, digest: Digest)
    requires IsPin(pin)
    ensures Signs(c, p, pin) ==> SignedBy(c, HonestSignature(p, digest), pin, digest)
  {
    var quote := p.quoteOver(digest);
    UnhexHex(p.akPublic);
    UnhexHex(quote);
    UnhexHex(p.sign(quote));
    hide Hex, Unhex, Text, QualifiedName, IsNodeId, IsHexDigit;
  }

  lemma HonestHelloIsGood(c: Crypto, p: Peer, boot: Boot, x: Exchange)
    requires x.send == Honest(c.hash, p) && p.nodeId == x.pin.nodeId && 1 <= p.epoch <= MAX_EPOCH
    ensures var g := Greeting(boot, x.send);
            g.Some? && GoodHello(g.value.0, g.value.1, x.pin) && g.value.1.epoch == p.epoch
                && g.value.1.nonce == Hex(p.nonce)
            && g.value.0 == if p.speaks2 then 2 else 1
  {
    assert Text(INVALID_REQUEST) != [];
  }

  /** Under the session's own request, the honest response is over the transcript the session expects, and its
      ciphertext opens. */
  lemma HonestResponseFits(c: Crypto, p: Peer, boot: Boot, pin: Pin, r: Request, contribution: bytes)
    requires r.Unlock? && r.nodeId == boot.nodeId && r.sessionId == Hex(boot.id)
    requires r.ephemeralPublic == Hex(boot.ephemeralPublic) && r.nonce == Hex(p.nonce)
    ensures Serves(p, pin, boot.nodeId, r.pathEpoch, contribution) && Encrypts(c, p, boot) && IsNodeId(pin.nodeId)
            ==> var expected := c.hash(Asked(boot.nodeId, p.epoch, boot.id, boot.ephemeralPublic,
                                             p.nonce).Transcript());
                var response := HonestResponse(c.hash, p, r, contribution);
                IsValid(response) && response.transcriptSha256 == Hex(expected)
                    && Secret(c, boot.key, expected, response) == Some(contribution)
  {
    hide Text, TranscriptOf, Hex, Unhex, IsHexDigit;
    UnhexHex(boot.id);
    UnhexHex(boot.ephemeralPublic);
    UnhexHex(p.nonce);
    var tag := Text(CONTRIBUTION_LABEL)
        + c.hash(Asked(boot.nodeId, p.epoch, boot.id, boot.ephemeralPublic, p.nonce).Transcript());
    UnhexHex(p.encrypt(boot.ephemeralPublic, contribution, tag));
  }

  lemma HonestResponseIsGenuine(c: Crypto, p: Peer, boot: Boot, x: Exchange, r: Request, contribution: bytes)
    requires IsPin(x.pin) && r.Unlock? && r.nodeId == boot.nodeId && r.sessionId == Hex(boot.id)
             && r.pathEpoch == x.pathEpoch
    requires r.ephemeralPublic == Hex(boot.ephemeralPublic) && r.nonce == Hex(p.nonce)
    ensures Serves(p, x.pin, boot.nodeId, x.pathEpoch, contribution) && Encrypts(c, p, boot) && Signs(c, p, x.pin)
            ==> var asked := Asked(boot.nodeId, p.epoch, boot.id, boot.ephemeralPublic, p.nonce);
                var response := HonestResponse(c.hash, p, r, contribution);
                OpenOutcome(c, boot, x.pin, x.pathEpoch, asked, response, HonestSignature(p, c.hash(Signed(response))))
                == Some(Accepted(asked, response, HonestSignature(p, c.hash(Signed(response))), contribution))
  {
    hide Text, TranscriptOf, Hex, Unhex, SignedBy, Signed, Signs, Encrypts, IsNodeId, IsTpmName, IsValid, Secret,
      HonestSignature, IsHexDigit;
    HonestResponseFits(c, p, boot, x.pin, r, contribution);
    HonestSigns(c, p, x.pin, c.hash(Signed(HonestResponse(c.hash, p, r, contribution))));
  }

  /** An honest peer's answer, in either version, is opened to exactly the secret it holds for this node and path. */
  lemma HonestIsOpened(c: Crypto, p: Peer, boot: Boot, x: Exchange, contribution: bytes)
    requires IsPin(x.pin) && !boot.consumed && x.send == Honest(c.hash, p)
    ensures Serves(p, x.pin, boot.nodeId, x.pathEpoch, contribution) && Encrypts(c, p, boot) && Signs(c, p, x.pin)
            && Admitted(c, p, boot, x)
            ==> Outcome(c, boot, x).Some? && Outcome(c, boot, x).value.secret == contribution
  {
    hide Text, TranscriptOf, Hex, Unhex, OpenOutcome, Signs, Encrypts, IsNodeId, IsTpmName, Greeting, HonestResponse,
      HonestSignature, IsHexDigit;
    if Serves(p, x.pin, boot.nodeId, x.pathEpoch, contribution) && Encrypts(c, p, boot) && Signs(c, p, x.pin)
       && Admitted(c, p, boot, x) {
      HonestHelloIsGood(c, p, boot, x);
      UnhexHex(p.nonce);
      var q := Quoted(c, boot, x).value;
      var r := UnlockRequest(boot, x.pathEpoch, q.version, q.hello, q.quote);
      HonestResponseIsGenuine(c, p, boot, x, r, contribution);
    }
  }

  /** And so it is after any number of exchanges with any peers that were not accepted. */
  lemma HonestIsOpenedAfterAnyFailures(c: Crypto, p: Peer, boot: Boot, xs: seq<Exchange>, x: Exchange,
                                       contribution: bytes)
    requires Pinned(xs) && IsPin(x.pin) && !boot.consumed && x.send == Honest(c.hash, p)
    ensures Serves(p, x.pin, boot.nodeId, x.pathEpoch, contribution) && Encrypts(c, p, boot) && Signs(c, p, x.pin)
            && Admitted(c, p, boot, x) && (forall i | 0 <= i < |xs| :: At(c, boot, xs, i).None?)
            ==> var o := Outcome(c, After(c, boot, xs), x); o.Some? && o.value.secret == contribution
  {
    HonestIsOpened(c, p, boot, x, contribution);
    if forall i | 0 <= i < |xs| :: At(c, boot, xs, i).None? { FailuresLeaveItUsable(c, boot, xs, x); }
  }

  // ---- such peers there are ----

  /** A cryptosystem in which everything is in the clear: the least that meets what is asked of one. */
  function PlainCrypto(hash: Hash, pin: Pin): Crypto
    requires IsPin(pin)
  {
    var akName := Unhex(pin.akName);
    var qualified := QualifiedName(hash, Unhex(pin.ekName), akName);
    Crypto(hash, (b: bytes) => Some(Ak(akName, [])), (k: bytes, d: Digest, s: bytes) => true,
           (b: bytes) => Some(Attest(qualified, b)),
           (k: bytes, b: bytes, l: bytes) => if |b| == 384 then Some(b[352..]) else None)
  }

  function PlainPeer(pin: Pin, contribution: bytes): Peer {
    Peer(pin.nodeId, true, 1, Hex(ZERO), ZERO, (r: Request) => true, (n: bytes, e: Uint64) => Some(contribution),
         (k: bytes, m: bytes, l: bytes) => Zeros(352) + m, [], (d: Digest) => d, (b: bytes) => b)
  }

  /** For every pin, node, path and contribution there is an honest peer that meets all of this; so it is opened. */
  lemma HonestPeerExists(hash: Hash, pin: Pin, nodeId: bytes, id: Digest, pathEpoch: Uint64, contribution: bytes)
    requires IsPin(pin) && IsNodeId(nodeId) && 1 <= pathEpoch <= MAX_EPOCH && |contribution| == SECRET_BYTES
    ensures var c, p := PlainCrypto(hash, pin), PlainPeer(pin, contribution);
            var boot := Boot(nodeId, id, [], Some([]), false, false, false);
            var x := Exchange(pin, pathEpoch, Honest(hash, p), (d: Digest) => Some(Quote([], [], None)));
            && Serves(p, pin, nodeId, pathEpoch, contribution) && Encrypts(c, p, boot) && Signs(c, p, pin)
            && Admitted(c, p, boot, x) && Outcome(c, boot, x).Some? && Outcome(c, boot, x).value.secret == contribution
  {
    var c, p := PlainCrypto(hash, pin), PlainPeer(pin, contribution);
    var boot := Boot(nodeId, id, [], Some([]), false, false, false);
    var x := Exchange(pin, pathEpoch, Honest(hash, p), (d: Digest) => Some(Quote([], [], None)));
    PlainWorks(hash, pin, contribution, boot);
    HonestHelloIsGood(c, p, boot, x);
    hide Signs, Encrypts, Greeting, Outcome, Hex, Unhex, TranscriptOf;
    assert Admitted(c, p, boot, x);
    HonestIsOpened(c, p, boot, x, contribution);
  }

  lemma PlainWorks(hash: Hash, pin: Pin, contribution: bytes, boot: Boot)
    requires IsPin(pin) && boot.key.Some?
    ensures Encrypts(PlainCrypto(hash, pin), PlainPeer(pin, contribution), boot)
    ensures Signs(PlainCrypto(hash, pin), PlainPeer(pin, contribution), pin)
  {
    hide Hex, Unhex, QualifiedName, IsNodeId, Text;
    forall m: bytes | |m| == SECRET_BYTES ensures |Zeros(352) + m| == 384 && (Zeros(352) + m)[352..] == m {}
  }
}
