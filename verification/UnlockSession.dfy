/** One boot's session with its peers: it asks a peer under a fresh hello, and opens at most one response, the first
    that is the pinned peer's own answer to exactly what was asked. Signatures, OAEP and TPM structures are abstract
    functions, and every reply is arbitrary. */
module UnlockSession {
  import opened Octets
  import opened Results
  import opened UnlockWire

  datatype Ak = Ak(name: bytes, key: bytes)
  datatype Attest = Attest(qualifiedSigner: bytes, extraData: bytes)

  /** What the code takes from its libraries: the hash, the identity of an attestation key's public area (none if it
      is not a restricted P-256 key), ECDSA verification, a TPM quote's signer and data (none if it is not a quote),
      OAEP decryption. */
  datatype Crypto = Crypto(hash: Hash, akIdentity: bytes -> Option<Ak>, verify: (bytes, Digest, bytes) -> bool,
                           parseAttest: bytes -> Option<Attest>, decrypt: (bytes, bytes, bytes) -> Option<bytes>)

  datatype Pin = Pin(nodeId: bytes, ekName: bytes, akName: bytes)

  predicate IsTpmName(s: bytes) { |s| == 68 && IsHex(s) && s[..4] == Text("000b") }

  /** What loading the boot configuration checks of a peer. */
  predicate IsPin(p: Pin) { IsNodeId(p.nodeId) && IsTpmName(p.ekName) && IsTpmName(p.akName) }

  datatype PeerSignature = PeerSignature(akPublic: bytes, quote: bytes, sig: bytes)

  // ---- messages ----

  const EXCHANGE_VERSION := 2

  datatype Request =
    | Hello(v: nat, nodeId: bytes)
    | Unlock(v: nat, nodeId: bytes, sessionId: bytes, pathEpoch: Uint64, ephemeralPublic: bytes, nonce: bytes,
             quote: bytes, signature: bytes, values: Option<map<nat, bytes>>)

  datatype Answer<+T> = NoReply | Garbled | Reply(value: T)

  datatype HelloReply = HelloReply(v: int, peerId: bytes, epoch: Uint64, nonce: bytes, error: bytes)
  datatype UnlockReply = UnlockReply(error: bytes, response: Option<Response>, signature: Option<PeerSignature>)

  /** A peer and the way to it, for one ask: any reply to any request. Each kind of request is sent at most once in an
      ask. */
  datatype Transport = Transport(hello: Request -> Answer<HelloReply>, unlock: Request -> Answer<UnlockReply>)

  datatype Quote = Quote(attest: bytes, signature: bytes, values: Option<map<nat, bytes>>)

  /** One ask: whom, for which path, over what, with what the TPM would say. */
  datatype Exchange = Exchange(pin: Pin, pathEpoch: Uint64, send: Transport, quote: Digest -> Option<Quote>)

  // ---- the peer's signature ----

  function QualifiedName(hash: Hash, ekName: bytes, akName: bytes): bytes {
    [0x00, 0x0B] + hash([0x00, 0x0B] + hash([0x40, 0x00, 0x00, 0x0B] + ekName) + akName)
  }

  /** A qualified name tells both keys, unless two of the four inputs hashed for two of them collide. */
  lemma QualifiedNameBinds(hash: Hash, ek: bytes, ak: bytes, ek': bytes, ak': bytes)
    ensures var p, p' := [0x40, 0x00, 0x00, 0x0B] + ek, [0x40, 0x00, 0x00, 0x0B] + ek';
            var q, q' := [0x00, 0x0B] + hash(p) + ak, [0x00, 0x0B] + hash(p') + ak';
            ClashFree(hash, {p, p', q, q'})
            ==> (QualifiedName(hash, ek, ak) == QualifiedName(hash, ek', ak') <==> ek == ek' && ak == ak')
  {
    var p, p' := [0x40, 0x00, 0x00, 0x0B] + ek, [0x40, 0x00, 0x00, 0x0B] + ek';
    var q, q' := [0x00, 0x0B] + hash(p) + ak, [0x00, 0x0B] + hash(p') + ak';
    if QualifiedName(hash, ek, ak) == QualifiedName(hash, ek', ak') && ClashFree(hash, {p, p', q, q'}) {
      SplitEqual([0x00, 0x0B], hash(q), [0x00, 0x0B], hash(q'));
      SplitEqual([0x00, 0x0B] + hash(p), ak, [0x00, 0x0B] + hash(p'), ak');
      SplitEqual([0x00, 0x0B], hash(p), [0x00, 0x0B], hash(p'));
      SplitEqual([0x40, 0x00, 0x00, 0x0B], ek, [0x40, 0x00, 0x00, 0x0B], ek');
    }
  }

  /** The qualified name of a key under a parent: the identifier of SHA-256, and the hash of the parent's and its own
      Name; TPM 2.0 Library, Part 1, section 16. */
  function Under(hash: Hash, parent: bytes, name: bytes): bytes { [0x00, 0x0B] + hash(parent + name) }

  /** The attestation key under the endorsement key, and that under the endorsement hierarchy, 0x4000000B. */
  lemma QualifiedNameReads(hash: Hash, ekName: bytes, akName: bytes)
    ensures QualifiedName(hash, ekName, akName) == Under(hash, Under(hash, [0x40, 0x00, 0x00, 0x0B], ekName), akName)
  {
  }

  predicate WholeHex(s: bytes, limit: nat) { IsHex(s) && |s| % 2 == 0 && |s| <= 2 * limit }

  /** The signature is a TPM quote over this digest, by the key the pin names, under the key the pin names. */
  predicate SignedBy(c: Crypto, s: PeerSignature, pin: Pin, digest: Digest)
    requires IsPin(pin)
  {
    && WholeHex(s.akPublic, 1024) && WholeHex(s.quote, 1024) && WholeHex(s.sig, 256)
    && var ak := c.akIdentity(Unhex(s.akPublic));
    && ak.Some? && Hex(ak.value.name) == pin.akName
    && c.verify(ak.value.key, c.hash(Unhex(s.quote)), Unhex(s.sig))
    && c.parseAttest(Unhex(s.quote)) == Some(Attest(QualifiedName(c.hash, Unhex(pin.ekName), ak.value.name), digest))
  }

  method VerifyPeerSignature(c: Crypto, s: PeerSignature, pin: Pin, digest: Digest) returns (ok: bool)
    requires IsPin(pin)
    ensures ok <==> SignedBy(c, s, pin, digest)
  {
    var akPublic := LowerHex(s.akPublic);
    var quote := LowerHex(s.quote);
    var sig := LowerHex(s.sig);
    if akPublic.None? || quote.None? || sig.None? || |akPublic.value| > 1024 || |quote.value| > 1024
       || |sig.value| > 256 {
      return false;
    }
    UnhexHex(akPublic.value);
    UnhexHex(quote.value);
    UnhexHex(sig.value);
    var ak := c.akIdentity(akPublic.value);
    if ak.None? || Hex(ak.value.name) != pin.akName { return false; }
    if !c.verify(ak.value.key, c.hash(quote.value), sig.value) { return false; }
    var attest := c.parseAttest(quote.value);
    if attest.None? || attest.value.qualifiedSigner != QualifiedName(c.hash, Unhex(pin.ekName), ak.value.name) {
      return false;
    }
    ok := attest.value.extraData == digest;
  }

  // ---- what an ask comes to ----

  /** What one boot holds. */
  datatype Boot = Boot(nodeId: bytes, id: Digest, ephemeralPublic: bytes, key: Option<bytes>, consumed: bool,
                       spokeVersion1: bool, unsteadyPcrs: bool)

  const INVALID_REQUEST: string := "INVALID_REQUEST"

  /** The hello that counts, and the version it was in: version 2's, unless the peer does not speak it. */
  function Greeting(boot: Boot, send: Transport): Option<(nat, HelloReply)> {
    var second := send.hello(Hello(EXCHANGE_VERSION, boot.nodeId));
    if !second.Reply? then None
    else if second.value.error != Text(INVALID_REQUEST) then Some((EXCHANGE_VERSION, second.value))
    else
      var first := send.hello(Hello(1, boot.nodeId));
      if first.Reply? then Some((1, first.value)) else None
  }

  predicate GoodHello(v: nat, h: HelloReply, pin: Pin) {
    h.error == [] && h.v == v && h.peerId == pin.nodeId && 1 <= h.epoch <= MAX_EPOCH && IsHex64(h.nonce)
  }

  function AskedUnder(boot: Boot, h: HelloReply): Asked
    requires IsHex64(h.nonce)
  {
    Asked(boot.nodeId, h.epoch, boot.id, boot.ephemeralPublic, Unhex(h.nonce))
  }

  /** The values go with version 2 and only with it. */
  function UnlockRequest(boot: Boot, pathEpoch: Uint64, v: nat, h: HelloReply, q: Quote): Request {
    var bare := v == 1 || q.values.None?;
    Unlock(if bare then 1 else v, boot.nodeId, Hex(boot.id), pathEpoch, Hex(boot.ephemeralPublic), h.nonce,
           Hex(q.attest), Hex(q.signature), if bare then None else q.values)
  }

  const CONTRIBUTION_LABEL: string := "regalia-unlock/v1/contribution\0"

  /** The response is the pinned peer's own, for this node, session, path epoch, transcript and epoch. */
  predicate Genuine(c: Crypto, nodeId: bytes, id: Digest, pin: Pin, pathEpoch: Uint64, stated: Uint64, expected: Digest,
                    r: Response, s: PeerSignature)
    requires IsPin(pin)
  {
    && IsValid(r)
    && r.peerId == pin.nodeId && r.pathEpoch == pathEpoch && r.nodeId == nodeId && r.sessionId == Hex(id)
    && r.transcriptSha256 == Hex(expected) && r.epoch == stated
    && SignedBy(c, s, pin, c.hash(Signed(r)))
  }

  function Block(r: Response): bytes
    requires IsValid(r)
  {
    Unhex(r.ciphertext)
  }

  function Secret(c: Crypto, key: Option<bytes>, expected: Digest, r: Response): Option<bytes>
    requires IsValid(r)
  {
    var s := if key.None? then None else c.decrypt(key.value, Block(r), Text(CONTRIBUTION_LABEL) + expected);
    if s.Some? && |s.value| == SECRET_BYTES then s else None
  }

  /** An accepted response: what was asked, what was answered, by whose signature, and the secret in it. */
  datatype Accepted = Accepted(asked: Asked, response: Response, signature: PeerSignature, secret: bytes)

  function OpenOutcome(c: Crypto, boot: Boot, pin: Pin, pathEpoch: Uint64, asked: Asked, r: Response,
                       s: PeerSignature): Option<Accepted>
    requires IsPin(pin)
  {
    var expected := c.hash(asked.Transcript());
    if !Genuine(c, boot.nodeId, boot.id, pin, pathEpoch, asked.epoch, expected, r, s) then None
    else
      var secret := Secret(c, boot.key, expected, r);
      if secret.None? then None else Some(Accepted(asked, r, s, secret.value))
  }

  /** The exchange as far as the unlock request: the version it is in, the hello and the quote it is under. */
  datatype Presented = Presented(version: nat, hello: HelloReply, quote: Quote)

  function Quoted(c: Crypto, boot: Boot, a: Exchange): (q: Option<Presented>)
    ensures q.Some? ==> GoodHello(q.value.version, q.value.hello, a.pin) && q.value.version in {1, EXCHANGE_VERSION}
  {
    if boot.consumed then None
    else
      var g := Greeting(boot, a.send);
      if g.None? || !GoodHello(g.value.0, g.value.1, a.pin) then None
      else
        var q := a.quote(c.hash(AskedUnder(boot, g.value.1).Transcript()));
        if q.None? then None else Some(Presented(g.value.0, g.value.1, q.value))
  }

  function Outcome(c: Crypto, boot: Boot, a: Exchange): Option<Accepted>
    requires IsPin(a.pin)
  {
    var p := Quoted(c, boot, a);
    if p.None? then None
    else
      var u := a.send.unlock(UnlockRequest(boot, a.pathEpoch, p.value.version, p.value.hello, p.value.quote));
      if !u.Reply? || u.value.error != [] || u.value.response.None? || u.value.signature.None? then None
      else OpenOutcome(c, boot, a.pin, a.pathEpoch, AskedUnder(boot, p.value.hello), u.value.response.value,
                       u.value.signature.value)
  }

  predicate SpokeVersion1(boot: Boot, send: Transport) {
    var second := send.hello(Hello(EXCHANGE_VERSION, boot.nodeId));
    second.Reply? && second.value.error == Text(INVALID_REQUEST)
  }

  predicate Unsteady(c: Crypto, boot: Boot, a: Exchange) {
    var q := Quoted(c, boot, a);
    q.Some? && q.value.version == EXCHANGE_VERSION && q.value.quote.values.None?
  }

  function Next(c: Crypto, boot: Boot, a: Exchange): Boot
    requires IsPin(a.pin)
  {
    boot.(consumed := boot.consumed || Outcome(c, boot, a).Some?,
          spokeVersion1 := boot.spokeVersion1 || (!boot.consumed && SpokeVersion1(boot, a.send)),
          unsteadyPcrs := boot.unsteadyPcrs || Unsteady(c, boot, a))
  }

  /** A session that accepted a response accepts no other, whatever comes. */
  lemma SpentStaysSpent(c: Crypto, boot: Boot, a: Exchange)
    requires IsPin(a.pin) && boot.consumed
    ensures Outcome(c, boot, a) == None && Next(c, boot, a) == boot
  {
  }

  /** The hellos of one exchange: in version 2, and again in version 1 if the peer does not speak that. */
  function Hellos(boot: Boot, send: Transport): (hs: seq<Request>)
    ensures 1 <= |hs| <= 2 && forall q | q in hs :: q.Hello? && q.nodeId == boot.nodeId
  {
    [Hello(EXCHANGE_VERSION, boot.nodeId)] + if SpokeVersion1(boot, send) then [Hello(1, boot.nodeId)] else []
  }

  /** All that one exchange sends. */
  function Sent(c: Crypto, boot: Boot, a: Exchange): seq<Request> {
    if boot.consumed then []
    else
      var p := Quoted(c, boot, a);
      Hellos(boot, a.send)
      + if p.None? then []
        else [UnlockRequest(boot, a.pathEpoch, p.value.version, p.value.hello, p.value.quote)]
  }

  /** How many of them are hellos. */
  function HelloCount(boot: Boot, a: Exchange): nat { if boot.consumed then 0 else |Hellos(boot, a.send)| }

  /** At most two hellos, then at most one unlock under this session, which carries PCR values exactly in version 2. */
  ghost predicate Sends(nodeId: bytes, id: Digest, sent: seq<Request>) {
    && |sent| <= 3
    && (forall i | 0 <= i < |sent| ::
        sent[i].nodeId == nodeId && (sent[i].Unlock? ==> i == |sent| - 1) && (i == 2 ==> sent[i].Unlock?))
    && (forall q | q in sent && q.Unlock? :: q.sessionId == Hex(id) && (q.v == EXCHANGE_VERSION <==> q.values.Some?))
  }

  /** How many of these are hellos. */
  function CountHellos(sent: seq<Request>): nat {
    if sent == [] then 0 else CountHellos(sent[..|sent| - 1]) + if sent[|sent| - 1].Hello? then 1 else 0
  }

  lemma {:induction false} AllHellos(sent: seq<Request>)
    requires forall q | q in sent :: q.Hello?
    ensures CountHellos(sent) == |sent|
  {
    if sent != [] {
      assert sent[|sent| - 1] in sent;
      AllHellos(sent[..|sent| - 1]);
    }
  }

  lemma AtMostTwoHellos(c: Crypto, boot: Boot, a: Exchange)
    ensures CountHellos(Sent(c, boot, a)) == HelloCount(boot, a) <= 2
  {
    hide Quoted, Hellos;
    var hs, sent := Hellos(boot, a.send), Sent(c, boot, a);
    AllHellos(hs);
    if !boot.consumed && |sent| > |hs| {
      assert sent[..|hs|] == hs;
    } else if !boot.consumed {
      assert sent == hs;
    }
  }

  datatype Refusal =
    | AlreadyAccepted
    | NoTransport
    | Malformed
    | Refused
    | NotThePeer
    | BadHello
    | NoQuote
    | NoResponse
    | NotOurs

  class Session {
    const nodeId: bytes
    const id: Digest
    const ephemeralPublic: bytes
    var key: Option<bytes>
    var consumed: bool
    var spokeVersion1: bool
    var unsteadyPcrs: bool

    /** The random identifier and the key pair are the caller's to draw. */
    constructor (nodeId: bytes, id: Digest, key: bytes, ephemeralPublic: bytes)
      ensures View() == Boot(nodeId, id, ephemeralPublic, Some(key), false, false, false)
    {
      this.nodeId, this.id, this.ephemeralPublic := nodeId, id, ephemeralPublic;
      this.key, consumed, spokeVersion1, unsteadyPcrs := Some(key), false, false, false;
    }

    function View(): Boot
      reads this
    {
      Boot(nodeId, id, ephemeralPublic, key, consumed, spokeVersion1, unsteadyPcrs)
    }

    /** The hello, in version 2, and in version 1 to a peer that does not speak version 2. */
    method Greet(send: Transport) returns (r: Result<HelloReply, Refusal>, version: nat, sent: seq<Request>)
      requires !consumed
      modifies this`spokeVersion1
      ensures Greeting(old(View()), send) == if r.Ok? then Some((version, r.value)) else None
      ensures version in {1, EXCHANGE_VERSION} && r != Err(AlreadyAccepted)
      ensures spokeVersion1 == (old(spokeVersion1) || SpokeVersion1(old(View()), send))
      ensures sent == Hellos(old(View()), send)
    {
      sent, version := [], EXCHANGE_VERSION;
      while true
        invariant version == EXCHANGE_VERSION ==> sent == [] && spokeVersion1 == old(spokeVersion1)
        invariant version != EXCHANGE_VERSION
                  ==> && version == 1 && sent == [Hello(EXCHANGE_VERSION, nodeId)] && spokeVersion1
                      && SpokeVersion1(old(View()), send)
        decreases version
      {
        sent := sent + [Hello(version, nodeId)];
        var raw := send.hello(Hello(version, nodeId));
        if !raw.Reply? { return Err(if raw.NoReply? then NoTransport else Malformed), version, sent; }
        if raw.value.error == Text(INVALID_REQUEST) && version == EXCHANGE_VERSION {
          version, spokeVersion1 := 1, true;
          continue;
        }
        return Ok(raw.value), version, sent;
      }
    }

    /** The TPM's quote over this exchange's transcript, in the request that carries it. */
    method Evidence(c: Crypto, a: Exchange, version: nat, hello: HelloReply)
      returns (request: Option<Request>, expected: Digest)
      requires version in {1, EXCHANGE_VERSION} && GoodHello(version, hello, a.pin)
      modifies this`unsteadyPcrs
      ensures expected == c.hash(AskedUnder(old(View()), hello).Transcript())
      ensures var q := a.quote(expected);
              && unsteadyPcrs == (old(unsteadyPcrs) || (version == EXCHANGE_VERSION && q.Some? && q.value.values.None?))
              && request
                 == if q.None? then None else Some(UnlockRequest(old(View()), a.pathEpoch, version, hello, q.value))
    {
      var transcript := Transcript(nodeId, hello.epoch, id, ephemeralPublic, Unhex(hello.nonce));
      expected := c.hash(transcript);
      var quote := a.quote(expected);
      if quote.None? { return None, expected; }
      var values, v := quote.value.values, version;
      if v == EXCHANGE_VERSION && values.None? { unsteadyPcrs := true; }
      if v == 1 || values.None? { v, values := 1, None; }
      request := Some(Unlock(v, nodeId, Hex(id), a.pathEpoch, Hex(ephemeralPublic), hello.nonce,
                             Hex(quote.value.attest), Hex(quote.value.signature), values));
    }

    /** A hello to the peer, and a quote over what it answered. */
    method Present(c: Crypto, a: Exchange)
      returns (r: Result<Presented, Refusal>, request: Option<Request>, expected: Digest, sent: seq<Request>)
      requires !consumed
      modifies this`spokeVersion1, this`unsteadyPcrs
      ensures Quoted(c, old(View()), a) == if r.Ok? then Some(r.value) else None
      ensures r != Err(AlreadyAccepted) && (r.Ok? <==> request.Some?)
      ensures r.Ok?
              ==> request.value == UnlockRequest(old(View()), a.pathEpoch, r.value.version, r.value.hello,
                                                 r.value.quote)
      ensures r.Ok? ==> expected == c.hash(AskedUnder(old(View()), r.value.hello).Transcript())
      ensures spokeVersion1 == (old(spokeVersion1) || SpokeVersion1(old(View()), a.send))
      ensures unsteadyPcrs == (old(unsteadyPcrs) || Unsteady(c, old(View()), a))
      ensures sent == Hellos(old(View()), a.send)
    {
      hide Text, TranscriptOf, Greeting, SpokeVersion1, Hex, IsHex64, Hellos;
      request, expected := None, ZERO;
      var greeted, version, asked := Greet(a.send);
      sent := asked;
      if greeted.Err? { return Err(greeted.error), request, expected, sent; }
      var hello := greeted.value;
      if hello.error != [] { return Err(Refused), request, expected, sent; }
      if hello.v != version || hello.peerId != a.pin.nodeId { return Err(NotThePeer), request, expected, sent; }
      if hello.epoch < 1 || hello.epoch > MAX_EPOCH || !IsHex64(hello.nonce) {
        return Err(BadHello), request, expected, sent;
      }
      request, expected := Evidence(c, a, version, hello);
      r := if request.None? then Err(NoQuote) else Ok(Presented(version, hello, a.quote(expected).value));
    }

    /** Asks one peer; nothing is sent once a response was accepted. */
    method Ask(c: Crypto, a: Exchange) returns (r: Result<bytes, Refusal>, sent: seq<Request>)
      requires IsPin(a.pin)
      modifies this
      ensures View() == Next(c, old(View()), a)
      ensures r.Ok? <==> Outcome(c, old(View()), a).Some?
      ensures r.Ok? ==> r.value == Outcome(c, old(View()), a).value.secret
      ensures r == Err(AlreadyAccepted) <==> old(consumed)
      ensures sent == Sent(c, old(View()), a) && Sends(nodeId, id, sent)
    {
      hide Text, TranscriptOf, Genuine, Secret, Quoted, SpokeVersion1, Unsteady, Hex, IsHex64, Hellos;
      if consumed {
        SpentStaysSpent(c, View(), a);
        return Err(AlreadyAccepted), [];
      }
      var presented, request, expected, hellos := Present(c, a);
      sent := hellos;
      if presented.Err? { return Err(presented.error), sent; }
      sent := sent + [request.value];
      var raw := a.send.unlock(request.value);
      if !raw.Reply? { return Err(if raw.NoReply? then NoTransport else Malformed), sent; }
      if raw.value.error != [] { return Err(Refused), sent; }
      if raw.value.response.None? || raw.value.signature.None? { return Err(NoResponse), sent; }
      var secret := Open(c, a.pin, raw.value.response.value, raw.value.signature.value, a.pathEpoch,
                         presented.value.hello.epoch, expected);
      r := if secret.Some? then Ok(secret.value) else Err(NotOurs);
    }

    /** Opens a response if, and only if, it is the peer's valid answer to exactly what was asked; only that spends
        the session. */
    method Open(c: Crypto, pin: Pin, r: Response, s: PeerSignature, pathEpoch: Uint64, stated: Uint64, expected: Digest)
      returns (secret: Option<bytes>)
      requires IsPin(pin)
      modifies this
      ensures secret.Some? ==> Genuine(c, nodeId, id, pin, pathEpoch, stated, expected, r, s)
      ensures Genuine(c, nodeId, id, pin, pathEpoch, stated, expected, r, s)
              ==> secret == Secret(c, old(key), expected, r)
      ensures View() == old(View()).(consumed := old(consumed) || secret.Some?)
    {
      hide Text, Hex, SignedBy, Canonical, IsValid;
      var fault := Validate(r);
      if fault.Some? { return None; }
      if r.peerId != pin.nodeId { return None; }
      if r.pathEpoch != pathEpoch { return None; }
      if r.nodeId != nodeId || r.sessionId != Hex(id) { return None; }
      if r.transcriptSha256 != Hex(expected) { return None; }
      if r.epoch != stated { return None; }
      var signed := VerifyPeerSignature(c, s, pin, c.hash(Signed(r)));
      if !signed { return None; }
      if key.None? { return None; }
      secret := c.decrypt(key.value, Block(r), Text(CONTRIBUTION_LABEL) + expected);
      if secret.None? || |secret.value| != SECRET_BYTES { return None; }
      consumed := true;
    }
  }
}
