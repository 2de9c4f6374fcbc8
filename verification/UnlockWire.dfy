/** The byte formats of the unlock exchange: the attestation transcript, the canonical response a peer signs, the
    key derivation's input, and lowercase hex. A Go string is a byte string here. */
module UnlockWire {
  import opened Octets
  import opened Results

  const SECRET_BYTES := 32
  const CIPHERTEXT_DIGITS := 768
  const MAX_EPOCH := 0x7FFF_FFFF_FFFF_FFFF

  type Uint64 = n: nat | n < 0x1_0000_0000_0000_0000

  /** The bytes of a literal, all of whose characters are ASCII. */
  function Text(s: string): (b: bytes)
    ensures |b| == |s|
  {
    seq<byte>(|s|, i requires 0 <= i < |s| => s[i] as int % 256)
  }

  // ---- hex ----

  const QUOTE: byte := 0x22
  const COMMA: byte := 0x2C
  const SLASH: byte := 0x2F

  predicate IsHexDigit(c: byte) { 0x30 <= c <= 0x39 || 0x61 <= c <= 0x66 }

  predicate IsHex(s: bytes) { forall i | 0 <= i < |s| :: IsHexDigit(s[i]) }

  function Digit(v: nat): (c: byte)
    requires v < 16
    ensures IsHexDigit(c)
  {
    if v < 10 then 0x30 + v else 0x61 + v - 10
  }

  function Value(c: byte): (v: nat)
    requires IsHexDigit(c)
    ensures v < 16 && Digit(v) == c
  {
    if c <= 0x39 then c - 0x30 else c - 0x61 + 10
  }

  function Hex(b: bytes): (s: bytes)
    ensures |s| == 2 * |b| && IsHex(s)
  {
    if b == [] then [] else Hex(b[..|b| - 1]) + [Digit(b[|b| - 1] / 16), Digit(b[|b| - 1] % 16)]
  }

  lemma {:induction false} HexInjective(a: bytes, b: bytes)
    requires Hex(a) == Hex(b)
    ensures a == b
  {
    if a != [] {
      var m, n := |a| - 1, |b| - 1;
      SplitEqual(Hex(a[..m]), [Digit(a[m] / 16), Digit(a[m] % 16)], Hex(b[..n]), [Digit(b[n] / 16), Digit(b[n] % 16)]);
      HexInjective(a[..m], b[..n]);
      var s, t := [Digit(a[m] / 16), Digit(a[m] % 16)], [Digit(b[n] / 16), Digit(b[n] % 16)];
      assert s[0] == t[0] && s[1] == t[1];
      assert a == a[..m] + [a[m]] && b == b[..n] + [b[n]];
    }
  }

  function Unhex(s: bytes): (b: bytes)
    requires IsHex(s) && |s| % 2 == 0
    ensures Hex(b) == s
  {
    if s == [] then []
    else
      var n := |s| - 2;
      HexOneMore(Unhex(s[..n]), s[n], s[n + 1]);
      assert s == s[..n] + [s[n], s[n + 1]];
      Unhex(s[..n]) + [16 * Value(s[n]) + Value(s[n + 1])]
  }

  lemma HexOneMore(b: bytes, high: byte, low: byte)
    requires IsHexDigit(high) && IsHexDigit(low)
    ensures Hex(b + [16 * Value(high) + Value(low)]) == Hex(b) + [high, low]
  {
    var c := b + [16 * Value(high) + Value(low)];
    assert c[..|c| - 1] == b;
  }

  lemma UnhexHex(b: bytes)
    ensures Unhex(Hex(b)) == b
  {
    HexInjective(Unhex(Hex(b)), b);
  }

  /** The bytes this is the hex of, when it is lowercase hex of whole bytes; a refusal otherwise. */
  method LowerHex(value: bytes) returns (r: Option<bytes>)
    ensures r.Some? <==> IsHex(value) && |value| % 2 == 0
    ensures r.Some? ==> Hex(r.value) == value
  {
    for i := 0 to |value|
      invariant forall k | 0 <= k < i :: IsHexDigit(value[k])
    {
      if !IsHexDigit(value[i]) { return None; }
    }
    if |value| % 2 != 0 { return None; }
    var b: bytes := [];
    for i := 0 to |value| / 2
      invariant Hex(b) == value[..2 * i]
    {
      HexOneMore(b, value[2 * i], value[2 * i + 1]);
      assert value[..2 * (i + 1)] == value[..2 * i] + [value[2 * i], value[2 * i + 1]];
      b := b + [16 * Value(value[2 * i]) + Value(value[2 * i + 1])];
    }
    assert value[..|value|] == value;
    r := Some(b);
  }

  // ---- decimal ----

  function Decimal(n: nat): (s: bytes)
    ensures |s| >= 1 && forall i | 0 <= i < |s| :: 0x30 <= s[i] <= 0x39
  {
    (if n < 10 then [] else Decimal(n / 10)) + [0x30 + n % 10]
  }

  lemma {:induction false} DecimalInjective(m: nat, n: nat)
    requires Decimal(m) == Decimal(n)
    ensures m == n
    decreases m + n
  {
    var p: bytes := if m < 10 then [] else Decimal(m / 10);
    var q: bytes := if n < 10 then [] else Decimal(n / 10);
    SplitEqual(p, [0x30 + m % 10], q, [0x30 + n % 10]);
    assert [0x30 + m % 10][0] == [0x30 + n % 10][0];
    if m >= 10 && n >= 10 { DecimalInjective(m / 10, n / 10); }
  }

  // ---- delimited fields ----

  /** A field that ends at a byte it does not hold is read back whole, whatever follows. */
  lemma FieldEnds(f: bytes, g: bytes, end: bytes, x: bytes, y: bytes)
    requires f + (end + x) == g + (end + y)
    requires |end| > 0 && end[0] !in f && end[0] !in g
    ensures f == g && x == y
  {
    var s, t := f + (end + x), g + (end + y);
    assert s[|f|] == end[0] == t[|g|];
    SplitEqual(f, end + x, g, end + y);
    SplitEqual(end, x, end, y);
  }

  /** The same, for the last field: what comes before its delimiter is read back whole too. */
  lemma LastField(a: bytes, b: bytes, delimiter: byte, f: bytes, g: bytes)
    requires a + [delimiter] + f == b + [delimiter] + g
    requires delimiter !in f && delimiter !in g
    ensures a == b && f == g
  {
    var s, t := a + [delimiter] + f, b + [delimiter] + g;
    assert s[|a|] == delimiter && t[|b|] == delimiter;
    SplitEqual(a + [delimiter], f, b + [delimiter], g);
    SplitEqual(a, [delimiter], b, [delimiter]);
  }

  // ---- the transcript ----

  /** Every field after its length in four bytes. The length is cut to 32 bits, as the conversion in the code does. */
  function Frames(fields: seq<bytes>): bytes {
    if fields == [] then []
    else Frames(fields[..|fields| - 1]) + BigEndian(|fields[|fields| - 1]|, 4) + fields[|fields| - 1]
  }

  function Fields(nodeId: bytes, epoch: Uint64, sessionId: bytes, ephemeralPublic: bytes, nonce: bytes): seq<bytes> {
    [Text("regalia-kms/attest/v1"), nodeId, BigEndian(epoch, 8), sessionId, ephemeralPublic, nonce]
  }

  function TranscriptOf(nodeId: bytes, epoch: Uint64, sessionId: bytes, ephemeralPublic: bytes, nonce: bytes): bytes {
    Frames(Fields(nodeId, epoch, sessionId, ephemeralPublic, nonce))
  }

  method Transcript(nodeId: bytes, epoch: Uint64, sessionId: bytes, ephemeralPublic: bytes, nonce: bytes)
    returns (out: bytes)
    ensures out == TranscriptOf(nodeId, epoch, sessionId, ephemeralPublic, nonce)
  {
    var fields := Fields(nodeId, epoch, sessionId, ephemeralPublic, nonce);
    out := [];
    for i := 0 to |fields|
      invariant out == Frames(fields[..i])
    {
      assert fields[..i + 1][..i] == fields[..i];
      out := out + BigEndian(|fields[i]|, 4);
      out := out + fields[i];
    }
    assert fields[..|fields|] == fields;
  }

  ghost predicate Short(fields: seq<bytes>) {
    forall f | f in fields :: |f| < 0x1_0000_0000
  }

  /** The same fields, front first: how a reader takes them apart. */
  lemma {:induction false} FramesFront(fields: seq<bytes>)
    requires fields != []
    ensures Frames(fields) == BigEndian(|fields[0]|, 4) + (fields[0] + Frames(fields[1..]))
  {
    var n := |fields| - 1;
    if n > 0 {
      FramesFront(fields[..n]);
      assert fields[..n][1..] == fields[1..][..n - 1];
    } else {
      assert Frames(fields[..n]) == [];
    }
  }

  /** Two lists of fields, of any numbers and lengths below 2^32, have the same encoding only if they are the same
      list. */
  lemma {:induction false} FramesInjective(fs: seq<bytes>, gs: seq<bytes>)
    requires Short(fs) && Short(gs)
    requires Frames(fs) == Frames(gs)
    ensures fs == gs
  {
    if fs != [] { FramesFront(fs); }
    if gs != [] { FramesFront(gs); }
    if fs != [] && gs != [] {
      hide Frames, BigEndian;
      Widths();
      SplitEqual(BigEndian(|fs[0]|, 4), fs[0] + Frames(fs[1..]), BigEndian(|gs[0]|, 4), gs[0] + Frames(gs[1..]));
      BigEndianInjective(|fs[0]|, |gs[0]|, 4);
      SplitEqual(fs[0], Frames(fs[1..]), gs[0], Frames(gs[1..]));
      FramesInjective(fs[1..], gs[1..]);
      assert fs == [fs[0]] + fs[1..] && gs == [gs[0]] + gs[1..];
    }
  }

  /** What a transcript is made of: one value for all five fields. */
  datatype Asked = Asked(nodeId: bytes, epoch: Uint64, sessionId: bytes, ephemeralPublic: bytes, nonce: bytes) {
    function Transcript(): bytes { TranscriptOf(nodeId, epoch, sessionId, ephemeralPublic, nonce) }
    ghost predicate Short() {
      |nodeId| < 0x1_0000_0000 && |sessionId| < 0x1_0000_0000 && |ephemeralPublic| < 0x1_0000_0000
          && |nonce| < 0x1_0000_0000
    }
  }

  lemma TranscriptInjective(a: Asked, b: Asked)
    requires a.Short() && b.Short() && a.Transcript() == b.Transcript()
    ensures a == b
  {
    var fs := Fields(a.nodeId, a.epoch, a.sessionId, a.ephemeralPublic, a.nonce);
    var gs := Fields(b.nodeId, b.epoch, b.sessionId, b.ephemeralPublic, b.nonce);
    hide Frames, BigEndian, Text;
    FramesInjective(fs, gs);
    assert forall i | 0 <= i < 6 :: fs[i] == gs[i];
    Widths();
    BigEndianInjective(a.epoch, b.epoch, 8);
  }

  // ---- the response ----

  datatype Response = Response(schema: bytes, peerId: bytes, nodeId: bytes, epoch: Uint64, manifestDigest: bytes,
                               sessionId: bytes, transcriptSha256: bytes, pathEpoch: Uint64, ciphertext: bytes)

  datatype Fault = AnotherSchema | NotANodeId | BadEpoch | BadDigest | NotOneBlock | NotHex

  predicate IsNodeId(s: bytes) {
    && 1 <= |s| <= 32 && s[0] != 0x2D
    && forall i | 0 <= i < |s| :: 0x30 <= s[i] <= 0x39 || 0x61 <= s[i] <= 0x7A || s[i] == 0x2D
  }

  predicate IsHex64(s: bytes) { |s| == 64 && IsHex(s) }

  const SCHEMA: string := "regalia.unlock-response/v1"

  method Validate(r: Response) returns (fault: Option<Fault>)
    ensures fault == None <==> IsValid(r)
    ensures fault == Some(AnotherSchema) <==> r.schema != Text(SCHEMA)
    ensures fault == Some(NotHex) ==> |r.ciphertext| == CIPHERTEXT_DIGITS && !IsHex(r.ciphertext)
  {
    if r.schema != Text(SCHEMA) { return Some(AnotherSchema); }
    if !IsNodeId(r.peerId) || !IsNodeId(r.nodeId) { return Some(NotANodeId); }
    if r.epoch < 1 || r.epoch > MAX_EPOCH || r.pathEpoch < 1 || r.pathEpoch > MAX_EPOCH { return Some(BadEpoch); }
    if !IsHex64(r.manifestDigest) || !IsHex64(r.sessionId) || !IsHex64(r.transcriptSha256) { return Some(BadDigest); }
    if |r.ciphertext| != CIPHERTEXT_DIGITS { return Some(NotOneBlock); }
    var decoded := LowerHex(r.ciphertext);
    fault := if decoded.None? then Some(NotHex) else None;
  }

  predicate IsValid(r: Response) {
    && r.schema == Text(SCHEMA) && IsNodeId(r.peerId) && IsNodeId(r.nodeId)
    && 1 <= r.epoch <= MAX_EPOCH && 1 <= r.pathEpoch <= MAX_EPOCH
    && IsHex64(r.manifestDigest) && IsHex64(r.sessionId) && IsHex64(r.transcriptSha256)
    && |r.ciphertext| == CIPHERTEXT_DIGITS && IsHex(r.ciphertext)
  }

  /** The text between two fields of the canonical form: sorted keys, no spaces. */
  function Key(i: nat): (k: string)
    requires i < 10
    ensures |k| > 0
  {
    match i
    case 0 => "{\"ciphertext\":\""
    case 1 => "\",\"epoch\":"
    case 2 => ",\"manifest_digest\":\""
    case 3 => "\",\"node_id\":\""
    case 4 => "\",\"path_epoch\":"
    case 5 => ",\"peer_id\":\""
    case 6 => "\",\"schema\":\""
    case 7 => "\",\"session_id\":\""
    case 8 => "\",\"transcript_sha256\":\""
    case _ => "\"}"
  }

  function Canonical(r: Response): bytes {
    Text(Key(0)) + (r.ciphertext + (Text(Key(1)) + AfterCiphertext(r)))
  }

  function AfterCiphertext(r: Response): bytes {
    Decimal(r.epoch) + (Text(Key(2)) + (r.manifestDigest + (Text(Key(3)) + (r.nodeId + (Text(Key(4)) + AfterNode(r))))))
  }

  function AfterNode(r: Response): bytes {
    Decimal(r.pathEpoch) + (Text(Key(5)) + (r.peerId + (Text(Key(6)) + (r.schema + (Text(Key(7)) + AfterSchema(r))))))
  }

  function AfterSchema(r: Response): bytes {
    r.sessionId + (Text(Key(8)) + (r.transcriptSha256 + (Text(Key(9)) + [])))
  }

  lemma KeysDelimit()
    ensures forall i | i in {1, 3, 4, 6, 7, 8, 9} :: Text(Key(i))[0] == QUOTE
    ensures forall i | i in {2, 5} :: Text(Key(i))[0] == COMMA
  {
  }

  lemma TailInjective(r: Response, s: Response)
    requires QUOTE !in r.sessionId + r.transcriptSha256 && QUOTE !in s.sessionId + s.transcriptSha256
    requires AfterSchema(r) == AfterSchema(s)
    ensures r.sessionId == s.sessionId && r.transcriptSha256 == s.transcriptSha256
  {
    KeysDelimit();
    hide Key, Text;
    FieldEnds(r.sessionId, s.sessionId, Text(Key(8)), r.transcriptSha256 + (Text(Key(9)) + []), s.transcriptSha256
              + (Text(Key(9)) + []));
    FieldEnds(r.transcriptSha256, s.transcriptSha256, Text(Key(9)), [], []);
  }

  lemma NodeInjective(r: Response, s: Response)
    requires QUOTE !in r.peerId + r.schema && QUOTE !in s.peerId + s.schema
    requires AfterNode(r) == AfterNode(s)
    ensures r.pathEpoch == s.pathEpoch && r.peerId == s.peerId && r.schema == s.schema
            && AfterSchema(r) == AfterSchema(s)
  {
    KeysDelimit();
    hide Key, Text, Decimal, AfterSchema;
    var a2, b2 := r.schema + (Text(Key(7)) + AfterSchema(r)), s.schema + (Text(Key(7)) + AfterSchema(s));
    var a1, b1 := r.peerId + (Text(Key(6)) + a2), s.peerId + (Text(Key(6)) + b2);
    FieldEnds(Decimal(r.pathEpoch), Decimal(s.pathEpoch), Text(Key(5)), a1, b1);
    DecimalInjective(r.pathEpoch, s.pathEpoch);
    FieldEnds(r.peerId, s.peerId, Text(Key(6)), a2, b2);
    FieldEnds(r.schema, s.schema, Text(Key(7)), AfterSchema(r), AfterSchema(s));
  }

  lemma CiphertextInjective(r: Response, s: Response)
    requires QUOTE !in r.manifestDigest + r.nodeId && QUOTE !in s.manifestDigest + s.nodeId
    requires AfterCiphertext(r) == AfterCiphertext(s)
    ensures r.epoch == s.epoch && r.manifestDigest == s.manifestDigest && r.nodeId == s.nodeId
            && AfterNode(r) == AfterNode(s)
  {
    KeysDelimit();
    hide Key, Text, Decimal, AfterNode;
    var a2, b2 := r.nodeId + (Text(Key(4)) + AfterNode(r)), s.nodeId + (Text(Key(4)) + AfterNode(s));
    var a1, b1 := r.manifestDigest + (Text(Key(3)) + a2), s.manifestDigest + (Text(Key(3)) + b2);
    FieldEnds(Decimal(r.epoch), Decimal(s.epoch), Text(Key(2)), a1, b1);
    DecimalInjective(r.epoch, s.epoch);
    FieldEnds(r.manifestDigest, s.manifestDigest, Text(Key(3)), a2, b2);
    FieldEnds(r.nodeId, s.nodeId, Text(Key(4)), AfterNode(r), AfterNode(s));
  }

  /** Nothing in a response that JSON would escape or that ends a field. */
  ghost predicate QuoteFree(r: Response) {
    && QUOTE !in r.schema && QUOTE !in r.peerId && QUOTE !in r.nodeId && QUOTE !in r.manifestDigest
    && QUOTE !in r.sessionId && QUOTE !in r.transcriptSha256 && QUOTE !in r.ciphertext
  }

  lemma ValidIsQuoteFree(r: Response)
    requires IsValid(r)
    ensures QuoteFree(r)
  {
    assert QUOTE !in Text(SCHEMA);
  }

  /** Two responses without a quotation mark have the same canonical bytes only if they are the same response. */
  lemma CanonicalInjective(r: Response, s: Response)
    requires QuoteFree(r) && QuoteFree(s)
    requires Canonical(r) == Canonical(s)
    ensures r == s
  {
    KeysDelimit();
    hide Key, Text, Decimal, AfterCiphertext, AfterNode, AfterSchema;
    var a, b := r.ciphertext + (Text(Key(1)) + AfterCiphertext(r)), s.ciphertext + (Text(Key(1)) + AfterCiphertext(s));
    SplitEqual(Text(Key(0)), a, Text(Key(0)), b);
    FieldEnds(r.ciphertext, s.ciphertext, Text(Key(1)), AfterCiphertext(r), AfterCiphertext(s));
    CiphertextInjective(r, s);
    NodeInjective(r, s);
    TailInjective(r, s);
  }

  // ---- what an attestation key signs ----

  const DOMAIN: string := "regalia-unlock/v1/response\0"

  function Signed(r: Response): bytes { Text(DOMAIN) + Canonical(r) }

  /** A transcript begins with a zero byte (its label is short), a response with a letter. */
  lemma DomainsSeparate(a: Asked, r: Response)
    ensures a.Transcript() != Signed(r)
  {
    var fields := Fields(a.nodeId, a.epoch, a.sessionId, a.ephemeralPublic, a.nonce);
    assert |fields[0]| == 21;
    FramesFront(fields);
    assert BigEndian(0, 3) == BigEndian(0, 2) + [0] && BigEndian(0, 2) == BigEndian(0, 1) + [0]
           && BigEndian(0, 1) == [0];
    assert a.Transcript()[0] == 0;
    hide Frames, Canonical;
    assert Signed(r)[0] == Text(DOMAIN)[0] == 0x72;
  }

  /** The digest an attestation key's quote is over tells which of its two uses it is, and every field, unless two of
      the hashed inputs collide. */
  lemma QuoteNamesOneUse(hash: Hash, a: Asked, b: Asked, r: Response, s: Response)
    requires a.Short() && b.Short() && IsValid(r) && IsValid(s)
    ensures ClashFree(hash, {a.Transcript(), b.Transcript(), Signed(r), Signed(s)})
            ==> && hash(a.Transcript()) != hash(Signed(r))
                && (hash(a.Transcript()) == hash(b.Transcript()) <==> a == b)
                && (hash(Signed(r)) == hash(Signed(s)) <==> r == s)
  {
    ValidIsQuoteFree(r);
    ValidIsQuoteFree(s);
    hide Text, Canonical, TranscriptOf, IsValid;
    if a.Transcript() == b.Transcript() { TranscriptInjective(a, b); }
    if Signed(r) == Signed(s) {
      SplitEqual(Text(DOMAIN), Canonical(r), Text(DOMAIN), Canonical(s));
      CanonicalInjective(r, s);
    }
    DomainsSeparate(a, r);
  }

  // ---- the volume's key ----

  function Ikm(local: bytes, contribution: bytes): bytes { local + contribution }

  function Info(target: bytes, peer: bytes, pathEpoch: Uint64): bytes {
    Text("regalia/luks/v1/") + (target + [SLASH] + peer) + [SLASH] + Decimal(pathEpoch)
  }

  /** The derivation's info tells the path epoch always, and the two names up to where one ends. */
  lemma InfoTells(t: bytes, p: bytes, e: Uint64, t': bytes, p': bytes, e': Uint64)
    ensures Info(t, p, e) == Info(t', p', e') <==> t + [SLASH] + p == t' + [SLASH] + p' && e == e'
  {
    var prefix := Text("regalia/luks/v1/");
    if Info(t, p, e) == Info(t', p', e') {
      hide Text, Decimal;
      LastField(prefix + (t + [SLASH] + p), prefix + (t' + [SLASH] + p'), SLASH, Decimal(e), Decimal(e'));
      SplitEqual(prefix, t + [SLASH] + p, prefix, t' + [SLASH] + p');
      DecimalInjective(e, e');
    }
  }

  /** So it is injective on names that hold no slash, as node IDs are; and it is not on all names. */
  lemma InfoInjective(t: bytes, p: bytes, e: Uint64, t': bytes, p': bytes, e': Uint64)
    requires SLASH !in t && SLASH !in t'
    ensures Info(t, p, e) == Info(t', p', e') <==> t == t' && p == p' && e == e'
  {
    InfoTells(t, p, e, t', p', e');
    if t + [SLASH] + p == t' + [SLASH] + p' {
      assert t + [SLASH] + p == t + ([SLASH] + p) && t' + [SLASH] + p' == t' + ([SLASH] + p');
      FieldEnds(t, t', [SLASH], p, p');
    }
  }

  lemma InfoOfSlashedNames()
    ensures Info([0x61, SLASH, 0x62], [0x63], 1) == Info([0x61], [0x62, SLASH, 0x63], 1)
  {
    InfoTells([0x61, SLASH, 0x62], [0x63], 1, [0x61], [0x62, SLASH, 0x63], 1);
    assert [0x61, SLASH, 0x62] + [SLASH] + [0x63] == [0x61] + [SLASH] + [0x62, SLASH, 0x63];
  }

  type Hkdf = (bytes, bytes) -> Option<Digest>

  /** The two inputs of the derivation. */
  datatype Halves = Halves(ikm: bytes, info: bytes)

  function HalvesOf(local: bytes, contribution: bytes, target: bytes, peer: bytes, pathEpoch: Uint64): Halves {
    Halves(Ikm(local, contribution), Info(target, peer, pathEpoch))
  }

  /** Different halves, names or path epochs never go into the derivation as the same inputs. */
  lemma HalvesInjective(l: bytes, c: bytes, t: bytes, p: bytes, e: Uint64, l': bytes, c': bytes, t': bytes, p': bytes,
                        e': Uint64)
    requires |l| == |l'| == SECRET_BYTES && IsNodeId(t) && IsNodeId(t')
    ensures HalvesOf(l, c, t, p, e) == HalvesOf(l', c', t', p', e')
            <==> l == l' && c == c' && t == t' && p == p' && e == e'
  {
    InfoInjective(t, p, e, t', p', e');
    if l + c == l' + c' { SplitEqual(l, c, l', c'); }
  }

  method Wipe(secret: array<byte>)
    modifies secret
    ensures forall i | 0 <= i < secret.Length :: secret[i] == 0
  {
    for i := 0 to secret.Length
      invariant forall k | 0 <= k < i :: secret[k] == 0
    {
      secret[i] := 0;
    }
  }

  // ---- base64 ----

  const PAD: byte := 0x3D

  function Symbol(v: nat): (c: byte)
    requires v < 64
    ensures c != PAD
  {
    if v < 26 then 0x41 + v
    else if v < 52 then 0x61 + v - 26
    else if v < 62 then 0x30 + v - 52
    else if v == 62 then 0x2B
    else 0x2F
  }

  lemma SymbolInjective(v: nat, w: nat)
    requires v < 64 && w < 64 && Symbol(v) == Symbol(w)
    ensures v == w
  {
  }

  /** The standard alphabet, padded. */
  function Base64(b: bytes): bytes
    decreases |b|
  {
    if b == [] then []
    else if |b| == 1 then [Symbol(b[0] / 4), Symbol(b[0] % 4 * 16), PAD, PAD]
    else if |b| == 2 then [Symbol(b[0] / 4), Symbol(b[0] % 4 * 16 + b[1] / 16), Symbol(b[1] % 16 * 4), PAD]
    else Four(b[0], b[1], b[2]) + Base64(b[3..])
  }

  function Four(x: byte, y: byte, z: byte): bytes {
    [Symbol(x / 4), Symbol(x % 4 * 16 + y / 16), Symbol(y % 16 * 4 + z / 64), Symbol(z % 64)]
  }

  lemma FourInjective(x: byte, y: byte, z: byte, x': byte, y': byte, z': byte)
    requires Four(x, y, z) == Four(x', y', z')
    ensures x == x' && y == y' && z == z'
  {
    var f, g := Four(x, y, z), Four(x', y', z');
    assert f[0] == g[0] && f[1] == g[1] && f[2] == g[2] && f[3] == g[3];
    SymbolInjective(x / 4, x' / 4);
    SymbolInjective(x % 4 * 16 + y / 16, x' % 4 * 16 + y' / 16);
    SymbolInjective(y % 16 * 4 + z / 64, y' % 16 * 4 + z' / 64);
    SymbolInjective(z % 64, z' % 64);
    hide Symbol;
  }

  /** No two keys have one passphrase. */
  lemma {:induction false} Base64Injective(a: bytes, b: bytes)
    requires |a| == |b| && Base64(a) == Base64(b)
    ensures a == b
    decreases |a|
  {
    if |a| >= 3 {
      SplitEqual(Four(a[0], a[1], a[2]), Base64(a[3..]), Four(b[0], b[1], b[2]), Base64(b[3..]));
      FourInjective(a[0], a[1], a[2], b[0], b[1], b[2]);
      Base64Injective(a[3..], b[3..]);
      assert a == [a[0], a[1], a[2]] + a[3..] && b == [b[0], b[1], b[2]] + b[3..];
    } else if |a| == 2 {
      FourInjective(a[0], a[1], 0, b[0], b[1], 0) by { SameFour(a[0], a[1], b[0], b[1]); }
    } else if |a| == 1 {
      SymbolInjective(a[0] / 4, b[0] / 4) by { assert Base64(a)[0] == Base64(b)[0]; }
      SymbolInjective(a[0] % 4 * 16, b[0] % 4 * 16) by { assert Base64(a)[1] == Base64(b)[1]; }
    }
  }

  lemma SameFour(x: byte, y: byte, x': byte, y': byte)
    requires Base64([x, y]) == Base64([x', y'])
    ensures Four(x, y, 0) == Four(x', y', 0)
  {
    var f, g := Base64([x, y]), Base64([x', y']);
    assert f[0] == g[0] && f[1] == g[1] && f[2] == g[2];
  }

  /** The passphrase made from what is derived. */
  function KeyFrom(hkdf: Hkdf, h: Halves): Option<bytes> {
    var derived := hkdf(h.ikm, h.info);
    if derived.None? then None else Some(Base64(derived.value))
  }

  /** The keyslot passphrase: from both halves, or not at all; neither the joined halves nor the derived bytes outlive
      the call. */
  method Credential(hkdf: Hkdf, local: array<byte>, contribution: array<byte>, target: bytes, peer: bytes,
                    pathEpoch: Uint64)
    returns (key: Option<bytes>, ikm: array<byte>, derived: array<byte>)
    ensures fresh(ikm) && fresh(derived)
    ensures (forall i | 0 <= i < ikm.Length :: ikm[i] == 0) && (forall i | 0 <= i < derived.Length :: derived[i] == 0)
    ensures key.Some? ==> local.Length == SECRET_BYTES && contribution.Length == SECRET_BYTES
    ensures local.Length == SECRET_BYTES && contribution.Length == SECRET_BYTES
            ==> var h := HalvesOf(local[..], contribution[..], target, peer, pathEpoch);
                && key == KeyFrom(hkdf, h) && |h.ikm| == 64
                && h.ikm[..32] == local[..] && h.ikm[32..] == contribution[..]
  {
    hide Base64;
    ikm, derived := new byte[0], new byte[0];
    if local.Length != SECRET_BYTES || contribution.Length != SECRET_BYTES { return None, ikm, derived; }
    ikm := new byte[2 * SECRET_BYTES];
    for i := 0 to SECRET_BYTES
      invariant ikm[..i] == local[..i]
    {
      ikm[i] := local[i];
    }
    for i := 0 to SECRET_BYTES
      invariant ikm[..SECRET_BYTES + i] == local[..] + contribution[..i]
    {
      ikm[SECRET_BYTES + i] := contribution[i];
    }
    assert ikm[..] == local[..] + contribution[..];
    var made := hkdf(ikm[..], Info(target, peer, pathEpoch));
    Wipe(ikm);
    if made.None? { return None, ikm, derived; }
    derived := new byte[32](i requires 0 <= i < 32 => made.value[i]);
    assert derived[..] == made.value;
    key := Some(Base64(derived[..]));
    Wipe(derived);
  }
}
