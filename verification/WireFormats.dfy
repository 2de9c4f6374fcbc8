/** The byte formats of the unlock exchange read back, by readers of their own and against written-out texts: that
    they are the formats they are said to be, and not only unambiguous. */
module WireFormats {
  import opened Arithmetic
  import opened Octets
  import opened Results
  import opened UnlockWire

  // ---- framed fields ----

  /** A list of fields, each after its length in four bytes. */
  function Unframe(b: bytes): Option<seq<bytes>>
    decreases |b|
  {
    if b == [] then Some([])
    else if |b| < 4 || |b| - 4 < Number(b[..4]) then None
    else
      var n := 4 + Number(b[..4]);
      var rest := Unframe(b[n..]);
      if rest.None? then None else Some([b[4..n]] + rest.value)
  }

  lemma {:induction false} FramesReadBack(fields: seq<bytes>)
    requires Short(fields)
    ensures Unframe(Frames(fields)) == Some(fields)
  {
    if fields != [] {
      FramesFront(fields);
      FramesReadBack(fields[1..]);
      hide Frames, Unframe;
      FrameReads(fields[0], Frames(fields[1..]));
      assert fields == [fields[0]] + fields[1..];
    }
  }

  lemma FrameReads(f: bytes, rest: bytes)
    requires |f| < 0x1_0000_0000
    ensures Unframe(BigEndian(|f|, 4) + (f + rest))
            == if Unframe(rest).None? then None else Some([f] + Unframe(rest).value)
  {
    Widths();
    NumberOfBigEndian(|f|, 4);
    hide BigEndian, Number;
    var b := BigEndian(|f|, 4) + (f + rest);
    assert b[..4] == BigEndian(|f|, 4) && b[4..4 + |f|] == f && b[4 + |f|..] == rest;
  }

  /** A transcript read back: the label, the node, the epoch in eight bytes, the session, its key, and the nonce. */
  lemma TranscriptReadsBack(a: Asked)
    requires a.Short()
    ensures var fields := Unframe(a.Transcript());
            && fields.Some? && |fields.value| == 6
            && fields.value[0] == Text("regalia-kms/attest/v1") && fields.value[1] == a.nodeId
            && |fields.value[2]| == 8 && Number(fields.value[2]) == a.epoch
            && fields.value[3] == a.sessionId && fields.value[4] == a.ephemeralPublic && fields.value[5] == a.nonce
  {
    hide Frames, Unframe;
    Widths();
    NumberOfBigEndian(a.epoch, 8);
    FramesReadBack(Fields(a.nodeId, a.epoch, a.sessionId, a.ephemeralPublic, a.nonce));
  }

  // ---- the signed response ----

  function Join(parts: seq<bytes>): bytes { if parts == [] then [] else parts[0] + Join(parts[1..]) }

  /** The response as JSON with sorted keys and no space, and before it the label with its zero byte. */
  function Pieces(r: Response): seq<bytes> {
    [Text("regalia-unlock/v1/response\0"),
     Text("{\"ciphertext\":\"") + r.ciphertext,
     Text("\",\"epoch\":") + Decimal(r.epoch),
     Text(",\"manifest_digest\":\"") + r.manifestDigest,
     Text("\",\"node_id\":\"") + r.nodeId,
     Text("\",\"path_epoch\":") + Decimal(r.pathEpoch),
     Text(",\"peer_id\":\"") + r.peerId,
     Text("\",\"schema\":\"") + r.schema,
     Text("\",\"session_id\":\"") + r.sessionId,
     Text("\",\"transcript_sha256\":\"") + r.transcriptSha256,
     Text("\"}")]
  }

  lemma JoinFrom(parts: seq<bytes>, i: nat)
    requires i < |parts|
    ensures Join(parts[i..]) == parts[i] + Join(parts[i + 1..])
  {
    assert parts[i..][1..] == parts[i + 1..];
  }

  lemma Together(key: bytes, value: bytes, rest: bytes)
    ensures (key + value) + rest == key + (value + rest)
  {
  }

  /** What a peer signs is just that. */
  lemma SignedReads(r: Response)
    ensures Signed(r) == Join(Pieces(r))
  {
    var p := Pieces(r);
    hide Text, Decimal;
    assert Join(p[11..]) == [];
    JoinFrom(p, 10);
    JoinFrom(p, 9);
    JoinFrom(p, 8);
    JoinFrom(p, 7);
    JoinFrom(p, 6);
    JoinFrom(p, 5);
    JoinFrom(p, 4);
    JoinFrom(p, 3);
    JoinFrom(p, 2);
    JoinFrom(p, 1);
    JoinFrom(p, 0);
    assert p[0..] == p;
    hide Join;
    Together(Text(Key(8)), r.transcriptSha256, Join(p[10..]));
    Together(Text(Key(7)), r.sessionId, Join(p[9..]));
    assert Join(p[8..]) == Text(Key(7)) + AfterSchema(r);
    hide AfterSchema;
    Together(Text(Key(6)), r.schema, Join(p[8..]));
    Together(Text(Key(5)), r.peerId, Join(p[7..]));
    Together(Text(Key(4)), Decimal(r.pathEpoch), Join(p[6..]));
    assert Join(p[5..]) == Text(Key(4)) + AfterNode(r);
    hide AfterNode;
    Together(Text(Key(3)), r.nodeId, Join(p[5..]));
    Together(Text(Key(2)), r.manifestDigest, Join(p[4..]));
    Together(Text(Key(1)), Decimal(r.epoch), Join(p[3..]));
    assert Join(p[2..]) == Text(Key(1)) + AfterCiphertext(r);
    hide AfterCiphertext;
    Together(Text(Key(0)), r.ciphertext, Join(p[2..]));
  }

  /** What a valid response is, field by field. */
  lemma ValidIff(r: Response)
    ensures IsValid(r)
            <==> && r.schema == Text("regalia.unlock-response/v1") && IsName(r.peerId) && IsName(r.nodeId)
                 && 0 < r.epoch < 0x8000_0000_0000_0000 && 0 < r.pathEpoch < 0x8000_0000_0000_0000
                 && IsLowerHex(r.manifestDigest, 64) && IsLowerHex(r.sessionId, 64)
                 && IsLowerHex(r.transcriptSha256, 64) && IsLowerHex(r.ciphertext, 2 * 384)
  {
    NameIff(r.peerId);
    NameIff(r.nodeId);
    HexIff(r.manifestDigest);
    HexIff(r.sessionId);
    HexIff(r.transcriptSha256);
    HexIff(r.ciphertext);
    hide Text, IsName, IsNodeId, IsHex, IsLowerHex;
  }

  lemma NameIff(s: bytes)
    ensures IsNodeId(s) <==> IsName(s)
  {
    assert forall i | 0 <= i < |s| :: s[i] in s;
  }

  lemma HexIff(s: bytes)
    ensures forall n :: IsLowerHex(s, n) <==> |s| == n && IsHex(s)
  {
    assert forall i | 0 <= i < |s| :: s[i] in s;
  }

  predicate IsAmong(c: byte, first: char, last: char) { first as int <= c <= last as int }

  /** One to 32 lowercase letters, digits and hyphens, a hyphen not first. */
  predicate IsName(s: bytes) {
    && 0 < |s| < 33 && !IsAmong(s[0], '-', '-')
    && forall c | c in s :: IsAmong(c, 'a', 'z') || IsAmong(c, '0', '9') || IsAmong(c, '-', '-')
  }

  predicate IsLowerHex(s: bytes, n: nat) {
    |s| == n && forall c | c in s :: IsAmong(c, '0', '9') || IsAmong(c, 'a', 'f')
  }

  // ---- digits ----

  const DIGITS: string := "0123456789abcdef"

  /** Two digits for each byte, the high one first. */
  lemma {:induction false} HexReads(b: bytes, i: nat)
    requires i < |b|
    ensures Hex(b)[2 * i] == DIGITS[b[i] / 16] as int && Hex(b)[2 * i + 1] == DIGITS[b[i] % 16] as int
  {
    var n := |b| - 1;
    if i < n {
      HexReads(b[..n], i);
    } else {
      DigitReads(b[n] / 16);
      DigitReads(b[n] % 16);
    }
  }

  lemma DigitReads(v: nat)
    requires v < 16
    ensures Digit(v) == DIGITS[v] as int
  {
  }

  /** The value a decimal numeral stands for. */
  function Value10(s: bytes): int { if s == [] then 0 else 10 * Value10(s[..|s| - 1]) + (s[|s| - 1] - '0' as int) }

  /** A number in decimal, without a leading zero. */
  lemma {:induction false} DecimalReads(n: nat)
    ensures Value10(Decimal(n)) == n && (n > 0 ==> Decimal(n)[0] != '0' as int)
  {
    var front: bytes := if n < 10 then [] else Decimal(n / 10);
    var s := Decimal(n);
    assert s == front + [0x30 + n % 10];
    if n >= 10 { DecimalReads(n / 10); }
    hide Decimal;
    LastDigit(front, n % 10);
  }

  lemma LastDigit(front: bytes, d: nat)
    requires d < 10
    ensures Value10(front + [0x30 + d]) == 10 * Value10(front) + d
  {
    assert (front + [0x30 + d])[..|front|] == front;
  }

  // ---- the derivation ----

  /** The derivation's info, slash by slash. */
  lemma InfoReads(target: bytes, peer: bytes, pathEpoch: Uint64)
    ensures Info(target, peer, pathEpoch)
            == Text("regalia/luks/v1/") + target + Text("/") + peer + Text("/") + Decimal(pathEpoch)
  {
    assert Text("/") == [SLASH];
    hide Text, Decimal;
  }

  /** The letters, then the small ones, the digits, plus and slash. */
  lemma SymbolReads(v: nat)
    requires v < 64
    ensures v < 26 ==> Symbol(v) == 'A' as int + v
    ensures 26 <= v < 52 ==> Symbol(v) == 'a' as int + (v - 26)
    ensures 52 <= v < 62 ==> Symbol(v) == '0' as int + (v - 52)
    ensures Symbol(62) == '+' as int && Symbol(63) == '/' as int
  {
  }

  /** Base64 as section 4 of RFC 4648 has it: each 24 bits are four symbols of six, the highest first. */
  lemma FourReads(x: byte, y: byte, z: byte)
    ensures var n := 65536 * x + 256 * y + z;
            Four(x, y, z) == [Symbol(n / 262144), Symbol(n / 4096 % 64), Symbol(n / 64 % 64), Symbol(n % 64)]
  {
    hide Symbol;
    var n := 65536 * x + 256 * y + z;
    var x1, x0, y1, y0, z1, z0 := x / 4, x % 4, y / 16, y % 16, z / 64, z % 64;
    Division(n, 262144, x1, 65536 * x0 + 256 * y + z);
    Division(n, 4096, 16 * x + y1, 256 * y0 + z);
    Division(16 * x + y1, 64, x1, x0 * 16 + y1);
    Division(n, 64, 1024 * x + 4 * y + z1, z0);
    Division(1024 * x + 4 * y + z1, 64, 16 * x + y1, y0 * 4 + z1);
  }

  /** Two of the padded vectors of its section 10. */
  lemma Base64Vectors()
    ensures Base64(Text("f")) == Text("Zg==") && Base64(Text("fo")) == Text("Zm8=")
    ensures Base64(Text("foo")) == Text("Zm9v")
  {
    assert Text("foo")[3..] == [];
  }
}
