/** Reading a LUKS2 disk's metadata: a binary header and its JSON area, kept twice, each copy checked by its own
    SHA-256; section 2 of the LUKS2 On-Disk Format Specification. The device is its bytes. */
module LuksHeader {
  import opened Octets
  import opened Results

  const BINARY_HEADER := 4096
  const MIN_HEADER := 16384
  const MAX_HEADER := 4194304

  /** "LUKS" and "SKUL", each with BA BE after it. */
  const PRIMARY: bytes := [0x4C, 0x55, 0x4B, 0x53, 0xBA, 0xBE]
  const SECONDARY: bytes := [0x53, 0x4B, 0x55, 0x4C, 0xBA, 0xBE]
  const SHA256: bytes := [0x73, 0x68, 0x61, 0x32, 0x35, 0x36]

  datatype Header = Header(sequence: nat, size: nat, json: bytes)

  predicate IsPowerOfTwo(n: nat) { n == 1 || (n > 1 && n % 2 == 0 && IsPowerOfTwo(n / 2)) }

  predicate IsSize(n: nat) { MIN_HEADER <= n <= MAX_HEADER && IsPowerOfTwo(n) }

  /** From one power of two to the next there is no other. */
  lemma {:induction false} OnlyPower(n: nat, a: nat)
    requires IsPowerOfTwo(a) && a <= n < 2 * a
    ensures IsPowerOfTwo(n) <==> n == a
    ensures IsPowerOfTwo(2 * a)
  {
    if a > 1 && n % 2 == 0 { OnlyPower(n / 2, a / 2); }
  }

  lemma SixteenKiB()
    ensures IsPowerOfTwo(MIN_HEADER)
  {
    assert IsPowerOfTwo(1) && IsPowerOfTwo(2) && IsPowerOfTwo(4) && IsPowerOfTwo(8) && IsPowerOfTwo(16)
           && IsPowerOfTwo(32);
    assert IsPowerOfTwo(64) && IsPowerOfTwo(128) && IsPowerOfTwo(256) && IsPowerOfTwo(512) && IsPowerOfTwo(1024);
    assert IsPowerOfTwo(2048) && IsPowerOfTwo(4096) && IsPowerOfTwo(8192);
  }

  /** Up to eight times a power of two. */
  lemma NextPowers(n: nat, a: nat)
    requires IsPowerOfTwo(a) && a <= n < 8 * a
    ensures IsPowerOfTwo(n) <==> n in {a, 2 * a, 4 * a}
    ensures IsPowerOfTwo(8 * a)
  {
    OnlyPower(a, a);
    OnlyPower(2 * a, 2 * a);
    OnlyPower(4 * a, 4 * a);
    OnlyPower(n, if n < 2 * a then a else if n < 4 * a then 2 * a else 4 * a);
  }

  /** The sizes a header may have, as the specification lists them. */
  lemma SizesAre(n: nat)
    ensures IsSize(n)
            <==> n in {0x4000, 0x8000, 0x1_0000, 0x2_0000, 0x4_0000, 0x8_0000, 0x10_0000, 0x20_0000, 0x40_0000}
  {
    SixteenKiB();
    NextPowers(0x4000, 0x4000);
    NextPowers(0x2_0000, 0x2_0000);
    NextPowers(0x10_0000, 0x10_0000);
    hide IsPowerOfTwo;
    if 0x4000 <= n <= 0x40_0000 {
      NextPowers(n, if n < 0x2_0000 then 0x4000 else if n < 0x10_0000 then 0x2_0000 else 0x10_0000);
    }
  }

  lemma MagicsRead()
    ensures PRIMARY == ['L' as int, 'U' as int, 'K' as int, 'S' as int, 0xBA, 0xBE]
    ensures SECONDARY == ['S' as int, 'K' as int, 'U' as int, 'L' as int, 0xBA, 0xBE]
    ensures SHA256 == ['s' as int, 'h' as int, 'a' as int, '2' as int, '5' as int, '6' as int]
  {
  }

  function TrimRight(s: bytes): bytes {
    if s != [] && s[|s| - 1] == 0 then TrimRight(s[..|s| - 1]) else s
  }

  function UpToNul(s: bytes): bytes {
    if s == [] || s[0] == 0 then [] else [s[0]] + UpToNul(s[1..])
  }

  /** The binary header as its checksum covers it: the checksum's own 64 bytes are zero. */
  function Zeroed(b: bytes): bytes
    requires |b| == BINARY_HEADER
  {
    b[..448] + Zeros(64) + b[512..]
  }

  /** The copy of the header at an offset, if there is one: the magic, the version, its place and its checksum are
      right. */
  function Copy(hash: Hash, device: bytes, offset: nat, magic: bytes): Option<Header> {
    if offset + BINARY_HEADER > |device| then None
    else
      var b := device[offset..offset + BINARY_HEADER];
      var size := Number(b[8..16]);
      if b[..6] != magic || Number(b[6..8]) != 2 || !IsSize(size) || Number(b[256..264]) != offset
         || TrimRight(b[72..104]) != SHA256 then None
      else if offset + size > |device| then None
      else
        var area := device[offset + BINARY_HEADER..offset + size];
        if hash(Zeroed(b) + area) != b[448..480] then None else Some(Header(Number(b[16..24]), size, UpToNul(area)))
  }

  lemma ZeroedIs(b: bytes, header: bytes)
    requires |b| == |header| == BINARY_HEADER
    requires forall k | 0 <= k < BINARY_HEADER :: header[k] == if 448 <= k < 512 then 0 else b[k]
    ensures header == Zeroed(b)
  {
  }

  method ReadHeader(hash: Hash, device: bytes, offset: nat, magic: bytes) returns (r: Option<Header>)
    ensures r == Copy(hash, device, offset, magic)
  {
    if offset + BINARY_HEADER > |device| { return None; }
    var header := new byte[BINARY_HEADER](i requires 0 <= i < BINARY_HEADER => device[offset + i]);
    ghost var b := device[offset..offset + BINARY_HEADER];
    assert header[..] == b;
    assert header[8..16] == b[8..16] && header[..6] == b[..6] && header[6..8] == b[6..8]
           && header[256..264] == b[256..264];
    assert header[72..104] == b[72..104] && header[448..480] == b[448..480];
    hide Number, IsPowerOfTwo, TrimRight, UpToNul, Zeroed;
    var size := Number(header[8..16]);
    if header[..6] != magic || Number(header[6..8]) != 2 { return None; }
    if !IsSize(size) { return None; }
    if Number(header[256..264]) != offset { return None; }
    if TrimRight(header[72..104]) != SHA256 { return None; }
    if offset + size > |device| { return None; }
    var area := device[offset + BINARY_HEADER..offset + size];
    var stated := header[448..480];
    for i := 448 to 512
      invariant forall k | 0 <= k < BINARY_HEADER :: header[k] == if 448 <= k < i then 0 else b[k]
    {
      header[i] := 0;
    }
    ZeroedIs(b, header[..]);
    if hash(header[..] + area) != stated { return None; }
    assert header[16..24] == b[16..24];
    r := Some(Header(Number(header[16..24]), size, UpToNul(area)));
  }

  // ---- which copy counts ----

  /** The second copy found by trying every size a header may have, the smallest first. */
  function FirstSecondary(hash: Hash, device: bytes, size: nat): Option<Header>
    requires size > 0
    decreases if size > MAX_HEADER then 0 else MAX_HEADER + 1 - size
  {
    if size > MAX_HEADER then None
    else
      var c := Copy(hash, device, size, SECONDARY);
      if c.Some? then c else FirstSecondary(hash, device, 2 * size)
  }

  function Chosen(hash: Hash, device: bytes): Option<Header> {
    var primary := Copy(hash, device, 0, PRIMARY);
    if primary.None? then FirstSecondary(hash, device, MIN_HEADER)
    else
      var secondary := Copy(hash, device, primary.value.size, SECONDARY);
      if secondary.Some? && secondary.value.sequence > primary.value.sequence then secondary else primary
  }

  method Metadata(hash: Hash, device: bytes) returns (r: Option<bytes>)
    ensures r == match Chosen(hash, device) case None => None case Some(h) => Some(h.json)
  {
    hide Copy;
    var primary := ReadHeader(hash, device, 0, PRIMARY);
    var secondary: Option<Header> := None;
    if primary.Some? {
      secondary := ReadHeader(hash, device, primary.value.size, SECONDARY);
    } else {
      var size := MIN_HEADER;
      while size <= MAX_HEADER && secondary.None?
        invariant size > 0
        invariant FirstSecondary(hash, device, MIN_HEADER)
                  == if secondary.Some? then secondary else FirstSecondary(hash, device, size)
        decreases MAX_HEADER + 1 - size, if secondary.None? then 1 else 0
      {
        secondary := ReadHeader(hash, device, size, SECONDARY);
        size := size * 2;
      }
    }
    if primary.None? && secondary.None? { return None; }
    if primary.None? || (secondary.Some? && secondary.value.sequence > primary.value.sequence) {
      return Some(secondary.value.json);
    }
    r := Some(primary.value.json);
  }

  function Doubled(n: nat, k: nat): nat { if k == 0 then n else 2 * Doubled(n, k - 1) }

  lemma {:induction false} DoubledFront(n: nat, k: nat)
    ensures Doubled(n, k + 1) == Doubled(2 * n, k)
  {
    if k > 0 { DoubledFront(n, k - 1); }
  }

  lemma {:induction false} DoubledAtLeast(n: nat, k: nat)
    ensures Doubled(n, k) >= n
  {
    if k > 0 { DoubledAtLeast(n, k - 1); }
  }

  /** The search finds a copy if there is one at any place, and then the one at the lowest. */
  lemma {:induction false} FirstSecondaryIsFirst(hash: Hash, device: bytes, size: nat, k: nat)
    requires size > 0 && Doubled(size, k) <= MAX_HEADER && Copy(hash, device, Doubled(size, k), SECONDARY).Some?
    requires forall i | 0 <= i < k :: Copy(hash, device, Doubled(size, i), SECONDARY).None?
    ensures FirstSecondary(hash, device, size) == Copy(hash, device, Doubled(size, k), SECONDARY)
    decreases k
  {
    hide Copy;
    DoubledAtLeast(size, k);
    if k > 0 {
      assert Copy(hash, device, Doubled(size, 0), SECONDARY).None?;
      DoubledFront(size, k - 1);
      forall i | 0 <= i < k - 1 ensures Copy(hash, device, Doubled(2 * size, i), SECONDARY).None? {
        DoubledFront(size, i);
        assert Copy(hash, device, Doubled(size, i + 1), SECONDARY).None?;
      }
      FirstSecondaryIsFirst(hash, device, 2 * size, k - 1);
    }
  }

  lemma {:induction false} FoundIsThere(hash: Hash, device: bytes, size: nat)
    requires size > 0
    ensures FirstSecondary(hash, device, size).Some?
            ==> exists k: nat ::
                Doubled(size, k) <= MAX_HEADER
                    && FirstSecondary(hash, device, size) == Copy(hash, device, Doubled(size, k), SECONDARY)
    decreases if size > MAX_HEADER then 0 else MAX_HEADER + 1 - size
  {
    hide Copy;
    if size <= MAX_HEADER {
      if Copy(hash, device, size, SECONDARY).Some? {
        assert Doubled(size, 0) == size;
      } else {
        FoundIsThere(hash, device, 2 * size);
        if FirstSecondary(hash, device, 2 * size).Some? {
          var k: nat :| Doubled(2 * size, k) <= MAX_HEADER
              && FirstSecondary(hash, device, 2 * size) == Copy(hash, device, Doubled(2 * size, k), SECONDARY);
          DoubledFront(size, k);
          assert FirstSecondary(hash, device, size) == Copy(hash, device, Doubled(size, k + 1), SECONDARY);
        }
      }
    }
  }

  /** With a valid primary the choice is the newer of it and the copy right after it, and the primary when they are as
      new. */
  lemma ChosenIsNewest(hash: Hash, device: bytes)
    requires Copy(hash, device, 0, PRIMARY).Some?
    ensures var primary := Copy(hash, device, 0, PRIMARY).value;
            var secondary := Copy(hash, device, primary.size, SECONDARY);
            && Chosen(hash, device) in {Some(primary), secondary}
            && Chosen(hash, device).value.sequence >= primary.sequence
            && (secondary.Some? ==> Chosen(hash, device).value.sequence >= secondary.value.sequence)
  {
    hide Copy;
  }

  /** No metadata exactly when no copy is valid anywhere it is looked for. */
  lemma FailsIffNoCopy(hash: Hash, device: bytes)
    ensures Chosen(hash, device).None? <==> Copy(hash, device, 0, PRIMARY).None?
                                            && forall k: nat | Doubled(MIN_HEADER, k) <= MAX_HEADER ::
                                               Copy(hash, device, Doubled(MIN_HEADER, k), SECONDARY).None?
  {
    hide Copy;
    FoundIsThere(hash, device, MIN_HEADER);
    forall k: nat | Doubled(MIN_HEADER, k) <= MAX_HEADER && Copy(hash, device, Doubled(MIN_HEADER, k), SECONDARY).Some?
      ensures FirstSecondary(hash, device, MIN_HEADER).Some?
    {
      var first := LowestPlace(hash, device, k);
      FirstSecondaryIsFirst(hash, device, MIN_HEADER, first);
    }
  }

  lemma {:induction false} LowestPlace(hash: Hash, device: bytes, k: nat) returns (first: nat)
    requires Doubled(MIN_HEADER, k) <= MAX_HEADER && Copy(hash, device, Doubled(MIN_HEADER, k), SECONDARY).Some?
    ensures Doubled(MIN_HEADER, first) <= MAX_HEADER && Copy(hash, device, Doubled(MIN_HEADER, first), SECONDARY).Some?
    ensures forall i | 0 <= i < first :: Copy(hash, device, Doubled(MIN_HEADER, i), SECONDARY).None?
  {
    hide Copy;
    first := k;
    if i: nat :| i < k && Copy(hash, device, Doubled(MIN_HEADER, i), SECONDARY).Some? {
      DoubledMonotone(MIN_HEADER, i, k);
      first := LowestPlace(hash, device, i);
    }
  }

  lemma {:induction false} DoubledMonotone(n: nat, i: nat, k: nat)
    requires i <= k
    ensures Doubled(n, i) <= Doubled(n, k)
  {
    if i < k { DoubledMonotone(n, i, k - 1); }
  }

  // ---- a header as it is written ----

  /** What goes into a header besides what reading checks: the label, the salt, UUID and subsystem, the padding, and
      whatever follows the JSON's end. */
  datatype Written = Written(magic: bytes, size: nat, sequence: nat, name: bytes, middle: bytes, offset: nat,
                             padding: bytes, tail: bytes, rest: bytes, json: bytes, after: bytes)

  ghost predicate IsWritten(w: Written) {
    && |w.magic| == 6 && IsSize(w.size) && w.sequence < Pow256(8) && w.offset < Pow256(8)
    && |w.name| == 48 && |w.middle| == 152 && |w.padding| == 184 && |w.tail| == 32 && |w.rest| == 3584
    && 0 !in w.json && |Area(w)| == w.size - BINARY_HEADER
  }

  function Head(w: Written): bytes {
    w.magic + ([0, 2] + (BigEndian(w.size, 8) + (BigEndian(w.sequence, 8) + (w.name + ((SHA256 + Zeros(26)) + (w.middle
    + (BigEndian(w.offset, 8) + w.padding)))))))
  }

  /** The JSON, and unless it fills the area, a zero byte and anything after it. */
  function Area(w: Written): bytes {
    w.json + if |w.json| == w.size - BINARY_HEADER then [] else [0] + w.after
  }

  function Binary(hash: Hash, w: Written): bytes {
    Head(w) + ((hash(Head(w) + Zeros(64) + w.rest + Area(w)) + w.tail) + w.rest)
  }

  function Encode(hash: Hash, w: Written): bytes { Binary(hash, w) + Area(w) }

  /** A slice beyond the first part is a slice of the second; a slice within the first is a slice of the first. */
  lemma Beyond(a: bytes, r: bytes, i: nat, j: nat)
    requires |a| <= i <= j <= |a| + |r|
    ensures (a + r)[i..j] == r[i - |a|..j - |a|]
  {
  }

  lemma Within(a: bytes, r: bytes, i: nat, j: nat)
    requires i <= j <= |a|
    ensures (a + r)[i..j] == a[i..j]
  {
  }

  /** What comes after the sequence number. */
  function Behind(w: Written): bytes {
    w.name + ((SHA256 + Zeros(26)) + (w.middle + (BigEndian(w.offset, 8) + w.padding)))
  }

  lemma BehindFields(w: Written)
    requires IsWritten(w)
    ensures var r := Behind(w);
            |r| == 424 && r[48..80] == SHA256 + Zeros(26) && r[232..240] == BigEndian(w.offset, 8)
  {
    hide BigEndian, Zeros, IsPowerOfTwo, Pow256, Area;
    var r7 := BigEndian(w.offset, 8) + w.padding;
    var r6 := w.middle + r7;
    var r5 := (SHA256 + Zeros(26)) + r6;
    assert r5[0..32] == SHA256 + Zeros(26) && r7[0..8] == BigEndian(w.offset, 8);
    Beyond(w.name, r5, 48, 80);
    Beyond(w.name, r5, 232, 240);
    Beyond(SHA256 + Zeros(26), r6, 184, 192);
    Beyond(w.middle, r7, 152, 160);
  }

  lemma HeadFields(w: Written)
    requires IsWritten(w)
    ensures var h := Head(w);
            && |h| == 448 && h[..6] == w.magic && h[6..8] == [0, 2] && h[8..16] == BigEndian(w.size, 8)
               && h[16..24] == BigEndian(w.sequence, 8)
            && h[72..104] == SHA256 + Zeros(26) && h[256..264] == BigEndian(w.offset, 8)
  {
    BehindFields(w);
    var r4 := Behind(w);
    var r3 := BigEndian(w.sequence, 8) + r4;
    var r2 := BigEndian(w.size, 8) + r3;
    var r1: bytes := [0, 2] + r2;
    assert Head(w) == w.magic + r1;
    hide Behind, BigEndian, Zeros, IsPowerOfTwo, Pow256, Area, Head;
    assert r1[0..2] == [0, 2] && r2[0..8] == BigEndian(w.size, 8) && r3[0..8] == BigEndian(w.sequence, 8);
    Beyond(w.magic, r1, 6, 8);
    Beyond(w.magic, r1, 8, 16);
    Beyond(w.magic, r1, 16, 24);
    Beyond(w.magic, r1, 72, 104);
    Beyond(w.magic, r1, 256, 264);
    Beyond([0, 2], r2, 2, 10);
    Beyond([0, 2], r2, 10, 18);
    Beyond([0, 2], r2, 66, 98);
    Beyond([0, 2], r2, 250, 258);
    Beyond(BigEndian(w.size, 8), r3, 8, 16);
    Beyond(BigEndian(w.size, 8), r3, 64, 96);
    Beyond(BigEndian(w.size, 8), r3, 248, 256);
    Beyond(BigEndian(w.sequence, 8), r4, 56, 88);
    Beyond(BigEndian(w.sequence, 8), r4, 240, 248);
  }

  lemma BinaryFields(hash: Hash, w: Written)
    requires IsWritten(w)
    ensures var b := Binary(hash, w);
            && |b| == BINARY_HEADER && b[..6] == w.magic && b[6..8] == [0, 2] && b[8..16] == BigEndian(w.size, 8)
            && b[16..24] == BigEndian(w.sequence, 8) && b[72..104] == SHA256 + Zeros(26)
               && b[256..264] == BigEndian(w.offset, 8)
            && Zeroed(b) == Head(w) + Zeros(64) + w.rest && b[448..480] == hash(Zeroed(b) + Area(w))
  {
    HeadFields(w);
    hide Head, BigEndian, Zeros, IsPowerOfTwo, Pow256, Area;
    var sum := hash(Head(w) + Zeros(64) + w.rest + Area(w));
    var r := (sum + w.tail) + w.rest;
    var b := Head(w) + r;
    Within(Head(w), r, 0, 6);
    Within(Head(w), r, 6, 8);
    Within(Head(w), r, 8, 16);
    Within(Head(w), r, 16, 24);
    Within(Head(w), r, 72, 104);
    Within(Head(w), r, 256, 264);
    Beyond(Head(w), r, 448, 480);
    assert r[0..32] == sum;
    Within(Head(w), r, 0, 448);
    Beyond(Head(w), r, 512, 4096);
    assert r[64..3648] == w.rest;
    assert b[..448] == Head(w) && b[512..] == w.rest;
  }

  lemma {:induction false} TrimsZeros(s: bytes, n: nat)
    requires s != [] && s[|s| - 1] != 0
    ensures TrimRight(s + Zeros(n)) == s
  {
    if n == 0 {
      assert s + Zeros(0) == s;
    } else {
      var t := s + Zeros(n);
      assert t[..|t| - 1] == s + Zeros(n - 1);
      TrimsZeros(s, n - 1);
    }
  }

  lemma {:induction false} EndsAtNul(s: bytes, rest: bytes)
    requires 0 !in s && (rest != [] ==> rest[0] == 0)
    ensures UpToNul(s + rest) == s
  {
    if s == [] {
      assert s + rest == rest;
    } else {
      assert (s + rest)[1..] == s[1..] + rest;
      EndsAtNul(s[1..], rest);
    }
  }

  /** A header written by the specification, anywhere on a device, reads back as its own sequence number, size and
      JSON. */
  lemma ReadsBack(hash: Hash, w: Written, before: bytes, after: bytes)
    requires IsWritten(w) && |before| == w.offset
    ensures Copy(hash, before + Encode(hash, w) + after, w.offset, w.magic) == Some(Header(w.sequence, w.size, w.json))
  {
    BinaryFields(hash, w);
    TrimsZeros(SHA256, 26);
    EndsAtNul(w.json, if |w.json| == w.size - BINARY_HEADER then [] else [0] + w.after);
    FieldNumbers(w);
    Slices(before, Binary(hash, w), Area(w), after);
    hide Binary, BigEndian, Zeros, IsPowerOfTwo, Pow256, Number, TrimRight, UpToNul, Zeroed;
  }

  // ---- and what is read was written ----

  lemma {:induction false} UpToNulSplits(s: bytes)
    ensures 0 !in UpToNul(s) && UpToNul(s) <= s && (|UpToNul(s)| < |s| ==> s[|UpToNul(s)|] == 0)
  {
    if s != [] && s[0] != 0 { UpToNulSplits(s[1..]); }
  }

  lemma {:induction false} TrimmedZeros(s: bytes)
    ensures TrimRight(s) <= s && s == TrimRight(s) + Zeros(|s| - |TrimRight(s)|)
  {
    if s != [] && s[|s| - 1] == 0 {
      var n := |s| - 1;
      TrimmedZeros(s[..n]);
      var t := TrimRight(s[..n]);
      assert s == s[..n] + [0] == t + Zeros(n - |t|) + [0];
      assert Zeros(n - |t|) + [0] == Zeros(|s| - |t|);
    } else {
      assert Zeros(0) == [] && s + [] == s;
    }
  }

  lemma VersionTwo(b: bytes)
    requires |b| == 2 && Number(b) == 2
    ensures b == [0, 2]
  {
    BigEndianOfNumber(b);
    assert BigEndian(2, 2) == BigEndian(0, 1) + [2] && BigEndian(0, 1) == [0];
  }

  lemma NextTo(b: bytes, i: nat, j: nat, k: nat)
    requires i <= j <= k <= |b|
    ensures b[i..j] + b[j..k] == b[i..k]
  {
  }

  /** The header these bytes are, if they are one. */
  function Parsed(b: bytes, area: bytes): Written
    requires |b| == BINARY_HEADER
  {
    var json := UpToNul(area);
    Written(b[0..6], BINARY_HEADER + |area|, Number(b[16..24]), b[24..72], b[104..256], Number(b[256..264]),
            b[264..448], b[480..512], b[512..4096], json, if |json| < |area| then area[|json| + 1..] else [])
  }

  lemma AreaParsed(b: bytes, area: bytes)
    requires |b| == BINARY_HEADER
    ensures Area(Parsed(b, area)) == area && 0 !in Parsed(b, area).json
  {
    UpToNulSplits(area);
    hide UpToNul, Number;
    var json := UpToNul(area);
    if |json| < |area| {
      SplitAt(area, json);
    } else {
      assert area == json && json + [] == json;
    }
  }

  lemma SplitAt(s: bytes, front: bytes)
    requires front <= s && |front| < |s|
    ensures s == front + ([s[|front|]] + s[|front| + 1..])
  {
  }

  lemma HeadParsed(b: bytes, area: bytes)
    requires |b| == BINARY_HEADER && Number(b[6..8]) == 2 && Number(b[8..16]) == BINARY_HEADER + |area|
             && TrimRight(b[72..104]) == SHA256
    ensures Head(Parsed(b, area)) == b[0..448]
  {
    VersionTwo(b[6..8]);
    BigEndianOfNumber(b[8..16]);
    BigEndianOfNumber(b[16..24]);
    BigEndianOfNumber(b[256..264]);
    TrimmedZeros(b[72..104]);
    hide BigEndian, Number, TrimRight, UpToNul, Zeros;
    NextTo(b, 256, 264, 448);
    NextTo(b, 104, 256, 448);
    NextTo(b, 72, 104, 448);
    NextTo(b, 24, 72, 448);
    NextTo(b, 16, 24, 448);
    NextTo(b, 8, 16, 448);
    NextTo(b, 6, 8, 448);
    NextTo(b, 0, 6, 448);
  }

  lemma BinaryParsed(hash: Hash, b: bytes, area: bytes)
    requires |b| == BINARY_HEADER && Head(Parsed(b, area)) == b[0..448] && Area(Parsed(b, area)) == area
    requires hash(Zeroed(b) + area) == b[448..480]
    ensures Binary(hash, Parsed(b, area)) == b
  {
    hide Head, Area, UpToNul, Number;
    var w := Parsed(b, area);
    assert Zeroed(b) == b[0..448] + Zeros(64) + w.rest;
    NextTo(b, 448, 480, 512);
    NextTo(b, 448, 512, 4096);
    NextTo(b, 0, 448, 4096);
    assert b[0..4096] == b;
  }

  lemma ParsedIsWritten(b: bytes, area: bytes)
    requires |b| == BINARY_HEADER && IsSize(BINARY_HEADER + |area|)
    ensures IsWritten(Parsed(b, area))
  {
    AreaParsed(b, area);
    BigEndianOfNumber(b[16..24]);
    BigEndianOfNumber(b[256..264]);
    hide Area, Number, BigEndian, Pow256, IsPowerOfTwo, UpToNul;
  }

  /** THE CONVERSE. What is read as a copy is a header written by the specification, at its place, with its magic,
      sequence, size and JSON; so its checksum is the hash of the rest of it. */
  lemma CopyIsWritten(hash: Hash, device: bytes, offset: nat, magic: bytes) returns (w: Written)
    requires Copy(hash, device, offset, magic).Some?
    ensures var h := Copy(hash, device, offset, magic).value;
            && IsWritten(w) && w.magic == magic && w.offset == offset
            && w.sequence == h.sequence && w.size == h.size && w.json == h.json
            && offset + h.size <= |device| && device[offset..offset + h.size] == Encode(hash, w)
  {
    var h := Copy(hash, device, offset, magic).value;
    CopyMeans(hash, device, offset, magic);
    hide Copy, Number, TrimRight, UpToNul, IsPowerOfTwo, Zeroed, Head, Area, Binary, IsWritten;
    var b, area := device[offset..offset + BINARY_HEADER], device[offset + BINARY_HEADER..offset + h.size];
    w := Parsed(b, area);
    AreaParsed(b, area);
    HeadParsed(b, area);
    BinaryParsed(hash, b, area);
    ParsedIsWritten(b, area);
    NextTo(device, offset, offset + BINARY_HEADER, offset + h.size);
  }

  lemma CopyMeans(hash: Hash, device: bytes, offset: nat, magic: bytes)
    requires Copy(hash, device, offset, magic).Some?
    ensures var h := Copy(hash, device, offset, magic).value;
            && IsSize(h.size) && offset + h.size <= |device|
            && var b, area := device[offset..offset + BINARY_HEADER], device[offset + BINARY_HEADER..offset + h.size];
            && b[0..6] == magic && Number(b[6..8]) == 2 && Number(b[8..16]) == BINARY_HEADER + |area|
            && TrimRight(b[72..104]) == SHA256 && Number(b[256..264]) == offset
            && hash(Zeroed(b) + area) == b[448..480] && h.sequence == Number(b[16..24]) && h.json == UpToNul(area)
  {
    hide Number, TrimRight, UpToNul, IsPowerOfTwo, Zeroed;
    var b := device[offset..offset + BINARY_HEADER];
    assert b[..6] == b[0..6];
  }

  /** So a copy is read exactly where one was written. */
  lemma CopyIff(hash: Hash, device: bytes, offset: nat, magic: bytes, h: Header)
    ensures Copy(hash, device, offset, magic) == Some(h)
            <==> exists w :: IsWrittenAt(hash, device, offset, magic, h, w)
  {
    hide Copy, IsWritten, Encode;
    if Copy(hash, device, offset, magic) == Some(h) {
      var w := CopyIsWritten(hash, device, offset, magic);
      assert IsWrittenAt(hash, device, offset, magic, h, w);
    }
    if w :| IsWrittenAt(hash, device, offset, magic, h, w) {
      var before, after := device[..offset], device[offset + h.size..];
      assert device == before + Encode(hash, w) + after;
      ReadsBack(hash, w, before, after);
    }
  }

  ghost predicate IsWrittenAt(hash: Hash, device: bytes, offset: nat, magic: bytes, h: Header, w: Written) {
    && IsWritten(w) && w.magic == magic && w.offset == offset && h == Header(w.sequence, w.size, w.json)
    && offset + h.size <= |device| && device[offset..offset + h.size] == Encode(hash, w)
  }

  /** What the checksum of a copy covers. */
  function Covered(device: bytes, offset: nat, size: nat): bytes
    requires BINARY_HEADER <= size && offset + size <= |device|
  {
    Zeroed(device[offset..offset + BINARY_HEADER]) + device[offset + BINARY_HEADER..offset + size]
  }

  /** DAMAGE IS SEEN. Two devices read as having a copy there, under one checksum, have the same copy: the same size,
      and every byte of it but the checksum's own field; unless what was hashed clashes. */
  lemma OneChecksumOneCopy(hash: Hash, d: bytes, e: bytes, offset: nat, magic: bytes)
    requires Copy(hash, d, offset, magic).Some? && Copy(hash, e, offset, magic).Some?
    ensures var n, m := Copy(hash, d, offset, magic).value.size, Copy(hash, e, offset, magic).value.size;
            && BINARY_HEADER <= n && offset + n <= |d| && BINARY_HEADER <= m && offset + m <= |e|
            && (d[offset + 448..offset + 480] == e[offset + 448..offset + 480]
                && ClashFree(hash, {Covered(d, offset, n), Covered(e, offset, m)})
                ==> && n == m && d[offset..offset + 448] == e[offset..offset + 448]
                    && d[offset + 512..offset + n] == e[offset + 512..offset + n])
  {
    var n, m := Copy(hash, d, offset, magic).value.size, Copy(hash, e, offset, magic).value.size;
    hide Number, TrimRight, UpToNul, IsPowerOfTwo, Zeroed;
    SliceOf(d, offset, BINARY_HEADER, 448, 480);
    SliceOf(e, offset, BINARY_HEADER, 448, 480);
    if Covered(d, offset, n) == Covered(e, offset, m) { SameCovered(d, e, offset, n, m); }
  }

  lemma Associates(a: bytes, b: bytes, c: bytes)
    ensures (a + b) + c == a + (b + c)
  {
  }

  lemma SliceOf(d: bytes, offset: nat, n: nat, i: nat, j: nat)
    requires i <= j <= n && offset + n <= |d|
    ensures d[offset..offset + n][i..j] == d[offset + i..offset + j]
  {
    var s, t := d[offset..offset + n][i..j], d[offset + i..offset + j];
    forall k | 0 <= k < j - i ensures s[k] == t[k] { assert s[k] == d[offset..offset + n][i + k] == d[offset + i + k]; }
  }

  lemma CoveredIs(d: bytes, offset: nat, n: nat)
    requires BINARY_HEADER <= n && offset + n <= |d|
    ensures Covered(d, offset, n) == d[offset..offset + 448] + Zeros(64) + d[offset + 512..offset + n]
  {
    hide Zeros;
    var b, area := d[offset..offset + BINARY_HEADER], d[offset + BINARY_HEADER..offset + n];
    var front := d[offset..offset + 448] + Zeros(64);
    assert b[..448] == d[offset..offset + 448];
    assert b[512..] == d[offset + 512..offset + BINARY_HEADER];
    assert Covered(d, offset, n) == (front + d[offset + 512..offset + BINARY_HEADER]) + area;
    hide Covered;
    Associates(front, d[offset + 512..offset + BINARY_HEADER], area);
    NextTo(d, offset + 512, offset + BINARY_HEADER, offset + n);
  }

  lemma SameCovered(d: bytes, e: bytes, offset: nat, n: nat, m: nat)
    requires BINARY_HEADER <= n && offset + n <= |d| && BINARY_HEADER <= m && offset + m <= |e|
    requires Covered(d, offset, n) == Covered(e, offset, m)
    ensures n == m && d[offset..offset + 448] == e[offset..offset + 448]
            && d[offset + 512..offset + n] == e[offset + 512..offset + n]
  {
    CoveredIs(d, offset, n);
    CoveredIs(e, offset, m);
    hide Covered, Zeros;
    SplitEqual(d[offset..offset + 448] + Zeros(64), d[offset + 512..offset + n],
               e[offset..offset + 448] + Zeros(64), e[offset + 512..offset + m]);
    SplitEqual(d[offset..offset + 448], Zeros(64), e[offset..offset + 448], Zeros(64));
  }

  lemma FieldNumbers(w: Written)
    requires IsWritten(w)
    ensures Number([0, 2]) == 2 && Number(BigEndian(w.size, 8)) == w.size
            && Number(BigEndian(w.sequence, 8)) == w.sequence
    ensures Number(BigEndian(w.offset, 8)) == w.offset
  {
    Widths();
    NumberOfBigEndian(w.size, 8);
    NumberOfBigEndian(w.sequence, 8);
    NumberOfBigEndian(w.offset, 8);
    assert [0, 2][..1] == [0] && [0][..0] == [];
  }

  lemma Slices(before: bytes, b: bytes, area: bytes, after: bytes)
    ensures var device := before + (b + area) + after;
            && device[|before|..|before| + |b|] == b
            && device[|before| + |b|..|before| + |b| + |area|] == area
  {
  }

  /** Two copies written in step: the newer one's JSON is what is read, whichever it is. */
  lemma NewerCopyIsRead(hash: Hash, p: Written, s: Written, after: bytes)
    requires IsWritten(p) && IsWritten(s) && p.magic == PRIMARY && s.magic == SECONDARY && p.offset == 0
             && s.offset == p.size
    ensures var w := if s.sequence > p.sequence then s else p;
            Chosen(hash, Encode(hash, p) + Encode(hash, s) + after) == Some(Header(w.sequence, w.size, w.json))
  {
    BinaryFields(hash, p);
    var e, f := Encode(hash, p), Encode(hash, s);
    assert |e| == p.size;
    hide Encode, Copy, FirstSecondary, IsWritten;
    Reassociates(e, f, after);
    ReadsBack(hash, p, [], f + after);
    ReadsBack(hash, s, e, after);
  }

  lemma Reassociates(e: bytes, f: bytes, after: bytes)
    ensures e + f + after == [] + e + (f + after)
  {
  }

  /** With no valid primary the lowest valid second copy is read, though a higher one is newer. */
  lemma LowestSecondaryIsRead(hash: Hash, s: Written, t: Written)
    requires IsWritten(s) && IsWritten(t) && s.magic == t.magic == SECONDARY && t.sequence > s.sequence
    requires s.offset == s.size == MIN_HEADER && t.offset == 2 * MIN_HEADER
    ensures var device := Zeros(MIN_HEADER) + Encode(hash, s) + Encode(hash, t);
            && Chosen(hash, device) == Some(Header(s.sequence, s.size, s.json))
            && Copy(hash, device, t.offset, SECONDARY) == Some(Header(t.sequence, t.size, t.json))
            && !IsNewest(hash, device)
  {
    var device := Zeros(MIN_HEADER) + Encode(hash, s) + Encode(hash, t);
    BinaryFields(hash, s);
    BinaryFields(hash, t);
    assert device[0..BINARY_HEADER][..6][0] == 0;
    assert Copy(hash, device, 0, PRIMARY).None?;
    hide Copy, Binary, IsPowerOfTwo, Pow256;
    ReadsBack(hash, s, Zeros(MIN_HEADER), Encode(hash, t));
    assert device == (Zeros(MIN_HEADER) + Encode(hash, s)) + Encode(hash, t) + [];
    ReadsBack(hash, t, Zeros(MIN_HEADER) + Encode(hash, s), []);
    assert Doubled(MIN_HEADER, 1) == t.offset;
    hide Chosen, Encode;
    assert Copy(hash, device, Doubled(MIN_HEADER, 1), SECONDARY).Some?;
  }

  /** An old and a new second copy, with nothing in them but what a header must have. */
  function Bare(offset: nat, sequence: nat): Written {
    Written(SECONDARY, MIN_HEADER, sequence, Zeros(48), Zeros(152), offset, Zeros(184), Zeros(32), Zeros(3584), [],
            Zeros(MIN_HEADER - BINARY_HEADER - 1))
  }

  /** A device whose newest valid copy is not the one read. */
  lemma OlderCopyIsRead(hash: Hash)
    ensures var device := Zeros(MIN_HEADER) + Encode(hash, Bare(MIN_HEADER, 1)) + Encode(hash, Bare(2 * MIN_HEADER, 2));
            && Chosen(hash, device) == Some(Header(1, MIN_HEADER, []))
            && Copy(hash, device, 2 * MIN_HEADER, SECONDARY) == Some(Header(2, MIN_HEADER, []))
  {
    Widths();
    SixteenKiB();
    hide Zeros, Pow256, IsPowerOfTwo, Encode, Copy, Chosen;
    LowestSecondaryIsRead(hash, Bare(MIN_HEADER, 1), Bare(2 * MIN_HEADER, 2));
  }

  // ---- when the choice is the newest of all ----

  /** There is a choice, and no valid copy anywhere one may be is newer. */
  ghost predicate IsNewest(hash: Hash, device: bytes) {
    var primary, chosen := Copy(hash, device, 0, PRIMARY), Chosen(hash, device);
    && chosen.Some? && (primary.Some? ==> primary.value.sequence <= chosen.value.sequence)
    && forall k: nat | Doubled(MIN_HEADER, k) <= MAX_HEADER
       && Copy(hash, device, Doubled(MIN_HEADER, k), SECONDARY).Some? ::
      Copy(hash, device, Doubled(MIN_HEADER, k), SECONDARY).value.sequence <= chosen.value.sequence
  }

  /** The copy at the k-th place a second one may be at. */
  function Second(hash: Hash, device: bytes, k: nat): Option<Header> {
    if Doubled(MIN_HEADER, k) <= MAX_HEADER then Copy(hash, device, Doubled(MIN_HEADER, k), SECONDARY) else None
  }

  /** With a valid primary no copy but the one right after it is newer than both; without one there is a lowest valid
      copy, and none above it is newer. */
  ghost predicate NoneNewer(hash: Hash, device: bytes) {
    match Copy(hash, device, 0, PRIMARY)
    case Some(p) =>
      var q := Copy(hash, device, p.size, SECONDARY);
      forall k: nat | Second(hash, device, k).Some? && Doubled(MIN_HEADER, k) != p.size ::
        var c := Second(hash, device, k).value;
        c.sequence <= p.sequence || (q.Some? && c.sequence <= q.value.sequence)
    case None =>
      exists j: nat | IsLowest(hash, device, j) ::
        forall k: nat | k > j && Second(hash, device, k).Some? ::
          Second(hash, device, k).value.sequence <= Second(hash, device, j).value.sequence
  }

  ghost predicate IsLowest(hash: Hash, device: bytes, j: nat) {
    && Second(hash, device, j).Some?
    && forall i | 0 <= i < j :: Copy(hash, device, Doubled(MIN_HEADER, i), SECONDARY).None?
  }

  /** The choice is the newest of all valid copies exactly when none at a place the code does not come to is newer than
      those it comes to. */
  lemma NewestIff(hash: Hash, device: bytes)
    ensures IsNewest(hash, device) <==> NoneNewer(hash, device)
  {
    hide Copy, FirstSecondary, Doubled;
    if Copy(hash, device, 0, PRIMARY).None? {
      hide IsNewest, NoneNewer;
      NewestIffLowest(hash, device);
    } else {
      forall k: nat | Doubled(MIN_HEADER, k) <= MAX_HEADER
        ensures Second(hash, device, k) == Copy(hash, device, Doubled(MIN_HEADER, k), SECONDARY) {}
    }
  }

  lemma NewestIffLowest(hash: Hash, device: bytes)
    requires Copy(hash, device, 0, PRIMARY).None?
    ensures IsNewest(hash, device) <==> NoneNewer(hash, device)
  {
    hide Copy, FirstSecondary, Doubled;
    if k: nat :| Second(hash, device, k).Some? { HasLowest(hash, device, k); }
    if j: nat :| IsLowest(hash, device, j) {
      ChosenIsLowest(hash, device, j);
      forall k: nat | Doubled(MIN_HEADER, k) <= MAX_HEADER
        ensures Second(hash, device, k) == Copy(hash, device, Doubled(MIN_HEADER, k), SECONDARY) {}
      forall i: nat | IsLowest(hash, device, i) ensures i == j { OneLowest(hash, device, i, j); }
    } else {
      forall k: nat | Doubled(MIN_HEADER, k) <= MAX_HEADER
        ensures Copy(hash, device, Doubled(MIN_HEADER, k), SECONDARY).None? {
        assert Second(hash, device, k).None?;
      }
      FailsIffNoCopy(hash, device);
    }
  }

  lemma HasLowest(hash: Hash, device: bytes, k: nat)
    requires Second(hash, device, k).Some?
    ensures exists j: nat :: IsLowest(hash, device, j)
  {
    hide Copy, Doubled;
    var first := LowestPlace(hash, device, k);
    assert IsLowest(hash, device, first);
  }

  lemma ChosenIsLowest(hash: Hash, device: bytes, j: nat)
    requires Copy(hash, device, 0, PRIMARY).None? && IsLowest(hash, device, j)
    ensures Chosen(hash, device) == Second(hash, device, j)
  {
    hide Copy;
    FirstSecondaryIsFirst(hash, device, MIN_HEADER, j);
  }

  lemma OneLowest(hash: Hash, device: bytes, i: nat, j: nat)
    requires IsLowest(hash, device, i) && IsLowest(hash, device, j)
    ensures i == j
  {
    hide Copy, Doubled;
  }
}
