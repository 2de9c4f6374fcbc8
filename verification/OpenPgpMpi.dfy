/** The OpenPGP multiprecision integer an Ed25519 signature's R and S are written as: a two-byte bit count, then the
    value without leading zero bytes; section 3.2 of RFC 9580. */
module OpenPgpMpi {
  import opened Arithmetic
  import opened Octets
  import opened Results

  datatype Mpi = Mpi(value: bytes, bitLength: nat)

  const COUNTS := 0x1_0000

  /** How many bits a number has. */
  function BitLen(n: nat): nat { if n == 0 then 0 else 1 + BitLen(n / 2) }

  // ---- bit lengths ----

  lemma {:induction false} BitLenBetween(n: nat, j: nat)
    requires Pow2(j) <= n < Pow2(j + 1)
    ensures BitLen(n) == j + 1
  {
    if j > 0 { BitLenBetween(n / 2, j - 1); }
  }

  lemma BitLenDouble(n: nat, b: nat)
    requires n > 0 && b < 2
    ensures BitLen(2 * n + b) == 1 + BitLen(n)
  {
    assert (2 * n + b) / 2 == n;
  }

  lemma BitLenByte(n: nat, b: byte)
    requires n > 0
    ensures BitLen(256 * n + b) == 8 + BitLen(n)
  {
    hide BitLen;
    var b1, b2, b3, b4, b5, b6, b7 := b / 2, b / 4, b / 8, b / 16, b / 32, b / 64, b / 128;
    BitLenDouble(n, b7);
    BitLenDouble(2 * n + b7, b6 - 2 * b7);
    BitLenDouble(4 * n + b6, b5 - 2 * b6);
    BitLenDouble(8 * n + b5, b4 - 2 * b5);
    BitLenDouble(16 * n + b4, b3 - 2 * b4);
    BitLenDouble(32 * n + b3, b2 - 2 * b3);
    BitLenDouble(64 * n + b2, b1 - 2 * b2);
    BitLenDouble(128 * n + b1, b - 2 * b1);
  }

  lemma {:induction false} PositiveNumber(v: bytes)
    requires v != [] && v[0] != 0
    ensures Number(v) > 0
  {
    if |v| > 1 { PositiveNumber(v[..|v| - 1]); }
  }

  /** A value with no leading zero byte has eight bits for every byte after the first, and the first one's own. */
  lemma {:induction false} BitLenOfValue(v: bytes)
    requires v != [] && v[0] != 0
    ensures BitLen(Number(v)) == 8 * (|v| - 1) + BitLen(v[0])
  {
    if |v| == 1 {
      assert v[..0] == [];
      assert Number(v[..0]) == 0;
    } else {
      var front := v[..|v| - 1];
      assert Number(v) == 256 * Number(front) + v[|v| - 1];
      hide BitLen, Number;
      BitLenOfValue(front);
      PositiveNumber(front);
      BitLenByte(Number(front), v[|v| - 1]);
    }
  }

  lemma {:induction false} LeadingZeros(n: nat, v: bytes)
    ensures Number(Zeros(n) + v) == Number(v)
  {
    if v == [] {
      assert Zeros(n) + v == Zeros(n);
      if n > 0 {
        assert Zeros(n)[..n - 1] == Zeros(n - 1) + [];
        LeadingZeros(n - 1, []);
      }
    } else {
      assert (Zeros(n) + v)[..n + |v| - 1] == Zeros(n) + v[..|v| - 1];
      LeadingZeros(n, v[..|v| - 1]);
    }
  }

  // ---- the integer ----

  method Strip(value: bytes) returns (v: bytes)
    ensures |v| <= |value| && value == Zeros(|value| - |v|) + v
    ensures v == [] || v[0] != 0
  {
    v := value;
    while |v| > 0 && v[0] == 0
      invariant |v| <= |value| && value == Zeros(|value| - |v|) + v
    {
      assert v == [0] + v[1..] && Zeros(|value| - |v|) + [0] == Zeros(|value| - |v| + 1);
      v := v[1..];
    }
  }

  /** The bits, counted down from whole bytes by the unset bits on top, in 16-bit arithmetic. */
  method CountBits(length: nat, top: byte) returns (bits: nat)
    requires length > 0 && top != 0
    ensures bits == (8 * (length - 1) + BitLen(top)) % COUNTS
  {
    hide BitLen;
    bits := 8 * length % COUNTS;
    var mask: nat := 0x80;
    ghost var j := 7;
    EightBits();
    while mask != 0 && top / mask % 2 == 0
      invariant 0 <= j <= 7 && mask == Pow2(j) && top < 2 * mask
      invariant bits == (8 * length - (7 - j)) % COUNTS
      decreases mask
    {
      LowerBit(top, mask);
      CountDown(8 * length - (7 - j));
      bits := (bits - 1) % COUNTS;
      mask := mask / 2;
      j := j - 1;
    }
    HighBit(top, mask);
    BitLenBetween(top, j);
  }

  method NewMpi(value: bytes) returns (m: Mpi)
    ensures m.value == [] || m.value[0] != 0
    ensures |m.value| <= |value| && value == Zeros(|value| - |m.value|) + m.value && Number(m.value) == Number(value)
    ensures m.bitLength == BitLen(Number(value)) % COUNTS
  {
    var v := Strip(value);
    LeadingZeros(|value| - |v|, v);
    m := Mpi(v, 0);
    if |v| > 0 {
      var bits := CountBits(|v|, v[0]);
      BitLenOfValue(v);
      m := m.(bitLength := bits);
    }
  }

  lemma CountDown(n: int)
    ensures (n % COUNTS - 1) % COUNTS == (n - 1) % COUNTS
  {
  }

  lemma EightBits()
    ensures Pow2(7) == 0x80 && Pow2(8) == 0x100
  {
    assert Pow2(1) == 2 && Pow2(2) == 4 && Pow2(3) == 8 && Pow2(4) == 16 && Pow2(5) == 32 && Pow2(6) == 64;
  }

  lemma LowerBit(b: byte, mask: nat)
    requires mask > 0 && b < 2 * mask && b / mask % 2 == 0
    ensures b < mask
  {
    Quotient(b, mask);
  }

  lemma Quotient(b: nat, mask: nat)
    requires mask > 0 && b < 2 * mask
    ensures b / mask == if b < mask then 0 else 1
  {
    if b < mask { Division(b, mask, 0, b); } else { Division(b, mask, 1, b - mask); }
  }

  lemma HighBit(b: byte, mask: nat)
    requires mask > 0 && b < 2 * mask && b / mask % 2 != 0
    ensures b >= mask
  {
    Quotient(b, mask);
  }

  function EncodedBytes(m: Mpi): bytes { [m.bitLength / 256 % 256, m.bitLength % 256] + m.value }

  /** The count is two bytes too: what it states of a longer value is cut to 16 bits. */
  function EncodedLength(m: Mpi): (n: nat)
    ensures n == |EncodedBytes(m)| % COUNTS
  {
    (2 + |m.value|) % COUNTS
  }

  // ---- reading it back ----

  /** What RFC 9580 reads: a bit count, then as many bytes as hold that many bits; and what is left. */
  function Decode(b: bytes): Option<(nat, bytes)> {
    if |b| < 2 then None
    else
      var length := (Number(b[..2]) + 7) / 8;
      if |b| < 2 + length then None else Some((Number(b[2..2 + length]), b[2 + length..]))
  }

  lemma {:induction false} BitLenBelow(n: nat, j: nat)
    requires n < Pow2(j)
    ensures BitLen(n) <= j
  {
    if j > 0 { BitLenBelow(n / 2, j - 1); }
  }

  lemma OneByte(b: byte)
    requires b > 0
    ensures 1 <= BitLen(b) <= 8
  {
    EightBits();
    BitLenBelow(b, 8);
  }

  lemma TwoBytes(n: nat)
    requires n < COUNTS
    ensures Number([n / 256 % 256, n % 256]) == n
  {
    var b: bytes := [n / 256 % 256, n % 256];
    var front := b[..1];
    assert front[..0] == [] && Number(front) == front[0] == b[0];
    assert Number(b) == 256 * Number(front) + b[1];
  }

  /** The encoding of an integer of fewer than 2^16 bits, whatever follows it, reads back as that integer and leaves
      what follows. */
  lemma DecodesBack(m: Mpi, rest: bytes)
    requires (m.value == [] || m.value[0] != 0) && m.bitLength == BitLen(Number(m.value)) < COUNTS
    ensures Decode(EncodedBytes(m) + rest) == Some((Number(m.value), rest))
  {
    var b := EncodedBytes(m) + rest;
    TwoBytes(m.bitLength);
    assert b[..2] == [m.bitLength / 256 % 256, m.bitLength % 256];
    if m.value == [] {
      assert BitLen(Number(m.value)) == 0;
    } else {
      BitLenOfValue(m.value);
      OneByte(m.value[0]);
    }
    hide BitLen, Number;
    assert (m.bitLength + 7) / 8 == |m.value|;
    assert b[2..2 + |m.value|] == m.value && b[2 + |m.value|..] == rest;
  }

  /** The bit count is exact if, and only if, the integer has fewer than 2^16 bits, as every 32-byte value does. */
  lemma CountIsExactIff(value: bytes, m: Mpi)
    requires m.bitLength == BitLen(Number(value)) % COUNTS
    ensures m.bitLength == BitLen(Number(value)) <==> BitLen(Number(value)) < COUNTS
    ensures |value| <= 8191 ==> BitLen(Number(value)) < COUNTS
  {
    hide BitLen;
    BitLenAtMost(value);
  }

  /** A value whose count is wrong: 65536 bits are counted as none. */
  lemma LongCountIsWrong(m: Mpi)
    requires m.bitLength == BitLen(Number([0x80] + Zeros(8191))) % COUNTS
    ensures BitLen(Number([0x80] + Zeros(8191))) == 65536 && m.bitLength == 0
  {
    var v: bytes := [0x80] + Zeros(8191);
    BitLenOfValue(v);
    EightBits();
    BitLenBetween(0x80, 7);
    hide BitLen, Number, Zeros;
  }

  lemma {:induction false} BitLenAtMost(value: bytes)
    ensures BitLen(Number(value)) <= 8 * |value|
  {
    if value != [] {
      var front, last := value[..|value| - 1], value[|value| - 1];
      BitLenAtMost(front);
      if Number(front) > 0 { BitLenByte(Number(front), last); } else if last > 0 { OneByte(last); }
      hide BitLen;
    }
  }

  /** R and S come back: the value padded on the left to 32 bytes is the 32 bytes it was made from. */
  lemma PadsBack(value: bytes, m: Mpi)
    requires |value| == 32 && |m.value| <= 32 && (m.value == [] || m.value[0] != 0) && Number(m.value) == Number(value)
    ensures Zeros(32 - |m.value|) + m.value == value
  {
    hide BigEndian, Number, Pow256, Zeros;
    var padded := Zeros(32 - |m.value|) + m.value;
    LeadingZeros(32 - |m.value|, m.value);
    BigEndianOfNumber(padded);
    BigEndianOfNumber(value);
  }
}
