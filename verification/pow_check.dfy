/**
 * The per-attempt test of the proof-of-work solver: read the first four digest
 * bytes as a big-endian 32-bit word, count its leading zero bits, and accept
 * when there are at least `difficulty` of them. Also the lowercase hex encoding
 * of a digest that is published with an accepted attempt.
 */
module PowCheck {
  import opened Wrappers

  type Byte = x: int | 0 <= x < 256

  /** A SHA-256 digest: 32 bytes. */
  type Digest = d: seq<Byte> | |d| == 32 witness seq(32, _ => 0)

  function Pow2(n: nat): (p: nat)
    ensures p >= 1
  {
    if n == 0 then 1 else 2 * Pow2(n - 1)
  }

  /** `u32::from_be_bytes` of digest bytes 0 to 3. */
  function FirstWord(d: Digest): (w: nat)
    ensures w < Pow2(32)
  {
    Pow2Bytes();
    var b0, b1, b2, b3: int := d[0], d[1], d[2], d[3];
    b0 * 0x100_0000 + b1 * 0x1_0000 + b2 * 0x100 + b3
  }

  /** The number of zero bits above the highest set bit of a `width`-bit word. */
  function LeadingZeros(w: nat, width: nat): (z: nat)
    requires w < Pow2(width)
    ensures z <= width
  {
    if width == 0 then 0
    else if w < Pow2(width - 1) then 1 + LeadingZeros(w, width - 1)
    else 0
  }

  /** The acceptance test of one attempt's digest. */
  predicate Accepts(d: Digest, difficulty: nat) {
    LeadingZeros(FirstWord(d), 32) >= difficulty
  }

  lemma {:induction false} Pow2Add(a: nat, b: nat)
    ensures Pow2(a + b) == Pow2(a) * Pow2(b)
  {
    if b > 0 {
      Pow2Add(a, b - 1);
    }
  }

  lemma {:induction false} Pow2Monotone(a: nat, b: nat)
    requires a <= b
    ensures Pow2(a) <= Pow2(b)
  {
    if a < b {
      Pow2Monotone(a, b - 1);
    }
  }

  /** A word has at least `k` leading zeros exactly when it is below 2^(width-k). */
  lemma {:induction false} LeadingZerosAtLeast(w: nat, width: nat, k: nat)
    requires w < Pow2(width) && k <= width
    ensures LeadingZeros(w, width) >= k <==> w < Pow2(width - k)
  {
    if k > 0 {
      if w < Pow2(width - 1) {
        LeadingZerosAtLeast(w, width - 1, k - 1);
      } else {
        Pow2Monotone(width - k, width - 1);
      }
    }
  }

  /** Every bit is a leading zero exactly when the word is zero. */
  lemma LeadingZerosAll(w: nat, width: nat)
    requires w < Pow2(width)
    ensures LeadingZeros(w, width) == width <==> w == 0
  {
    LeadingZerosAtLeast(w, width, width);
  }

  /** For a difficulty of at most 32, an attempt is accepted exactly when its first word is below 2^(32-difficulty). */
  lemma AcceptsBelow(d: Digest, difficulty: nat)
    requires difficulty <= 32
    ensures Accepts(d, difficulty) <==> FirstWord(d) < Pow2(32 - difficulty)
  {
    LeadingZerosAtLeast(FirstWord(d), 32, difficulty);
  }

  /** Difficulty 0 accepts every digest; a difficulty above 32 accepts none. */
  lemma AcceptsExtremes(d: Digest, difficulty: nat)
    ensures difficulty == 0 ==> Accepts(d, difficulty)
    ensures difficulty > 32 ==> !Accepts(d, difficulty)
  {
  }

  lemma Pow2Bytes()
    ensures Pow2(0) == 1 && Pow2(8) == 0x100 && Pow2(16) == 0x1_0000 && Pow2(24) == 0x100_0000
    ensures Pow2(32) == 0x1_0000_0000
  {
    Pow2Add(8, 8);
    Pow2Add(16, 8);
    Pow2Add(16, 16);
  }

  /** A difficulty of 8, 16, 24 or 32 asks exactly for that many whole zero bytes at the front of the digest. */
  lemma AcceptsWholeBytes(d: Digest, bytes: nat)
    requires bytes <= 4
    ensures Accepts(d, 8 * bytes) <==> forall i :: 0 <= i < bytes ==> d[i] == 0
  {
    AcceptsBelow(d, 8 * bytes);
    Pow2Bytes();
    var w := FirstWord(d);
    var b0, b1, b2, b3: int := d[0], d[1], d[2], d[3];
    assert w == b0 * 0x100_0000 + (b1 * 0x1_0000 + (b2 * 0x100 + b3));
    assert b2 * 0x100 + b3 < 0x1_0000;
    assert b1 * 0x1_0000 + (b2 * 0x100 + b3) < 0x100_0000;
    if bytes == 1 {
      assert w < 0x100_0000 <==> b0 == 0;
    } else if bytes == 2 {
      assert w < 0x1_0000 <==> b0 == 0 && b1 == 0;
    } else if bytes == 3 {
      assert w < 0x100 <==> b0 == 0 && b1 == 0 && b2 == 0;
    }
  }

  predicate IsLowerHex(c: char) {
    '0' <= c <= '9' || 'a' <= c <= 'f'
  }

  /** The lowercase hex character of a nibble. */
  function HexDigit(v: nat): (c: char)
    requires v < 16
    ensures IsLowerHex(c)
  {
    if v < 10 then ('0' as int + v) as char else ('a' as int + v - 10) as char
  }

  /** `hex::encode`: each byte becomes two lowercase hex characters, high nibble first. */
  function HexEncode(bytes: seq<Byte>): (s: string)
    ensures |s| == 2 * |bytes|
    ensures forall i :: 0 <= i < |s| ==> IsLowerHex(s[i])
  {
    if bytes == [] then []
    else [HexDigit(bytes[0] / 16), HexDigit(bytes[0] % 16)] + HexEncode(bytes[1..])
  }

  /** The value of one lowercase hex character. */
  function HexValue(c: char): Option<nat> {
    if '0' <= c <= '9' then Some(c as int - '0' as int)
    else if 'a' <= c <= 'f' then Some(c as int - 'a' as int + 10)
    else None
  }

  /** The inverse of `HexEncode`: pairs of lowercase hex characters back to bytes. */
  function HexDecode(s: string): Option<seq<Byte>>
    decreases |s|
  {
    if s == [] then Some([])
    else if |s| == 1 then None
    else
      match (HexValue(s[0]), HexValue(s[1]), HexDecode(s[2..]))
      case (Some(hi), Some(lo), Some(rest)) => Some([hi * 16 + lo] + rest)
      case _ => None
  }

  /** Decoding an encoding gives back the bytes, so distinct digests have distinct hex strings. */
  lemma {:induction false} HexRoundTrip(bytes: seq<Byte>)
    ensures HexDecode(HexEncode(bytes)) == Some(bytes)
  {
    if bytes != [] {
      var b := bytes[0];
      var s := HexEncode(bytes);
      assert s[2..] == HexEncode(bytes[1..]);
      HexRoundTrip(bytes[1..]);
      assert HexValue(HexDigit(b / 16)) == Some(b / 16);
      assert HexValue(HexDigit(b % 16)) == Some(b % 16);
      assert [b] + bytes[1..] == bytes;
    }
  }

  /** The published hex string of a digest has 64 lowercase hex characters. */
  lemma DigestHexLength(d: Digest)
    ensures |HexEncode(d)| == 64
  {
  }
}
