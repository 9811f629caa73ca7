/**
 MD5 as RFC 1321 defines it: the padding of sections 3.1 and 3.2, the initial value of 3.3, the
 steps of 3.4 and the output of 3.5.
 */
module Md5Spec {
  import opened Bits
  import opened Sequences
  import opened WordArithmetic

  type Bytes = seq<Byte>

  // The integer parts of 2^32 times |sin(i + 1)|, sixteen for each round.

  function Sines0(j: nat): bv32
    requires j < 16
  {
    match j
    case 0 => 0xd76aa478 case 1 => 0xe8c7b756 case 2 => 0x242070db case 3 => 0xc1bdceee
    case 4 => 0xf57c0faf case 5 => 0x4787c62a case 6 => 0xa8304613 case 7 => 0xfd469501
    case 8 => 0x698098d8 case 9 => 0x8b44f7af case 10 => 0xffff5bb1 case 11 => 0x895cd7be
    case 12 => 0x6b901122 case 13 => 0xfd987193 case 14 => 0xa679438e case _ => 0x49b40821
  }

  function Sines1(j: nat): bv32
    requires j < 16
  {
    match j
    case 0 => 0xf61e2562 case 1 => 0xc040b340 case 2 => 0x265e5a51 case 3 => 0xe9b6c7aa
    case 4 => 0xd62f105d case 5 => 0x02441453 case 6 => 0xd8a1e681 case 7 => 0xe7d3fbc8
    case 8 => 0x21e1cde6 case 9 => 0xc33707d6 case 10 => 0xf4d50d87 case 11 => 0x455a14ed
    case 12 => 0xa9e3e905 case 13 => 0xfcefa3f8 case 14 => 0x676f02d9 case _ => 0x8d2a4c8a
  }

  function Sines2(j: nat): bv32
    requires j < 16
  {
    match j
    case 0 => 0xfffa3942 case 1 => 0x8771f681 case 2 => 0x6d9d6122 case 3 => 0xfde5380c
    case 4 => 0xa4beea44 case 5 => 0x4bdecfa9 case 6 => 0xf6bb4b60 case 7 => 0xbebfbc70
    case 8 => 0x289b7ec6 case 9 => 0xeaa127fa case 10 => 0xd4ef3085 case 11 => 0x04881d05
    case 12 => 0xd9d4d039 case 13 => 0xe6db99e5 case 14 => 0x1fa27cf8 case _ => 0xc4ac5665
  }

  function Sines3(j: nat): bv32
    requires j < 16
  {
    match j
    case 0 => 0xf4292244 case 1 => 0x432aff97 case 2 => 0xab9423a7 case 3 => 0xfc93a039
    case 4 => 0x655b59c3 case 5 => 0x8f0ccc92 case 6 => 0xffeff47d case 7 => 0x85845dd1
    case 8 => 0x6fa87e4f case 9 => 0xfe2ce6e0 case 10 => 0xa3014314 case 11 => 0x4e0811a1
    case 12 => 0xf7537e82 case 13 => 0xbd3af235 case 14 => 0x2ad7d2bb case _ => 0xeb86d391
  }

  function Sine(r: nat, j: nat): bv32
    requires r < 4 && j < 16
  {
    match r
    case 0 => Sines0(j) case 1 => Sines1(j) case 2 => Sines2(j) case _ => Sines3(j)
  }

  /** The four rotations of a round, in turn. */
  function Pick(j: nat, s0: bv6, s1: bv6, s2: bv6, s3: bv6): bv6 {
    if j % 4 == 0 then s0 else if j % 4 == 1 then s1 else if j % 4 == 2 then s2 else s3
  }

  function Shift(r: nat, j: nat): (s: bv6)
    requires r < 4
    ensures 0 < s < 32
  {
    match r
    case 0 => Pick(j, 7, 12, 17, 22)
    case 1 => Pick(j, 5, 9, 14, 20)
    case 2 => Pick(j, 4, 11, 16, 23)
    case _ => Pick(j, 6, 10, 15, 21)
  }

  datatype Quad = Quad(a: bv32, b: bv32, c: bv32, d: bv32)

  const INITIAL: Quad := Quad(0x67452301, 0xefcdab89, 0x98badcfe, 0x10325476)

  function F(x: bv32, y: bv32, z: bv32): bv32 { (x & y) | (!x & z) }
  function G(x: bv32, y: bv32, z: bv32): bv32 { (x & z) | (y & !z) }
  function H(x: bv32, y: bv32, z: bv32): bv32 { x ^ y ^ z }
  function I(x: bv32, y: bv32, z: bv32): bv32 { y ^ (x | !z) }

  function Mix(r: nat, q: Quad): bv32
    requires r < 4
  {
    match r
    case 0 => F(q.b, q.c, q.d) case 1 => G(q.b, q.c, q.d) case 2 => H(q.b, q.c, q.d) case _ => I(q.b, q.c, q.d)
  }

  /** Which word of the block step j of round r uses. */
  function WordIndex(r: nat, j: nat): (k: nat)
    requires r < 4 && j < 16
    ensures k < 16
  {
    match r
    case 0 => j case 1 => (5 * j + 1) % 16 case 2 => (3 * j + 5) % 16 case _ => 7 * j % 16
  }

  /** The little-endian number of four bytes. */
  function WordOf(b: Bytes): (w: Word32)
    requires |b| == 4
  {
    var b0: nat, b1: nat, b2: nat, b3: nat := b[0], b[1], b[2], b[3];
    b0 + 0x100 * (b1 + 0x100 * (b2 + 0x100 * b3))
  }

  function WordAt(block: Bytes, k: nat): bv32
    requires |block| == 64 && k < 16
  {
    WordOf(block[4 * k..4 * k + 4]) as bv32
  }

  function Step(q: Quad, r: nat, j: nat, x: bv32): Quad
    requires r < 4 && j < 16
  {
    var turned := RotateLeft(Sum4(q.a, Mix(r, q), x, Sine(r, j)), Shift(r, j));
    Quad(q.d, Plus(turned, q.b), q.b, q.c)
  }

  /** The first n steps, sixteen in each round. */
  function Steps(q: Quad, block: Bytes, n: nat): Quad
    requires |block| == 64 && n <= 64
  {
    if n == 0 then q
    else
      var r, j := (n - 1) / 16, (n - 1) % 16;
      Step(Steps(q, block, n - 1), r, j, WordAt(block, WordIndex(r, j)))
  }

  function Compress(q: Quad, block: Bytes): Quad
    requires |block| == 64
  {
    var r := Steps(q, block, 64);
    Quad(Plus(q.a, r.a), Plus(q.b, r.b), Plus(q.c, r.c), Plus(q.d, r.d))
  }

  function HashBlocks(m: Bytes): Quad
    requires |m| % 64 == 0
  {
    if m == [] then INITIAL else Compress(HashBlocks(m[..|m| - 64]), m[|m| - 64..])
  }

  /** The low 64 bits of the length in bits, least significant byte first. */
  function LengthBytes(n: nat): (r: Bytes)
    ensures |r| == 8
  {
    LittleEndian(8 * n % WORD64, 8)
  }

  function ZeroCount(n: nat): (z: nat)
    ensures z < 64 && (n + 1 + z + 8) % 64 == 0
  {
    (55 - n as int) % 64
  }

  /**
   A bit 1, as few zero bits as bring the length to 448 modulo 512 bits, and the length.
   */
  function Pad(m: Bytes): (r: Bytes)
    ensures |r| % 64 == 0
  {
    m + [0x80] + Fill(0, ZeroCount(|m|)) + LengthBytes(|m|)
  }

  /** The words one after the other, each least significant byte first. */
  function Encoded(words: seq<Word32>): (r: Bytes)
    ensures |r| == 4 * |words|
  {
    if words == [] then [] else Encoded(words[..|words| - 1]) + LittleEndian(words[|words| - 1], 4)
  }

  function Number(x: bv32): Word32 { x as nat }

  function Digest(q: Quad): (r: Bytes)
    ensures |r| == 16
  {
    Encoded([Number(q.a), Number(q.b), Number(q.c), Number(q.d)])
  }

  function Md5(m: Bytes): (r: Bytes)
    ensures |r| == 16
  {
    Digest(HashBlocks(Pad(m)))
  }

  lemma OneMoreBlock(m: Bytes, block: Bytes)
    requires |m| % 64 == 0 && |block| == 64
    ensures HashBlocks(m + block) == Compress(HashBlocks(m), block)
  {
    var all := m + block;
    assert all[..|all| - 64] == m && all[|all| - 64..] == block;
  }

  // ---- encoding and decoding are inverse ----------------------------------------------------------

  function Decoded(bytes: Bytes): (words: seq<Word32>)
    requires |bytes| % 4 == 0
    ensures |words| == |bytes| / 4
  {
    if bytes == [] then [] else Decoded(bytes[..|bytes| - 4]) + [WordOf(bytes[|bytes| - 4..])]
  }

  lemma SplitDigit(d: Byte, n: nat)
    ensures (d + 0x100 * n) % 0x100 == d && (d + 0x100 * n) / 0x100 == n
  {
  }

  lemma FourDigits(n: nat)
    ensures LittleEndian(n, 4) == [n % 0x100, n / 0x100 % 0x100, n / 0x100 / 0x100 % 0x100, n / 0x100 / 0x100 / 0x100 % 0x100]
  {
  }

  lemma WordOfBytes(w: Word32)
    ensures WordOf(LittleEndian(w, 4)) == w
  {
    FourDigits(w);
  }

  lemma BytesOfWord(b: Bytes)
    requires |b| == 4
    ensures LittleEndian(WordOf(b), 4) == b
  {
    hide LittleEndian;
    var b1: nat, b2: nat, b3: nat := b[1], b[2], b[3];
    FourDigits(WordOf(b));
    SplitDigit(b[0], b1 + 0x100 * (b2 + 0x100 * b3));
    SplitDigit(b[1], b2 + 0x100 * b3);
    SplitDigit(b[2], b3);
  }

  lemma {:induction false} DecodedEncoded(words: seq<Word32>)
    ensures Decoded(Encoded(words)) == words
  {
    hide LittleEndian, WordOf;
    if words != [] {
      var n := |words| - 1;
      var bytes := Encoded(words);
      DecodedEncoded(words[..n]);
      WordOfBytes(words[n]);
      assert bytes[..|bytes| - 4] == Encoded(words[..n]) && bytes[|bytes| - 4..] == LittleEndian(words[n], 4);
    }
  }

  lemma {:induction false} EncodedDecoded(bytes: Bytes)
    requires |bytes| % 4 == 0
    ensures Encoded(Decoded(bytes)) == bytes
  {
    hide LittleEndian, WordOf;
    if bytes != [] {
      var n := |bytes| - 4;
      EncodedDecoded(bytes[..n]);
      BytesOfWord(bytes[n..]);
      assert bytes == bytes[..n] + bytes[n..];
    }
  }

  lemma {:induction false} DecodedAt(bytes: Bytes, k: nat)
    requires |bytes| % 4 == 0 && 4 * k < |bytes|
    ensures Decoded(bytes)[k] == WordOf(bytes[4 * k..4 * k + 4])
  {
    hide WordOf;
    var n := |bytes| - 4;
    if 4 * k < n {
      DecodedAt(bytes[..n], k);
      assert bytes[..n][4 * k..4 * k + 4] == bytes[4 * k..4 * k + 4];
    } else {
      assert 4 * k == n && bytes[n..] == bytes[4 * k..4 * k + 4];
    }
  }

  lemma DecodeStep(bytes: Bytes, j: nat)
    requires j % 4 == 0 && j + 4 <= |bytes|
    ensures Decoded(bytes[..j + 4]) == Decoded(bytes[..j]) + [WordOf(bytes[j..j + 4])]
  {
    hide WordOf;
    var b := bytes[..j + 4];
    assert b[..j] == bytes[..j] && b[j..] == bytes[j..j + 4];
  }

  lemma EncodeStep(words: seq<Word32>, i: nat)
    requires i < |words|
    ensures Encoded(words[..i + 1]) == Encoded(words[..i]) + LittleEndian(words[i], 4)
  {
    hide LittleEndian;
    assert words[..i + 1][..i] == words[..i];
  }

  // ---- the padded message -------------------------------------------------------------------------

  lemma PadIs(m: Bytes, padding: Bytes)
    requires |padding| == 64 && padding[0] == 0x80 && forall j | 0 < j < 64 :: padding[j] == 0
    ensures
      var index := |m| % 64;
      var n := if index < 56 then 56 - index else 120 - index;
      n <= 64 && Pad(m) == m + padding[..n] + LengthBytes(|m|)
  {
    hide LengthBytes;
    var index := |m| % 64;
    var n := if index < 56 then 56 - index else 120 - index;
    assert padding[..n] == [0x80] + Fill(0, ZeroCount(|m|));
  }
}
