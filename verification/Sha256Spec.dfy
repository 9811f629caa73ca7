/**
 SHA-256 as FIPS 180-4 defines it: the functions of section 4.1.2, the constants of 4.2.2, the
 padding of 5.1.1, the initial value of 5.3.3 and the hash computation of 6.2.2; and HMAC as
 section 2 of RFC 2104 defines it.
 */
module Sha256Spec {
  import opened Sequences
  import opened WordArithmetic

  type Octets = seq<bv8>

  const CONSTANTS0: seq<bv32> := [
    0x428a2f98, 0x71374491, 0xb5c0fbcf, 0xe9b5dba5, 0x3956c25b, 0x59f111f1, 0x923f82a4, 0xab1c5ed5,
    0xd807aa98, 0x12835b01, 0x243185be, 0x550c7dc3, 0x72be5d74, 0x80deb1fe, 0x9bdc06a7, 0xc19bf174
  ]
  const CONSTANTS1: seq<bv32> := [
    0xe49b69c1, 0xefbe4786, 0x0fc19dc6, 0x240ca1cc, 0x2de92c6f, 0x4a7484aa, 0x5cb0a9dc, 0x76f988da,
    0x983e5152, 0xa831c66d, 0xb00327c8, 0xbf597fc7, 0xc6e00bf3, 0xd5a79147, 0x06ca6351, 0x14292967
  ]
  const CONSTANTS2: seq<bv32> := [
    0x27b70a85, 0x2e1b2138, 0x4d2c6dfc, 0x53380d13, 0x650a7354, 0x766a0abb, 0x81c2c92e, 0x92722c85,
    0xa2bfe8a1, 0xa81a664b, 0xc24b8b70, 0xc76c51a3, 0xd192e819, 0xd6990624, 0xf40e3585, 0x106aa070
  ]
  const CONSTANTS3: seq<bv32> := [
    0x19a4c116, 0x1e376c08, 0x2748774c, 0x34b0bcb5, 0x391c0cb3, 0x4ed8aa4a, 0x5b9cca4f, 0x682e6ff3,
    0x748f82ee, 0x78a5636f, 0x84c87814, 0x8cc70208, 0x90befffa, 0xa4506ceb, 0xbef9a3f7, 0xc67178f2
  ]

  const CONSTANTS: seq<bv32> := CONSTANTS0 + CONSTANTS1 + CONSTANTS2 + CONSTANTS3

  datatype Chain = Chain(a: bv32, b: bv32, c: bv32, d: bv32, e: bv32, f: bv32, g: bv32, h: bv32)

  const INITIAL: Chain := Chain(0x6a09e667, 0xbb67ae85, 0x3c6ef372, 0xa54ff53a,
                                0x510e527f, 0x9b05688c, 0x1f83d9ab, 0x5be0cd19)

  function Choose(x: bv32, y: bv32, z: bv32): bv32 { (x & y) ^ (!x & z) }
  function Majority(x: bv32, y: bv32, z: bv32): bv32 { (x & y) ^ (x & z) ^ (y & z) }
  function BigSigma0(x: bv32): bv32 { RotateRight(x, 2) ^ RotateRight(x, 13) ^ RotateRight(x, 22) }
  function BigSigma1(x: bv32): bv32 { RotateRight(x, 6) ^ RotateRight(x, 11) ^ RotateRight(x, 25) }
  function SmallSigma0(x: bv32): bv32 { RotateRight(x, 7) ^ RotateRight(x, 18) ^ (x >> 3) }
  function SmallSigma1(x: bv32): bv32 { RotateRight(x, 17) ^ RotateRight(x, 19) ^ (x >> 10) }

  function WordAt(block: Octets, t: nat): bv32
    requires |block| == 64 && t < 16
  {
    ((block[4 * t] as bv32) << 24) | ((block[4 * t + 1] as bv32) << 16)
    | ((block[4 * t + 2] as bv32) << 8) | (block[4 * t + 3] as bv32)
  }

  /** The message schedule. */
  function Schedule(block: Octets, t: nat): bv32
    requires |block| == 64 && t < 64
  {
    if t < 16 then WordAt(block, t)
    else
      Sum4(SmallSigma1(Schedule(block, t - 2)), Schedule(block, t - 7),
           SmallSigma0(Schedule(block, t - 15)), Schedule(block, t - 16))
  }

  function Round(v: Chain, k: bv32, w: bv32): Chain {
    var t1 := Plus(Plus(Plus(Plus(v.h, BigSigma1(v.e)), Choose(v.e, v.f, v.g)), k), w);
    var t2 := Plus(BigSigma0(v.a), Majority(v.a, v.b, v.c));
    Chain(Plus(t1, t2), v.a, v.b, v.c, Plus(v.d, t1), v.e, v.f, v.g)
  }

  function Rounds(v: Chain, block: Octets, t: nat): Chain
    requires |block| == 64 && t <= 64
  {
    if t == 0 then v else Round(Rounds(v, block, t - 1), CONSTANTS[t - 1], Schedule(block, t - 1))
  }

  function Add(v: Chain, w: Chain): Chain {
    Chain(Plus(v.a, w.a), Plus(v.b, w.b), Plus(v.c, w.c), Plus(v.d, w.d),
          Plus(v.e, w.e), Plus(v.f, w.f), Plus(v.g, w.g), Plus(v.h, w.h))
  }

  function Compress(v: Chain, block: Octets): Chain
    requires |block| == 64
  {
    Add(v, Rounds(v, block, 64))
  }

  /** The hash value after all blocks of `m`. */
  function HashBlocks(m: Octets): Chain
    requires |m| % 64 == 0
  {
    if m == [] then INITIAL else Compress(HashBlocks(m[..|m| - 64]), m[|m| - 64..])
  }

  /** `n` shifted right by `i` bytes. */
  function ShiftedBytes(n: nat, i: nat): nat {
    if i == 0 then n else ShiftedBytes(n / 256, i - 1)
  }

  /** The last `len` base-256 digits of `n`, most significant first. */
  function BigEndian(n: nat, len: nat): (r: Octets)
    ensures |r| == len
  {
    if len == 0 then [] else BigEndian(n / 256, len - 1) + [(n % 256) as bv8]
  }

  /**
   The bit 1, then as few zero bits as bring the length to 448 modulo 512 bits, then the length of
   the message in bits as a 64-bit number.
   */
  function Pad(m: Octets): (r: Octets)
    ensures |r| % 64 == 0
  {
    var zeros := (55 - |m| as int) % 64;
    m + [0x80] + Fill(0, zeros) + BigEndian(8 * |m|, 8)
  }

  /** The byte that a shift by `n` bits brings to the lowest place. */
  function OctetAt(x: bv32, n: bv6): bv8
    requires n < 32
  {
    ((x >> n) & 0xff) as bv8
  }

  function WordOctets(x: bv32): (r: Octets)
    ensures |r| == 4
  {
    [OctetAt(x, 24), OctetAt(x, 16), OctetAt(x, 8), OctetAt(x, 0)]
  }

  /** Each word as four bytes, most significant first. */
  function OctetsOf(words: seq<bv32>): (r: Octets)
    ensures |r| == 4 * |words|
  {
    if words == [] then []
    else OctetsOf(words[..|words| - 1]) + WordOctets(words[|words| - 1])
  }

  lemma OneMoreWord(words: seq<bv32>, i: nat)
    requires i < |words|
    ensures OctetsOf(words[..i + 1]) == OctetsOf(words[..i]) + WordOctets(words[i])
  {
    hide WordOctets;
    assert words[..i + 1][..i] == words[..i];
  }

  lemma OctetsOfNone(words: seq<bv32>)
    ensures OctetsOf(words[..0]) == []
  {
  }

  function Words(v: Chain): seq<bv32> { [v.a, v.b, v.c, v.d, v.e, v.f, v.g, v.h] }

  function Digest(v: Chain): (r: Octets)
    ensures |r| == 32
  {
    OctetsOf(Words(v))
  }

  function Sha256(m: Octets): (r: Octets)
    ensures |r| == 32
  {
    Digest(HashBlocks(Pad(m)))
  }

  // ---- RFC 2104 -----------------------------------------------------------------------------

  /** The key as a whole block: hashed first if it is too long, then filled up with zeros. */
  function BlockKey(key: Octets): (r: Octets)
    ensures |r| == 64
  {
    var k := if |key| > 64 then Sha256(key) else key;
    k + Fill(0, 64 - |k|)
  }

  function Masked(key: Octets, mask: bv8): (r: Octets)
    ensures |r| == |key| && forall i | 0 <= i < |r| :: r[i] == key[i] ^ mask
  {
    seq(|key|, i requires 0 <= i < |key| => key[i] ^ mask)
  }

  function Hmac(key: Octets, text: Octets): (r: Octets)
    ensures |r| == 32
  {
    Sha256(Masked(BlockKey(key), 0x5c) + Sha256(Masked(BlockKey(key), 0x36) + text))
  }

  // ---- facts used by the streaming form ----------------------------------------------------------

  /** One more block at the end is one more compression. */
  lemma OneMoreBlock(m: Octets, block: Octets)
    requires |m| % 64 == 0 && |block| == 64
    ensures HashBlocks(m + block) == Compress(HashBlocks(m), block)
  {
    var all := m + block;
    assert all[..|all| - 64] == m && all[|all| - 64..] == block;
  }

  /** Digit i of the big-endian form is what the shift by 8 * i bits leaves in the lowest byte. */
  lemma {:induction false} BigEndianDigit(n: nat, len: nat, i: nat)
    requires i < len
    ensures BigEndian(n, len)[len - 1 - i] == (ShiftedBytes(n, i) % 256) as bv8
  {
    if i > 0 {
      BigEndianDigit(n / 256, len - 1, i - 1);
    }
  }

  // ---- the padded message, block by block --------------------------------------------------------

  lemma PadTail(m: Octets, k: nat)
    requires k <= |m| && k % 64 == 0 && |m| - k < 64
    ensures
      var rest := m[k..];
      Pad(m) == m[..k] + (rest + [0x80] + Fill(0, if |rest| < 56 then 55 - |rest| else 119 - |rest|) + BigEndian(8 * |m|, 8))
  {
    var rest := m[k..];
    assert (55 - |m| as int) % 64 == if |rest| < 56 then 55 - |rest| else 119 - |rest|;
    assert m == m[..k] + rest;
  }

  /** With fewer than 56 bytes over, the padding fits into the last block. */
  lemma PadShort(m: Octets, k: nat)
    requires k <= |m| && k % 64 == 0 && |m| - k < 56
    ensures
      var rest := m[k..];
      HashBlocks(Pad(m)) == Compress(HashBlocks(m[..k]), rest + [0x80] + Fill(0, 55 - |rest|) + BigEndian(8 * |m|, 8))
  {
    hide HashBlocks, Compress, BigEndian, Pad;
    PadTail(m, k);
    OneMoreBlock(m[..k], m[k..] + [0x80] + Fill(0, 55 - |m[k..]|) + BigEndian(8 * |m|, 8));
  }

  /** Otherwise it takes a block of its own. */
  lemma PadLong(m: Octets, k: nat)
    requires k <= |m| && k % 64 == 0 && 56 <= |m| - k < 64
    ensures
      var rest := m[k..];
      HashBlocks(Pad(m)) == Compress(Compress(HashBlocks(m[..k]), rest + [0x80] + Fill(0, 63 - |rest|)),
                                     Fill(0, 56) + BigEndian(8 * |m|, 8))
  {
    hide HashBlocks, Compress, BigEndian, Pad;
    var rest := m[k..];
    var first, last := rest + [0x80] + Fill(0, 63 - |rest|), Fill(0, 56) + BigEndian(8 * |m|, 8);
    PadTail(m, k);
    assert Fill<bv8>(0, 119 - |rest|) == Fill(0, 63 - |rest|) + Fill(0, 56);
    assert Pad(m) == (m[..k] + first) + last;
    OneMoreBlock(m[..k], first);
    OneMoreBlock(m[..k] + first, last);
  }
}
