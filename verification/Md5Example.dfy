/**
 The test value of section A.5 of RFC 1321 for the message "abc", which is one block. Every
 constant, rotation, word index and byte order of `Md5Spec` takes part in it.
 */
module Md5Example {
  import opened Bits
  import opened Md5Spec
  import Standard = Md5Spec
  import opened Md5
  import opened Sequences
  import opened WordArithmetic

  const ABC: Bytes := [0x61, 0x62, 0x63]
  const BLOCK: Bytes := ABC + [0x80] + Fill(0, 52) + [0x18] + Fill(0, 7)

  /** The words of the block. */
  function Word(k: nat): bv32 {
    if k == 0 then 0x80636261 else if k == 14 then 0x18 else 0
  }

  lemma WordNumber(k: nat)
    requires k < 16
    ensures WordOf(BLOCK[4 * k..4 * k + 4]) == if k == 0 then 0x80636261 else if k == 14 then 0x18 else 0
  {}

  lemma WordsAre(k: nat)
    requires k < 16
    ensures WordAt(BLOCK, k) == Word(k)
  {
    hide WordAt, Number32;
    WordNumber(k);
    ThreeNumbers();
    AsNumber(k);
  }

  lemma ThreeNumbers()
    ensures Number32(0x80636261) == 0x80636261 && Number32(0x18) == 0x18 && Number32(0) == 0
  {}

  lemma AsNumber(k: nat)
    requires k < 16
    ensures WordAt(BLOCK, k) == Number32(WordOf(BLOCK[4 * k..4 * k + 4]))
  {
    hide WordOf;
  }

  // ---- the steps --------------------------------------------------------------------------------

  lemma StepF(j: nat, p: Quad, k: nat, s: bv6, ac: bv32) returns (u: Quad)
    requires j < 16 && k == WordIndex(0, j) && s == Shift(0, j) && ac == Sines0(j) && Steps(INITIAL, BLOCK, 0 + j) == p
    ensures u == Quad(p.d, FF(p.a, p.b, p.c, p.d, Word(k), s, ac), p.b, p.c) == Steps(INITIAL, BLOCK, 0 + j + 1)
  {
    hide FF, WordIndex, Shift, Sines0, Steps, WordAt, Word;
    NextF(INITIAL, BLOCK, j, k, s, ac);
    WordsAre(k);
    u := Quad(p.d, FF(p.a, p.b, p.c, p.d, Word(k), s, ac), p.b, p.c);
  }

  lemma StepG(j: nat, p: Quad, k: nat, s: bv6, ac: bv32) returns (u: Quad)
    requires j < 16 && k == WordIndex(1, j) && s == Shift(1, j) && ac == Sines1(j) && Steps(INITIAL, BLOCK, 16 + j) == p
    ensures u == Quad(p.d, GG(p.a, p.b, p.c, p.d, Word(k), s, ac), p.b, p.c) == Steps(INITIAL, BLOCK, 16 + j + 1)
  {
    hide GG, WordIndex, Shift, Sines1, Steps, WordAt, Word;
    NextG(INITIAL, BLOCK, j, k, s, ac);
    WordsAre(k);
    u := Quad(p.d, GG(p.a, p.b, p.c, p.d, Word(k), s, ac), p.b, p.c);
  }

  lemma StepH(j: nat, p: Quad, k: nat, s: bv6, ac: bv32) returns (u: Quad)
    requires j < 16 && k == WordIndex(2, j) && s == Shift(2, j) && ac == Sines2(j) && Steps(INITIAL, BLOCK, 32 + j) == p
    ensures u == Quad(p.d, HH(p.a, p.b, p.c, p.d, Word(k), s, ac), p.b, p.c) == Steps(INITIAL, BLOCK, 32 + j + 1)
  {
    hide HH, WordIndex, Shift, Sines2, Steps, WordAt, Word;
    NextH(INITIAL, BLOCK, j, k, s, ac);
    WordsAre(k);
    u := Quad(p.d, HH(p.a, p.b, p.c, p.d, Word(k), s, ac), p.b, p.c);
  }

  lemma StepI(j: nat, p: Quad, k: nat, s: bv6, ac: bv32) returns (u: Quad)
    requires j < 16 && k == WordIndex(3, j) && s == Shift(3, j) && ac == Sines3(j) && Steps(INITIAL, BLOCK, 48 + j) == p
    ensures u == Quad(p.d, II(p.a, p.b, p.c, p.d, Word(k), s, ac), p.b, p.c) == Steps(INITIAL, BLOCK, 48 + j + 1)
  {
    hide II, WordIndex, Shift, Sines3, Steps, WordAt, Word;
    NextI(INITIAL, BLOCK, j, k, s, ac);
    WordsAre(k);
    u := Quad(p.d, II(p.a, p.b, p.c, p.d, Word(k), s, ac), p.b, p.c);
  }

  lemma Steps4()
    ensures Steps(INITIAL, BLOCK, 4) == Quad(0xd6d117b4, 0x7ad956f2, 0x2f6fbd72, 0x344a8432)
  {
    hide Steps;
    StepsNone(INITIAL, BLOCK);
    var v1 := StepF(0, INITIAL, 0, 7, 0xd76aa478);
    var v2 := StepF(1, v1, 1, 12, 0xe8c7b756);
    var v3 := StepF(2, v2, 2, 17, 0x242070db);
    var v4 := StepF(3, v3, 3, 22, 0xc1bdceee);
  }

  lemma Steps8()
    ensures Steps(INITIAL, BLOCK, 8) == Quad(0xc73741ef, 0x928d99f6, 0x207dc67b, 0x8bac3051)
  {
    hide Steps;
    Steps4();
    var v1 := StepF(4, Quad(0xd6d117b4, 0x7ad956f2, 0x2f6fbd72, 0x344a8432), 4, 7, 0xf57c0faf);
    var v2 := StepF(5, v1, 5, 12, 0x4787c62a);
    var v3 := StepF(6, v2, 6, 17, 0xa8304613);
    var v4 := StepF(7, v3, 7, 22, 0xfd469501);
  }

  lemma Steps12()
    ensures Steps(INITIAL, BLOCK, 12) == Quad(0x854b3712, 0x5ed49596, 0x3020401c, 0x74e2f284)
  {
    hide Steps;
    Steps8();
    var v1 := StepF(8, Quad(0xc73741ef, 0x928d99f6, 0x207dc67b, 0x8bac3051), 8, 7, 0x698098d8);
    var v2 := StepF(9, v1, 9, 12, 0x8b44f7af);
    var v3 := StepF(10, v2, 10, 17, 0xffff5bb1);
    var v4 := StepF(11, v3, 11, 22, 0x895cd7be);
  }

  lemma Steps16()
    ensures Steps(INITIAL, BLOCK, 16) == Quad(0xdda9b9a6, 0x72aff2e0, 0xe396856b, 0xa1051895)
  {
    hide Steps;
    Steps12();
    var v1 := StepF(12, Quad(0x854b3712, 0x5ed49596, 0x3020401c, 0x74e2f284), 12, 7, 0x6b901122);
    var v2 := StepF(13, v1, 13, 12, 0xfd987193);
    var v3 := StepF(14, v2, 14, 17, 0xa679438e);
    var v4 := StepF(15, v3, 15, 22, 0x49b40821);
  }

  lemma Steps20()
    ensures Steps(INITIAL, BLOCK, 20) == Quad(0x3e9e9126, 0xb5b204e4, 0xe25e1652, 0x4a1d804e)
  {
    hide Steps;
    Steps16();
    var v1 := StepG(0, Quad(0xdda9b9a6, 0x72aff2e0, 0xe396856b, 0xa1051895), 1, 5, 0xf61e2562);
    var v2 := StepG(1, v1, 6, 9, 0xc040b340);
    var v3 := StepG(2, v2, 11, 14, 0x265e5a51);
    var v4 := StepG(3, v3, 0, 20, 0xe9b6c7aa);
  }

  lemma Steps24()
    ensures Steps(INITIAL, BLOCK, 24) == Quad(0x59a8ffda, 0x47092c07, 0xabfc7920, 0x6d002f1e)
  {
    hide Steps;
    Steps20();
    var v1 := StepG(4, Quad(0x3e9e9126, 0xb5b204e4, 0xe25e1652, 0x4a1d804e), 5, 5, 0xd62f105d);
    var v2 := StepG(5, v1, 10, 9, 0x02441453);
    var v3 := StepG(6, v2, 15, 14, 0xd8a1e681);
    var v4 := StepG(7, v3, 4, 20, 0xe7d3fbc8);
  }

  lemma Steps28()
    ensures Steps(INITIAL, BLOCK, 28) == Quad(0xb7f268cf, 0x786acb8f, 0xfe1623b1, 0x09388eff)
  {
    hide Steps;
    Steps24();
    var v1 := StepG(8, Quad(0x59a8ffda, 0x47092c07, 0xabfc7920, 0x6d002f1e), 9, 5, 0x21e1cde6);
    var v2 := StepG(9, v1, 14, 9, 0xc33707d6);
    var v3 := StepG(10, v2, 3, 14, 0xf4d50d87);
    var v4 := StepG(11, v3, 8, 20, 0x455a14ed);
  }

  lemma Steps32()
    ensures Steps(INITIAL, BLOCK, 32) == Quad(0x790a77fb, 0x726342d3, 0xa62884aa, 0x9f47e4f8)
  {
    hide Steps;
    Steps28();
    var v1 := StepG(12, Quad(0xb7f268cf, 0x786acb8f, 0xfe1623b1, 0x09388eff), 13, 5, 0xa9e3e905);
    var v2 := StepG(13, v1, 2, 9, 0xfcefa3f8);
    var v3 := StepG(14, v2, 7, 14, 0x676f02d9);
    var v4 := StepG(15, v3, 12, 20, 0x8d2a4c8a);
  }

  lemma Steps36()
    ensures Steps(INITIAL, BLOCK, 36) == Quad(0xb3707ebf, 0x3b0875c7, 0x8d212ff5, 0x60127b2e)
  {
    hide Steps;
    Steps32();
    var v1 := StepH(0, Quad(0x790a77fb, 0x726342d3, 0xa62884aa, 0x9f47e4f8), 5, 4, 0xfffa3942);
    var v2 := StepH(1, v1, 8, 11, 0x8771f681);
    var v3 := StepH(2, v2, 11, 16, 0x6d9d6122);
    var v4 := StepH(3, v3, 14, 23, 0xfde5380c);
  }

  lemma Steps40()
    ensures Steps(INITIAL, BLOCK, 40) == Quad(0x21b117b9, 0x5a2f5ea5, 0x3575227e, 0x6e7429d5)
  {
    hide Steps;
    Steps36();
    var v1 := StepH(4, Quad(0xb3707ebf, 0x3b0875c7, 0x8d212ff5, 0x60127b2e), 1, 4, 0xa4beea44);
    var v2 := StepH(5, v1, 4, 11, 0x4bdecfa9);
    var v3 := StepH(6, v2, 7, 16, 0xf6bb4b60);
    var v4 := StepH(7, v3, 10, 23, 0xbebfbc70);
  }

  lemma Steps44()
    ensures Steps(INITIAL, BLOCK, 44) == Quad(0x11de1779, 0x4c6124f4, 0x31c465ca, 0xfadcaa38)
  {
    hide Steps;
    Steps40();
    var v1 := StepH(8, Quad(0x21b117b9, 0x5a2f5ea5, 0x3575227e, 0x6e7429d5), 13, 4, 0x289b7ec6);
    var v2 := StepH(9, v1, 0, 11, 0xeaa127fa);
    var v3 := StepH(10, v2, 3, 16, 0xd4ef3085);
    var v4 := StepH(11, v3, 6, 23, 0x04881d05);
  }

  lemma Steps48()
    ensures Steps(INITIAL, BLOCK, 48) == Quad(0x7f2e507b, 0x7beb9700, 0x8fae6399, 0x99d9679d)
  {
    hide Steps;
    Steps44();
    var v1 := StepH(12, Quad(0x11de1779, 0x4c6124f4, 0x31c465ca, 0xfadcaa38), 9, 4, 0xd9d4d039);
    var v2 := StepH(13, v1, 12, 11, 0xe6db99e5);
    var v3 := StepH(14, v2, 15, 16, 0x1fa27cf8);
    var v4 := StepH(15, v3, 2, 23, 0xc4ac5665);
  }

  lemma Steps52()
    ensures Steps(INITIAL, BLOCK, 52) == Quad(0x7b201df8, 0x8bf025c4, 0xb298cefd, 0xf4e8e96e)
  {
    hide Steps;
    Steps48();
    var v1 := StepI(0, Quad(0x7f2e507b, 0x7beb9700, 0x8fae6399, 0x99d9679d), 0, 6, 0xf4292244);
    var v2 := StepI(1, v1, 7, 10, 0x432aff97);
    var v3 := StepI(2, v2, 14, 15, 0xab9423a7);
    var v4 := StepI(3, v3, 5, 21, 0xfc93a039);
  }

  lemma Steps56()
    ensures Steps(INITIAL, BLOCK, 56) == Quad(0x06cc5e8a, 0x3bfa2c27, 0x7d632dd0, 0x5b0d97aa)
  {
    hide Steps;
    Steps52();
    var v1 := StepI(4, Quad(0x7b201df8, 0x8bf025c4, 0xb298cefd, 0xf4e8e96e), 12, 6, 0x655b59c3);
    var v2 := StepI(5, v1, 3, 10, 0x8f0ccc92);
    var v3 := StepI(6, v2, 10, 15, 0xffeff47d);
    var v4 := StepI(7, v3, 1, 21, 0x85845dd1);
  }

  lemma Steps60()
    ensures Steps(INITIAL, BLOCK, 60) == Quad(0x7f81cc35, 0x7327d604, 0x4f9dbe3f, 0x094454ab)
  {
    hide Steps;
    Steps56();
    var v1 := StepI(8, Quad(0x06cc5e8a, 0x3bfa2c27, 0x7d632dd0, 0x5b0d97aa), 8, 6, 0x6fa87e4f);
    var v2 := StepI(9, v1, 15, 10, 0xfe2ce6e0);
    var v3 := StepI(10, v2, 6, 15, 0xa3014314);
    var v4 := StepI(11, v3, 13, 21, 0x4e0811a1);
  }

  lemma Steps64()
    ensures Steps(INITIAL, BLOCK, 64) == Quad(0x310ade8f, 0xc08226b3, 0xe484b9d8, 0x624d8cb2)
  {
    hide Steps;
    Steps60();
    var v1 := StepI(12, Quad(0x7f81cc35, 0x7327d604, 0x4f9dbe3f, 0x094454ab), 4, 6, 0xf7537e82);
    var v2 := StepI(13, v1, 11, 10, 0xbd3af235);
    var v3 := StepI(14, v2, 2, 15, 0x2ad7d2bb);
    var v4 := StepI(15, v3, 9, 21, 0xeb86d391);
  }

  // ---- the digest -------------------------------------------------------------------------------

  lemma PaddedAbc()
    ensures Pad(ABC) == BLOCK
  {
    LengthOfAbc();
  }

  lemma {:induction false} NoDigits(width: nat)
    ensures LittleEndian(0, width) == Fill(0, width)
  {
    if width > 0 { NoDigits(width - 1); }
  }

  lemma FirstDigit(n: Byte, width: nat)
    requires width > 0
    ensures LittleEndian(n, width) == [n] + LittleEndian(0, width - 1)
  {}

  lemma LengthOfAbc()
    ensures LengthBytes(3) == [0x18] + Fill(0, 7)
  {
    hide LittleEndian;
    FirstDigit(24, 8);
    NoDigits(7);
  }

  lemma BlockOfAbc()
    ensures HashBlocks(Pad(ABC)) == Compress(INITIAL, BLOCK)
  {
    hide Compress, Pad;
    PaddedAbc();
    assert BLOCK[..0] == [] && BLOCK[0..] == BLOCK;
  }

  lemma EncodedMore(words: seq<Word32>, w: Word32)
    ensures Encoded(words + [w]) == Encoded(words) + LittleEndian(w, 4)
  {
    hide LittleEndian;
    assert (words + [w])[..|words|] == words;
  }

  lemma FourWords(v: Quad)
    ensures Digest(v) == Encoded([]) + LittleEndian(Number(v.a), 4) + LittleEndian(Number(v.b), 4)
      + LittleEndian(Number(v.c), 4) + LittleEndian(Number(v.d), 4)
  {
    hide LittleEndian, Number, Encoded;
    var a, b, c, d := Number(v.a), Number(v.b), Number(v.c), Number(v.d);
    EncodedMore([], a);
    EncodedMore([] + [a], b);
    EncodedMore([] + [a] + [b], c);
    EncodedMore([] + [a] + [b] + [c], d);
    assert [] + [a] + [b] + [c] + [d] == [a, b, c, d];
  }

  lemma BytesA()
    ensures LittleEndian(Number(0x98500190), 4) == [0x90, 0x01, 0x50, 0x98]
  {}

  lemma BytesB()
    ensures LittleEndian(Number(0xb04fd23c), 4) == [0x3c, 0xd2, 0x4f, 0xb0]
  {}

  lemma BytesC()
    ensures LittleEndian(Number(0x7d3f96d6), 4) == [0xd6, 0x96, 0x3f, 0x7d]
  {}

  lemma BytesD()
    ensures LittleEndian(Number(0x727fe128), 4) == [0x28, 0xe1, 0x7f, 0x72]
  {}

  /** The digest that the standard gives for "abc". */
  lemma AbcDigest()
    ensures Standard.Md5(ABC) == [
      0x90, 0x01, 0x50, 0x98, 0x3c, 0xd2, 0x4f, 0xb0,
      0xd6, 0x96, 0x3f, 0x7d, 0x28, 0xe1, 0x7f, 0x72
    ]
  {
    hide HashBlocks, Pad, Steps, Digest, LittleEndian, Number;
    BlockOfAbc();
    Steps64();
    FourWords(Compress(INITIAL, BLOCK));
    BytesA();
    BytesB();
    BytesC();
    BytesD();
  }

  /** And the streaming code gives it. */
  method HashAbc() returns (digest: array<Byte>)
    ensures digest[..] == [
      0x90, 0x01, 0x50, 0x98, 0x3c, 0xd2, 0x4f, 0xb0,
      0xd6, 0x96, 0x3f, 0x7d, 0x28, 0xe1, 0x7f, 0x72
    ]
  {
    hide Join, Standard.Md5;
    AbcDigest();
    OnePiece();
    digest := HashPieces([ABC]);
  }

  lemma OnePiece()
    ensures Join([ABC]) == ABC
  {
    assert [ABC][..0] == [];
  }
}
