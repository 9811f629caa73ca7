/**
 The streaming MD5 of md5.c: updates of any length go through a 64-byte buffer, whole blocks of a
 long update are compressed straight from the input, and the length is kept in two 32-bit words.
 `message` records all bytes absorbed so far.
 */
module Md5 {
  import opened Bits
  import opened Md5Spec
  import opened Sequences
  import opened WordArithmetic

  /** Where the context stands after `message`: whole blocks hashed, the rest in the buffer. */
  ghost predicate Held(message: Bytes, v: Quad, rest: Bytes) {
    var k := |message| - |rest|;
    |rest| < 64 && 0 <= k && k % 64 == 0 && message[k..] == rest && v == HashBlocks(message[..k])
  }

  /** The two count words hold the length in bits, modulo 2^64. */
  ghost predicate Counted(low: Word32, high: Word32, n: nat) {
    low + WORD32 * high == 8 * n % WORD64
  }

  /** What a 32-bit variable keeps of a sum, and of a length in bits. */
  function Sum32(x: nat, y: nat): Word32 { (x + y) % WORD32 }
  function Shifted(length: Word32): Word32 { length * 8 % WORD32 }

  function LowAfter(low: Word32, length: Word32): Word32 {
    Sum32(low, Shifted(length))
  }

  function HighAfter(low: Word32, high: Word32, length: Word32): Word32 {
    var carried := if LowAfter(low, length) < Shifted(length) then Sum32(high, 1) else high;
    Sum32(carried, length / 0x2000_0000)
  }

  /** A sum that has wrapped around is smaller than what was added. */
  lemma Carry(x: Word32, y: Word32)
    ensures x + y == Sum32(x, y) + if Sum32(x, y) < y then WORD32 else 0
  {
  }

  lemma TopBits(length: Word32)
    ensures length * 8 == Shifted(length) + WORD32 * (length / 0x2000_0000)
  {
  }

  /** The carry into the high word, and the bits of the length that the shift drops from the low one. */
  lemma CountStep(low: Word32, high: Word32, n: nat, length: Word32)
    requires Counted(low, high, n)
    ensures Counted(LowAfter(low, length), HighAfter(low, high, length), n + length)
  {
    hide Sum32, Shifted;
    var s, top: Word32 := Shifted(length), length / 0x2000_0000;
    var low1, high2 := LowAfter(low, length), HighAfter(low, high, length);
    TopBits(length);
    Carry(low, s);
    var c := if low1 < s then 1 else 0;
    var high1 := if c == 1 then Sum32(high, 1) else high;
    Carry(high, 1);
    Carry(high1, top);
    var d := if c == 1 && high1 < 1 then 1 else 0;
    var e := if high2 < top then 1 else 0;
    assert high + c + top == high2 + WORD32 * (d + e);
    SumMod(low + WORD32 * high, 8 * n, 8 * length, low1 + WORD32 * high2, d + e);
  }

  lemma SumMod(total: nat, a: nat, b: nat, r: nat, q: int)
    requires total == a % WORD64 && total + b == r + WORD64 * q && r < WORD64
    ensures (a + b) % WORD64 == r
  {
    assert a == WORD64 * (a / WORD64) + total;
    assert a + b == WORD64 * (a / WORD64 + q) + r;
  }

  lemma EightTimes(n: nat)
    ensures 8 * n % WORD64 == 8 * (n % 0x2000_0000_0000_0000)
  {
    assert 8 * n == WORD64 * (n / 0x2000_0000_0000_0000) + 8 * (n % 0x2000_0000_0000_0000);
  }

  /** The buffer index: the middle bits of the low word are the length modulo 64. */
  lemma IndexIsLength(low: Word32, high: Word32, n: nat)
    requires Counted(low, high, n)
    ensures And(low / 8, 0x3f) == n % 64
  {
    MaskIsMod(low / 8, 64);
    EightTimes(n);
    assert low + WORD32 * high == 8 * (n % 0x2000_0000_0000_0000);
    hide And, Counted;
    LowEighth(low, high, n % 0x2000_0000_0000_0000);
    LowBits(low / 8, 0x80_0000 * high, 0x80_0000_0000_0000 * (n / 0x2000_0000_0000_0000), n);
  }

  lemma LowBits(x: nat, a: nat, b: nat, n: nat)
    requires n == x + 64 * a + 64 * b
    ensures x % 64 == n % 64
  {
  }

  lemma LowEighth(low: Word32, high: Word32, m: nat)
    requires low + WORD32 * high == 8 * m
    ensures low / 8 == m - 0x2000_0000 * high
  {
  }

  /** The test of the bulk loop, in 32 bits. */
  predicate MoreBlocks(i: nat, length: Word32) { (i + 64) % WORD32 <= length }

  /**
   The bulk loop runs over the whole blocks of the input and stops in bounds exactly if the length
   stays below 2^32 - 64 plus the part of a block that fills the buffer.
   */
  lemma BulkLoopIsFaithful(partlen: nat, length: Word32)
    requires 0 < partlen <= 64 && partlen <= length
    ensures length < WORD32 - 64 + partlen % 64 <==>
      forall i: nat | partlen <= i <= length && (i - partlen) % 64 == 0 ::
        MoreBlocks(i, length) <==> i + 64 <= length
  {
    var last := WORD32 - 64 + partlen % 64;
    if last <= length {
      assert (last - partlen) % 64 == 0 && MoreBlocks(last, length);
    } else {
      forall i: nat | partlen <= i <= length && (i - partlen) % 64 == 0
        ensures MoreBlocks(i, length) <==> i + 64 <= length
      {
        assert i % 64 == partlen % 64;
      }
    }
  }

  /** The shortest update that fails on an empty buffer: no block is left and the loop goes on. */
  lemma BulkLoopOverruns()
    ensures var length := 0xffff_ffc0;
      && (length - 64) % 64 == 0
      && MoreBlocks(length, length) && !(length + 64 <= length)
      && forall n: Word32, i: nat | n < length && 64 <= i <= n && (i - 64) % 64 == 0 :: MoreBlocks(i, n) <==> i + 64 <= n
  {
    forall n: Word32, i: nat | n < 0xffff_ffc0 && 64 <= i <= n && (i - 64) % 64 == 0
      ensures MoreBlocks(i, n) <==> i + 64 <= n
    {
      BulkLoopIsFaithful(64, n);
    }
  }

  // ---- the round macros ---------------------------------------------------------------------------

  function FF(a: bv32, b: bv32, c: bv32, d: bv32, x: bv32, s: bv6, ac: bv32): bv32
    requires 0 < s < 32
  {
    Plus(RotateLeft(Sum4(a, F(b, c, d), x, ac), s), b)
  }

  function GG(a: bv32, b: bv32, c: bv32, d: bv32, x: bv32, s: bv6, ac: bv32): bv32
    requires 0 < s < 32
  {
    Plus(RotateLeft(Sum4(a, G(b, c, d), x, ac), s), b)
  }

  function HH(a: bv32, b: bv32, c: bv32, d: bv32, x: bv32, s: bv6, ac: bv32): bv32
    requires 0 < s < 32
  {
    Plus(RotateLeft(Sum4(a, H(b, c, d), x, ac), s), b)
  }

  function II(a: bv32, b: bv32, c: bv32, d: bv32, x: bv32, s: bv6, ac: bv32): bv32
    requires 0 < s < 32
  {
    Plus(RotateLeft(Sum4(a, I(b, c, d), x, ac), s), b)
  }

  lemma NextF(q: Quad, block: Bytes, j: nat, k: nat, s: bv6, ac: bv32)
    requires |block| == 64 && j < 16 && k == WordIndex(0, j) && s == Shift(0, j) && ac == Sines0(j)
    ensures
      var p := Steps(q, block, j);
      Steps(q, block, j + 1) == Quad(p.d, FF(p.a, p.b, p.c, p.d, WordAt(block, k), s, ac), p.b, p.c)
  {
    hide WordAt, Plus, Sum4, RotateLeft, F, G, H, I, WordIndex, Shift, Sines0, Sines1, Sines2, Sines3;
  }

  lemma NextG(q: Quad, block: Bytes, j: nat, k: nat, s: bv6, ac: bv32)
    requires |block| == 64 && j < 16 && k == WordIndex(1, j) && s == Shift(1, j) && ac == Sines1(j)
    ensures
      var p := Steps(q, block, 16 + j);
      Steps(q, block, 16 + j + 1) == Quad(p.d, GG(p.a, p.b, p.c, p.d, WordAt(block, k), s, ac), p.b, p.c)
  {
    hide WordAt, Plus, Sum4, RotateLeft, F, G, H, I, WordIndex, Shift, Sines0, Sines1, Sines2, Sines3;
  }

  lemma NextH(q: Quad, block: Bytes, j: nat, k: nat, s: bv6, ac: bv32)
    requires |block| == 64 && j < 16 && k == WordIndex(2, j) && s == Shift(2, j) && ac == Sines2(j)
    ensures
      var p := Steps(q, block, 32 + j);
      Steps(q, block, 32 + j + 1) == Quad(p.d, HH(p.a, p.b, p.c, p.d, WordAt(block, k), s, ac), p.b, p.c)
  {
    hide WordAt, Plus, Sum4, RotateLeft, F, G, H, I, WordIndex, Shift, Sines0, Sines1, Sines2, Sines3;
  }

  lemma NextI(q: Quad, block: Bytes, j: nat, k: nat, s: bv6, ac: bv32)
    requires |block| == 64 && j < 16 && k == WordIndex(3, j) && s == Shift(3, j) && ac == Sines3(j)
    ensures
      var p := Steps(q, block, 48 + j);
      Steps(q, block, 48 + j + 1) == Quad(p.d, II(p.a, p.b, p.c, p.d, WordAt(block, k), s, ac), p.b, p.c)
  {
    hide WordAt, Plus, Sum4, RotateLeft, F, G, H, I, WordIndex, Shift, Sines0, Sines1, Sines2, Sines3;
  }

  function Power(n: nat): (p: nat)
    ensures p > 0
  {
    if n == 0 then 1 else 0x100 * Power(n - 1)
  }

  lemma SplitLow(low: nat, p: nat, high: nat)
    ensures
      var n := low + (0x100 * p) * high;
      n % 0x100 == low % 0x100 && n / 0x100 == low / 0x100 + p * high
  {
    assert (0x100 * p) * high == 0x100 * (p * high);
  }

  /** The bytes of the low part come first. */
  lemma {:induction false} LowDigits(low: nat, high: nat, n: nat)
    requires low < Power(n)
    ensures LittleEndian(low, n) + LittleEndian(high, 4) == LittleEndian(low + Power(n) * high, n + 4)
  {
    if n > 0 {
      var p := Power(n - 1);
      SplitLow(low, p, high);
      LowDigits(low / 0x100, high, n - 1);
      Behind(low % 0x100, LittleEndian(low / 0x100, n - 1), LittleEndian(high, 4));
    }
  }

  lemma Behind(x: Byte, s: Bytes, t: Bytes)
    ensures ([x] + s) + t == [x] + (s + t)
  {
  }

  /** The count words, encoded, are the length that the padding ends with. */
  lemma EncodedCount(low: Word32, high: Word32, n: nat)
    requires Counted(low, high, n)
    ensures Encoded([low, high]) == LengthBytes(n)
  {
    assert Power(4) == WORD32;
    hide LittleEndian, Power;
    LowDigits(low, high, 4);
    EncodedPair(low, high);
  }

  lemma EncodedPair(low: Word32, high: Word32)
    ensures Encoded([low, high]) == LittleEndian(low, 4) + LittleEndian(high, 4)
  {
    hide LittleEndian, Encoded;
    var words: seq<Word32> := [low, high];
    EncodedNone(words);
    EncodeStep(words, 0);
    EncodeStep(words, 1);
    assert words[..2] == words;
  }

  const PADDING: seq<Byte> := [0x80] + seq(63, i => 0)

  lemma EncodedNone(words: seq<Word32>)
    ensures Encoded(words[..0]) == []
  {
  }

  lemma StepsNone(q: Quad, block: Bytes)
    requires |block| == 64
    ensures Steps(q, block, 0) == q
  {
  }

  function Number32(n: Word32): bv32 { n as bv32 }

  lemma WordDecoded(block: Bytes, k: nat)
    requires |block| == 64 && k < 16
    ensures Number32(Decoded(block)[k]) == WordAt(block, k)
  {
    hide Decoded, WordOf;
    DecodedAt(block, k);
  }

  lemma DecodedNone(bytes: Bytes)
    ensures Decoded(bytes[..0]) == []
  {
  }

  // ---- what one update does to the hashed prefix and the rest --------------------------------------

  lemma HoldMore(message: Bytes, v: Quad, rest: Bytes, input: Bytes)
    requires Held(message, v, rest) && |rest| + |input| < 64
    ensures Held(message + input, v, rest + input)
  {
    hide HashBlocks;
    var k := |message| - |rest|;
    assert (message + input)[..k] == message[..k] && (message + input)[k..] == rest + input;
  }

  lemma FillBlock(message: Bytes, v: Quad, rest: Bytes, input: Bytes)
    requires Held(message, v, rest) && |rest| + |input| >= 64
    ensures
      var p := 64 - |rest|;
      (|message| + p) % 64 == 0 && HashBlocks((message + input)[..|message| + p]) == Compress(v, rest + input[..p])
  {
    hide HashBlocks, Compress;
    var k, p := |message| - |rest|, 64 - |rest|;
    OneMoreBlock(message[..k], rest + input[..p]);
    assert (message + input)[..|message| + p] == message[..k] + (rest + input[..p]);
  }

  lemma NextBlock(message: Bytes, input: Bytes, i: nat)
    requires i + 64 <= |input| && (|message| + i) % 64 == 0
    ensures
      var m := message + input;
      HashBlocks(m[..|message| + (i + 64)]) == Compress(HashBlocks(m[..|message| + i]), input[i..i + 64])
  {
    hide HashBlocks, Compress;
    var m := message + input;
    OneMoreBlock(m[..|message| + i], input[i..i + 64]);
    assert m[..|message| + (i + 64)] == m[..|message| + i] + input[i..i + 64];
  }

  lemma HoldRest(message: Bytes, input: Bytes, i: nat, v: Quad)
    requires i <= |input| < i + 64 && (|message| + i) % 64 == 0
    requires v == HashBlocks((message + input)[..|message| + i])
    ensures Held(message + input, v, input[i..])
  {
    hide HashBlocks;
    assert (message + input)[|message| + i..] == input[i..];
  }

  lemma HeldLength(message: Bytes, v: Quad, rest: Bytes)
    requires Held(message, v, rest)
    ensures |message| % 64 == |rest|
  {
    hide HashBlocks;
  }

  lemma HeldWhole(message: Bytes, v: Quad, rest: Bytes)
    requires Held(message, v, rest) && |message| % 64 == 0
    ensures v == HashBlocks(message)
  {
    HeldLength(message, v, rest);
    assert message[..|message|] == message;
    hide HashBlocks;
  }

  class MD5Context {
    const count: array<Word32>
    const state: array<bv32>
    const buffer: array<Byte>
    ghost var message: Bytes

    ghost function Value(): Quad
      requires state.Length == 4
      reads state
    {
      Quad(state[0], state[1], state[2], state[3])
    }

    ghost predicate Valid()
      reads this, count, state, buffer
    {
      && count.Length == 2 && state.Length == 4 && buffer.Length == 64
      && Counted(count[0], count[1], |message|)
      && Held(message, Value(), buffer[..|message| % 64])
    }

    constructor ()
      ensures Valid() && message == [] && fresh(count) && fresh(state) && fresh(buffer)
    {
      count, state, buffer := new Word32[2], new bv32[4], new Byte[64];
      message := [];
      new;
      count[0], count[1] := 0, 0;
      state[0], state[1], state[2], state[3] := 0x67452301, 0xefcdab89, 0x98badcfe, 0x10325476;
    }

    static method Encode(output: array<Byte>, input: seq<Word32>, length: nat)
      requires length % 4 == 0 && length / 4 <= |input| && length <= output.Length
      modifies output
      ensures output[..] == Encoded(input[..length / 4]) + old(output[..])[length..]
    {
      hide LittleEndian, Encoded;
      var i, j: nat := 0, 0;
      EncodedNone(input);
      while j < length
        invariant j == 4 * i <= length
        invariant output[..] == Encoded(input[..i]) + old(output[..])[j..]
      {
        ghost var before := output[..];
        EncodeWord(output, j, input[i]);
        Overwritten(Encoded(input[..i]), old(output[..]), LittleEndian(input[i], 4), before, output[..]);
        EncodeStep(input, i);
        i := i + 1;
        j := j + 4;
      }
    }

    static method EncodeWord(output: array<Byte>, j: nat, w: Word32)
      requires j + 4 <= output.Length
      modifies output
      ensures output[..] == old(output[..])[..j] + LittleEndian(w, 4) + old(output[..])[j + 4..]
    {
      hide LittleEndian;
      FourDigits(w);
      var n: nat := w;
      output[j] := n % 0x100;
      output[j + 1] := n / 0x100 % 0x100;
      output[j + 2] := n / 0x100 / 0x100 % 0x100;
      output[j + 3] := n / 0x100 / 0x100 / 0x100 % 0x100;
    }

    static method Decode(output: array<Word32>, input: Bytes, length: nat)
      requires length % 4 == 0 && length <= |input| && length / 4 <= output.Length
      modifies output
      ensures output[..length / 4] == Decoded(input[..length])
    {
      hide Decoded, WordOf;
      var i, j: nat := 0, 0;
      DecodedNone(input);
      while j < length
        invariant j == 4 * i <= length
        invariant output[..i] == Decoded(input[..j])
      {
        output[i] := WordOf(input[j..j + 4]);
        DecodeStep(input, j);
        i := i + 1;
        j := j + 4;
      }
    }

    static method Steps0(a0: bv32, b0: bv32, c0: bv32, d0: bv32, x: seq<bv32>, ghost q: Quad, ghost block: Bytes)
      returns (a: bv32, b: bv32, c: bv32, d: bv32)
      requires |block| == 64 && |x| == 16 && forall k | 0 <= k < 16 :: x[k] == WordAt(block, k)
      requires Quad(a0, b0, c0, d0) == Steps(q, block, 0)
      ensures Quad(a, b, c, d) == Steps(q, block, 8)
    {
      hide WordAt, Steps, FF, GG, HH, II;
      a, b, c, d := a0, b0, c0, d0;
      NextF(q, block, 0, 0, 7, 0xd76aa478);
      a := FF(a, b, c, d, x[0], 7, 0xd76aa478);
      NextF(q, block, 1, 1, 12, 0xe8c7b756);
      d := FF(d, a, b, c, x[1], 12, 0xe8c7b756);
      NextF(q, block, 2, 2, 17, 0x242070db);
      c := FF(c, d, a, b, x[2], 17, 0x242070db);
      NextF(q, block, 3, 3, 22, 0xc1bdceee);
      b := FF(b, c, d, a, x[3], 22, 0xc1bdceee);
      assert Quad(a, b, c, d) == Steps(q, block, 4);
      NextF(q, block, 4, 4, 7, 0xf57c0faf);
      a := FF(a, b, c, d, x[4], 7, 0xf57c0faf);
      NextF(q, block, 5, 5, 12, 0x4787c62a);
      d := FF(d, a, b, c, x[5], 12, 0x4787c62a);
      NextF(q, block, 6, 6, 17, 0xa8304613);
      c := FF(c, d, a, b, x[6], 17, 0xa8304613);
      NextF(q, block, 7, 7, 22, 0xfd469501);
      b := FF(b, c, d, a, x[7], 22, 0xfd469501);
    }

    static method Steps8(a0: bv32, b0: bv32, c0: bv32, d0: bv32, x: seq<bv32>, ghost q: Quad, ghost block: Bytes)
      returns (a: bv32, b: bv32, c: bv32, d: bv32)
      requires |block| == 64 && |x| == 16 && forall k | 0 <= k < 16 :: x[k] == WordAt(block, k)
      requires Quad(a0, b0, c0, d0) == Steps(q, block, 8)
      ensures Quad(a, b, c, d) == Steps(q, block, 16)
    {
      hide WordAt, Steps, FF, GG, HH, II;
      a, b, c, d := a0, b0, c0, d0;
      NextF(q, block, 8, 8, 7, 0x698098d8);
      a := FF(a, b, c, d, x[8], 7, 0x698098d8);
      NextF(q, block, 9, 9, 12, 0x8b44f7af);
      d := FF(d, a, b, c, x[9], 12, 0x8b44f7af);
      NextF(q, block, 10, 10, 17, 0xffff5bb1);
      c := FF(c, d, a, b, x[10], 17, 0xffff5bb1);
      NextF(q, block, 11, 11, 22, 0x895cd7be);
      b := FF(b, c, d, a, x[11], 22, 0x895cd7be);
      assert Quad(a, b, c, d) == Steps(q, block, 12);
      NextF(q, block, 12, 12, 7, 0x6b901122);
      a := FF(a, b, c, d, x[12], 7, 0x6b901122);
      NextF(q, block, 13, 13, 12, 0xfd987193);
      d := FF(d, a, b, c, x[13], 12, 0xfd987193);
      NextF(q, block, 14, 14, 17, 0xa679438e);
      c := FF(c, d, a, b, x[14], 17, 0xa679438e);
      NextF(q, block, 15, 15, 22, 0x49b40821);
      b := FF(b, c, d, a, x[15], 22, 0x49b40821);
    }

    static method FirstRound(a0: bv32, b0: bv32, c0: bv32, d0: bv32, x: seq<bv32>, ghost q: Quad, ghost block: Bytes)
      returns (a: bv32, b: bv32, c: bv32, d: bv32)
      requires |block| == 64 && |x| == 16 && forall k | 0 <= k < 16 :: x[k] == WordAt(block, k)
      requires Quad(a0, b0, c0, d0) == Steps(q, block, 0)
      ensures Quad(a, b, c, d) == Steps(q, block, 16)
    {
      hide WordAt, Steps;
      a, b, c, d := Steps0(a0, b0, c0, d0, x, q, block);
      a, b, c, d := Steps8(a, b, c, d, x, q, block);
    }

    static method Steps16(a0: bv32, b0: bv32, c0: bv32, d0: bv32, x: seq<bv32>, ghost q: Quad, ghost block: Bytes)
      returns (a: bv32, b: bv32, c: bv32, d: bv32)
      requires |block| == 64 && |x| == 16 && forall k | 0 <= k < 16 :: x[k] == WordAt(block, k)
      requires Quad(a0, b0, c0, d0) == Steps(q, block, 16)
      ensures Quad(a, b, c, d) == Steps(q, block, 24)
    {
      hide WordAt, Steps, FF, GG, HH, II;
      a, b, c, d := a0, b0, c0, d0;
      NextG(q, block, 0, 1, 5, 0xf61e2562);
      a := GG(a, b, c, d, x[1], 5, 0xf61e2562);
      NextG(q, block, 1, 6, 9, 0xc040b340);
      d := GG(d, a, b, c, x[6], 9, 0xc040b340);
      NextG(q, block, 2, 11, 14, 0x265e5a51);
      c := GG(c, d, a, b, x[11], 14, 0x265e5a51);
      NextG(q, block, 3, 0, 20, 0xe9b6c7aa);
      b := GG(b, c, d, a, x[0], 20, 0xe9b6c7aa);
      assert Quad(a, b, c, d) == Steps(q, block, 20);
      NextG(q, block, 4, 5, 5, 0xd62f105d);
      a := GG(a, b, c, d, x[5], 5, 0xd62f105d);
      NextG(q, block, 5, 10, 9, 0x02441453);
      d := GG(d, a, b, c, x[10], 9, 0x02441453);
      NextG(q, block, 6, 15, 14, 0xd8a1e681);
      c := GG(c, d, a, b, x[15], 14, 0xd8a1e681);
      NextG(q, block, 7, 4, 20, 0xe7d3fbc8);
      b := GG(b, c, d, a, x[4], 20, 0xe7d3fbc8);
    }

    static method Steps24(a0: bv32, b0: bv32, c0: bv32, d0: bv32, x: seq<bv32>, ghost q: Quad, ghost block: Bytes)
      returns (a: bv32, b: bv32, c: bv32, d: bv32)
      requires |block| == 64 && |x| == 16 && forall k | 0 <= k < 16 :: x[k] == WordAt(block, k)
      requires Quad(a0, b0, c0, d0) == Steps(q, block, 24)
      ensures Quad(a, b, c, d) == Steps(q, block, 32)
    {
      hide WordAt, Steps, FF, GG, HH, II;
      a, b, c, d := a0, b0, c0, d0;
      NextG(q, block, 8, 9, 5, 0x21e1cde6);
      a := GG(a, b, c, d, x[9], 5, 0x21e1cde6);
      NextG(q, block, 9, 14, 9, 0xc33707d6);
      d := GG(d, a, b, c, x[14], 9, 0xc33707d6);
      NextG(q, block, 10, 3, 14, 0xf4d50d87);
      c := GG(c, d, a, b, x[3], 14, 0xf4d50d87);
      NextG(q, block, 11, 8, 20, 0x455a14ed);
      b := GG(b, c, d, a, x[8], 20, 0x455a14ed);
      assert Quad(a, b, c, d) == Steps(q, block, 28);
      NextG(q, block, 12, 13, 5, 0xa9e3e905);
      a := GG(a, b, c, d, x[13], 5, 0xa9e3e905);
      NextG(q, block, 13, 2, 9, 0xfcefa3f8);
      d := GG(d, a, b, c, x[2], 9, 0xfcefa3f8);
      NextG(q, block, 14, 7, 14, 0x676f02d9);
      c := GG(c, d, a, b, x[7], 14, 0x676f02d9);
      NextG(q, block, 15, 12, 20, 0x8d2a4c8a);
      b := GG(b, c, d, a, x[12], 20, 0x8d2a4c8a);
    }

    static method SecondRound(a0: bv32, b0: bv32, c0: bv32, d0: bv32, x: seq<bv32>, ghost q: Quad, ghost block: Bytes)
      returns (a: bv32, b: bv32, c: bv32, d: bv32)
      requires |block| == 64 && |x| == 16 && forall k | 0 <= k < 16 :: x[k] == WordAt(block, k)
      requires Quad(a0, b0, c0, d0) == Steps(q, block, 16)
      ensures Quad(a, b, c, d) == Steps(q, block, 32)
    {
      hide WordAt, Steps;
      a, b, c, d := Steps16(a0, b0, c0, d0, x, q, block);
      a, b, c, d := Steps24(a, b, c, d, x, q, block);
    }

    static method Steps32(a0: bv32, b0: bv32, c0: bv32, d0: bv32, x: seq<bv32>, ghost q: Quad, ghost block: Bytes)
      returns (a: bv32, b: bv32, c: bv32, d: bv32)
      requires |block| == 64 && |x| == 16 && forall k | 0 <= k < 16 :: x[k] == WordAt(block, k)
      requires Quad(a0, b0, c0, d0) == Steps(q, block, 32)
      ensures Quad(a, b, c, d) == Steps(q, block, 40)
    {
      hide WordAt, Steps, FF, GG, HH, II;
      a, b, c, d := a0, b0, c0, d0;
      NextH(q, block, 0, 5, 4, 0xfffa3942);
      a := HH(a, b, c, d, x[5], 4, 0xfffa3942);
      NextH(q, block, 1, 8, 11, 0x8771f681);
      d := HH(d, a, b, c, x[8], 11, 0x8771f681);
      NextH(q, block, 2, 11, 16, 0x6d9d6122);
      c := HH(c, d, a, b, x[11], 16, 0x6d9d6122);
      NextH(q, block, 3, 14, 23, 0xfde5380c);
      b := HH(b, c, d, a, x[14], 23, 0xfde5380c);
      assert Quad(a, b, c, d) == Steps(q, block, 36);
      NextH(q, block, 4, 1, 4, 0xa4beea44);
      a := HH(a, b, c, d, x[1], 4, 0xa4beea44);
      NextH(q, block, 5, 4, 11, 0x4bdecfa9);
      d := HH(d, a, b, c, x[4], 11, 0x4bdecfa9);
      NextH(q, block, 6, 7, 16, 0xf6bb4b60);
      c := HH(c, d, a, b, x[7], 16, 0xf6bb4b60);
      NextH(q, block, 7, 10, 23, 0xbebfbc70);
      b := HH(b, c, d, a, x[10], 23, 0xbebfbc70);
    }

    static method Steps40(a0: bv32, b0: bv32, c0: bv32, d0: bv32, x: seq<bv32>, ghost q: Quad, ghost block: Bytes)
      returns (a: bv32, b: bv32, c: bv32, d: bv32)
      requires |block| == 64 && |x| == 16 && forall k | 0 <= k < 16 :: x[k] == WordAt(block, k)
      requires Quad(a0, b0, c0, d0) == Steps(q, block, 40)
      ensures Quad(a, b, c, d) == Steps(q, block, 48)
    {
      hide WordAt, Steps, FF, GG, HH, II;
      a, b, c, d := a0, b0, c0, d0;
      NextH(q, block, 8, 13, 4, 0x289b7ec6);
      a := HH(a, b, c, d, x[13], 4, 0x289b7ec6);
      NextH(q, block, 9, 0, 11, 0xeaa127fa);
      d := HH(d, a, b, c, x[0], 11, 0xeaa127fa);
      NextH(q, block, 10, 3, 16, 0xd4ef3085);
      c := HH(c, d, a, b, x[3], 16, 0xd4ef3085);
      NextH(q, block, 11, 6, 23, 0x04881d05);
      b := HH(b, c, d, a, x[6], 23, 0x04881d05);
      assert Quad(a, b, c, d) == Steps(q, block, 44);
      NextH(q, block, 12, 9, 4, 0xd9d4d039);
      a := HH(a, b, c, d, x[9], 4, 0xd9d4d039);
      NextH(q, block, 13, 12, 11, 0xe6db99e5);
      d := HH(d, a, b, c, x[12], 11, 0xe6db99e5);
      NextH(q, block, 14, 15, 16, 0x1fa27cf8);
      c := HH(c, d, a, b, x[15], 16, 0x1fa27cf8);
      NextH(q, block, 15, 2, 23, 0xc4ac5665);
      b := HH(b, c, d, a, x[2], 23, 0xc4ac5665);
    }

    static method ThirdRound(a0: bv32, b0: bv32, c0: bv32, d0: bv32, x: seq<bv32>, ghost q: Quad, ghost block: Bytes)
      returns (a: bv32, b: bv32, c: bv32, d: bv32)
      requires |block| == 64 && |x| == 16 && forall k | 0 <= k < 16 :: x[k] == WordAt(block, k)
      requires Quad(a0, b0, c0, d0) == Steps(q, block, 32)
      ensures Quad(a, b, c, d) == Steps(q, block, 48)
    {
      hide WordAt, Steps;
      a, b, c, d := Steps32(a0, b0, c0, d0, x, q, block);
      a, b, c, d := Steps40(a, b, c, d, x, q, block);
    }

    static method Steps48(a0: bv32, b0: bv32, c0: bv32, d0: bv32, x: seq<bv32>, ghost q: Quad, ghost block: Bytes)
      returns (a: bv32, b: bv32, c: bv32, d: bv32)
      requires |block| == 64 && |x| == 16 && forall k | 0 <= k < 16 :: x[k] == WordAt(block, k)
      requires Quad(a0, b0, c0, d0) == Steps(q, block, 48)
      ensures Quad(a, b, c, d) == Steps(q, block, 56)
    {
      hide WordAt, Steps, FF, GG, HH, II;
      a, b, c, d := a0, b0, c0, d0;
      NextI(q, block, 0, 0, 6, 0xf4292244);
      a := II(a, b, c, d, x[0], 6, 0xf4292244);
      NextI(q, block, 1, 7, 10, 0x432aff97);
      d := II(d, a, b, c, x[7], 10, 0x432aff97);
      NextI(q, block, 2, 14, 15, 0xab9423a7);
      c := II(c, d, a, b, x[14], 15, 0xab9423a7);
      NextI(q, block, 3, 5, 21, 0xfc93a039);
      b := II(b, c, d, a, x[5], 21, 0xfc93a039);
      assert Quad(a, b, c, d) == Steps(q, block, 52);
      NextI(q, block, 4, 12, 6, 0x655b59c3);
      a := II(a, b, c, d, x[12], 6, 0x655b59c3);
      NextI(q, block, 5, 3, 10, 0x8f0ccc92);
      d := II(d, a, b, c, x[3], 10, 0x8f0ccc92);
      NextI(q, block, 6, 10, 15, 0xffeff47d);
      c := II(c, d, a, b, x[10], 15, 0xffeff47d);
      NextI(q, block, 7, 1, 21, 0x85845dd1);
      b := II(b, c, d, a, x[1], 21, 0x85845dd1);
    }

    static method Steps56(a0: bv32, b0: bv32, c0: bv32, d0: bv32, x: seq<bv32>, ghost q: Quad, ghost block: Bytes)
      returns (a: bv32, b: bv32, c: bv32, d: bv32)
      requires |block| == 64 && |x| == 16 && forall k | 0 <= k < 16 :: x[k] == WordAt(block, k)
      requires Quad(a0, b0, c0, d0) == Steps(q, block, 56)
      ensures Quad(a, b, c, d) == Steps(q, block, 64)
    {
      hide WordAt, Steps, FF, GG, HH, II;
      a, b, c, d := a0, b0, c0, d0;
      NextI(q, block, 8, 8, 6, 0x6fa87e4f);
      a := II(a, b, c, d, x[8], 6, 0x6fa87e4f);
      NextI(q, block, 9, 15, 10, 0xfe2ce6e0);
      d := II(d, a, b, c, x[15], 10, 0xfe2ce6e0);
      NextI(q, block, 10, 6, 15, 0xa3014314);
      c := II(c, d, a, b, x[6], 15, 0xa3014314);
      NextI(q, block, 11, 13, 21, 0x4e0811a1);
      b := II(b, c, d, a, x[13], 21, 0x4e0811a1);
      assert Quad(a, b, c, d) == Steps(q, block, 60);
      NextI(q, block, 12, 4, 6, 0xf7537e82);
      a := II(a, b, c, d, x[4], 6, 0xf7537e82);
      NextI(q, block, 13, 11, 10, 0xbd3af235);
      d := II(d, a, b, c, x[11], 10, 0xbd3af235);
      NextI(q, block, 14, 2, 15, 0x2ad7d2bb);
      c := II(c, d, a, b, x[2], 15, 0x2ad7d2bb);
      NextI(q, block, 15, 9, 21, 0xeb86d391);
      b := II(b, c, d, a, x[9], 21, 0xeb86d391);
    }

    static method FourthRound(a0: bv32, b0: bv32, c0: bv32, d0: bv32, x: seq<bv32>, ghost q: Quad, ghost block: Bytes)
      returns (a: bv32, b: bv32, c: bv32, d: bv32)
      requires |block| == 64 && |x| == 16 && forall k | 0 <= k < 16 :: x[k] == WordAt(block, k)
      requires Quad(a0, b0, c0, d0) == Steps(q, block, 48)
      ensures Quad(a, b, c, d) == Steps(q, block, 64)
    {
      hide WordAt, Steps;
      a, b, c, d := Steps48(a0, b0, c0, d0, x, q, block);
      a, b, c, d := Steps56(a, b, c, d, x, q, block);
    }

    method Transform(block: Bytes)
      requires state.Length == 4 && |block| == 64
      modifies state
      ensures Value() == Compress(old(Value()), block)
    {
      hide WordAt, Steps, Plus, Decoded;
      ghost var q := Value();
      var x := Words(block);
      var a, b, c, d := state[0], state[1], state[2], state[3];
      StepsNone(q, block);
      a, b, c, d := FirstRound(a, b, c, d, x, q, block);
      a, b, c, d := SecondRound(a, b, c, d, x, q, block);
      a, b, c, d := ThirdRound(a, b, c, d, x, q, block);
      a, b, c, d := FourthRound(a, b, c, d, x, q, block);
      state[0] := Plus(state[0], a);
      state[1] := Plus(state[1], b);
      state[2] := Plus(state[2], c);
      state[3] := Plus(state[3], d);
    }

    static method Words(block: Bytes) returns (x: seq<bv32>)
      requires |block| == 64
      ensures |x| == 16 && forall k | 0 <= k < 16 :: x[k] == WordAt(block, k)
    {
      hide WordAt, Decoded;
      var words := new Word32[16];
      Decode(words, block, 64);
      assert words[..16] == words[..] && block[..64] == block;
      var decoded := words[..];
      x := seq(16, k requires 0 <= k < 16 => Number32(decoded[k]));
      forall k | 0 <= k < 16 ensures x[k] == WordAt(block, k) {
        WordDecoded(block, k);
      }
    }

    /** `memcpy` into the buffer. */
    method Copy(index: nat, data: Bytes)
      requires buffer.Length == 64 && index + |data| <= 64
      modifies buffer
      ensures buffer[..] == old(buffer[..])[..index] + data + old(buffer[..])[index + |data|..]
    {
      for k := 0 to |data|
        invariant buffer[..] == old(buffer[..])[..index] + data[..k] + old(buffer[..])[index + k..]
      {
        buffer[index + k] := data[k];
        assert data[..k + 1] == data[..k] + [data[k]];
      }
      assert data[..|data|] == data;
    }

    /** The two count words after `length` more bytes. */
    method CountUp(length: Word32)
      requires count.Length == 2 && Counted(count[0], count[1], |message|)
      modifies count
      ensures Counted(count[0], count[1], |message| + length)
    {
      hide Counted, Sum32, Shifted;
      ghost var low, high := count[0], count[1];
      CountStep(low, high, |message|, length);
      var shifted := Shifted(length);
      count[0] := Sum32(count[0], shifted);
      if count[0] < shifted {
        count[1] := Sum32(count[1], 1);
      }
      count[1] := Sum32(count[1], length / 0x2000_0000);
      assert count[0] == LowAfter(low, length) && count[1] == HighAfter(low, high, length);
    }

    /**
     `__md5_update__`. For inputs on which the 32-bit test of the bulk loop is faithful (see
     BulkLoopIsFaithful) it absorbs exactly the bytes of the input, whatever was absorbed before.
     */
    method Update(input: Bytes)
      requires Valid() && |input| < WORD32 - 64 + (64 - |message| % 64) % 64
      modifies this`message, count, state, buffer
      ensures Valid() && message == old(message) + input
    {
      hide Counted, Held, HashBlocks, Compress, MoreBlocks, And;
      var length: Word32 := |input|;
      var i: nat := 0;
      IndexIsLength(count[0], count[1], |message|);
      var index := And(count[0] / 8, 0x3f);
      var partlen := 64 - index;
      ghost var was, rest, v := message, buffer[..index], Value();
      CountUp(length);
      if length >= partlen {
        FillBlock(was, v, rest, input);
        BulkLoopIsFaithful(partlen, length);
        Copy(index, input[..partlen]);
        assert buffer[..] == rest + input[..partlen];
        Transform(buffer[..]);
        i := Bulk(input, partlen);
        index := 0;
        rest := [];
        assert rest + input[i..] == input[i..];
        HoldRest(was, input, i, Value());
      } else {
        HoldMore(was, v, rest, input);
        assert input[i..] == input;
      }
      Copy(index, input[i..]);
      message := message + input;
      assert buffer[..index + |input[i..]|] == rest + input[i..];
      HeldLength(message, Value(), rest + input[i..]);
    }

    /** Compresses the whole blocks of the input from `from` on; the index where they end. */
    method Bulk(input: Bytes, from: nat) returns (i: nat)
      requires state.Length == 4 && from <= |input| < WORD32 && (|message| + from) % 64 == 0
      requires forall i: nat | from <= i <= |input| && (i - from) % 64 == 0 ::
                 MoreBlocks(i, |input|) <==> i + 64 <= |input|
      requires Value() == HashBlocks((message + input)[..|message| + from])
      modifies state
      ensures from <= i <= |input| < i + 64 && (|message| + i) % 64 == 0
      ensures Value() == HashBlocks((message + input)[..|message| + i])
    {
      hide HashBlocks, Compress, MoreBlocks;
      i := from;
      while MoreBlocks(i, |input|)
        invariant from <= i <= |input| && (i - from) % 64 == 0 && (|message| + i) % 64 == 0
        invariant Value() == HashBlocks((message + input)[..|message| + i])
        decreases |input| - i
      {
        NextBlock(message, input, i);
        Transform(input[i..i + 64]);
        i := (i + 64) % WORD32;
      }
    }

    /** `__md5_finalize__`: the padding goes through the same update, then the state is the digest. */
    method Finalize(digest: array<Byte>)
      requires Valid() && digest.Length == 16 && digest != buffer
      modifies this`message, count, state, buffer, digest
      ensures digest[..] == Md5(old(message))
    {
      hide Counted, Held, Pad, Encoded, LengthBytes, HashBlocks;
      IndexIsLength(count[0], count[1], |message|);
      ghost var was := message;
      PadIs(message, PADDING);
      var index := And(count[0] / 8, 0x3f);
      var padlen := if index < 56 then 56 - index else 120 - index;
      var bits := new Byte[8];
      EncodedCount(count[0], count[1], |message|);
      Encode(bits, count[..], 8);
      assert count[..2] == [count[0], count[1]] && bits[..] == LengthBytes(|was|);
      Update(PADDING[..padlen]);
      Update(bits[..]);
      assert message == Pad(was);
      HeldWhole(message, Value(), buffer[..|message| % 64]);
      var words: seq<Word32> := [Number(state[0]), Number(state[1]), Number(state[2]), Number(state[3])];
      Encode(digest, words, 16);
      assert words[..4] == words && Encoded(words) == Digest(Value());
    }
  }

  /** The digest depends on the bytes only, not on how they are cut into updates. */
  method HashPieces(pieces: seq<Bytes>) returns (digest: array<Byte>)
    requires forall i | 0 <= i < |pieces| :: |pieces[i]| < WORD32 - 64
    ensures digest.Length == 16 && digest[..] == Md5(Join(pieces))
  {
    hide Md5, Join, MD5Context.Valid;
    var context := new MD5Context();
    JoinNone(pieces);
    for i := 0 to |pieces|
      invariant context.Valid() && fresh(context) && fresh(context.count) && fresh(context.state) && fresh(context.buffer)
      invariant context.message == Join(pieces[..i])
    {
      context.Update(pieces[i]);
      JoinStep(pieces, i);
    }
    digest := new Byte[16];
    context.Finalize(digest);
  }
}
