/**
 The streaming SHA-256 and HMAC of sha256.c: bytes are collected in a 64-byte block, and the block
 is compressed in place whenever it is full. `message` records all bytes absorbed so far.
 */
module Sha256 {
  import opened Bits
  import opened Sequences
  import opened Sha256Spec
  import opened WordArithmetic

  /** The bits of `k` bytes, as far as a 64-bit counter shows them. */
  function BitCount(k: nat): nat { 8 * k % WORD64 }

  /** Where the context stands after `message`: the full blocks hashed, the rest in the block. */
  ghost predicate Absorbed(message: Octets, v: Chain, bits: nat, rest: Octets) {
    var k := |message| - |rest|;
    && |rest| < 64 && 0 <= k && k % 64 == 0 && message[k..] == rest
    && v == HashBlocks(message[..k]) && bits == BitCount(k)
  }

  /** Adding to a counter that wraps around. */
  lemma WrapAdd(a: nat, b: nat)
    ensures (a + b) % WORD64 == (a % WORD64 + b) % WORD64
  {
    var r, q := a % WORD64, a / WORD64;
    var s, t := (r + b) % WORD64, (r + b) / WORD64;
    assert a == q * WORD64 + r && r + b == t * WORD64 + s;
    ModUnique(a + b, WORD64, q + t, s);
  }

  lemma AbsorbByte(message: Octets, v: Chain, bits: nat, rest: Octets, x: bv8)
    requires Absorbed(message, v, bits, rest) && |rest| < 63
    ensures Absorbed(message + [x], v, bits, rest + [x])
  {
    hide HashBlocks, BitCount;
    var k := |message| - |rest|;
    assert (message + [x])[..k] == message[..k] && (message + [x])[k..] == rest + [x];
  }

  lemma BitCountStep(k: nat)
    ensures BitCount(k + 64) == (BitCount(k) + 512) % WORD64
  {
    WrapAdd(8 * k, 512);
  }

  lemma BlockFilled(message: Octets, k: nat, x: bv8)
    requires |message| == k + 63 && k % 64 == 0
    ensures (k + 64) % 64 == 0
    ensures HashBlocks(message + [x]) == Compress(HashBlocks(message[..k]), message[k..] + [x])
  {
    hide HashBlocks, Compress;
    OneMoreBlock(message[..k], message[k..] + [x]);
    assert message[..k] + (message[k..] + [x]) == message + [x];
  }

  lemma AbsorbBlock(message: Octets, v: Chain, bits: nat, rest: Octets, x: bv8)
    requires Absorbed(message, v, bits, rest) && |rest| == 63
    ensures Absorbed(message + [x], Compress(v, rest + [x]), (bits + 512) % WORD64, [])
  {
    hide HashBlocks, Compress, BitCount;
    var k, m := |message| - |rest|, message + [x];
    BlockFilled(message, k, x);
    BitCountStep(k);
    assert m[|m|..] == [] && m[..|m|] == m;
  }

  function Pow256(i: nat): (p: nat)
    ensures p > 0
  {
    if i == 0 then 1 else 256 * Pow256(i - 1)
  }

  lemma MulAssociates(p: nat, q: nat)
    ensures q * (256 * p) == 256 * (q * p)
  {
  }

  lemma SplitDigit(a: nat, r: nat)
    ensures (r + 256 * a) / 256 == r / 256 + a && (r + 256 * a) % 256 == r % 256
  {
  }

  /** Multiples of 256^len do not show in the last `len` bytes. */
  lemma {:induction false} BigEndianWraps(n: nat, q: nat, len: nat)
    ensures BigEndian(n + q * Pow256(len), len) == BigEndian(n, len)
  {
    if len > 0 {
      var p := Pow256(len - 1);
      MulAssociates(p, q);
      SplitDigit(q * p, n);
      BigEndianWraps(n / 256, q, len - 1);
    }
  }

  /** The 8 bytes of the length do not show that the 64-bit counter has wrapped around. */
  lemma LengthWraps(n: nat)
    ensures BigEndian(n % WORD64, 8) == BigEndian(n, 8)
  {
    hide BigEndian;
    BigEndianWraps(n % WORD64, n / WORD64, 8);
  }

  // ---- the expressions of the compression loop ----------------------------------------------------

  /** The code adds the four terms of the schedule in the opposite order. */
  lemma SumReversed(a: bv32, b: bv32, c: bv32, d: bv32)
    ensures Sum4(a, b, c, d) == Sum4(d, c, b, a)
  {
  }

  /** Overwrites every byte. */
  method SecureMemZero(buffer: array<bv8>)
    modifies buffer
    ensures buffer[..] == Fill(0, buffer.Length)
  {
    var i: nat, length: nat := 0, buffer.Length;
    while length > 0
      invariant i + length == buffer.Length
      invariant forall j | 0 <= j < i :: buffer[j] == 0
    {
      buffer[i] := 0;
      i := i + 1;
      length := length - 1;
    }
  }

  class SHA256Context {
    const state: array<bv32>
    const block: array<bv8>
    var bitLength: nat
    var blockLength: nat
    ghost var message: Octets

    ghost function Value(): Chain
      requires state.Length == 8
      reads state
    {
      Chain(state[0], state[1], state[2], state[3], state[4], state[5], state[6], state[7])
    }

    ghost predicate Valid()
      reads this, state, block
    {
      && state.Length == 8 && block.Length == 64 && blockLength < 64
      && Absorbed(message, Value(), bitLength, block[..blockLength])
    }

    constructor ()
      ensures Valid() && message == [] && fresh(state) && fresh(block)
    {
      state, block := new bv32[8], new bv8[64];
      bitLength, blockLength, message := 0, 0, [];
      new;
      state[0], state[1], state[2], state[3] := 0x6a09e667, 0xbb67ae85, 0x3c6ef372, 0xa54ff53a;
      state[4], state[5], state[6], state[7] := 0x510e527f, 0x9b05688c, 0x1f83d9ab, 0x5be0cd19;
    }

    /** Compresses the block into the state. */
    method Transform()
      requires state.Length == 8 && block.Length == 64
      modifies state
      ensures Value() == Compress(old(Value()), block[..])
    {
      hide Schedule, Plus, BigSigma0, BigSigma1, Choose, Majority;
      ghost var was, bytes := Value(), block[..];
      var words := ExpandWords();
      var a, b, c, d := state[0], state[1], state[2], state[3];
      var e, f, g, h := state[4], state[5], state[6], state[7];
      for i := 0 to 64
        invariant Chain(a, b, c, d, e, f, g, h) == Rounds(was, bytes, i)
      {
        var temporary1 := Plus(Plus(Plus(Plus(h, BigSigma1(e)), Choose(e, f, g)), CONSTANTS[i]), words[i]);
        var temporary2 := Plus(BigSigma0(a), Majority(a, b, c));
        h := g;
        g := f;
        f := e;
        e := Plus(d, temporary1);
        d := c;
        c := b;
        b := a;
        a := Plus(temporary1, temporary2);
      }
      state[0] := Plus(state[0], a);
      state[1] := Plus(state[1], b);
      state[2] := Plus(state[2], c);
      state[3] := Plus(state[3], d);
      state[4] := Plus(state[4], e);
      state[5] := Plus(state[5], f);
      state[6] := Plus(state[6], g);
      state[7] := Plus(state[7], h);
    }

    method ExpandWords() returns (words: array<bv32>)
      requires block.Length == 64
      ensures fresh(words) && words.Length == 64
      ensures forall t | 0 <= t < 64 :: words[t] == Schedule(block[..], t)
    {
      hide Sum4, SmallSigma0, SmallSigma1, WordAt;
      words := new bv32[64];
      ghost var bytes := block[..];
      for i := 0 to 16
        invariant forall t | 0 <= t < i :: words[t] == Schedule(bytes, t)
      {
        words[i] := WordAt(block[..], i);
      }
      for i := 16 to 64
        invariant forall t | 0 <= t < i :: words[t] == Schedule(bytes, t)
      {
        var s0 := SmallSigma0(words[i - 15]);
        var s1 := SmallSigma1(words[i - 2]);
        SumReversed(words[i - 16], s0, words[i - 7], s1);
        words[i] := Sum4(words[i - 16], s0, words[i - 7], s1);
      }
    }

    /** Absorbs bytes one at a time, in any number of calls. */
    method Update(data: Octets)
      requires Valid()
      modifies this, state, block
      ensures Valid() && message == old(message) + data
    {
      hide *;
      for i := 0 to |data|
        invariant Valid() && message == old(message) + data[..i]
      {
        UpdateByte(data[i]);
        assert data[..i + 1] == data[..i] + [data[i]];
      }
    }

    method UpdateByte(x: bv8)
      requires Valid()
      modifies this, state, block
      ensures Valid() && message == old(message) + [x]
    {
      hide Absorbed, Compress;
      ghost var v, rest := Value(), block[..blockLength];
      if blockLength == 63 {
        AbsorbBlock(message, v, bitLength, rest, x);
      } else {
        AbsorbByte(message, v, bitLength, rest, x);
      }
      message := message + [x];
      block[blockLength] := x;
      blockLength := blockLength + 1;
      assert block[..blockLength] == rest + [x];
      if blockLength == 64 {
        assert block[..] == rest + [x];
        Transform();
        bitLength := (bitLength + 512) % WORD64;
        blockLength := 0;
      }
    }

    method FillZeros(from: nat, to: nat)
      requires from <= to <= block.Length == 64
      modifies block
      ensures block[..] == old(block[..])[..from] + Fill(0, to - from) + old(block[..])[to..]
    {
      var index := from;
      while index < to
        invariant from <= index <= to
        invariant forall j | 0 <= j < 64 :: block[j] == if from <= j < index then 0 else old(block[j])
      {
        block[index] := 0;
        index := index + 1;
      }
    }

    /** Stores the bit length in the last 8 bytes, most significant byte first. */
    method StoreLength()
      requires block.Length == 64
      modifies block
      ensures block[..] == old(block[..])[..56] + BigEndian(bitLength, 8)
    {
      ghost var was, digits := block[..], BigEndian(bitLength, 8);
      for i := 0 to 8
        invariant block[..64 - i] == was[..64 - i]
        invariant forall j | 64 - i <= j < 64 :: block[j] == digits[j - 56]
      {
        BigEndianDigit(bitLength, 8, i);
        block[63 - i] := (ShiftedBytes(bitLength, i) % 256) as bv8;
      }
    }

    method StoreDigest(digest: array<bv8>)
      requires state.Length == 8 && digest.Length >= 32
      modifies digest
      ensures digest[..] == Digest(Value()) + old(digest[..])[32..]
    {
      hide OctetAt, OctetsOf, WordOctets;
      ghost var was, words := digest[..], state[..];
      OctetsOfNone(words);
      for i := 0 to 8
        invariant digest[..] == OctetsOf(words[..i]) + was[4 * i..]
      {
        ghost var before := digest[..];
        StoreWord(digest, i * 4, state[i]);
        Overwritten(OctetsOf(words[..i]), was, WordOctets(words[i]), before, digest[..]);
        OneMoreWord(words, i);
      }
      assert words[..8] == words == Words(Value());
    }

    static method StoreWord(digest: array<bv8>, at: nat, x: bv32)
      requires at + 4 <= digest.Length
      modifies digest
      ensures digest[..] == old(digest[..])[..at]
              + WordOctets(x) + old(digest[..])[at + 4..]
    {
      hide OctetAt;
      digest[at] := OctetAt(x, 24);
      digest[at + 1] := OctetAt(x, 16);
      digest[at + 2] := OctetAt(x, 8);
      digest[at + 3] := OctetAt(x, 0);
    }

    /** `secure_memzero` of the context. */
    method Wipe()
      requires state.Length == 8 && block.Length == 64
      modifies this`bitLength, this`blockLength, state, block
      ensures bitLength == 0 && blockLength == 0
      ensures (forall i | 0 <= i < 8 :: state[i] == 0) && block[..] == Fill(0, 64)
    {
      for i := 0 to 8
        invariant forall j | 0 <= j < i :: state[j] == 0
      {
        state[i] := 0;
      }
      SecureMemZero(block);
      bitLength, blockLength := 0, 0;
    }

    /** Pads the message, writes its digest and wipes the context. */
    method Final(digest: array<bv8>)
      requires Valid() && digest.Length >= 32 && digest != block
      modifies this`bitLength, this`blockLength, state, block, digest
      ensures digest[..32] == Sha256(message) && digest[32..] == old(digest[32..])
      ensures bitLength == 0 && blockLength == 0
      ensures (forall i | 0 <= i < 8 :: state[i] == 0) && block[..] == Fill(0, 64)
    {
      PadAndCompress();
      StoreDigest(digest);
      Wipe();
    }

    method PadAndCompress()
      requires Valid()
      modifies this`bitLength, state, block
      ensures Value() == HashBlocks(Pad(message))
    {
      hide HashBlocks, Compress, Pad, BigEndian;
      ghost var k, rest := |message| - blockLength, block[..blockLength];
      assert rest == message[k..];
      var index := StopBit();
      WrapAdd(8 * k, 8 * blockLength);
      ghost var start := block[..index];
      LastBlock(index);
      if |rest| < 56 {
        PadShort(message, k);
      } else {
        PadLong(message, k);
        assert start == [] && start + Fill(0, 56) == Fill(0, 56);
      }
    }

    /** The first padding byte, and a block of its own if the length does not fit behind it. */
    method StopBit() returns (index: nat)
      requires state.Length == 8 && block.Length == 64 && blockLength < 64
      modifies state, block
      ensures blockLength < 56 ==>
        index == blockLength + 1 && block[..index] == old(block[..blockLength]) + [0x80] && Value() == old(Value())
      ensures blockLength >= 56 ==>
        index == 0 && Value() == Compress(old(Value()), old(block[..blockLength]) + [0x80] + Fill(0, 63 - blockLength))
    {
      hide Compress;
      ghost var rest := block[..blockLength];
      index := blockLength;
      block[index] := 0x80;
      index := index + 1;
      assert block[..index] == rest + [0x80];
      if index > 56 {
        FillZeros(index, 64);
        assert block[..] == rest + [0x80] + Fill(0, 63 - |rest|);
        Transform();
        index := 0;
      }
    }

    /** Zeros up to the length, the length, and the last compression. */
    method LastBlock(from: nat)
      requires state.Length == 8 && block.Length == 64 && from <= 56
      requires (bitLength + blockLength * 8) % WORD64 == 8 * |message| % WORD64
      modifies this`bitLength, state, block
      ensures Value() == Compress(old(Value()), old(block[..from]) + Fill(0, 56 - from) + BigEndian(8 * |message|, 8))
    {
      hide Compress, BigEndian;
      ghost var start := block[..from];
      FillZeros(from, 56);
      bitLength := (bitLength + blockLength * 8) % WORD64;
      StoreLength();
      LengthWraps(8 * |message|);
      assert block[..] == start + Fill(0, 56 - from) + BigEndian(8 * |message|, 8);
      Transform();
    }
  }

  /** Equal exactly when no position differs, looking at every position. */
  method SecureMemEqual(a: Octets, b: Octets, length: nat) returns (equal: bool)
    requires length <= |a| && length <= |b|
    ensures equal <==> a[..length] == b[..length]
  {
    var difference: bv8 := 0;
    for i := 0 to length
      invariant difference == 0 <==> a[..i] == b[..i]
    {
      DifferenceGrows(difference, a[i], b[i]);
      difference := difference | (a[i] ^ b[i]);
      assert a[..i + 1] == a[..i] + [a[i]] && b[..i + 1] == b[..i] + [b[i]];
    }
    equal := difference == 0;
  }

  lemma DifferenceGrows(d: bv8, x: bv8, y: bv8)
    ensures d | (x ^ y) == 0 <==> d == 0 && x == y
  {
  }
}
