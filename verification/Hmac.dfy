/**
 The incremental HMAC-SHA-256 of sha256.c, and the two hashes over data that arrives in pieces.
 */
module IncrementalHmac {
  import opened Sha256Spec
  import opened Sequences
  import opened Sha256

  class HMAC256Context {
    const inner: SHA256Context
    const outerPad: array<bv8>
    ghost var key: Octets
    ghost var text: Octets

    ghost function Repr(): set<object> { {this, inner, inner.state, inner.block, outerPad} }

    ghost predicate Valid()
      reads this, inner, inner.state, inner.block, outerPad
    {
      && inner.Valid() && outerPad.Length == 64 && outerPad != inner.block
      && inner.message == Masked(BlockKey(key), 0x36) + text
      && outerPad[..] == Masked(BlockKey(key), 0x5c)
    }

    constructor (key: Octets)
      ensures Valid() && this.key == key && text == []
      ensures fresh(Repr())
    {
      hide Masked, BlockKey, SHA256Context.Valid;
      var normalizedKey := NormalizedKey(key);
      inner := new SHA256Context();
      outerPad := new bv8[64];
      this.key, text := key, [];
      new;
      var innerPad := new bv8[64];
      MaskKey(normalizedKey, innerPad, outerPad);
      ghost var pad := innerPad[..];
      inner.Update(innerPad[..]);
      SecureMemZero(normalizedKey);
      SecureMemZero(innerPad);
      assert inner.message == pad == pad + text;
    }

    static method NormalizedKey(key: Octets) returns (normalized: array<bv8>)
      ensures fresh(normalized) && normalized[..] == BlockKey(key)
    {
      hide Sha256Spec.Sha256, Absorbed;
      normalized := new bv8[64](_ => 0);
      if |key| > 64 {
        var context := new SHA256Context();
        context.Update(key);
        assert context.message == key;
        context.Final(normalized);
        assert normalized[32..] == Fill(0, 32);
        assert normalized[..] == normalized[..32] + normalized[32..];
      } else {
        for i := 0 to |key|
          invariant normalized[..] == key[..i] + Fill(0, 64 - i)
        {
          normalized[i] := key[i];
        }
      }
    }

    static method MaskKey(normalized: array<bv8>, inner: array<bv8>, outer: array<bv8>)
      requires normalized.Length == inner.Length == outer.Length == 64
      requires normalized != inner && normalized != outer && inner != outer
      modifies inner, outer
      ensures inner[..] == Masked(normalized[..], 0x36) && outer[..] == Masked(normalized[..], 0x5c)
    {
      for i := 0 to 64
        invariant forall j | 0 <= j < i :: inner[j] == normalized[j] ^ 0x36
        invariant forall j | 0 <= j < i :: outer[j] == normalized[j] ^ 0x5c
      {
        inner[i] := normalized[i] ^ 0x36;
        outer[i] := normalized[i] ^ 0x5c;
      }
    }

    method Update(data: Octets)
      requires Valid()
      modifies Repr()
      ensures Valid() && text == old(text) + data && key == old(key)
    {
      hide Masked, BlockKey, SHA256Context.Valid;
      ghost var pad := Masked(BlockKey(key), 0x36);
      inner.Update(data);
      assert (pad + text) + data == pad + (text + data);
      text := text + data;
    }

    method Final(digest: array<bv8>)
      requires Valid() && digest.Length >= 32 && digest !in Repr()
      modifies Repr(), digest
      ensures digest[..32] == old(Hmac(key, text))
      ensures outerPad[..] == Fill(0, 64) && inner.block[..] == Fill(0, 64)
      ensures inner.bitLength == 0 && inner.blockLength == 0 && forall i | 0 <= i < 8 :: inner.state[i] == 0
    {
      ghost var k, t := key, text;
      hide SHA256Context.Valid, Masked, BlockKey, Sha256Spec.Sha256;
      var innerDigest := new bv8[32];
      inner.Final(innerDigest);
      var outer := new SHA256Context();
      outer.Update(outerPad[..]);
      outer.Update(innerDigest[..]);
      assert outer.message == Masked(BlockKey(k), 0x5c) + Sha256Spec.Sha256(Masked(BlockKey(k), 0x36) + t);
      outer.Final(digest);
      SecureMemZero(innerDigest);
      SecureMemZero(outerPad);
    }
  }

  /** Byte `i` of a key that is filled up with zeros. */
  function KeyByte(key: Octets, i: nat): bv8 {
    if i < |key| then key[i] else 0
  }

  /**
   HMAC as section 2 of RFC 2104 writes it, for keys of up to one block: the hash of the key XOR
   0x5c followed by the hash of the key XOR 0x36 followed by the text. A longer key stands for its hash.
   */
  lemma HmacMeans(key: Octets, text: Octets)
    ensures |key| <= 64 ==>
      Hmac(key, text) == Sha256Spec.Sha256(seq(64, i requires 0 <= i < 64 => KeyByte(key, i) ^ 0x5c)
        + Sha256Spec.Sha256(seq(64, i requires 0 <= i < 64 => KeyByte(key, i) ^ 0x36) + text))
    ensures |key| > 64 ==> Hmac(key, text) == Hmac(Sha256Spec.Sha256(key), text)
  {
    hide Sha256Spec.Sha256;
    if |key| <= 64 {
      assert Masked(BlockKey(key), 0x5c) == seq(64, i requires 0 <= i < 64 => KeyByte(key, i) ^ 0x5c);
      assert Masked(BlockKey(key), 0x36) == seq(64, i requires 0 <= i < 64 => KeyByte(key, i) ^ 0x36);
    }
  }

  /** The digest depends on the bytes only, not on how they are cut into updates. */
  method HashPieces(pieces: seq<Octets>) returns (digest: array<bv8>)
    ensures digest.Length == 32 && digest[..] == Sha256Spec.Sha256(Join(pieces))
  {
    hide *;
    JoinNone(pieces);
    var context := new SHA256Context();
    for i := 0 to |pieces|
      invariant context.Valid() && fresh(context) && fresh(context.state) && fresh(context.block)
      invariant context.message == Join(pieces[..i])
    {
      context.Update(pieces[i]);
      JoinStep(pieces, i);
    }
    digest := new bv8[32];
    context.Final(digest);
  }

  method HmacPieces(key: Octets, pieces: seq<Octets>) returns (digest: array<bv8>)
    ensures digest.Length == 32 && digest[..] == Hmac(key, Join(pieces))
  {
    hide Hmac, Join, HMAC256Context.Valid;
    JoinNone(pieces);
    var context := new HMAC256Context(key);
    for i := 0 to |pieces|
      invariant context.Valid() && fresh(context.Repr())
      invariant context.key == key && context.text == Join(pieces[..i])
    {
      context.Update(pieces[i]);
      JoinStep(pieces, i);
    }
    digest := new bv8[32];
    context.Final(digest);
  }
}
