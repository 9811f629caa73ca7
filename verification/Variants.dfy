/** The keys and values of the hash map: their equality, their hash, and what makes a key acceptable. */
module Variants {
  import opened Bits
  import Floats
  import opened Wrappers

  /** Numbers are their bit patterns; a string is None for NULL, else its bytes; 0 is the null pointer. */
  datatype Variant =
    | Null
    | Str(s: Option<seq<Byte>>)
    | Pointer(p: Word64)
    | Int32(i: Word32)
    | Int64(l: Word64)
    | UInt32(ui: Word32)
    | UInt64(ul: Word64)
    | Float(f: Word32)
    | Double(d: Word64)

  /** `__hash_fnv1a__`. */
  function Fnv64(bytes: seq<Byte>, seed: Word64): nat {
    Fnv(Xor(seed, 0xcbf2_9ce4_8422_2325), bytes, 0x100_0000_01B3, WORD64)
  }

  predicate Acceptable(k: Variant) {
    !k.Null? && (k.Str? ==> k.s.Some?) && (k.Pointer? ==> k.p != 0)
  }

  /** `__hashmap_hash__`. */
  function Hash(k: Variant, seed: Word64): nat
    requires k.Str? ==> k.s.Some?
  {
    match k
    case Null => 0
    case Str(s) => Fnv64(s.value, seed)
    case Pointer(p) => Xor(Xor(p, seed), p / WORD32) * 11400714819323198485 % WORD64
    case Int32(i) => Fnv64(LittleEndian(i, 4), seed)
    case Int64(l) => Fnv64(LittleEndian(l, 8), seed)
    case UInt32(ui) => Fnv64(LittleEndian(ui, 4), seed)
    case UInt64(ul) => Fnv64(LittleEndian(ul, 8), seed)
    case Float(f) =>
      if Floats.NaN(f, Floats.FRACTION32, Floats.EXPONENTS32) then Xor(seed, 0x7FF8_0000_0000_0000)
      else Fnv64(LittleEndian(if Floats.Zero(f, Floats.FRACTION32, Floats.EXPONENTS32) then 0 else f, 4), seed)
    case Double(d) =>
      if Floats.NaN(d, Floats.FRACTION64, Floats.EXPONENTS64) then Xor(seed, 0x7FF8_0000_0000_0000)
      else Fnv64(LittleEndian(if Floats.Zero(d, Floats.FRACTION64, Floats.EXPONENTS64) then 0 else d, 8), seed)
  }

  /** `__hashmap_variant_equals__`: the null variant equals nothing, not even itself. */
  predicate Equals(x: Variant, y: Variant) {
    match (x, y)
    case (Str(a), Str(b)) => a == b
    case (Pointer(a), Pointer(b)) => a == b
    case (Int32(a), Int32(b)) => a == b
    case (Int64(a), Int64(b)) => a == b
    case (UInt32(a), UInt32(b)) => a == b
    case (UInt64(a), UInt64(b)) => a == b
    case (Float(a), Float(b)) => Floats.Matches(a, b, Floats.FRACTION32, Floats.EXPONENTS32)
    case (Double(a), Double(b)) => Floats.Matches(a, b, Floats.FRACTION64, Floats.EXPONENTS64)
    case _ => false
  }

  /** What a key stands for: the same for equal keys and for no others. */
  function Canon(k: Variant): Variant {
    match k
    case Float(f) => Float(Floats.Canonical(f, Floats.FRACTION32, Floats.EXPONENTS32, Floats.NAN32))
    case Double(d) => Double(Floats.Canonical(d, Floats.FRACTION64, Floats.EXPONENTS64, Floats.NAN64))
    case _ => k
  }

  /**
   Equality is the equality of what the keys stand for, but that the null variant equals nothing;
   and equal keys that can be stored hash equally.
   */
  lemma EqualsIffCanon(x: Variant, y: Variant, seed: Word64)
    ensures Equals(x, y) <==> Canon(x) == Canon(y) && !x.Null?
    ensures Acceptable(x) && Acceptable(y) && Equals(x, y) ==> Hash(x, seed) == Hash(y, seed)
  {
    match (x, y)
    case (Float(a), Float(b)) => Floats.MatchesIffCanonical(a, b, Floats.FRACTION32, Floats.EXPONENTS32, Floats.NAN32);
    case (Double(a), Double(b)) => Floats.MatchesIffCanonical(a, b, Floats.FRACTION64, Floats.EXPONENTS64, Floats.NAN64);
    case _ =>
  }

  /** The one variant that does not equal itself. */
  lemma EqualsItself(x: Variant)
    ensures Equals(x, x) <==> !x.Null?
  {
    hide Canon;
    EqualsIffCanon(x, x, 0);
  }

  /** The same value of the same type; floating-point values are compared as numbers. */
  predicate SameValue(x: Variant, y: Variant) {
    || (x == y && !x.Null? && !x.Float? && !x.Double?)
    || (x.Float? && y.Float? && Floats.SameNumber(x.f, y.f, 0x80_0000, 0x100))
    || (x.Double? && y.Double? && Floats.SameNumber(x.d, y.d, 0x10_0000_0000_0000, 0x800))
  }

  /** What the comparison of the code means, and what the keys of the mathematical map stand for. */
  lemma EqualsIffSameValue(x: Variant, y: Variant)
    ensures Equals(x, y) <==> SameValue(x, y)
    ensures !x.Null? ==> (Canon(x) == Canon(y) <==> SameValue(x, y))
  {
    hide Floats.SameNumber, Floats.Matches, Hash;
    EqualsIffCanon(x, y, 0);
    match (x, y)
    case (Float(a), Float(b)) => Floats.MatchesIffSameNumber(a, b, Floats.FRACTION32, Floats.EXPONENTS32);
    case (Double(a), Double(b)) => Floats.MatchesIffSameNumber(a, b, Floats.FRACTION64, Floats.EXPONENTS64);
    case _ =>
  }

  /** The variants that are no keys: null, the string that is NULL, and the null pointer. */
  predicate Refused(k: Variant) { k == Null || k == Str(None) || k == Pointer(0) }

  lemma AcceptableIffNotRefused(k: Variant)
    ensures Acceptable(k) <==> !Refused(k)
    ensures !Refused(k) && k.Str? ==> k.s.Some?
  {}

  /**
   The hash is FNV-1a of the value's bytes, lowest first, from the seed; all patterns of zero hash
   as the pattern 0, and whatever is no number hashes to one constant.
   */
  lemma HashMeans(k: Variant, seed: Word64)
    requires !Refused(k)
    ensures k.Str? ==> Hash(k, seed) == Fnv64(k.s.value, seed)
    ensures k.Pointer? ==> Hash(k, seed) == Xor(Xor(k.p, seed), k.p / 0x1_0000_0000) * 11400714819323198485 % 0x1_0000_0000_0000_0000
    ensures k.Int32? ==> Hash(k, seed) == Fnv64(LittleEndian(k.i, 4), seed)
    ensures k.Int64? ==> Hash(k, seed) == Fnv64(LittleEndian(k.l, 8), seed)
    ensures k.UInt32? ==> Hash(k, seed) == Fnv64(LittleEndian(k.ui, 4), seed)
    ensures k.UInt64? ==> Hash(k, seed) == Fnv64(LittleEndian(k.ul, 8), seed)
    ensures k.Float? ==>
      (Hash(k, seed) == if Floats.NoNumber(k.f, 0x80_0000, 0x100) then Xor(seed, 0x7FF8_0000_0000_0000)
                        else Fnv64(LittleEndian(if Floats.Number(k.f, 0x80_0000, 0x100) == 0 then 0 else k.f, 4), seed))
    ensures k.Double? ==>
      (Hash(k, seed) == if Floats.NoNumber(k.d, 0x10_0000_0000_0000, 0x800) then Xor(seed, 0x7FF8_0000_0000_0000)
                        else Fnv64(LittleEndian(if Floats.Number(k.d, 0x10_0000_0000_0000, 0x800) == 0 then 0 else k.d, 8), seed))
  {
    hide Fnv64, Xor;
    match k
    case Float(f) => Floats.ClassesMean(f, Floats.FRACTION32, Floats.EXPONENTS32);
    case Double(d) => Floats.ClassesMean(d, Floats.FRACTION64, Floats.EXPONENTS64);
    case _ =>
  }

  /** FNV-1a: from the seeded offset basis, each byte is combined by exclusive or and multiplied by the prime. */
  lemma FnvRounds(bytes: seq<Byte>, b: Byte, seed: Word64)
    ensures Fnv64([], seed) == Xor(seed, 0xcbf2_9ce4_8422_2325)
    ensures Fnv64(bytes + [b], seed) == Xor(Fnv64(bytes, seed), b) * 0x100_0000_01b3 % 0x1_0000_0000_0000_0000
  {
    hide Xor;
    assert (bytes + [b])[..|bytes|] == bytes;
  }
}
