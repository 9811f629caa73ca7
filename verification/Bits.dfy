/** Bitwise operations on naturals, and the words of the machine. */
module Bits {
  const WORD32: nat := 0x1_0000_0000
  const WORD64: nat := 0x1_0000_0000_0000_0000

  type Byte = n: nat | n < 0x100
  type Word32 = n: nat | n < WORD32
  type Word64 = n: nat | n < WORD64

  function And(a: nat, b: nat): nat {
    if a == 0 || b == 0 then 0 else (a % 2) * (b % 2) + 2 * And(a / 2, b / 2)
  }

  function Xor(a: nat, b: nat): nat
    decreases a + b
  {
    if a == 0 then b else if b == 0 then a else (a + b) % 2 + 2 * Xor(a / 2, b / 2)
  }

  /** Bit `k` of a number, the lowest being bit 0. */
  function BitAt(n: nat, k: nat): nat {
    if k == 0 then n % 2 else BitAt(n / 2, k - 1)
  }

  lemma XorHalf(a: nat, b: nat)
    requires a > 0 && b > 0
    ensures Xor(a, b) == (a + b) % 2 + 2 * Xor(a / 2, b / 2)
  {}

  lemma {:induction false} ZeroBits(k: nat)
    ensures BitAt(0, k) == 0
  {
    if k > 0 { ZeroBits(k - 1); }
  }

  lemma BitAndRest(x: nat, r: nat, h: nat)
    requires r < 2 && x == r + 2 * h
    ensures x % 2 == r && x / 2 == h
  {}

  /** `Xor` is the exclusive or of each bit. */
  lemma {:induction false} XorBits(a: nat, b: nat, k: nat)
    ensures BitAt(Xor(a, b), k) == (BitAt(a, k) + BitAt(b, k)) % 2
    decreases k
  {
    if a == 0 || b == 0 {
      ZeroBits(k);
      BitIsBit(a, k);
      BitIsBit(b, k);
    } else {
      XorHalf(a, b);
      hide Xor;
      BitAndRest(Xor(a, b), (a + b) % 2, Xor(a / 2, b / 2));
      if k > 0 { XorBits(a / 2, b / 2, k - 1); }
    }
  }

  lemma {:induction false} BitIsBit(n: nat, k: nat)
    ensures BitAt(n, k) < 2
  {
    if k > 0 { BitIsBit(n / 2, k - 1); }
  }

  predicate PowerOfTwo(n: nat) {
    n == 1 || (n > 1 && n % 2 == 0 && PowerOfTwo(n / 2))
  }

  /** Masking with a power of two less one is the remainder. */
  lemma {:induction false} MaskIsMod(h: nat, n: nat)
    requires PowerOfTwo(n)
    ensures And(h, n - 1) == h % n
    decreases n
  {
    if n > 1 {
      var m := n / 2;
      assert n == 2 * m && (n - 1) / 2 == m - 1 && (n - 1) % 2 == 1;
      if h == 0 {
        assert 0 % n == 0;
      } else {
        MaskIsMod(h / 2, m);
        HalveMod(h, m);
      }
    } else {
      assert h % 1 == 0;
    }
  }

  lemma HalveMod(h: nat, m: nat)
    requires m > 0
    ensures h % (2 * m) == h % 2 + 2 * (h / 2 % m)
  {
    var q, r := h / 2 / m, h / 2 % m;
    assert h / 2 == q * m + r;
    assert h == 2 * (h / 2) + h % 2;
    assert h == q * (2 * m) + (h % 2 + 2 * r);
    ModUnique(h, 2 * m, q, h % 2 + 2 * r);
  }

  lemma ModUnique(x: int, n: int, q: int, r: int)
    requires n > 0 && x == q * n + r && 0 <= r < n
    ensures x % n == r
  {
    var k := x / n - q;
    assert x == (x / n) * n + x % n;
    assert k * n == r - x % n;
    assert k > 0 ==> k * n >= n;
    assert k < 0 ==> k * n <= -n;
  }

  /** Stepping to the next slot of a ring whose size is a power of two. */
  lemma MaskedNext(i: nat, n: nat)
    requires PowerOfTwo(n) && i < n
    ensures And(i + 1, n - 1) == if i + 1 == n then 0 else i + 1
  {
    MaskIsMod(i + 1, n);
    if i + 1 == n {
      ModUnique(i + 1, n, 1, 0);
    } else {
      ModUnique(i + 1, n, 0, i + 1);
    }
  }

  /** The bytes of a word, lowest first. */
  function LittleEndian(n: nat, width: nat): (bytes: seq<Byte>)
    ensures |bytes| == width
    decreases width
  {
    if width == 0 then [] else [n % 0x100] + LittleEndian(n / 0x100, width - 1)
  }

  /** The hash FNV-1a of some bytes, from a running value and modulo a power of two. */
  function Fnv(hash: nat, bytes: seq<Byte>, prime: nat, modulus: nat): nat
    requires modulus > 0
    decreases |bytes|
  {
    if bytes == [] then hash
    else Xor(Fnv(hash, bytes[..|bytes| - 1], prime, modulus), bytes[|bytes| - 1]) * prime % modulus
  }
}
