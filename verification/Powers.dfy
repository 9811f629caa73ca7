/** `__next_power_base__`: the next power of a base, and what happens when it does not fit. */
module Powers {
  import opened Bits

  const UINT64_MAX: nat := 0xffff_ffff_ffff_ffff

  function Pow(base: nat, k: nat): nat {
    if k == 0 then 1 else Pow(base, k - 1) * base
  }

  lemma DivisionGuard(max: nat, base: nat, p: nat)
    requires base > 0
    ensures max / base < p <==> max < p * base
  {
    var q := max / base;
    assert max == q * base + max % base;
    if q < p {
      assert p * base >= (q + 1) * base == q * base + base;
    } else {
      assert p * base <= q * base;
    }
  }

  lemma {:induction false} PowGrows(base: nat, k: nat)
    requires base > 1
    ensures 0 < Pow(base, k) < Pow(base, k + 1)
  {
    if k > 0 { PowGrows(base, k - 1); }
    assert Pow(base, k) * base >= Pow(base, k) * 2;
  }

  /**
   The first power of `base` from `n` on, which is its `k`-th; or 0 when that needs more than 64
   bits, and when there is none because the base is 0 or 1.
   */
  method NextPowerBase(n: Word64, base: Word64) returns (r: Word64, ghost k: nat)
    ensures n <= 1 ==> r == 1
    ensures n > 1 && base <= 1 ==> r == 0
    ensures n > 1 && base > 1 ==>
      && n <= Pow(base, k) && (forall j: nat | j < k :: Pow(base, j) < n)
      && r == if Pow(base, k) < 0x1_0000_0000_0000_0000 then Pow(base, k) else 0
  {
    k := 0;
    if n <= 1 { return 1, 0; }
    if base <= 1 { return 0, 0; }
    var p: Word64 := 1;
    while p < n
      invariant p == Pow(base, k)
      invariant forall j: nat | j < k :: Pow(base, j) < n
      decreases n - p
    {
      PowGrows(base, k);
      DivisionGuard(UINT64_MAX, base, p);
      k := k + 1;
      if UINT64_MAX / base < p { return 0, k; }
      p := p * base;
    }
    r := p;
  }

  lemma {:induction false} PowIncreases(j: nat, k: nat)
    requires j < k
    ensures Pow(2, j) < Pow(2, k)
    decreases k
  {
    PowGrows(2, k - 1);
    if j < k - 1 { PowIncreases(j, k - 1); }
  }

  lemma {:induction false} PowerHasExponent(n: nat) returns (k: nat)
    requires PowerOfTwo(n)
    ensures n == Pow(2, k)
  {
    if n == 1 {
      k := 0;
    } else {
      var m := PowerHasExponent(n / 2);
      k := m + 1;
    }
  }

  /** A power of two is its own next power. */
  lemma NextPowerOfPower(n: nat, k: nat)
    requires PowerOfTwo(n) && n <= Pow(2, k) && forall j: nat | j < k :: Pow(2, j) < n
    ensures Pow(2, k) == n
  {
    hide Pow, PowerOfTwo;
    var m := PowerHasExponent(n);
    if k < m { PowIncreases(k, m); }
  }
}
