/** Arithmetic on 32-bit words as the hash functions use it. Addition is modulo 2^32. */
module WordArithmetic {

  function Plus(x: bv32, y: bv32): bv32 { x + y }

  function Sum4(w: bv32, x: bv32, y: bv32, z: bv32): bv32 { w + x + y + z }

  function RotateRight(x: bv32, n: bv6): bv32
    requires 0 < n < 32
  {
    (x >> n) | (x << (32 - n))
  }

  function RotateLeft(x: bv32, n: bv6): bv32
    requires 0 < n < 32
  {
    (x << n) | (x >> (32 - n))
  }
}
