/** Bytes as integers below 256, with exclusive-or defined bit by bit. */
module Bytes {
  newtype byte = b: int | 0 <= b < 256

  function XorBits(a: nat, b: nat, bits: nat): nat {
    if bits == 0 then 0
    else (if a % 2 == b % 2 then 0 else 1) + 2 * XorBits(a / 2, b / 2, bits - 1)
  }

  lemma {:induction false} XorInRange(a: nat, b: nat, bits: nat)
    ensures XorBits(a, b, bits) < Pow2(bits)
  {
    if bits > 0 {
      XorInRange(a / 2, b / 2, bits - 1);
    }
  }

  function Pow2(n: nat): nat { if n == 0 then 1 else 2 * Pow2(n - 1) }

  function Xor(a: byte, b: byte): byte {
    XorInRange(a as nat, b as nat, 8);
    assert Pow2(8) == 256;
    XorBits(a as nat, b as nat, 8) as byte
  }

  /** Masking twice with the same mask gives the value back. */
  lemma {:induction false} XorBitsTwice(a: nat, m: nat, bits: nat)
    requires a < Pow2(bits)
    ensures XorBits(XorBits(a, m, bits), m, bits) == a
  {
    if bits > 0 {
      XorBitsTwice(a / 2, m / 2, bits - 1);
      var inner := XorBits(a / 2, m / 2, bits - 1);
      assert XorBits(a, m, bits) / 2 == inner;
    }
  }

  lemma XorTwice(a: byte, m: byte)
    ensures Xor(Xor(a, m), m) == a
  {
    assert Pow2(8) == 256;
    XorBitsTwice(a as nat, m as nat, 8);
  }
}
