/** Exclusive or of non-negative integers, bit by bit, and of bytes. */
module Bits {
  import opened Basics

  function Pow2(k: nat): nat {
    if k == 0 then 1 else 2 * Pow2(k - 1)
  }

  function LowBit(p: nat, q: nat): (r: nat)
    ensures r < 2
  {
    if p == q then 0 else 1
  }

  function XorNat(a: nat, b: nat): nat
    decreases a + b
  {
    if a == 0 && b == 0 then 0 else 2 * XorNat(a / 2, b / 2) + LowBit(a % 2, b % 2)
  }

  lemma XorStep(a: nat, b: nat)
    ensures XorNat(a, b) / 2 == XorNat(a / 2, b / 2) && XorNat(a, b) % 2 == LowBit(a % 2, b % 2)
  {
  }

  lemma {:induction false} XorBelow(a: nat, b: nat, k: nat)
    requires a < Pow2(k) && b < Pow2(k)
    ensures XorNat(a, b) < Pow2(k)
  {
    if k > 0 {
      XorBelow(a / 2, b / 2, k - 1);
    }
  }

  lemma {:induction false} XorZero(a: nat)
    ensures XorNat(a, 0) == a && XorNat(a, a) == 0
  {
    if a > 0 {
      XorZero(a / 2);
    }
  }

  lemma {:induction false} XorCommutes(a: nat, b: nat)
    ensures XorNat(a, b) == XorNat(b, a)
    decreases a + b
  {
    if a > 0 || b > 0 {
      XorCommutes(a / 2, b / 2);
    }
  }

  lemma {:induction false} XorAssociates(a: nat, b: nat, c: nat)
    ensures XorNat(XorNat(a, b), c) == XorNat(a, XorNat(b, c))
    decreases a + b + c
  {
    if a > 0 || b > 0 || c > 0 {
      XorAssociates(a / 2, b / 2, c / 2);
      hide XorNat;
      XorStep(a, b);
      XorStep(b, c);
      XorStep(XorNat(a, b), c);
      XorStep(a, XorNat(b, c));
    } else {
      XorZero(0);
    }
  }

  lemma {:induction false} XorOnes(a: nat, k: nat)
    requires a < Pow2(k)
    ensures XorNat(a, Pow2(k) - 1) == Pow2(k) - 1 - a
  {
    if k > 0 {
      XorOnes(a / 2, k - 1);
      hide XorNat;
      var ones, half := Pow2(k) - 1, Pow2(k - 1) - 1;
      assert ones / 2 == half && ones % 2 == 1;
      XorStep(a, ones);
    }
  }

  function Xor(a: byte, b: byte): byte {
    Pow2Of8();
    XorBelow(a, b, 8);
    XorNat(a, b)
  }

  lemma Pow2Of8()
    ensures Pow2(8) == 256
  {
    assert Pow2(4) == 16;
  }

  /** `x ^ 0xff` is the distance to 255. */
  lemma XorFF(a: byte)
    ensures Xor(a, 255) == 255 - a
  {
    Pow2Of8();
    XorOnes(a, 8);
  }

  lemma XorLaws(a: byte, b: byte, c: byte)
    ensures Xor(Xor(a, b), c) == Xor(a, Xor(b, c))
    ensures Xor(a, b) == Xor(b, a)
    ensures Xor(a, 0) == a && Xor(a, a) == 0
  {
    XorAssociates(a, b, c);
    XorCommutes(a, b);
    XorZero(a);
  }
}
