/** Non-negative integers as bit strings: the shifts, masks and exclusive-or the QR encoder uses. */
module Bits {
  type Bit = b: nat | b < 2
  type Byte = b: nat | b < 256

  /** 2 to the power k. */
  function Pow2(k: nat): (p: nat)
    ensures p >= 1
  {
    if k == 0 then 1 else 2 * Pow2(k - 1)
  }

  /** Bitwise exclusive or. */
  function Xor(a: nat, b: nat): nat {
    if a == 0 && b == 0 then 0 else (if a % 2 == b % 2 then 0 else 1) + 2 * Xor(a / 2, b / 2)
  }

  /** Bit i of v, that is (v >>> i) & 1. */
  function BitAt(v: nat, i: nat): Bit {
    if i == 0 then v % 2 else BitAt(v / 2, i - 1)
  }

  lemma XorZero(a: nat)
    ensures Xor(a, 0) == a && Xor(0, a) == a
  {
  }

  lemma XorComm(a: nat, b: nat)
    ensures Xor(a, b) == Xor(b, a)
  {
  }

  /** The defining equation, also at zero. */
  lemma XorStep(a: nat, b: nat)
    ensures Xor(a, b) % 2 == if a % 2 == b % 2 then 0 else 1
    ensures Xor(a, b) / 2 == Xor(a / 2, b / 2)
  {
  }

  /** The exclusive or of two numbers from that of their halves. */
  lemma XorFrom(a: nat, b: nat, halves: nat)
    requires Xor(a / 2, b / 2) == halves
    ensures Xor(a, b) == 2 * halves + if a % 2 == b % 2 then 0 else 1
  {
  }

  /** The exclusive or of two numbers, given that of their halves. */
  function Two(a: nat, b: nat, halves: nat): nat {
    2 * halves + if a % 2 == b % 2 then 0 else 1
  }

  function Three(a: nat, b: nat, rest: nat): nat {
    Two(a, b, Two(a / 2, b / 2, Two(a / 2 / 2, b / 2 / 2, rest)))
  }

  /** Three bits more, given the exclusive or of the bits above them. */
  lemma XorThree(a: nat, b: nat, rest: nat)
    requires Xor(a / 8, b / 8) == rest
    ensures Xor(a, b) == Three(a, b, rest)
  {
    XorFrom(a, b, Xor(a / 2, b / 2));
    XorFrom(a / 2, b / 2, Xor(a / 2 / 2, b / 2 / 2));
    XorFrom(a / 2 / 2, b / 2 / 2, Xor(a / 2 / 2 / 2, b / 2 / 2 / 2));
    hide Xor;
    Eighth(a);
    Eighth(b);
  }

  lemma Eighth(a: nat)
    ensures a / 2 / 2 / 2 == a / 8
  {
  }

  lemma {:induction false} XorAssoc(a: nat, b: nat, c: nat)
    ensures Xor(Xor(a, b), c) == Xor(a, Xor(b, c))
    decreases a + b + c
  {
    if a + b + c > 0 {
      XorAssoc(a / 2, b / 2, c / 2);
      XorStep(a, b);
      XorStep(b, c);
      XorStep(Xor(a, b), c);
      XorStep(a, Xor(b, c));
      SameHalves(Xor(Xor(a, b), c), Xor(a, Xor(b, c)));
    }
  }

  lemma SameHalves(x: nat, y: nat)
    requires x % 2 == y % 2 && x / 2 == y / 2
    ensures x == y
  {
  }

  lemma XorSelf(a: nat)
    ensures Xor(a, a) == 0
  {
  }

  /** Exclusive or is its own inverse. */
  lemma XorCancel(a: nat, b: nat)
    ensures Xor(Xor(a, b), b) == a && Xor(a, Xor(a, b)) == b
  {
    XorAssoc(a, b, b);
    XorAssoc(a, a, b);
    XorSelf(a);
    XorSelf(b);
    XorZero(a);
    XorZero(b);
  }

  lemma XorZeroIff(a: nat, b: nat)
    ensures Xor(a, b) == 0 <==> a == b
  {
    if Xor(a, b) == 0 {
      XorCancel(a, b);
      XorZero(b);
    }
    XorSelf(a);
  }

  /** (a ^ b) ^ (c ^ d) regrouped as (a ^ c) ^ (b ^ d). */
  lemma XorSwap(a: nat, b: nat, c: nat, d: nat)
    ensures Xor(Xor(a, b), Xor(c, d)) == Xor(Xor(a, c), Xor(b, d))
  {
    XorAssoc(a, b, Xor(c, d));
    XorAssoc(b, c, d);
    XorComm(b, c);
    XorAssoc(c, b, d);
    XorAssoc(a, c, Xor(b, d));
  }

  lemma XorBound(a: nat, b: nat, k: nat)
    requires a < Pow2(k) && b < Pow2(k)
    ensures Xor(a, b) < Pow2(k)
  {
    if k > 0 {
      XorBound(a / 2, b / 2, k - 1);
    }
  }

  lemma XorByte(a: Byte, b: Byte)
    ensures Xor(a, b) < 256
  {
    assert Pow2(8) == 256;
    XorBound(a, b, 8);
  }

  /** The bit of weight 2^k, the highest one of two (k+1)-bit numbers, is exclusive-ored like the others. */
  lemma {:induction false} XorTop(a: nat, b: nat, k: nat)
    requires a < 2 * Pow2(k) && b < 2 * Pow2(k)
    ensures Xor(a, b) >= Pow2(k) <==> (a >= Pow2(k)) != (b >= Pow2(k))
    decreases k
  {
    if k > 0 {
      XorTop(a / 2, b / 2, k - 1);
    } else {
      XorZero(a);
      XorZero(b);
      XorSelf(1);
    }
  }
}
