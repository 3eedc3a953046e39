/**
 * The order of alpha = 2 in GF(256) is 255, and the log tables that rest on it. The few concrete
 * products are evaluated step by step: the solver gets each exclusive or from the top bit down.
 */
module Gf256Order {
  import opened Bits
  import opened Gf256

  lemma Double128()
    ensures Xtime(128) == 29
  {
    hide Xor;
    XorZero(0);
    XorThree(4, 4, 0);
    XorThree(32, 35, 0);
    XorThree(256, 285, 3);
  }

  lemma Double135()
    ensures Xtime(135) == 19
  {
    hide Xor;
    XorZero(0);
    XorThree(4, 4, 0);
    XorThree(33, 35, 0);
    XorThree(270, 285, 2);
  }

  lemma Double148()
    ensures Xtime(148) == 53
  {
    hide Xor;
    XorZero(0);
    XorThree(4, 4, 0);
    XorThree(37, 35, 0);
    XorThree(296, 285, 6);
  }

  lemma Double152()
    ensures Xtime(152) == 45
  {
    hide Xor;
    XorZero(0);
    XorThree(4, 4, 0);
    XorThree(38, 35, 0);
    XorThree(304, 285, 5);
  }

  lemma Double156()
    ensures Xtime(156) == 37
  {
    hide Xor;
    XorZero(0);
    XorThree(4, 4, 0);
    XorThree(39, 35, 0);
    XorThree(312, 285, 4);
  }

  lemma Double163()
    ensures Xtime(163) == 91
  {
    hide Xor;
    XorZero(0);
    XorThree(5, 4, 0);
    XorThree(40, 35, 1);
    XorThree(326, 285, 11);
  }

  lemma Double177()
    ensures Xtime(177) == 127
  {
    hide Xor;
    XorZero(0);
    XorThree(5, 4, 0);
    XorThree(44, 35, 1);
    XorThree(354, 285, 15);
  }

  lemma Double180()
    ensures Xtime(180) == 117
  {
    hide Xor;
    XorZero(0);
    XorThree(5, 4, 0);
    XorThree(45, 35, 1);
    XorThree(360, 285, 14);
  }

  lemma Double201()
    ensures Xtime(201) == 143
  {
    hide Xor;
    XorZero(0);
    XorThree(6, 4, 0);
    XorThree(50, 35, 2);
    XorThree(402, 285, 17);
  }

  lemma Double205()
    ensures Xtime(205) == 135
  {
    hide Xor;
    XorZero(0);
    XorThree(6, 4, 0);
    XorThree(51, 35, 2);
    XorThree(410, 285, 16);
  }

  lemma Double214()
    ensures Xtime(214) == 177
  {
    hide Xor;
    XorZero(0);
    XorThree(6, 4, 0);
    XorThree(53, 35, 2);
    XorThree(428, 285, 22);
  }

  lemma Double223()
    ensures Xtime(223) == 163
  {
    hide Xor;
    XorZero(0);
    XorThree(6, 4, 0);
    XorThree(55, 35, 2);
    XorThree(446, 285, 20);
  }

  lemma Double225()
    ensures Xtime(225) == 223
  {
    hide Xor;
    XorZero(0);
    XorThree(7, 4, 0);
    XorThree(56, 35, 3);
    XorThree(450, 285, 27);
  }

  lemma Double232()
    ensures Xtime(232) == 205
  {
    hide Xor;
    XorZero(0);
    XorThree(7, 4, 0);
    XorThree(58, 35, 3);
    XorThree(464, 285, 25);
  }

  lemma Double234()
    ensures Xtime(234) == 201
  {
    hide Xor;
    XorZero(0);
    XorThree(7, 4, 0);
    XorThree(58, 35, 3);
    XorThree(468, 285, 25);
  }

  lemma Double254()
    ensures Xtime(254) == 225
  {
    hide Xor;
    XorZero(0);
    XorThree(7, 4, 0);
    XorThree(63, 35, 3);
    XorThree(508, 285, 28);
  }

  lemma Xor74With64()
    ensures Xor(74, 64) == 10
  {
    hide Xor;
    XorZero(0);
    XorThree(1, 1, 0);
    XorThree(9, 8, 0);
    XorThree(74, 64, 1);
  }

  lemma Xor117With143()
    ensures Xor(117, 143) == 250
  {
    hide Xor;
    XorZero(0);
    XorThree(1, 2, 0);
    XorThree(14, 17, 3);
    XorThree(117, 143, 31);
  }

  lemma Xor127With25()
    ensures Xor(127, 25) == 102
  {
    hide Xor;
    XorZero(0);
    XorThree(1, 0, 0);
    XorThree(15, 3, 1);
    XorThree(127, 25, 12);
  }

  lemma Xor148With212()
    ensures Xor(148, 212) == 64
  {
    hide Xor;
    XorZero(0);
    XorThree(2, 3, 0);
    XorThree(18, 26, 1);
    XorThree(148, 212, 8);
  }

  lemma Xor156With74()
    ensures Xor(156, 74) == 214
  {
    hide Xor;
    XorZero(0);
    XorThree(2, 1, 0);
    XorThree(19, 9, 3);
    XorThree(156, 74, 26);
  }

  lemma Xor163With91()
    ensures Xor(163, 91) == 248
  {
    hide Xor;
    XorZero(0);
    XorThree(2, 1, 0);
    XorThree(20, 11, 3);
    XorThree(163, 91, 31);
  }

  lemma Xor177With102()
    ensures Xor(177, 102) == 215
  {
    hide Xor;
    XorZero(0);
    XorThree(2, 1, 0);
    XorThree(22, 12, 3);
    XorThree(177, 102, 26);
  }

  lemma Xor180With250()
    ensures Xor(180, 250) == 78
  {
    hide Xor;
    XorZero(0);
    XorThree(2, 3, 0);
    XorThree(22, 31, 1);
    XorThree(180, 250, 9);
  }

  lemma Xor225With248()
    ensures Xor(225, 248) == 25
  {
    hide Xor;
    XorZero(0);
    XorThree(3, 3, 0);
    XorThree(28, 31, 0);
    XorThree(225, 248, 3);
  }

  /** A product from that of the doubled first factor by the halved second. */
  lemma MulFrom(a: Byte, b: Byte, rest: Byte)
    requires b > 0 && Mul(Xtime(a), b / 2) == rest
    ensures Xor(a, rest) < 256 && Mul(a, b) == if b % 2 == 1 then Xor(a, rest) else rest
  {
    hide Xtime, Xor;
    XorByte(a, rest);
  }

  lemma Product152By152()
    ensures Mul(152, 152) == 78
  {
    hide Mul, Xor;
    Double152();
    Double180();
    Double234();
    Double201();
    XorZero(143);
    Xor117With143();
    Xor180With250();
    MulOne(143);
    MulFrom(201, 2, 143);
    MulFrom(234, 4, 143);
    MulFrom(117, 9, 143);
    MulFrom(180, 19, 250);
    MulFrom(90, 38, 78);
    MulFrom(45, 76, 78);
    MulFrom(152, 152, 78);
  }

  lemma Product78By152()
    ensures Mul(78, 152) == 10
  {
    hide Mul, Xor;
    Double156();
    Double148();
    XorZero(212);
    Xor148With212();
    Xor74With64();
    MulOne(212);
    MulFrom(106, 2, 212);
    MulFrom(53, 4, 212);
    MulFrom(148, 9, 212);
    MulFrom(74, 19, 64);
    MulFrom(37, 38, 10);
    MulFrom(156, 76, 10);
    MulFrom(78, 152, 10);
  }

  lemma Product78By10()
    ensures Mul(78, 10) == 214
  {
    hide Mul, Xor;
    Double156();
    XorZero(74);
    Xor156With74();
    MulOne(74);
    MulFrom(37, 2, 74);
    MulFrom(156, 5, 74);
    MulFrom(78, 10, 214);
  }

  lemma Product214By214()
    ensures Mul(214, 214) == 215
  {
    hide Mul, Xor;
    Double214();
    Double177();
    Double254();
    Double225();
    Double223();
    Double163();
    XorZero(91);
    Xor163With91();
    Xor225With248();
    Xor127With25();
    Xor177With102();
    MulOne(91);
    MulFrom(163, 3, 91);
    MulFrom(223, 6, 248);
    MulFrom(225, 13, 248);
    MulFrom(254, 26, 25);
    MulFrom(127, 53, 25);
    MulFrom(177, 107, 102);
    MulFrom(214, 214, 215);
  }

  lemma Pow17()
    ensures Pow(17) == 152 && Pow(16) == 76 && Pow(1) == 2 && Pow(3) == 8 && Pow(5) == 32
  {
    Double128();
    Double232();
    Double205();
    Double135();
    assert Pow(4) == 16;
    assert Pow(8) == 29;
    assert Pow(12) == 205;
    assert Pow(15) == 38;
  }

  lemma Pow51()
    ensures Pow(34) == 78 && Pow(51) == 10
  {
    Pow17();
    Product152By152();
    PowAdd(17, 17);
    Product78By152();
    PowAdd(34, 17);
  }

  lemma Pow85()
    ensures Pow(85) == 214
  {
    Pow51();
    Product78By10();
    PowAdd(34, 51);
  }

  lemma Xor214With1()
    ensures Xor(214, 1) == 215
  {
    hide Xor;
    XorZero(107);
    XorFrom(214, 1, 107);
  }

  /** With w = alpha^85, w^2 = w + 1, so w^3 = 1. */
  lemma Pow255(n: nat)
    requires n == 255
    ensures Pow(n) == 1
  {
    Pow85();
    Product214By214();
    PowAdd(85, 85);
    PowAdd(n - 85, 85);
    Xor214With1();
    XorComm(1, 214);
    XorCancel(1, 214);
    MulXorLeft(214, 1, 214);
    MulOne(214);
  }

  /** A period of alpha can be subtracted from any exponent any number of times. */
  lemma {:induction false} PowPeriod(q: nat, k: nat, r: nat)
    requires Pow(k) == 1
    ensures Pow(q * k + r) == Pow(r)
  {
    hide Pow, Mul;
    if q > 0 {
      PowPeriod(q - 1, k, r);
      PowAdd((q - 1) * k + r, k);
      MulOne(Pow((q - 1) * k + r));
      assert (q - 1) * k + r + k == q * k + r;
    }
  }

  lemma DivisorsOf255(k: nat)
    requires 0 < k < 255 && 255 % k == 0
    ensures k in {1, 3, 5, 15, 17, 51, 85}
  {
    var q := 255 / k;
    assert q * k == 255;
    if k >= 16 {
      assert q < 16 by {
        if q >= 16 {
          assert q * k >= 16 * 16 by { ProductAtLeast16(q, k); }
        }
      }
    }
  }

  lemma ProductAtLeast16(q: nat, k: nat)
    requires q >= 16 && k >= 16
    ensures q * k >= 16 * 16
  {
    assert q * k == 16 * k + (q - 16) * k;
  }

  lemma ProperDivisorsAreNoPeriod(k: nat)
    requires k in {1, 3, 5, 15, 17, 51, 85}
    ensures Pow(k) != 1
  {
    Pow17();
    Pow51();
    Pow85();
    assert Pow(16) == Xtime(Pow(15));
    assert Xtime(1) == 2;
  }

  lemma PeriodRemainder(n: nat, k: nat)
    requires k > 0 && Pow(k) == 1 && Pow(n) == 1
    ensures n % k < k && Pow(n % k) == 1
  {
    DivideBy(n, k);
    PowPeriod(n / k, k, n % k);
  }

  lemma DivideBy(n: nat, k: nat)
    requires k > 0
    ensures n / k >= 0 && 0 <= n % k < k && n / k * k + n % k == n
  {
  }

  /** alpha is primitive: none of its powers 1..254 is one. Euclid's descent on the exponent. */
  lemma {:induction false} NoShortPeriod(k: nat)
    requires 0 < k < 255
    ensures Pow(k) != 1
    decreases k
  {
    if Pow(k) == 1 {
      var n := 255;
      Pow255(n);
      PeriodRemainder(n, k);
      if n % k > 0 {
        NoShortPeriod(n % k);
      } else {
        DivisorsOf255(k);
        ProperDivisorsAreNoPeriod(k);
      }
    }
  }

  lemma {:induction false} XtimeInjective(a: Byte, b: Byte)
    requires Xtime(a) == Xtime(b)
    ensures a == b
  {
    XorByte(a, b);
    XtimeXor(a, b);
    XorZeroIff(Xtime(a), Xtime(b));
    XtimeZero(Xor(a, b));
    XorZeroIff(a, b);
  }

  /** The first 255 powers of alpha are distinct. */
  lemma {:induction false} PowInjective(i: nat, j: nat)
    requires i < j < 255
    ensures Pow(i) != Pow(j)
  {
    if i == 0 {
      NoShortPeriod(j);
    } else if Pow(i) == Pow(j) {
      XtimeInjective(Pow(i - 1), Pow(j - 1));
      PowInjective(i - 1, j - 1);
    }
  }

  ghost function Powers(n: nat): set<Byte> {
    set i: nat | i < n :: Pow(i)
  }

  lemma {:induction false} PowersCount(n: nat)
    requires n <= 255
    ensures |Powers(n)| == n
  {
    if n > 0 {
      PowersCount(n - 1);
      assert Powers(n) == Powers(n - 1) + {Pow(n - 1)};
      forall i: nat | i < n - 1 ensures Pow(i) != Pow(n - 1) {
        PowInjective(i, n - 1);
      }
    }
  }

  ghost function UpTo(n: nat): set<Byte>
    requires n < 256
  {
    set b: Byte {:trigger Pow(b)} | 0 < b <= n
  }

  lemma {:induction false} UpToCount(n: nat)
    requires n < 256
    ensures |UpTo(n)| == n
  {
    if n > 0 {
      UpToCount(n - 1);
      assert UpTo(n) == UpTo(n - 1) + {n};
    }
  }

  lemma SameSizeSubset<T>(a: set<T>, b: set<T>)
    requires a <= b && |a| == |b|
    ensures a == b
  {
    assert b == a + (b - a);
    assert |b - a| == 0;
  }

  lemma PowCycle(i: nat)
    ensures Pow(i + 255) == Pow(i)
  {
    var n := 255;
    Pow255(n);
    PowPeriod(1, n, i);
  }

  /** Every non-zero element is one of the first 255 powers of alpha. */
  lemma EveryNonZeroIsAPower(a: Byte)
    requires a != 0
    ensures exists i: nat | i < 255 :: Pow(i) == a
  {
    PowersCount(255);
    UpToCount(255);
    forall i: nat | i < 255 ensures Pow(i) in UpTo(255) {
      PowNonZero(i);
    }
    SameSizeSubset(Powers(255), UpTo(255));
    assert a in UpTo(255);
  }

  /** GF(256) has no zero divisors. */
  lemma NoZeroDivisors(a: Byte, b: Byte)
    ensures Mul(a, b) == 0 <==> a == 0 || b == 0
  {
    MulZero(a);
    MulZero(b);
    if a != 0 && b != 0 {
      EveryNonZeroIsAPower(a);
      EveryNonZeroIsAPower(b);
      var i: nat :| i < 255 && Pow(i) == a;
      var j: nat :| j < 255 && Pow(j) == b;
      PowAdd(i, j);
      PowNonZero(i + j);
    }
  }

  lemma PowNext(i: nat)
    ensures Pow(i + 1) == Xtime(Pow(i))
  {
  }

  /** The EXP and LOG tables, filled once and then only read. */
  class Tables {
    const exp: array<Byte>
    const log: array<nat>

    /** exp[i] is alpha^i; log is its inverse on the non-zero elements. */
    ghost predicate Valid()
      reads this, exp, log
    {
      && exp.Length == 512 && log.Length == 256
      && (forall i {:trigger exp[i]} | 0 <= i < 512 :: exp[i] == Pow(i))
      && (forall a | 0 < a < 256 :: log[a] < 255 && exp[log[a]] == a)
    }

    constructor ()
      ensures Valid() && fresh(exp) && fresh(log)
    {
      exp := new Byte[512](_ => 0);
      log := new nat[256](_ => 0);
      new;
      FillPowers(exp, log);
      RepeatPowers(exp);
      forall a | 0 < a < 256 ensures log[a] < 255 && exp[log[a]] == a {
        EveryNonZeroIsAPower(a);
      }
    }

    /** The first 255 powers of alpha and their logarithms. */
    static method FillPowers(exp: array<Byte>, log: array<nat>)
      requires exp.Length == 512 && log.Length == 256
      modifies exp, log
      ensures forall j {:trigger exp[j]} | 0 <= j < 255 :: exp[j] == Pow(j)
      ensures forall j {:trigger Pow(j)} | 0 <= j < 255 :: log[Pow(j)] == j
    {
      assert Pow(0) == 1;
      hide Pow, Xtime;
      var x: Byte := 1;
      for i := 0 to 255
        invariant x == Pow(i)
        invariant forall j {:trigger exp[j]} | 0 <= j < i :: exp[j] == Pow(j)
        invariant forall j {:trigger Pow(j)} | 0 <= j < i :: log[Pow(j)] == j
      {
        forall j | 0 <= j < i ensures Pow(j) != Pow(i) {
          PowInjective(j, i);
        }
        exp[i] := x;
        log[x] := i;
        PowNext(i);
        x := Xtime(x);
      }
    }

    /** From 255 on the powers repeat. */
    static method RepeatPowers(exp: array<Byte>)
      requires exp.Length == 512 && forall j {:trigger exp[j]} | 0 <= j < 255 :: exp[j] == Pow(j)
      modifies exp
      ensures forall j {:trigger exp[j]} | 0 <= j < 512 :: exp[j] == Pow(j)
    {
      hide Pow;
      for i := 255 to 512
        invariant forall j {:trigger exp[j]} | 0 <= j < i :: exp[j] == Pow(j)
      {
        exp[i] := exp[i - 255];
        PowCycle(i - 255);
      }
    }

    /** Multiplication through the tables is multiplication modulo 0x11d. */
    function Multiply(a: Byte, b: Byte): (r: Byte)
      reads this, exp, log
      requires Valid()
      ensures r == Mul(a, b)
    {
      if a == 0 || b == 0 then
        NoZeroDivisors(a, b);
        0
      else
        PowAdd(log[a], log[b]);
        exp[log[a] + log[b]]
    }
  }
}
