/** The Reed-Solomon code of the QR encoder: its generator, its remainder loop, and what it can repair. */
module ReedSolomon {
  import opened Bits
  import opened Gf256
  import opened Gf256Order
  import opened Polynomial

  /** One step of the generator product: p times (x + root). */
  function TimesRoot(p: Poly, root: Byte): (r: Poly) {
    AddPoly(p + [0], [0] + Scale(p, root))
  }

  /** The product of (x + alpha^i) for i below degree. */
  function GeneratorPoly(degree: nat): (r: Poly)
    ensures |r| == degree + 1
  {
    if degree == 0 then [1] else TimesRoot(GeneratorPoly(degree - 1), Pow(degree - 1))
  }

  lemma EvalTimesRoot(p: Poly, root: Byte, x: Byte)
    ensures Eval(TimesRoot(p, root), x) == Mul(Eval(p, x), Add(x, root))
  {
    EvalSnoc(p, 0, x);
    AddZero(Mul(Eval(p, x), x));
    EvalConcat([0], Scale(p, root), x);
    EvalOne(0, x);
    MulZero(PowerOf(x, |p|));
    EvalScale(p, root, x);
    AddZero(Mul(Eval(p, x), root));
    EvalAdd(p + [0], [0] + Scale(p, root), x);
    MulAdd(Eval(p, x), x, root);
  }

  /** x is one of alpha^0 .. alpha^(degree-1). */
  ghost predicate IsRoot(x: Byte, degree: nat) {
    degree > 0 && (x == Pow(degree - 1) || IsRoot(x, degree - 1))
  }

  lemma {:induction false} RootPower(i: nat, degree: nat)
    requires i < degree
    ensures IsRoot(Pow(i), degree)
  {
    if i < degree - 1 {
      RootPower(i, degree - 1);
    }
  }

  lemma {:induction false} GeneratorMonic(degree: nat)
    ensures GeneratorPoly(degree)[0] == 1
  {
    if degree > 0 {
      GeneratorMonic(degree - 1);
      AddZero(1);
    }
  }

  /** The roots of the generator are exactly alpha^0 .. alpha^(degree-1). */
  lemma {:induction false} GeneratorRoots(degree: nat, x: Byte)
    ensures Eval(GeneratorPoly(degree), x) == 0 <==> IsRoot(x, degree)
  {
    hide Eval, AddPoly, Xor, Scale, Mul, Pow;
    if degree == 0 {
      EvalOne(1, x);
    } else {
      var p, root := GeneratorPoly(degree - 1), Pow(degree - 1);
      GeneratorRoots(degree - 1, x);
      EvalTimesRoot(p, root, x);
      NoZeroDivisors(Eval(p, x), Add(x, root));
      AddSelf(x, root);
    }
  }

  /** A codeword with `degree` check symbols: zero at every root of the generator. */
  ghost predicate IsCodeword(c: Poly, degree: nat) {
    forall x | IsRoot(x, degree) :: Eval(c, x) == 0
  }

  /** Coefficient k of the product after the first j of p's coefficients have been multiplied in. */
  ghost function PartialProduct(p: Poly, root: Byte, j: nat, k: nat): Byte
    requires k <= |p|
  {
    Add(if k < j && k < |p| then p[k] else 0, if 0 < k <= j then Mul(p[k - 1], root) else 0)
  }

  lemma PartialProductStep(p: Poly, root: Byte, j: nat)
    requires j < |p|
    ensures PartialProduct(p, root, j + 1, j) == Add(PartialProduct(p, root, j, j), p[j])
    ensures PartialProduct(p, root, j + 1, j + 1) == Add(PartialProduct(p, root, j, j + 1), Mul(p[j], root))
  {
    var left := if 0 < j then Mul(p[j - 1], root) else 0;
    AddComm(p[j], left);
    AddZero(left);
    AddZero(0);
  }

  lemma PartialProductDone(p: Poly, root: Byte, k: nat)
    requires k <= |p|
    ensures PartialProduct(p, root, 0, k) == 0
    ensures PartialProduct(p, root, |p|, k) == TimesRoot(p, root)[k]
  {
    AddZero(0);
  }

  /** The inner loop of the generator: one more root, coefficient by coefficient. */
  method MultiplyIn(t: Tables, poly: Poly, root: Byte) returns (next: array<Byte>)
    requires t.Valid() && poly != []
    ensures fresh(next) && next[..] == TimesRoot(poly, root)
  {
    next := new Byte[|poly| + 1](_ => 0);
    forall k | 0 <= k <= |poly| ensures PartialProduct(poly, root, 0, k) == 0 {
      PartialProductDone(poly, root, k);
    }
    for j := 0 to |poly|
      invariant forall k | 0 <= k < next.Length :: next[k] == PartialProduct(poly, root, j, k)
    {
      PartialProductStep(poly, root, j);
      next[j] := Add(next[j], poly[j]);
      next[j + 1] := Add(next[j + 1], t.Multiply(poly[j], root));
    }
    forall k | 0 <= k <= |poly| ensures next[k] == TimesRoot(poly, root)[k] {
      PartialProductDone(poly, root, k);
    }
  }

  /** The generator polynomial, computed by multiplying in one root at a time. */
  method Generator(t: Tables, degree: nat) returns (poly: Poly)
    requires t.Valid() && degree <= 512
    ensures poly == GeneratorPoly(degree)
  {
    poly := [1];
    for i := 0 to degree
      invariant poly == GeneratorPoly(i)
    {
      var next := MultiplyIn(t, poly, t.exp[i]);
      poly := next[..];
    }
  }

  /** The remainder after one more message byte. */
  function DivideByte(r: Poly, byte: Byte, gen: Poly): (r': Poly)
    requires r != [] && |gen| == |r| + 1
    ensures |r'| == |r|
  {
    AddPoly(r[1..] + [0], Scale(gen[1..], Add(byte, r[0])))
  }

  /** The check symbols of a message: appended to it they make a codeword. */
  method RsRemainder(t: Tables, data: Poly, degree: nat) returns (out: Poly)
    requires t.Valid() && 0 < degree <= 512
    ensures |out| == degree
    ensures IsCodeword(data + out, degree)
  {
    var gen := Generator(t, degree);
    out := Zeros(degree);
    ZeroWord(degree);
    for n := 0 to |data|
      invariant |out| == degree
      invariant IsCodeword(data[..n] + out, degree)
    {
      ghost var before := out;
      var factor := Add(data[n], out[0]);
      out := out[1..] + [0];
      ghost var shifted := out;
      for i := 0 to degree
        invariant |out| == degree
        invariant forall k | 0 <= k < i :: out[k] == Add(shifted[k], Mul(gen[1..][k], factor))
        invariant forall k | i <= k < degree :: out[k] == shifted[k]
      {
        out := out[i := Add(out[i], t.Multiply(gen[i + 1], factor))];
      }
      assert out == DivideByte(before, data[n], gen);
      DivisionKeepsCodeword(data[..n], data[n], before, degree);
      assert data[..n] + [data[n]] == data[..n + 1];
    }
    assert data[..|data|] == data;
  }

  lemma ZeroWord(degree: nat)
    ensures IsCodeword([] + Zeros(degree), degree)
  {
    assert [] + Zeros(degree) == Zeros(degree);
    forall x | IsRoot(x, degree) ensures Eval([] + Zeros(degree), x) == 0 {
      EvalZeros(degree, x);
    }
  }

  lemma DivisionKeepsCodeword(prefix: Poly, byte: Byte, r: Poly, degree: nat)
    requires |r| == degree > 0
    requires IsCodeword(prefix + r, degree)
    ensures IsCodeword(prefix + [byte] + DivideByte(r, byte, GeneratorPoly(degree)), degree)
  {
    forall x | IsRoot(x, degree)
      ensures Eval(prefix + [byte] + DivideByte(r, byte, GeneratorPoly(degree)), x) == 0
    {
      DivisionStep(prefix, byte, r, degree, x);
    }
  }

  /** A monic polynomial that vanishes at x has a tail worth x^degree there. */
  lemma MonicTail(g: Poly, x: Byte)
    requires g != [] && g[0] == 1 && Eval(g, x) == 0
    ensures Eval(g[1..], x) == PowerOf(x, |g| - 1)
  {
    assert g == [1] + g[1..];
    EvalConcat([1], g[1..], x);
    EvalOne(1, x);
    MulOne(PowerOf(x, |g| - 1));
    AddSelf(PowerOf(x, |g| - 1), Eval(g[1..], x));
  }

  /** One turn of the division keeps the running word zero at a root x of the generator. */
  lemma DivisionStep(prefix: Poly, byte: Byte, r: Poly, degree: nat, x: Byte)
    requires |r| == degree > 0 && IsRoot(x, degree)
    requires Eval(prefix + r, x) == 0
    ensures Eval(prefix + [byte] + DivideByte(r, byte, GeneratorPoly(degree)), x) == 0
  {
    var factor := Add(byte, r[0]);
    var tail, xd, m := GeneratorPoly(degree)[1..], PowerOf(x, degree), Eval(prefix, x);
    var r' := DivideByte(r, byte, GeneratorPoly(degree));
    assert Eval(r', x) == Add(Eval(r[1..] + [0], x), Mul(factor, xd)) by {
      GeneratorRoots(degree, x);
      GeneratorMonic(degree);
      MonicTail(GeneratorPoly(degree), x);
      EvalAdd(r[1..] + [0], Scale(tail, factor), x);
      EvalScale(tail, factor, x);
      MulComm(xd, factor);
    }
    assert Mul(m, xd) == Eval(r, x) by {
      EvalConcat(prefix, r, x);
      AddSelf(Mul(m, xd), Eval(r, x));
    }
    ShiftedValue(r, x);
    EvalSnoc(prefix, byte, x);
    EvalConcat(prefix + [byte], r', x);
    StepAlgebra(m, x, xd, byte, r[0], Eval(r[1..] + [0], x), Eval(r, x));
  }

  lemma ShiftedValue(r: Poly, x: Byte)
    requires r != []
    ensures Mul(Eval(r, x), x) == Add(Mul(r[0], PowerOf(x, |r|)), Eval(r[1..] + [0], x))
  {
    hide Eval, Add, Mul;
    EvalSnoc(r, 0, x);
    AddZero(Mul(Eval(r, x), x));
    assert r + [0] == [r[0]] + (r[1..] + [0]);
    EvalConcat([r[0]], r[1..] + [0], x);
    EvalOne(r[0], x);
  }

  lemma StepAlgebra(m: Byte, x: Byte, xd: Byte, byte: Byte, lead: Byte, shifted: Byte, value: Byte)
    requires Mul(m, xd) == value && Mul(value, x) == Add(Mul(lead, xd), shifted)
    ensures Add(Mul(Add(Mul(m, x), byte), xd), Add(shifted, Mul(Add(byte, lead), xd))) == 0
  {
    MulAdd(xd, Mul(m, x), byte);
    MulAdd(xd, byte, lead);
    MulAssoc(m, x, xd);
    MulComm(x, xd);
    MulAssoc(m, xd, x);
    var b, l := Mul(byte, xd), Mul(lead, xd);
    assert Mul(Add(Mul(m, x), byte), xd) == Add(Add(l, shifted), b);
    AddComm(l, shifted);
    AddAssoc(shifted, l, b);
    AddComm(l, b);
    AddSelf(Add(shifted, Add(b, l)), Add(shifted, Add(b, l)));
  }
}
