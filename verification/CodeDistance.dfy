/**
 * Why Reed-Solomon check symbols repair errors: two different codewords with d check symbols
 * differ in more than d places. So the check symbols of a message are the only ones that make it
 * a codeword, and a word damaged in at most d/2 places has one nearest codeword, the one sent.
 */
module CodeDistance {
  import opened Bits
  import opened Gf256
  import opened Gf256Order
  import opened Polynomial
  import opened ReedSolomon

  /** A non-zero symbol and the power of alpha of its place. */
  datatype Term = Term(coefficient: Byte, locator: Byte)

  /** The sum of coefficient * locator^i. */
  function PowerSum(terms: seq<Term>, i: nat): Byte {
    if terms == [] then 0
    else Add(PowerSum(terms[..|terms| - 1], i),
             Mul(terms[|terms| - 1].coefficient, PowerOf(terms[|terms| - 1].locator, i)))
  }

  /** The terms with the last locator eliminated: each coefficient times (its locator + last). */
  function Eliminate(terms: seq<Term>, last: Byte): (r: seq<Term>)
    ensures |r| == |terms|
  {
    seq(|terms|, k requires 0 <= k < |terms| =>
      Term(Mul(terms[k].coefficient, Add(terms[k].locator, last)), terms[k].locator))
  }

  lemma {:induction false} PowerSumEliminate(terms: seq<Term>, last: Byte, i: nat)
    ensures PowerSum(Eliminate(terms, last), i) == Add(PowerSum(terms, i + 1), Mul(PowerSum(terms, i), last))
  {
    if terms == [] {
      MulZero(last);
      AddZero(0);
    } else {
      var init, t := terms[..|terms| - 1], terms[|terms| - 1];
      PowerSumEliminate(init, last, i);
      assert Eliminate(terms, last)[..|terms| - 1] == Eliminate(init, last);
      EliminateTerm(t, last, i);
      var c := Mul(t.coefficient, PowerOf(t.locator, i));
      MulAdd(last, PowerSum(init, i), c);
      AddSwap(PowerSum(init, i + 1), Mul(PowerSum(init, i), last),
              Mul(t.coefficient, PowerOf(t.locator, i + 1)), Mul(c, last));
    }
  }

  lemma EliminateTerm(t: Term, last: Byte, i: nat)
    ensures Mul(Mul(t.coefficient, Add(t.locator, last)), PowerOf(t.locator, i)) ==
            Add(Mul(t.coefficient, PowerOf(t.locator, i + 1)), Mul(Mul(t.coefficient, PowerOf(t.locator, i)), last))
  {
    var c, x, p := t.coefficient, t.locator, PowerOf(t.locator, i);
    MulAssoc(c, Add(x, last), p);
    MulAdd(p, x, last);
    MulComm(x, p);
    MulComm(last, p);
    MulAdd(c, Mul(p, x), Mul(p, last));
    MulAssoc(c, p, last);
  }

  ghost predicate DistinctLocators(terms: seq<Term>) {
    forall j, k | 0 <= j < k < |terms| :: terms[j].locator != terms[k].locator
  }

  ghost predicate AllZero(terms: seq<Term>) {
    forall k | 0 <= k < |terms| :: terms[k].coefficient == 0
  }

  /** Vandermonde: m distinct locators whose first m power sums vanish have zero coefficients. */
  lemma {:induction false} Vandermonde(terms: seq<Term>, m: nat)
    requires |terms| <= m && DistinctLocators(terms)
    requires forall i: nat | i < m :: PowerSum(terms, i) == 0
    ensures AllZero(terms)
    decreases |terms|
  {
    if terms != [] {
      var init, t := terms[..|terms| - 1], terms[|terms| - 1];
      var rest := Eliminate(init, t.locator);
      forall i: nat | i < m - 1 ensures PowerSum(rest, i) == 0 {
        var all := Eliminate(terms, t.locator);
        PowerSumEliminate(terms, t.locator, i);
        MulZero(t.locator);
        AddZero(0);
        assert all[..|terms| - 1] == rest;
        AddSelf(t.locator, t.locator);
        MulZero(t.coefficient);
        MulZero(PowerOf(t.locator, i));
        AddZero(PowerSum(rest, i));
      }
      Vandermonde(rest, m - 1);
      forall k | 0 <= k < |init| ensures init[k].coefficient == 0 {
        assert rest[k].coefficient == 0;
        NoZeroDivisors(init[k].coefficient, Add(init[k].locator, t.locator));
        AddSelf(init[k].locator, t.locator);
      }
      ZeroSum(init, 0);
      assert PowerSum(terms, 0) == 0;
      MulOne(t.coefficient);
      AddZero(t.coefficient);
    }
  }

  lemma {:induction false} ZeroSum(terms: seq<Term>, i: nat)
    requires AllZero(terms)
    ensures PowerSum(terms, i) == 0
  {
    if terms != [] {
      ZeroSum(terms[..|terms| - 1], i);
      MulZero(PowerOf(terms[|terms| - 1].locator, i));
      AddZero(0);
    }
  }

  // --- words as sums of terms ------------------------------------------------------------------

  /** The number of non-zero symbols. */
  function Weight(c: Poly): nat {
    if c == [] then 0 else Weight(c[1..]) + if c[0] == 0 then 0 else 1
  }

  /** The non-zero symbols of c, lowest place first. */
  function Terms(c: Poly): (r: seq<Term>)
    ensures |r| == Weight(c)
  {
    if c == [] then []
    else if c[0] == 0 then Terms(c[1..])
    else Terms(c[1..]) + [Term(c[0], Pow(|c| - 1))]
  }

  lemma {:induction false} EarlierPower(x: Byte, n: nat, m: nat)
    requires IsRoot(x, n) && n <= m < 255
    ensures x != Pow(m)
    decreases n
  {
    if x == Pow(n - 1) {
      PowInjective(n - 1, m);
    } else {
      EarlierPower(x, n - 1, m);
    }
  }

  lemma {:induction false} TermsShape(c: Poly)
    requires |c| <= 255
    ensures DistinctLocators(Terms(c))
    ensures forall k | 0 <= k < |Terms(c)| :: Terms(c)[k].coefficient != 0 && IsRoot(Terms(c)[k].locator, |c|)
  {
    if c != [] {
      TermsShape(c[1..]);
      var init := Terms(c[1..]);
      if c[0] != 0 {
        forall k | 0 <= k < |init| ensures init[k].locator != Pow(|c| - 1) {
          EarlierPower(init[k].locator, |c| - 1, |c| - 1);
        }
      }
    }
  }

  /** The value of a word at alpha^i is the i-th power sum of its terms. */
  lemma {:induction false} EvalIsPowerSum(c: Poly, i: nat)
    ensures Eval(c, Pow(i)) == PowerSum(Terms(c), i)
    decreases |c|
  {
    if c != [] {
      var rest := c[1..];
      EvalIsPowerSum(rest, i);
      LeadingTerm(c, i);
      TermsStep(c, i);
    }
  }

  lemma TermsStep(c: Poly, i: nat)
    requires c != []
    ensures PowerSum(Terms(c), i) == if c[0] == 0 then PowerSum(Terms(c[1..]), i)
                                     else Add(PowerSum(Terms(c[1..]), i), Mul(c[0], PowerOf(Pow(|c| - 1), i)))
  {
    if c[0] != 0 {
      PowerSumSnoc(Terms(c[1..]), Term(c[0], Pow(|c| - 1)), i);
    }
  }

  lemma LeadingTerm(c: Poly, i: nat)
    requires c != []
    ensures Eval(c, Pow(i)) == Add(Eval(c[1..], Pow(i)), Mul(c[0], PowerOf(Pow(|c| - 1), i)))
    ensures c[0] == 0 ==> Eval(c, Pow(i)) == Eval(c[1..], Pow(i))
  {
    assert c == [c[0]] + c[1..];
    EvalConcat([c[0]], c[1..], Pow(i));
    EvalOne(c[0], Pow(i));
    PowerSwap(|c| - 1, i);
    AddComm(Mul(c[0], PowerOf(Pow(i), |c| - 1)), Eval(c[1..], Pow(i)));
    MulZero(PowerOf(Pow(i), |c| - 1));
    AddZero(Eval(c[1..], Pow(i)));
  }

  lemma PowerSumSnoc(terms: seq<Term>, t: Term, i: nat)
    ensures PowerSum(terms + [t], i) == Add(PowerSum(terms, i), Mul(t.coefficient, PowerOf(t.locator, i)))
  {
    assert (terms + [t])[..|terms|] == terms;
  }

  lemma {:induction false} ZeroWeight(c: Poly)
    ensures Weight(c) == 0 <==> c == Zeros(|c|)
  {
    if c != [] {
      ZeroWeight(c[1..]);
      assert c == [c[0]] + c[1..];
      assert Zeros(|c|)[1..] == Zeros(|c| - 1);
    }
  }

  /** A codeword with at most `degree` non-zero symbols is zero. */
  lemma LightCodeword(c: Poly, degree: nat)
    requires |c| <= 255 && IsCodeword(c, degree) && Weight(c) <= degree
    ensures c == Zeros(|c|)
  {
    forall i: nat | i < degree ensures PowerSum(Terms(c), i) == 0 {
      RootPower(i, degree);
      EvalIsPowerSum(c, i);
    }
    TermsShape(c);
    assert Terms(c) != [] ==> Terms(c)[0].coefficient != 0;
    Vandermonde(Terms(c), degree);
    ZeroWeight(c);
  }

  // --- distance --------------------------------------------------------------------------------

  /** The number of places in which two words differ. */
  function Distance(a: Poly, b: Poly): nat
    requires |a| == |b|
  {
    if a == [] then 0 else Distance(a[1..], b[1..]) + if a[0] == b[0] then 0 else 1
  }

  lemma {:induction false} DistanceIsWeight(a: Poly, b: Poly)
    requires |a| == |b|
    ensures Weight(AddPoly(a, b)) == Distance(a, b)
  {
    if a != [] {
      DistanceIsWeight(a[1..], b[1..]);
      assert AddPoly(a, b)[1..] == AddPoly(a[1..], b[1..]);
      AddSelf(a[0], b[0]);
    }
  }

  lemma {:induction false} Triangle(a: Poly, b: Poly, c: Poly)
    requires |a| == |b| == |c|
    ensures Distance(a, c) <= Distance(a, b) + Distance(b, c)
    ensures Distance(a, b) == Distance(b, a)
  {
    if a != [] {
      Triangle(a[1..], b[1..], c[1..]);
    }
  }

  /** Two different codewords differ in more than `degree` places. */
  lemma MinimumDistance(a: Poly, b: Poly, degree: nat)
    requires |a| == |b| <= 255 && IsCodeword(a, degree) && IsCodeword(b, degree)
    requires a != b
    ensures Distance(a, b) > degree
  {
    if Distance(a, b) <= degree {
      var sum := AddPoly(a, b);
      forall x | IsRoot(x, degree) ensures Eval(sum, x) == 0 {
        EvalAdd(a, b, x);
        AddZero(0);
      }
      DistanceIsWeight(a, b);
      LightCodeword(sum, degree);
      ZeroDifference(a, b);
    }
  }

  lemma ZeroDifference(a: Poly, b: Poly)
    requires |a| == |b| && AddPoly(a, b) == Zeros(|a|)
    ensures a == b
  {
    forall k | 0 <= k < |a| ensures a[k] == b[k] {
      assert AddPoly(a, b)[k] == 0;
      AddSelf(a[k], b[k]);
    }
  }

  /** A word damaged in at most degree/2 places is strictly nearer to the codeword sent than to any other. */
  lemma UniqueRepair(sent: Poly, received: Poly, other: Poly, degree: nat)
    requires |sent| == |received| == |other| <= 255
    requires IsCodeword(sent, degree) && IsCodeword(other, degree) && other != sent
    requires 2 * Distance(sent, received) <= degree
    ensures Distance(received, sent) < Distance(received, other)
  {
    MinimumDistance(sent, other, degree);
    Triangle(sent, received, other);
  }

  lemma {:induction false} DistanceAppend(data: Poly, a: Poly, b: Poly)
    requires |a| == |b|
    ensures Distance(data + a, data + b) == Distance(a, b) <= |a|
  {
    if data == [] {
      assert data + a == a && data + b == b;
      DistanceBound(a, b);
    } else {
      DistanceAppend(data[1..], a, b);
      assert (data + a)[1..] == data[1..] + a && (data + b)[1..] == data[1..] + b;
    }
  }

  lemma {:induction false} DistanceBound(a: Poly, b: Poly)
    requires |a| == |b|
    ensures Distance(a, b) <= |a|
  {
    if a != [] {
      DistanceBound(a[1..], b[1..]);
    }
  }

  /** Check symbols are determined by the message. */
  lemma UniqueRemainder(data: Poly, a: Poly, b: Poly, degree: nat)
    requires |a| == |b| == degree && |data| + degree <= 255
    requires IsCodeword(data + a, degree) && IsCodeword(data + b, degree)
    ensures a == b
  {
    DistanceAppend(data, a, b);
    if data + a != data + b {
      MinimumDistance(data + a, data + b, degree);
    }
    assert (data + a)[|data|..] == a && (data + b)[|data|..] == b;
  }
}
