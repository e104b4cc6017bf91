/** The discrete Fourier transform and its radix-2 decimation.

    `DftAt` is the textbook sum.  Everything the butterfly loops rely on follows from reading it
    as the value of a polynomial and splitting the coefficients by parity. */
module Dft {
  import opened Complex

  function Pow2(k: nat): (p: nat)
    ensures p > 0
  {
    if k == 0 then 1 else 2 * Pow2(k - 1)
  }

  // ----- the specification

  // Sum of x[i] * w^(i*m) for i below n
  function PartialDft(x: seq<Complex>, w: Complex, m: nat, n: nat): Complex
    requires n <= |x|
  {
    if n == 0 then Zero
    else Add(PartialDft(x, w, m, n - 1), Mul(x[n - 1], Pow(w, (n - 1) * m)))
  }

  function DftAt(x: seq<Complex>, w: Complex, m: nat): Complex {
    PartialDft(x, w, m, |x|)
  }

  function DftSeq(x: seq<Complex>, w: Complex): (r: seq<Complex>)
    ensures |r| == |x|
  {
    seq(|x|, m requires 0 <= m => DftAt(x, w, m))
  }

  // w is the root of unity e^(2*pi*i/2^k) or its conjugate, described without trigonometry:
  // squaring w k-1 times leads through unit-length numbers to -1.
  ghost predicate RootOfUnity(w: Complex, k: nat)
    decreases k
  {
    if k == 0 then w == One
    else if k == 1 then w == Neg(One)
    else Mul(w, Conj(w)) == One && RootOfUnity(Mul(w, w), k - 1)
  }

  // ----- polynomials

  function Eval(x: seq<Complex>, z: Complex): Complex {
    if x == [] then Zero else Add(x[0], Mul(z, Eval(x[1..], z)))
  }

  function Evens(x: seq<Complex>): (r: seq<Complex>)
    ensures |r| == (|x| + 1) / 2
    ensures forall i :: 0 <= i < |r| ==> r[i] == x[2 * i]
  {
    seq((|x| + 1) / 2, i requires 0 <= i < (|x| + 1) / 2 => x[2 * i])
  }

  function Odds(x: seq<Complex>): (r: seq<Complex>)
    ensures |r| == |x| / 2
    ensures forall i :: 0 <= i < |r| ==> r[i] == x[2 * i + 1]
  {
    seq(|x| / 2, i requires 0 <= i < |x| / 2 => x[2 * i + 1])
  }

  lemma {:induction false} EvalSnoc(x: seq<Complex>, a: Complex, z: Complex)
    ensures Eval(x + [a], z) == Add(Eval(x, z), Mul(a, Pow(z, |x|)))
  {
    if x == [] {
      assert (x + [a])[1..] == [];
      MulOne(z);
      MulOne(a);
    } else {
      assert (x + [a])[1..] == x[1..] + [a];
      EvalSnoc(x[1..], a, z);
      EvalSnocStep(x[0], Eval(x[1..], z), a, z, Pow(z, |x| - 1));
    }
  }

  lemma EvalSnocStep(x0: Complex, e: Complex, a: Complex, z: Complex, p: Complex)
    ensures Add(x0, Mul(z, Add(e, Mul(a, p)))) == Add(Add(x0, Mul(z, e)), Mul(a, Mul(z, p)))
  {
    hide *;
    MulAdd(z, e, Mul(a, p));
    MulAssoc(z, a, p);
    MulComm(z, a);
    MulAssoc(a, z, p);
    AddAssoc(x0, Mul(z, e), Mul(a, Mul(z, p)));
  }

  // The textbook sum is the polynomial with coefficients x evaluated at w^m.
  lemma {:induction false} PartialDftIsEval(x: seq<Complex>, w: Complex, m: nat, n: nat)
    requires n <= |x|
    ensures PartialDft(x, w, m, n) == Eval(x[..n], Pow(w, m))
  {
    hide Mul, Add, Pow, Eval;
    if n == 0 {
      EvalNothing(Pow(w, m));
    } else {
      PartialDftIsEval(x, w, m, n - 1);
      assert x[..n] == x[..n - 1] + [x[n - 1]];
      EvalSnoc(x[..n - 1], x[n - 1], Pow(w, m));
      PowPow(w, m, n - 1);
      assert m * (n - 1) == (n - 1) * m;
    }
  }

  lemma EvalNothing(z: Complex)
    ensures Eval([], z) == Zero
  {
  }

  lemma DftIsEval(x: seq<Complex>, w: Complex, m: nat)
    ensures DftAt(x, w, m) == Eval(x, Pow(w, m))
  {
    PartialDftIsEval(x, w, m, |x|);
    assert x[..|x|] == x;
  }

  // ----- decimation in time

  lemma {:induction false} EvalByParity(x: seq<Complex>, z: Complex)
    ensures Eval(x, z) == Add(Eval(Evens(x), Mul(z, z)), Mul(z, Eval(Odds(x), Mul(z, z))))
  {
    hide Mul, Add;
    if |x| == 0 {
      MulOne(z);
      MulOne(Zero);
    } else {
      // the tail swaps the roles of the two halves
      var t := x[1..];
      EvalByParity(t, z);
      assert Evens(t) == Odds(x);
      assert Odds(t) == Evens(x)[1..];
      var o, e, zz := Eval(Odds(x), Mul(z, z)), Eval(Evens(x)[1..], Mul(z, z)), Mul(z, z);
      assert Eval(x, z) == Add(x[0], Mul(z, Add(o, Mul(z, e))));
      assert Eval(Evens(x), zz) == Add(x[0], Mul(zz, e));
      ParityStep(x[0], o, e, z);
    }
  }

  lemma ParityStep(x0: Complex, o: Complex, e: Complex, z: Complex)
    ensures Add(x0, Mul(z, Add(o, Mul(z, e)))) == Add(Add(x0, Mul(Mul(z, z), e)), Mul(z, o))
  {
    hide *;
    MulAdd(z, o, Mul(z, e));
    MulAssoc(z, z, e);
    AddSwap(x0, Mul(z, o), Mul(Mul(z, z), e));
  }

  lemma AddSwap(a: Complex, b: Complex, c: Complex)
    ensures Add(a, Add(b, c)) == Add(Add(a, c), b)
  {
  }

  // One butterfly: position m of the lower half and of the upper half.
  lemma Decimation(x: seq<Complex>, w: Complex, m: nat)
    ensures DftAt(x, w, m) ==
            Add(DftAt(Evens(x), Mul(w, w), m), Mul(Pow(w, m), DftAt(Odds(x), Mul(w, w), m)))
  {
    hide *;
    DftIsEval(x, w, m);
    EvalByParity(x, Pow(w, m));
    PowSquare(w, m);
    DftIsEval(Evens(x), Mul(w, w), m);
    DftIsEval(Odds(x), Mul(w, w), m);
    PowMulBase(w, w, m);
  }

  // Half-way round the circle the root has turned to -1.
  lemma {:induction false} HalfTurn(w: Complex, k: nat)
    requires k > 0 && RootOfUnity(w, k)
    ensures Pow(w, Pow2(k - 1)) == Neg(One)
    decreases k
  {
    hide Mul, Neg;
    if k == 1 {
      PowTwo(w);
    } else {
      HalfTurn(Mul(w, w), k - 1);
      PowSquare(w, Pow2(k - 2));
    }
  }

  lemma FullTurn(w: Complex, k: nat)
    requires RootOfUnity(w, k)
    ensures Pow(w, Pow2(k)) == One
  {
    hide Mul, Neg;
    if k > 0 {
      HalfTurn(w, k);
      PowAdd(w, Pow2(k - 1), Pow2(k - 1));
      MulOne(Neg(One));
      MulOne(One);
    } else {
      PowTwo(w);
    }
  }

  lemma PowPeriod(w: Complex, k: nat, m: nat)
    requires RootOfUnity(w, k)
    ensures Pow(w, m + Pow2(k)) == Pow(w, m)
  {
    hide Mul;
    FullTurn(w, k);
    PowAdd(w, m, Pow2(k));
    MulOne(Pow(w, m));
  }

  lemma PowHalfTurn(w: Complex, k: nat, m: nat)
    requires k > 0 && RootOfUnity(w, k)
    ensures Pow(w, m + Pow2(k - 1)) == Neg(Pow(w, m))
  {
    hide Mul, Neg;
    HalfTurn(w, k);
    PowAdd(w, m, Pow2(k - 1));
    MulOne(Pow(w, m));
  }

  // The two outputs of a butterfly of size 2^k from two transforms of size 2^(k-1).
  function Butterfly(a: seq<Complex>, h: nat, w: Complex): (r: seq<Complex>)
    requires |a| == 2 * h
    ensures |r| == |a|
  {
    seq(2 * h, p requires 0 <= p < 2 * h =>
      if p < h then Add(a[p], Mul(Pow(w, p), a[p + h]))
      else Sub(a[p - h], Mul(Pow(w, p - h), a[p])))
  }

  lemma SquareIsRoot(w: Complex, k: nat)
    requires k > 0 && RootOfUnity(w, k)
    ensures RootOfUnity(Mul(w, w), k - 1)
  {
  }

  lemma ButterflyIsDft(x: seq<Complex>, k: nat, w: Complex)
    requires k > 0 && |x| == Pow2(k)
    requires RootOfUnity(w, k)
    ensures |Evens(x)| == |Odds(x)| == Pow2(k - 1)
    ensures Butterfly(DftSeq(Evens(x), Mul(w, w)) + DftSeq(Odds(x), Mul(w, w)), Pow2(k - 1), w) == DftSeq(x, w)
  {
    hide Mul, Neg, Add, Sub, Conj, Pow, DftAt, RootOfUnity, Butterfly;
    var h, v := Pow2(k - 1), Mul(w, w);
    SquareIsRoot(w, k);
    var a := DftSeq(Evens(x), v) + DftSeq(Odds(x), v);
    forall p | 0 <= p < 2 * h
      ensures Butterfly(a, h, w)[p] == DftSeq(x, w)[p]
    {
      ButterflyEntry(x, k, w, p);
    }
  }

  lemma ButterflyEntry(x: seq<Complex>, k: nat, w: Complex, p: nat)
    requires k > 0 && |x| == Pow2(k) && p < |x|
    requires RootOfUnity(w, k) && RootOfUnity(Mul(w, w), k - 1)
    ensures var h, v := Pow2(k - 1), Mul(w, w);
            var a := DftSeq(Evens(x), v) + DftSeq(Odds(x), v);
            |a| == 2 * h && Butterfly(a, h, w)[p] == DftAt(x, w, p)
  {
    hide Mul, Neg, Add, Sub, Conj, Pow, DftAt, RootOfUnity;
    var h, v := Pow2(k - 1), Mul(w, w);
    Decimation(x, w, p);
    if p >= h {
      DftPeriod(Evens(x), v, k - 1, p - h);
      DftPeriod(Odds(x), v, k - 1, p - h);
      PowHalfTurn(w, k, p - h);
      NegMul(DftAt(Evens(x), v, p), Pow(w, p - h), DftAt(Odds(x), v, p));
    }
  }

  lemma NegMul(a: Complex, b: Complex, c: Complex)
    ensures Add(a, Mul(Neg(b), c)) == Sub(a, Mul(b, c))
  {
  }

  lemma DftPeriod(x: seq<Complex>, w: Complex, k: nat, m: nat)
    requires RootOfUnity(w, k)
    ensures DftAt(x, w, m + Pow2(k)) == DftAt(x, w, m)
  {
    DftIsEval(x, w, m);
    DftIsEval(x, w, m + Pow2(k));
    PowPeriod(w, k, m);
  }
}
