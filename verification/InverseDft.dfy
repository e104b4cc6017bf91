/** Transforming back with the conjugate root returns every sample multiplied by their number.

    This is what the orthogonality of the roots gives.  The proof follows the same halving as the
    butterflies instead of summing powers of roots: the sums of the lower and upper half of the
    spectrum are twice the transform of the even samples, their differences twice the twisted
    transform of the odd ones. */
module InverseDft {
  import opened Complex
  import opened Dft

  lemma {:induction false} EvalSplit(a: seq<Complex>, b: seq<Complex>, z: Complex)
    ensures Eval(a + b, z) == Add(Eval(a, z), Mul(Pow(z, |a|), Eval(b, z)))
  {
    hide Mul, Add;
    if a == [] {
      assert a + b == b;
      MulOne(Eval(b, z));
    } else {
      assert (a + b)[1..] == a[1..] + b;
      EvalSplit(a[1..], b, z);
      var e, f, p := Eval(a[1..], z), Eval(b, z), Pow(z, |a| - 1);
      MulAdd(z, e, Mul(p, f));
      MulAssoc(z, p, f);
      AddAssoc(a[0], Mul(z, e), Mul(Mul(z, p), f));
    }
  }

  lemma {:induction false} EvalLinear(a: seq<Complex>, b: seq<Complex>, s: Complex, c: seq<Complex>, z: Complex)
    requires |a| == |b| == |c|
    requires forall m :: 0 <= m < |c| ==> c[m] == Add(a[m], Mul(s, b[m]))
    ensures Eval(c, z) == Add(Eval(a, z), Mul(s, Eval(b, z)))
  {
    hide Mul, Add;
    if c == [] {
      MulOne(s);
      MulOne(Zero);
    } else {
      EvalLinear(a[1..], b[1..], s, c[1..], z);
      LinearStep(a[0], b[0], s, Eval(a[1..], z), Eval(b[1..], z), z);
    }
  }

  lemma LinearStep(a: Complex, b: Complex, s: Complex, e: Complex, f: Complex, z: Complex)
    ensures Add(Add(a, Mul(s, b)), Mul(z, Add(e, Mul(s, f)))) == Add(Add(a, Mul(z, e)), Mul(s, Add(b, Mul(z, f))))
  {
    hide *;
    MulAdd(z, e, Mul(s, f));
    MulAdd(s, b, Mul(z, f));
    MulAssoc(z, s, f);
    MulComm(z, s);
    MulAssoc(s, z, f);
    AddMiddle(a, Mul(s, b), Mul(z, e), Mul(s, Mul(z, f)));
  }

  lemma AddMiddle(a: Complex, b: Complex, c: Complex, d: Complex)
    ensures Add(Add(a, b), Add(c, d)) == Add(Add(a, c), Add(b, d))
  {
  }

  // Twisting the coefficients by powers of w moves the point of evaluation.
  lemma {:induction false} EvalDilate(a: seq<Complex>, c: seq<Complex>, w: Complex, z: Complex)
    requires |a| == |c|
    requires forall m :: 0 <= m < |c| ==> c[m] == Mul(Pow(w, m), a[m])
    ensures Eval(c, z) == Eval(a, Mul(w, z))
  {
    hide Mul, Add, Pow;
    if c != [] {
      var n := |c| - 1;
      assert c == c[..n] + [c[n]] && a == a[..n] + [a[n]];
      EvalDilate(a[..n], c[..n], w, z);
      EvalSnoc(c[..n], c[n], z);
      EvalSnoc(a[..n], a[n], Mul(w, z));
      PowMulBase(w, z, n);
      MulComm(Pow(w, n), a[n]);
      MulAssoc(a[n], Pow(w, n), Pow(z, n));
    }
  }

  lemma ConjMul(a: Complex, b: Complex)
    ensures Conj(Mul(a, b)) == Mul(Conj(a), Conj(b))
    ensures Conj(Conj(a)) == a
  {
  }

  lemma ConjUnits()
    ensures Conj(One) == One && Mul(One, One) == One
    ensures Conj(Neg(One)) == Neg(One) && Mul(Neg(One), Neg(One)) == One
  {
    hide Mul;
    MulOne(One);
    MulOne(Neg(One));
  }

  lemma {:induction false} ConjRoot(w: Complex, k: nat)
    requires RootOfUnity(w, k)
    ensures RootOfUnity(Conj(w), k)
    ensures Mul(w, Conj(w)) == One
    decreases k
  {
    hide Mul, Conj, Neg;
    ConjUnits();
    if k > 1 {
      ConjRoot(Mul(w, w), k - 1);
      ConjMul(w, w);
      MulComm(w, Conj(w));
    }
  }

  // ----- the two halves of a spectrum

  lemma SpectrumHalves(x: seq<Complex>, k: nat, w: Complex, m: nat)
    requires k > 0 && |x| == Pow2(k) && m < Pow2(k - 1)
    requires RootOfUnity(w, k)
    ensures var X, v := DftSeq(x, w), Mul(w, w);
            var e, o := DftAt(Evens(x), v, m), Mul(Pow(w, m), DftAt(Odds(x), v, m));
            X[m] == Add(e, o) && X[m + Pow2(k - 1)] == Sub(e, o)
  {
    hide Mul, Neg, Add, Sub, Conj, Pow, DftAt, RootOfUnity;
    ButterflyIsDft(x, k, w);
    var h, v := Pow2(k - 1), Mul(w, w);
    var a := DftSeq(Evens(x), v) + DftSeq(Odds(x), v);
    var X := DftSeq(x, w);
    assert X == Butterfly(a, h, w);
    assert a[m] == DftAt(Evens(x), v, m) && a[m + h] == DftAt(Odds(x), v, m);
    assert X[m] == Butterfly(a, h, w)[m] && X[m + h] == Butterfly(a, h, w)[m + h];
  }

  lemma SumAndDifference(e: Complex, o: Complex)
    ensures Add(Add(e, o), Mul(One, Sub(e, o))) == Add(e, Mul(One, e))
    ensures Add(Add(e, o), Mul(Neg(One), Sub(e, o))) == Add(o, Mul(One, o))
  {
  }

  // u^(n h) for h half a turn: the sign that the upper half of the spectrum picks up
  lemma {:induction false} HalfTurnSign(u: Complex, k: nat, n: nat)
    requires k > 0 && RootOfUnity(u, k)
    ensures Pow(Pow(u, n), Pow2(k - 1)) == if n % 2 == 0 then One else Neg(One)
  {
    hide Mul, Neg, RootOfUnity;
    var h := Pow2(k - 1);
    PowPow(u, n, h);
    PowPow(u, h, n);
    assert n * h == h * n;
    HalfTurn(u, k);
    PowMinusOne(n);
  }

  lemma {:induction false} PowMinusOne(n: nat)
    ensures Pow(Neg(One), n) == if n % 2 == 0 then One else Neg(One)
  {
    hide Mul, Neg;
    if n > 0 {
      PowMinusOne(n - 1);
      MulOne(Pow(Neg(One), n - 1));
      MulOne(One);
    }
  }

  // Entry n of the backward transform, reduced to one of half the size.
  lemma BackwardHalves(x: seq<Complex>, k: nat, w: Complex, n: nat)
    requires k > 0 && |x| == Pow2(k) && n < |x|
    requires RootOfUnity(w, k)
    ensures var v, half := Mul(w, w), if n % 2 == 0 then Evens(x) else Odds(x);
            var t := DftAt(DftSeq(half, v), Conj(v), n / 2);
            DftAt(DftSeq(x, w), Conj(w), n) == Add(t, Mul(One, t))
  {
    hide Mul, Neg, Add, Sub, Conj, Pow, DftAt, RootOfUnity, DftSeq, Eval, Evens, Odds;
    var h, v, u, X := Pow2(k - 1), Mul(w, w), Conj(w), DftSeq(x, w);
    var z, s := Pow(u, n), if n % 2 == 0 then One else Neg(One);
    var E, O := DftSeq(Evens(x), v), DftSeq(Odds(x), v);
    var oTwisted := seq(h, m requires 0 <= m < h => Mul(Pow(w, m), O[m]));
    var c := if n % 2 == 0 then E else oTwisted;
    ConjRoot(w, k);
    DftIsEval(X, u, n);
    assert X == X[..h] + X[h..];
    EvalSplit(X[..h], X[h..], z);
    HalfTurnSign(u, k, n);
    var d := seq(h, m requires 0 <= m < h => Add(X[m], Mul(s, X[h + m])));
    EvalLinear(X[..h], X[h..], s, d, z);
    forall m | 0 <= m < h
      ensures d[m] == Add(c[m], Mul(One, c[m]))
    {
      SpectrumHalves(x, k, w, m);
      DftSeqAt(Evens(x), v, m);
      DftSeqAt(Odds(x), v, m);
      SumAndDifference(E[m], Mul(Pow(w, m), O[m]));
    }
    EvalLinear(c, c, One, d, z);
    BackwardPoint(w, k, n);
    DftIsEval(if n % 2 == 0 then E else O, Conj(v), n / 2);
    if n % 2 == 1 {
      EvalDilate(O, oTwisted, w, z);
    }
  }

  lemma DftSeqAt(x: seq<Complex>, w: Complex, m: nat)
    requires m < |x|
    ensures DftSeq(x, w)[m] == DftAt(x, w, m)
  {
  }

  // Where the half-size transform is evaluated.
  lemma BackwardPoint(w: Complex, k: nat, n: nat)
    requires RootOfUnity(w, k)
    ensures Pow(Conj(Mul(w, w)), n / 2) ==
            if n % 2 == 0 then Pow(Conj(w), n) else Mul(w, Pow(Conj(w), n))
  {
    hide Mul, Conj, RootOfUnity;
    ConjMul(w, w);
    PowSquare(Conj(w), n / 2);
    if n % 2 == 1 {
      ConjRoot(w, k);
      MulAssoc(w, Conj(w), Pow(Conj(w), n - 1));
      MulOne(Pow(Conj(w), n - 1));
      assert n - 1 == 2 * (n / 2);
    }
  }

  // The backward transform of the forward transform is the input times its length.
  lemma {:induction false} BackwardAfterForward(x: seq<Complex>, k: nat, w: Complex, n: nat)
    requires |x| == Pow2(k) && n < |x|
    requires RootOfUnity(w, k)
    ensures DftAt(DftSeq(x, w), Conj(w), n) == Scale(Pow2(k) as real, x[n])
    decreases k
  {
    hide Mul, Add, Conj, DftAt, DftSeq, Scale, RootOfUnity;
    if k == 0 {
      UnitScale(x[0]);
      SingletonDft(x, w);
      SingletonDft(x, Conj(w));
    } else {
      hide Evens, Odds;
      var half := if n % 2 == 0 then Evens(x) else Odds(x);
      HalfAt(x, k, n);
      BackwardHalves(x, k, w, n);
      SquareIsRoot(w, k);
      BackwardAfterForward(half, k - 1, Mul(w, w), n / 2);
      DoubleScale(Pow2(k - 1) as real, x[n]);
    }
  }

  lemma HalfAt(x: seq<Complex>, k: nat, n: nat)
    requires k > 0 && |x| == Pow2(k) && n < |x|
    ensures var half := if n % 2 == 0 then Evens(x) else Odds(x);
            |half| == Pow2(k - 1) && n / 2 < |half| && half[n / 2] == x[n]
  {
  }

  lemma UnitScale(a: Complex)
    ensures Scale(1.0, a) == a
  {
  }

  lemma DoubleScale(r: real, a: Complex)
    ensures Add(Scale(r, a), Mul(One, Scale(r, a))) == Scale(2.0 * r, a)
  {
  }

  lemma SingletonDft(x: seq<Complex>, w: Complex)
    requires |x| == 1
    ensures DftSeq(x, w) == x
    ensures DftAt(x, w, 0) == x[0]
  {
    assert DftAt(x, w, 0) == Add(PartialDft(x, w, 0, 0), Mul(x[0], Pow(w, 0)));
    MulOne(x[0]);
  }
}
