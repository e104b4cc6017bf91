/** What `fft_float` (fourierf.c) computes, stage by stage, in exact arithmetic: the contents of its
    buffer as sequences of complex numbers. */
module Fourier {
  import opened Complex
  import opened Dft
  import opened FourierMisc
  import opened InverseDft

  // ----- sine and cosine, known only through their laws

  datatype Trig = Trig(cos: real -> real, sin: real -> real, pi: real)

  ghost predicate AngleSum(t: Trig, a: real, b: real) {
    && t.cos(a + b) == t.cos(a) * t.cos(b) - t.sin(a) * t.sin(b)
    && t.sin(a + b) == t.sin(a) * t.cos(b) + t.cos(a) * t.sin(b)
  }

  ghost predicate AngleLaws(t: Trig, a: real) {
    && t.cos(a) * t.cos(a) + t.sin(a) * t.sin(a) == 1.0
    && t.cos(-a) == t.cos(a)
    && t.sin(-a) == -t.sin(a)
  }

  ghost predicate Lawful(t: Trig) {
    && (forall a: real :: AngleLaws(t, a))
    && (forall a: real, b: real :: AngleSum(t, a, b))
    && t.cos(t.pi) == -1.0
    && t.sin(t.pi) == 0.0
  }

  function DeltaAngle(t: Trig, inverse: bool, j: nat): real {
    (if inverse then -(2.0 * t.pi) else 2.0 * t.pi) / Pow2(j) as real
  }

  // e^(+2*pi*i/2^j) for the forward transform, its conjugate for the inverse one
  function Root(t: Trig, inverse: bool, j: nat): Complex {
    var a := DeltaAngle(t, inverse, j);
    C(t.cos(a), t.sin(a))
  }

  lemma RootSquared(t: Trig, inverse: bool, j: nat)
    requires Lawful(t)
    ensures Mul(Root(t, inverse, j + 1), Root(t, inverse, j + 1)) == Root(t, inverse, j)
  {
    var a := DeltaAngle(t, inverse, j + 1);
    assert AngleSum(t, a, a);
    HalfAngle(if inverse then -(2.0 * t.pi) else 2.0 * t.pi, Pow2(j) as real);
    assert Pow2(j + 1) as real == 2.0 * Pow2(j) as real;
  }

  lemma HalfAngle(x: real, p: real)
    requires p > 0.0
    ensures x / (2.0 * p) + x / (2.0 * p) == x / p
  {
    var y := x / (2.0 * p);
    assert y * (2.0 * p) == x;
    assert (y + y) * p == x;
  }

  lemma RootConj(t: Trig, j: nat)
    requires Lawful(t)
    ensures Root(t, true, j) == Conj(Root(t, false, j))
    ensures Root(t, false, j) == Conj(Root(t, true, j))
  {
    var a := DeltaAngle(t, false, j);
    assert AngleLaws(t, a);
    NegDiv(2.0 * t.pi, Pow2(j) as real);
    assert DeltaAngle(t, true, j) == -a;
  }

  lemma NegDiv(x: real, p: real)
    requires p > 0.0
    ensures (-x) / p == -(x / p)
  {
    assert -(x / p) * p == -x;
  }

  lemma {:induction false} RootIsRoot(t: Trig, inverse: bool, k: nat)
    requires Lawful(t)
    ensures RootOfUnity(Root(t, inverse, k), k)
  {
    if k <= 1 {
      FirstRoots(t, inverse);
    } else {
      hide Mul;
      RootIsRoot(t, inverse, k - 1);
      RootSquared(t, inverse, k - 1);
      UnitLength(t, DeltaAngle(t, inverse, k));
    }
  }

  lemma UnitLength(t: Trig, a: real)
    requires Lawful(t)
    ensures var w := C(t.cos(a), t.sin(a)); Mul(w, Conj(w)) == One
  {
    assert AngleLaws(t, a);
  }

  lemma FirstRoots(t: Trig, inverse: bool)
    requires Lawful(t)
    ensures Root(t, inverse, 1) == Neg(One)
    ensures Root(t, inverse, 0) == One
  {
    hide *;
    HalfCircle(t, inverse);
    RootSquared(t, inverse, 0);
    ConjUnits();
  }

  lemma HalfCircle(t: Trig, inverse: bool)
    requires Lawful(t)
    ensures Root(t, inverse, 1) == Neg(One)
  {
    hide Lawful, DeltaAngle;
    FirstAngle(t, inverse);
  }

  lemma FirstAngle(t: Trig, inverse: bool)
    requires Lawful(t)
    ensures var a := DeltaAngle(t, inverse, 1); t.cos(a) == -1.0 && t.sin(a) == 0.0
  {
    assert AngleLaws(t, t.pi);
    assert Pow2(1) == 2;
  }

  // ----- the stages on sequences

  // What the buffer holds once every block of size 2^j has been transformed: the transforms of
  // the subsequences obtained by splitting x into even and odd positions k-j times.
  function Blocks(t: Trig, inverse: bool, x: seq<Complex>, k: nat, j: nat): (r: seq<Complex>)
    requires |x| == Pow2(k) && j <= k
    ensures |r| == |x|
    decreases k
  {
    if j == k then DftSeq(x, Root(t, inverse, k))
    else Blocks(t, inverse, Evens(x), k - 1, j) + Blocks(t, inverse, Odds(x), k - 1, j)
  }

  // One pass of butterflies over all blocks of size 2^(j+1)
  function Stage(a: seq<Complex>, k: nat, j: nat, w: Complex): (r: seq<Complex>)
    requires |a| == Pow2(k) && j < k
    ensures |r| == |a|
    decreases k
  {
    if k == j + 1 then Butterfly(a, Pow2(j), w)
    else
      var h := Pow2(k - 1);
      Stage(a[..h], k - 1, j, w) + Stage(a[h..], k - 1, j, w)
  }

  lemma {:induction false} StageAdvances(t: Trig, inverse: bool, x: seq<Complex>, k: nat, j: nat)
    requires Lawful(t)
    requires |x| == Pow2(k) && j < k
    ensures Stage(Blocks(t, inverse, x, k, j), k, j, Root(t, inverse, j + 1)) == Blocks(t, inverse, x, k, j + 1)
    decreases k
  {
    hide Mul, Add, Sub, Pow, Root, RootOfUnity, Butterfly, DftSeq, Lawful;
    var a := Blocks(t, inverse, x, k, j);
    if k == j + 1 {
      RootIsRoot(t, inverse, k);
      RootSquared(t, inverse, j);
      ButterflyIsDft(x, k, Root(t, inverse, k));
    } else {
      var h := Pow2(k - 1);
      assert a[..h] == Blocks(t, inverse, Evens(x), k - 1, j);
      assert a[h..] == Blocks(t, inverse, Odds(x), k - 1, j);
      StageAdvances(t, inverse, Evens(x), k - 1, j);
      StageAdvances(t, inverse, Odds(x), k - 1, j);
    }
  }

  // The bit-reversed copy is where the stages start.
  lemma {:induction false} ReversedCopyIsBlocks(t: Trig, inverse: bool, x: seq<Complex>, k: nat, i: nat)
    requires |x| == Pow2(k) && i < |x|
    ensures Blocks(t, inverse, x, k, 0)[Reversal(i, k)] == x[i]
    decreases k
  {
    hide Mul, Add, Sub, Pow, Root, DftSeq, DftAt, Evens, Odds, Reversal, Blocks;
    if k == 0 {
      ReversedCopyOfOne(t, inverse, x);
    } else {
      ReversalStep(i, k);
      BlocksSplit(t, inverse, x, k, 0);
      if i % 2 == 0 {
        ReversedCopyIsBlocks(t, inverse, Evens(x), k - 1, i / 2);
      } else {
        ReversedCopyIsBlocks(t, inverse, Odds(x), k - 1, i / 2);
      }
    }
  }

  lemma ReversedCopyOfOne(t: Trig, inverse: bool, x: seq<Complex>)
    requires |x| == 1
    ensures Blocks(t, inverse, x, 0, 0)[Reversal(0, 0)] == x[0]
  {
    hide DftSeq, Root;
    SingletonDft(x, Root(t, inverse, 0));
  }

  lemma BlocksSplit(t: Trig, inverse: bool, x: seq<Complex>, k: nat, j: nat)
    requires |x| == Pow2(k) && j < k
    ensures |Evens(x)| == |Odds(x)| == Pow2(k - 1)
    ensures Blocks(t, inverse, x, k, j) ==
            Blocks(t, inverse, Evens(x), k - 1, j) + Blocks(t, inverse, Odds(x), k - 1, j)
  {
    hide DftSeq, Root;
  }

  // i is the start of a block of size 2^(j+1) in a buffer of size 2^k.
  ghost predicate Aligned(i: int, k: nat, j: nat)
    requires j < k
    decreases k
  {
    if k == j + 1 then i == 0
    else Aligned(if i < Pow2(k - 1) then i else i - Pow2(k - 1), k - 1, j)
  }

  lemma {:induction false} AlignedZero(k: nat, j: nat)
    requires j < k
    ensures Aligned(0, k, j)
    decreases k
  {
    if k > j + 1 {
      AlignedZero(k - 1, j);
    }
  }

  lemma {:induction false} AlignedNext(i: int, k: nat, j: nat)
    requires j < k && Aligned(i, k, j)
    ensures 0 <= i && i + Pow2(j + 1) <= Pow2(k)
    ensures i + Pow2(j + 1) < Pow2(k) ==> Aligned(i + Pow2(j + 1), k, j)
    decreases k
  {
    if k > j + 1 {
      AlignedNext(if i < Pow2(k - 1) then i else i - Pow2(k - 1), k - 1, j);
      AlignedZero(k - 1, j);
    }
  }

  // A block of a stage is one butterfly of the same block of the input.
  lemma {:induction false} StageBlock(a: seq<Complex>, k: nat, j: nat, w: Complex, i: nat)
    requires |a| == Pow2(k) && j < k && Aligned(i, k, j)
    ensures i + Pow2(j + 1) <= |a|
    ensures Stage(a, k, j, w)[i..i + Pow2(j + 1)] == Butterfly(a[i..i + Pow2(j + 1)], Pow2(j), w)
    decreases k
  {
    hide Butterfly, Stage, Mul, Add, Sub, Pow;
    AlignedNext(i, k, j);
    if k == j + 1 {
      StageBlockOnly(a, j, w);
    } else if i < Pow2(k - 1) {
      StageBlock(a[..Pow2(k - 1)], k - 1, j, w, i);
      StageBlockLow(a, k, j, w, i);
    } else {
      StageBlock(a[Pow2(k - 1)..], k - 1, j, w, i - Pow2(k - 1));
      StageBlockHigh(a, k, j, w, i - Pow2(k - 1));
    }
  }

  lemma StageBlockOnly(a: seq<Complex>, j: nat, w: Complex)
    requires |a| == Pow2(j + 1)
    ensures Stage(a, j + 1, j, w)[0..Pow2(j + 1)] == Butterfly(a[0..Pow2(j + 1)], Pow2(j), w)
  {
    hide Butterfly;
    assert a[0..Pow2(j + 1)] == a;
  }

  lemma StageBlockLow(a: seq<Complex>, k: nat, j: nat, w: Complex, i: nat)
    requires |a| == Pow2(k) && j + 1 < k && i + Pow2(j + 1) <= Pow2(k - 1)
    ensures Stage(a, k, j, w)[i..i + Pow2(j + 1)] == Stage(a[..Pow2(k - 1)], k - 1, j, w)[i..i + Pow2(j + 1)]
    ensures a[i..i + Pow2(j + 1)] == a[..Pow2(k - 1)][i..i + Pow2(j + 1)]
  {
    hide Butterfly;
    var h, s := Pow2(k - 1), Pow2(j + 1);
    SliceLow(Stage(a[..h], k - 1, j, w), Stage(a[h..], k - 1, j, w), i, s);
  }

  lemma StageBlockHigh(a: seq<Complex>, k: nat, j: nat, w: Complex, i: nat)
    requires |a| == Pow2(k) && j + 1 < k && i + Pow2(j + 1) <= Pow2(k - 1)
    ensures var h, s := Pow2(k - 1), Pow2(j + 1);
            Stage(a, k, j, w)[h + i..h + i + s] == Stage(a[h..], k - 1, j, w)[i..i + s]
    ensures var h, s := Pow2(k - 1), Pow2(j + 1);
            a[h + i..h + i + s] == a[h..][i..i + s]
  {
    hide Stage;
    var h, s := Pow2(k - 1), Pow2(j + 1);
    StageSplit(a, k, j, w);
    SliceHigh(Stage(a[..h], k - 1, j, w), Stage(a[h..], k - 1, j, w), i, s);
    SliceHigh(a[..h], a[h..], i, s);
    assert a == a[..h] + a[h..];
  }

  lemma StageSplit(a: seq<Complex>, k: nat, j: nat, w: Complex)
    requires |a| == Pow2(k) && j + 1 < k
    ensures var h := Pow2(k - 1);
            |a| == 2 * h && Stage(a, k, j, w) == Stage(a[..h], k - 1, j, w) + Stage(a[h..], k - 1, j, w)
  {
    hide Butterfly;
  }

  lemma SliceLow(a: seq<Complex>, b: seq<Complex>, i: nat, s: nat)
    requires i + s <= |a|
    ensures (a + b)[i..i + s] == a[i..i + s]
  {
  }

  lemma SliceHigh(a: seq<Complex>, b: seq<Complex>, i: nat, s: nat)
    requires i + s <= |b|
    ensures (a + b)[|a| + i..|a| + i + s] == b[i..i + s]
  {
  }

  // ----- the result of a call

  function Transform(t: Trig, inverse: bool, x: seq<Complex>, k: nat): (r: seq<Complex>)
    requires |x| == Pow2(k)
    ensures |r| == |x|
  {
    var X := DftSeq(x, Root(t, inverse, k));
    if inverse then seq(|X|, m requires 0 <= m < |X| => Scale(1.0 / Pow2(k) as real, X[m])) else X
  }

  /** Entry m of the result, with the angle written out: +2*pi/N forward, -2*pi/N and the factor
      1/N for the inverse. */
  lemma TransformEntry(t: Trig, inverse: bool, x: seq<Complex>, k: nat, m: nat)
    requires Lawful(t)
    requires |x| == Pow2(k) && m < |x|
    ensures var a := 2.0 * t.pi / |x| as real;
            Transform(t, inverse, x, k)[m] ==
            if inverse then Scale(1.0 / |x| as real, DftAt(x, C(t.cos(-a), t.sin(-a)), m))
            else DftAt(x, C(t.cos(a), t.sin(a)), m)
  {
    hide DftAt, Scale, Lawful;
    NegDiv(2.0 * t.pi, Pow2(k) as real);
    DftSeqAt(x, Root(t, inverse, k), m);
  }

  // z turned by the angle b
  ghost function Turned(t: Trig, z: Complex, b: real): Complex {
    C(z.re * t.cos(b) - z.im * t.sin(b), z.re * t.sin(b) + z.im * t.cos(b))
  }

  /** The sum over the samples that the transform stands for, as trigonometry: sample i turned by
      the angle i*m*a. */
  ghost function TurnedSum(t: Trig, x: seq<Complex>, a: real, m: nat, n: nat): Complex
    requires n <= |x|
  {
    if n == 0 then Zero
    else Add(TurnedSum(t, x, a, m, n - 1), Turned(t, x[n - 1], Angle(n - 1, m, a)))
  }

  // i * m * a
  ghost function Angle(i: nat, m: nat, a: real): real {
    Times(i * m, a)
  }

  ghost function Times(n: nat, a: real): real {
    n as real * a
  }

  lemma {:induction false} DftIsTurnedSum(t: Trig, x: seq<Complex>, a: real, m: nat, n: nat)
    requires Lawful(t) && n <= |x|
    ensures PartialDft(x, C(t.cos(a), t.sin(a)), m, n) == TurnedSum(t, x, a, m, n)
  {
    if n > 0 {
      hide Lawful, Pow, Add, Mul, Turned, Angle;
      DftIsTurnedSum(t, x, a, m, n - 1);
      TurnedTerm(t, x[n - 1], a, n - 1, m);
    }
  }

  lemma TurnedTerm(t: Trig, z: Complex, a: real, i: nat, m: nat)
    requires Lawful(t)
    ensures Mul(z, Pow(C(t.cos(a), t.sin(a)), i * m)) == Turned(t, z, Angle(i, m, a))
  {
    hide Lawful, Pow, Mul, Turned, Times;
    var e := i * m;
    DeMoivre(t, a, e);
    TurnedIsMul(t, z, Angle(i, m, a));
  }

  lemma TurnedIsMul(t: Trig, z: Complex, b: real)
    ensures Turned(t, z, b) == Mul(z, C(t.cos(b), t.sin(b)))
  {
  }

  // Powers of a point on the unit circle turn by multiples of its angle.
  lemma {:induction false} DeMoivre(t: Trig, a: real, n: nat)
    requires Lawful(t)
    ensures Pow(C(t.cos(a), t.sin(a)), n) == C(t.cos(Times(n, a)), t.sin(Times(n, a)))
  {
    if n == 0 {
      ZeroAngle(t);
      assert Times(0, a) == 0.0;
    } else {
      hide Lawful, Mul;
      DeMoivre(t, a, n - 1);
      AddAngles(t, a, Times(n - 1, a));
      assert a + Times(n - 1, a) == Times(n, a);
    }
  }

  lemma AddAngles(t: Trig, a: real, b: real)
    requires Lawful(t)
    ensures Mul(C(t.cos(a), t.sin(a)), C(t.cos(b), t.sin(b))) == C(t.cos(a + b), t.sin(a + b))
  {
    assert AngleSum(t, a, b);
  }

  lemma ZeroAngle(t: Trig)
    requires Lawful(t)
    ensures t.cos(0.0) == 1.0 && t.sin(0.0) == 0.0
  {
    assert AngleLaws(t, t.pi);
    assert AngleSum(t, t.pi, -t.pi);
    assert t.pi + -t.pi == 0.0;
  }

  /** A unit impulse at index p, forward: entry m is the point at angle 2*pi*p*m/N.  In
      particular the impulse at index 1 traces the circle once, counter-clockwise. */
  lemma ImpulseResponse(t: Trig, x: seq<Complex>, k: nat, p: nat, m: nat)
    requires Lawful(t)
    requires |x| == Pow2(k) && p < |x| && m < |x|
    requires forall i :: 0 <= i < |x| ==> x[i] == if i == p then One else Zero
    ensures var b := Angle(p, m, 2.0 * t.pi / |x| as real);
            Transform(t, false, x, k)[m] == C(t.cos(b), t.sin(b))
  {
    hide Lawful, Transform, DftAt, TurnedSum, Turned, Angle;
    var a := 2.0 * t.pi / |x| as real;
    TransformEntry(t, false, x, k, m);
    ImpulseDft(t, x, a, p, m);
    TurnedUnits(t, Angle(p, m, a));
  }

  lemma ImpulseDft(t: Trig, x: seq<Complex>, a: real, p: nat, m: nat)
    requires Lawful(t) && p < |x|
    requires forall i :: 0 <= i < |x| ==> x[i] == if i == p then One else Zero
    ensures DftAt(x, C(t.cos(a), t.sin(a)), m) == Turned(t, One, Angle(p, m, a))
  {
    hide Lawful, PartialDft, TurnedSum, Turned, Angle;
    DftIsTurnedSum(t, x, a, m, |x|);
    ImpulseSum(t, x, a, p, m, |x|);
  }

  lemma {:induction false} ImpulseSum(t: Trig, x: seq<Complex>, a: real, p: nat, m: nat, n: nat)
    requires n <= |x|
    requires forall i :: 0 <= i < |x| ==> x[i] == if i == p then One else Zero
    ensures TurnedSum(t, x, a, m, n) == if p < n then Turned(t, One, Angle(p, m, a)) else Zero
  {
    if n > 0 {
      hide Turned, Angle, Add;
      ImpulseSum(t, x, a, p, m, n - 1);
      TurnedUnits(t, Angle(n - 1, m, a));
      AddZero(TurnedSum(t, x, a, m, n - 1));
      AddZero(Turned(t, One, Angle(n - 1, m, a)));
    }
  }

  lemma AddZero(a: Complex)
    ensures Add(Zero, a) == a == Add(a, Zero)
  {
  }

  lemma TurnedUnits(t: Trig, b: real)
    ensures Turned(t, One, b) == C(t.cos(b), t.sin(b))
    ensures Turned(t, Zero, b) == Zero
  {
  }

  // Inverse after forward, and forward after inverse, is the identity.
  lemma RoundTrip(t: Trig, inverse: bool, x: seq<Complex>, k: nat)
    requires Lawful(t)
    requires |x| == Pow2(k)
    ensures Transform(t, !inverse, Transform(t, inverse, x, k), k) == x
  {
    hide Mul, Add, Root, RootOfUnity, Conj, DftSeq, Scale;
    var w, r := Root(t, inverse, k), 1.0 / Pow2(k) as real;
    var X := DftSeq(x, w);
    RootIsRoot(t, inverse, k);
    RootConj(t, k);
    forall n | 0 <= n < |x|
      ensures Transform(t, !inverse, Transform(t, inverse, x, k), k)[n] == x[n]
    {
      BackwardAfterForward(x, k, w, n);
      ScaleBack(Pow2(k) as real, x[n]);
      if inverse {
        var Y := Transform(t, inverse, x, k);
        DftSeqAt(Y, Conj(w), n);
        DftOfScaled(X, Y, r, Conj(w), n);
      } else {
        DftSeqAt(X, Conj(w), n);
      }
    }
  }

  lemma ScaleBack(p: real, a: Complex)
    requires p > 0.0
    ensures Scale(1.0 / p, Scale(p, a)) == a
  {
    var q := 1.0 / p;
    assert q * p == 1.0;
    assert q * (p * a.re) == (q * p) * a.re;
    assert q * (p * a.im) == (q * p) * a.im;
  }

  lemma DftOfScaled(x: seq<Complex>, y: seq<Complex>, r: real, w: Complex, m: nat)
    requires |x| == |y|
    requires forall i :: 0 <= i < |x| ==> y[i] == Scale(r, x[i])
    ensures DftAt(y, w, m) == Scale(r, DftAt(x, w, m))
  {
    DftIsEval(x, w, m);
    DftIsEval(y, w, m);
    EvalScaled(x, y, r, Pow(w, m));
  }

  lemma {:induction false} EvalScaled(x: seq<Complex>, y: seq<Complex>, r: real, z: Complex)
    requires |x| == |y|
    requires forall i :: 0 <= i < |x| ==> y[i] == Scale(r, x[i])
    ensures Eval(y, z) == Scale(r, Eval(x, z))
  {
    hide Mul, Add, Scale;
    if x == [] {
      ScaleZero(r);
    } else {
      EvalScaled(x[1..], y[1..], r, z);
      ScaledStep(r, x[0], z, Eval(x[1..], z));
    }
  }

  lemma ScaleZero(r: real)
    ensures Scale(r, Zero) == Zero
  {
  }

  lemma ScaledStep(r: real, a: Complex, z: Complex, e: Complex)
    ensures Add(Scale(r, a), Mul(z, Scale(r, e))) == Scale(r, Add(a, Mul(z, e)))
  {
    var p := Mul(z, e);
    assert Mul(z, Scale(r, e)) == Scale(r, p) by {
      assert z.re * (r * e.re) - z.im * (r * e.im) == r * (z.re * e.re - z.im * e.im);
      assert z.re * (r * e.im) + z.im * (r * e.re) == r * (z.re * e.im + z.im * e.re);
    }
  }
}
