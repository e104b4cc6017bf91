/** `fft_float` itself: the loops that work in place on the two output arrays. */
module FftFloat {
  import opened Complex
  import opened Dft
  import opened FourierMisc
  import opened Fourier

  // The first n entries of a pair of arrays, as complex numbers
  function Signal(re: array<real>, im: array<real>, n: nat): (s: seq<Complex>)
    requires n <= re.Length && n <= im.Length
    reads re, im
    ensures |s| == n
  {
    seq(n, i requires 0 <= i < n reads re, im => C(re[i], im[i]))
  }

  // A missing imaginary part counts as zero.
  function Input(re: array<real>, im: array?<real>, n: nat): (s: seq<Complex>)
    requires n <= re.Length && (im != null ==> n <= im.Length)
    reads re, im
    ensures |s| == n
  {
    seq(n, i requires 0 <= i < n reads re, im => C(re[i], if im == null then 0.0 else im[i]))
  }

  ghost predicate Buffers(n: nat, re: array<real>, im: array<real>) {
    re != im && n <= re.Length && n <= im.Length
  }

  method CopyReversed(trig: Trig, inverse: bool, numSamples: nat, ghost k: nat, numBits: nat,
                      realIn: array<real>, imagIn: array?<real>, realOut: array<real>, imagOut: array<real>)
    requires numSamples == Pow2(k) && numBits == k
    requires Buffers(numSamples, realOut, imagOut) && numSamples <= realIn.Length
    requires imagIn != null ==> numSamples <= imagIn.Length
    requires realIn != realOut && realIn != imagOut && imagIn != realOut && imagIn != imagOut
    modifies realOut, imagOut
    ensures Signal(realOut, imagOut, numSamples) ==
            Blocks(trig, inverse, Input(realIn, imagIn, numSamples), k, 0)
  {
    hide Blocks, Root, Reversal, Pow2;
    ghost var x := Input(realIn, imagIn, numSamples);
    for i := 0 to numSamples
      invariant Input(realIn, imagIn, numSamples) == x
      invariant forall h :: 0 <= h < i ==>
                  C(realOut[Reversal(h, k)], imagOut[Reversal(h, k)]) == x[h]
    {
      var j := ReverseBits(i, numBits);
      forall h | 0 <= h < i
        ensures Reversal(h, k) != j
      {
        ReversalInvolution(h, k);
        ReversalInvolution(i, k);
      }
      realOut[j] := realIn[i];
      imagOut[j] := if imagIn == null then 0.0 else imagIn[i];
    }
    forall p | 0 <= p < numSamples
      ensures Signal(realOut, imagOut, numSamples)[p] == Blocks(trig, inverse, x, k, 0)[p]
    {
      ReversalInvolution(p, k);
      ReversedCopyIsBlocks(trig, inverse, x, k, Reversal(p, k));
    }
  }

  // The three-term recurrence turns the twiddle factor by one step.
  lemma TwiddleStep(w: Complex, p: Complex, a1: Complex, a2: Complex)
    requires Mul(w, Conj(w)) == One
    requires a1 == Mul(Conj(w), p) && a2 == Mul(Conj(w), a1)
    ensures C(2.0 * w.re * a1.re - a2.re, 2.0 * w.re * a1.im - a2.im) == p
    ensures p == Mul(Conj(w), Mul(w, p))
  {
    RecurrenceIsTurn(w, a1);
    TurnBack(w, p);
  }

  lemma RecurrenceIsTurn(w: Complex, a: Complex)
    ensures var b := Mul(Conj(w), a);
            C(2.0 * w.re * a.re - b.re, 2.0 * w.re * a.im - b.im) == Mul(w, a)
  {
  }

  lemma TurnBack(w: Complex, p: Complex)
    requires Mul(w, Conj(w)) == One
    ensures Mul(w, Mul(Conj(w), p)) == p == Mul(Conj(w), Mul(w, p))
  {
    hide *;
    MulAssoc(w, Conj(w), p);
    MulAssoc(Conj(w), w, p);
    MulComm(w, Conj(w));
    MulOne(p);
  }

  // Entry p of the buffer after n butterflies of the block at i
  ghost function Mixed(orig: seq<Complex>, i: nat, h: nat, w: Complex, n: nat, p: nat): Complex
    requires p < |orig| && i + 2 * h <= |orig| && n <= h
  {
    if i <= p < i + n then Add(orig[p], Mul(Pow(w, p - i), orig[p + h]))
    else if i + h <= p < i + h + n then Sub(orig[p - h], Mul(Pow(w, p - h - i), orig[p]))
    else orig[p]
  }

  method ButterflyBlock(realOut: array<real>, imagOut: array<real>, ghost numSamples: nat, ghost w: Complex,
                        i: nat, blockEnd: nat, cm1: real, sm1: real, cm2: real, sm2: real)
    requires Buffers(numSamples, realOut, imagOut) && i + 2 * blockEnd <= numSamples
    requires Mul(w, Conj(w)) == One
    requires C(cm1, sm1) == Conj(w) && C(cm2, sm2) == Mul(Conj(w), Conj(w))
    modifies realOut, imagOut
    ensures forall p :: 0 <= p < numSamples ==>
              C(realOut[p], imagOut[p]) ==
              Mixed(old(Signal(realOut, imagOut, numSamples)), i, blockEnd, w, blockEnd, p)
    ensures forall p :: 0 <= p < numSamples && !(i <= p < i + 2 * blockEnd) ==>
              C(realOut[p], imagOut[p]) == old(Signal(realOut, imagOut, numSamples))[p]
  {
    hide Mul, Add, Sub, Pow, Mixed;
    ghost var orig := Signal(realOut, imagOut, numSamples);
    MixedStart(orig, i, blockEnd, w);
    var twice := 2.0 * cm1;
    var ar2, ar1 := cm2, cm1;
    var ai2, ai1 := sm2, sm1;
    StartOfPowers(w);
    for n := 0 to blockEnd
      invariant C(ar1, ai1) == Mul(Conj(w), Pow(w, n))
      invariant C(ar2, ai2) == Mul(Conj(w), C(ar1, ai1))
      invariant forall p :: 0 <= p < numSamples ==>
                  C(realOut[p], imagOut[p]) == Mixed(orig, i, blockEnd, w, n, p)
    {
      var j := i + n;
      MixedNext(orig, i, blockEnd, w, n);
      TwiddleStep(w, Pow(w, n), C(ar1, ai1), C(ar2, ai2));
      NextPower(w, n);
      var ar0 := twice * ar1 - ar2;
      ar2, ar1 := ar1, ar0;
      var ai0 := twice * ai1 - ai2;
      ai2, ai1 := ai1, ai0;
      assert C(ar0, ai0) == Pow(w, n);
      var k := j + blockEnd;
      assert C(realOut[k], imagOut[k]) == orig[k] && C(realOut[j], imagOut[j]) == orig[j];
      var tr := ar0 * realOut[k] - ai0 * imagOut[k];
      var ti := ar0 * imagOut[k] + ai0 * realOut[k];
      ButterflyParts(Pow(w, n), orig[j], orig[k], tr, ti);
      realOut[k] := realOut[j] - tr;
      imagOut[k] := imagOut[j] - ti;
      realOut[j] := realOut[j] + tr;
      imagOut[j] := imagOut[j] + ti;
    }
    MixedStays(orig, i, blockEnd, w);
  }

  lemma MixedStart(orig: seq<Complex>, i: nat, h: nat, w: Complex)
    requires i + 2 * h <= |orig|
    ensures forall p :: 0 <= p < |orig| ==> Mixed(orig, i, h, w, 0, p) == orig[p]
  {
    hide Mul, Add, Sub, Pow;
  }

  lemma MixedStays(orig: seq<Complex>, i: nat, h: nat, w: Complex)
    requires i + 2 * h <= |orig|
    ensures forall p :: 0 <= p < |orig| && !(i <= p < i + 2 * h) ==> Mixed(orig, i, h, w, h, p) == orig[p]
  {
    hide Mul, Add, Sub, Pow;
  }

  // One butterfly changes two entries that were as before.
  lemma MixedNext(orig: seq<Complex>, i: nat, h: nat, w: Complex, n: nat)
    requires i + 2 * h <= |orig| && n < h
    ensures Mixed(orig, i, h, w, n, i + n) == orig[i + n]
    ensures Mixed(orig, i, h, w, n, i + n + h) == orig[i + n + h]
    ensures Mixed(orig, i, h, w, n + 1, i + n) == Add(orig[i + n], Mul(Pow(w, n), orig[i + n + h]))
    ensures Mixed(orig, i, h, w, n + 1, i + n + h) == Sub(orig[i + n], Mul(Pow(w, n), orig[i + n + h]))
    ensures forall p :: 0 <= p < |orig| && p != i + n && p != i + n + h ==>
              Mixed(orig, i, h, w, n + 1, p) == Mixed(orig, i, h, w, n, p)
  {
    hide Mul, Add, Sub, Pow;
  }

  lemma StartOfPowers(w: Complex)
    ensures Conj(w) == Mul(Conj(w), Pow(w, 0))
  {
    MulOne(Conj(w));
  }

  lemma NextPower(w: Complex, n: nat)
    ensures Pow(w, n + 1) == Mul(w, Pow(w, n))
  {
  }

  lemma ButterflyParts(p: Complex, a: Complex, b: Complex, tr: real, ti: real)
    requires tr == p.re * b.re - p.im * b.im && ti == p.re * b.im + p.im * b.re
    ensures C(a.re - tr, a.im - ti) == Sub(a, Mul(p, b))
    ensures C(a.re + tr, a.im + ti) == Add(a, Mul(p, b))
  {
  }

  // The sines and cosines that start the recurrence
  lemma StageAngles(t: Trig, inverse: bool, j: nat)
    requires Lawful(t)
    ensures var a, w := DeltaAngle(t, inverse, j), Root(t, inverse, j);
            && Mul(w, Conj(w)) == One
            && C(t.cos(-a), t.sin(-a)) == Conj(w)
            && C(t.cos(-2.0 * a), t.sin(-2.0 * a)) == Mul(Conj(w), Conj(w))
  {
    var a := DeltaAngle(t, inverse, j);
    UnitLength(t, a);
    assert AngleLaws(t, a);
    assert AngleSum(t, -a, -a);
    assert -a + -a == -2.0 * a;
  }

  lemma RootWritten(t: Trig, inverse: bool, j: nat)
    ensures var a := 2.0 * t.pi / Pow2(j) as real;
            Root(t, inverse, j) == if inverse then C(t.cos(-a), t.sin(-a)) else C(t.cos(a), t.sin(a))
  {
    NegDiv(2.0 * t.pi, Pow2(j) as real);
  }

  // One value of BlockSize: all blocks of size 2^(j+1)
  method RunStage(trig: Trig, inverse: bool, numSamples: nat, ghost k: nat, ghost j: nat,
                  blockSize: nat, blockEnd: nat, realOut: array<real>, imagOut: array<real>)
    requires Lawful(trig)
    requires numSamples == Pow2(k) && j < k && blockSize == Pow2(j + 1) && blockEnd == Pow2(j)
    requires Buffers(numSamples, realOut, imagOut)
    modifies realOut, imagOut
    ensures Signal(realOut, imagOut, numSamples) ==
            var a := 2.0 * trig.pi / blockSize as real;
            var w := if inverse then C(trig.cos(-a), trig.sin(-a)) else C(trig.cos(a), trig.sin(a));
            Stage(old(Signal(realOut, imagOut, numSamples)), k, j, w)
  {
    hide Mul, Conj, Lawful, Root, Stage;
    var deltaAngle := (if inverse then -(2.0 * trig.pi) else 2.0 * trig.pi) / blockSize as real;
    StageAngles(trig, inverse, j + 1);
    RootWritten(trig, inverse, j + 1);
    var sm2, sm1 := trig.sin(-2.0 * deltaAngle), trig.sin(-deltaAngle);
    var cm2, cm1 := trig.cos(-2.0 * deltaAngle), trig.cos(-deltaAngle);
    RunBlocks(numSamples, k, j, Root(trig, inverse, j + 1), blockSize, blockEnd, cm1, sm1, cm2, sm2, realOut, imagOut);
  }

  method RunBlocks(numSamples: nat, ghost k: nat, ghost j: nat, ghost w: Complex, blockSize: nat, blockEnd: nat,
                   cm1: real, sm1: real, cm2: real, sm2: real, realOut: array<real>, imagOut: array<real>)
    requires numSamples == Pow2(k) && j < k && blockSize == Pow2(j + 1) && blockEnd == Pow2(j)
    requires Mul(w, Conj(w)) == One
    requires C(cm1, sm1) == Conj(w) && C(cm2, sm2) == Mul(Conj(w), Conj(w))
    requires Buffers(numSamples, realOut, imagOut)
    modifies realOut, imagOut
    ensures Signal(realOut, imagOut, numSamples) == Stage(old(Signal(realOut, imagOut, numSamples)), k, j, w)
  {
    hide Mul, Add, Sub, Pow, Conj, Stage, Aligned, Mixed;
    ghost var orig := Signal(realOut, imagOut, numSamples);
    ghost var done := Stage(orig, k, j, w);
    var i := 0;
    AlignedZero(k, j);
    while i < numSamples
      invariant 0 <= i <= numSamples
      invariant i < numSamples ==> Aligned(i, k, j)
      invariant forall p :: 0 <= p < i ==> C(realOut[p], imagOut[p]) == done[p]
      invariant forall p :: i <= p < numSamples ==> C(realOut[p], imagOut[p]) == orig[p]
    {
      AlignedNext(i, k, j);
      ghost var mid := Signal(realOut, imagOut, numSamples);
      ButterflyBlock(realOut, imagOut, numSamples, w, i, blockEnd, cm1, sm1, cm2, sm2);
      forall p | i <= p < i + blockSize
        ensures C(realOut[p], imagOut[p]) == done[p]
      {
        MixedIsStage(orig, mid, k, j, w, i, p);
      }
      i := i + blockSize;
    }
  }

  lemma MixedIsStage(orig: seq<Complex>, mid: seq<Complex>, k: nat, j: nat, w: Complex, i: nat, p: nat)
    requires |orig| == |mid| == Pow2(k) && j < k && Aligned(i, k, j)
    requires i <= p < i + Pow2(j + 1) <= |orig|
    requires forall q :: i <= q < |orig| ==> mid[q] == orig[q]
    ensures Mixed(mid, i, Pow2(j), w, Pow2(j), p) == Stage(orig, k, j, w)[p]
  {
    hide Mul, Add, Sub, Pow, Stage, Aligned, Butterfly, Mixed;
    StageBlock(orig, k, j, w, i);
    assert mid[i..i + Pow2(j + 1)] == orig[i..i + Pow2(j + 1)];
    MixedIsButterfly(mid, i, Pow2(j), w, p);
    SliceEntry(Stage(orig, k, j, w), i, Pow2(j + 1), p);
  }

  lemma MixedIsButterfly(orig: seq<Complex>, i: nat, h: nat, w: Complex, p: nat)
    requires i <= p < i + 2 * h <= |orig|
    ensures Mixed(orig, i, h, w, h, p) == Butterfly(orig[i..i + 2 * h], h, w)[p - i]
  {
    hide Mul, Add, Sub, Pow;
  }

  lemma SliceEntry(a: seq<Complex>, i: nat, s: nat, p: nat)
    requires i <= p < i + s <= |a|
    ensures a[i..i + s][p - i] == a[p]
  {
  }

  method Normalize(numSamples: nat, realOut: array<real>, imagOut: array<real>)
    requires Buffers(numSamples, realOut, imagOut) && numSamples > 0
    modifies realOut, imagOut
    ensures forall p :: 0 <= p < numSamples ==>
              C(realOut[p], imagOut[p]) ==
              Scale(1.0 / numSamples as real, old(Signal(realOut, imagOut, numSamples))[p])
  {
    hide Scale;
    ghost var orig := Signal(realOut, imagOut, numSamples);
    var denom := numSamples as real;
    for i := 0 to numSamples
      invariant forall p :: 0 <= p < i ==> C(realOut[p], imagOut[p]) == Scale(1.0 / denom, orig[p])
      invariant forall p :: i <= p < numSamples ==> C(realOut[p], imagOut[p]) == orig[p]
    {
      Quotient(orig[i], denom);
      realOut[i] := realOut[i] / denom;
      imagOut[i] := imagOut[i] / denom;
    }
  }

  lemma Quotient(a: Complex, d: real)
    requires d > 0.0
    ensures C(a.re / d, a.im / d) == Scale(1.0 / d, a)
  {
  }

  // The checks that the source makes before it starts
  predicate Accepted(numSamples: nat, realIn: array?<real>, realOut: array?<real>, imagOut: array?<real>) {
    IsPowerOfTwo(numSamples) && realIn != null && realOut != null && imagOut != null
  }

  // BlockSize = 2, 4, 8, ... up to the number of samples
  method RunStages(trig: Trig, inverse: bool, numSamples: nat, ghost k: nat, ghost x: seq<Complex>,
                   realOut: array<real>, imagOut: array<real>)
    requires Lawful(trig)
    requires numSamples == Pow2(k) == |x|
    requires Buffers(numSamples, realOut, imagOut)
    requires Signal(realOut, imagOut, numSamples) == Blocks(trig, inverse, x, k, 0)
    modifies realOut, imagOut
    ensures Signal(realOut, imagOut, numSamples) == Blocks(trig, inverse, x, k, k)
  {
    hide Lawful, Root, Stage, Blocks, Signal;
    var blockEnd, blockSize := 1, 2;
    ghost var j := 0;
    while blockSize <= numSamples
      invariant j <= k && blockEnd == Pow2(j) && blockSize == Pow2(j + 1)
      invariant Signal(realOut, imagOut, numSamples) == Blocks(trig, inverse, x, k, j)
      decreases k - j
    {
      PowerOrder(k, j);
      RunStage(trig, inverse, numSamples, k, j, blockSize, blockEnd, realOut, imagOut);
      RootWritten(trig, inverse, j + 1);
      StageAdvances(trig, inverse, x, k, j);
      blockEnd := blockSize;
      blockSize := 2 * blockSize;
      j := j + 1;
    }
    PowerOrder(k, j);
  }

  /** out is the discrete Fourier transform of x: with a = 2*pi/N, entry m is the sum of
      x[i] * e^(i*m*a) forward, and the sum of x[i] * e^(-i*m*a) divided by N for the inverse. */
  ghost predicate IsDft(t: Trig, inverse: bool, x: seq<Complex>, out: seq<Complex>) {
    && |out| == |x| > 0
    && var n, a := |x| as real, 2.0 * t.pi / |x| as real;
       forall m :: 0 <= m < |x| ==>
         out[m] == if inverse then Scale(1.0 / n, DftAt(x, C(t.cos(-a), t.sin(-a)), m))
                   else DftAt(x, C(t.cos(a), t.sin(a)), m)
  }

  /** The whole call. `ok` is false where the source prints an error and exits: the number of
      samples is not 2, 4, 8, ... or a required array is missing. */
  method FftFloat(trig: Trig, numSamples: nat, inverseTransform: bool,
                  realIn: array?<real>, imagIn: array?<real>, realOut: array?<real>, imagOut: array?<real>)
    returns (ok: bool)
    requires Lawful(trig)
    requires Accepted(numSamples, realIn, realOut, imagOut) ==>
               && numSamples < 0x8000_0000  // BlockSize does not wrap round
               && Buffers(numSamples, realOut, imagOut)
               && numSamples <= realIn.Length && realIn != realOut && realIn != imagOut
               && (imagIn != null ==> numSamples <= imagIn.Length && imagIn != realOut && imagIn != imagOut)
    modifies realOut, imagOut
    ensures ok <==> Accepted(numSamples, realIn, realOut, imagOut)
    ensures !ok && realOut != null ==> realOut[..] == old(realOut[..])
    ensures !ok && imagOut != null ==> imagOut[..] == old(imagOut[..])
    ensures ok ==> exists k: nat :: k > 0 && numSamples == Pow2(k) &&
                     Signal(realOut, imagOut, numSamples) ==
                     Transform(trig, inverseTransform, old(Input(realIn, imagIn, numSamples)), k)
    ensures ok ==> IsDft(trig, inverseTransform, old(Input(realIn, imagIn, numSamples)),
                         Signal(realOut, imagOut, numSamples))
  {
    if !IsPowerOfTwo(numSamples) || realIn == null || realOut == null || imagOut == null {
      return false;
    }
    hide Lawful, Root, DftAt, DftSeq, Stage, IsDft;
    ghost var k := ExponentOf(numSamples);
    var numBits := NumberOfBitsNeeded(numSamples);
    ghost var x := Input(realIn, imagIn, numSamples);
    CopyReversed(trig, inverseTransform, numSamples, k, numBits.value, realIn, imagIn, realOut, imagOut);
    RunStages(trig, inverseTransform, numSamples, k, x, realOut, imagOut);
    if inverseTransform {
      Normalize(numSamples, realOut, imagOut);
    }
    assert Signal(realOut, imagOut, numSamples) == Transform(trig, inverseTransform, x, k);
    TransformIsDft(trig, inverseTransform, x, k);
    return true;
  }

  lemma TransformIsDft(t: Trig, inverse: bool, x: seq<Complex>, k: nat)
    requires Lawful(t) && |x| == Pow2(k)
    ensures IsDft(t, inverse, x, Transform(t, inverse, x, k))
  {
    hide Transform, Lawful, DftAt, Scale;
    forall m | 0 <= m < |x| {
      TransformEntry(t, inverse, x, k, m);
    }
  }

  lemma {:induction false} PowerOrder(k: nat, j: nat)
    ensures Pow2(j + 1) <= Pow2(k) <==> j < k
  {
    if k > 0 && j > 0 {
      PowerOrder(k - 1, j - 1);
    } else if k > 1 {
      PowerOrder(k - 1, 0);
    }
  }
}
