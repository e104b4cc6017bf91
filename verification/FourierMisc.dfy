/** Bit manipulation for the transform (fftmisc.c), over unbounded naturals.

    The bitwise `&` is a function on binary digits; a shift by one is doubling or halving. */
module FourierMisc {
  import opened Dft
  import opened Options

  function BitAnd(a: nat, b: nat): nat {
    if a == 0 || b == 0 then 0
    else 2 * BitAnd(a / 2, b / 2) + (if a % 2 == 1 && b % 2 == 1 then 1 else 0)
  }

  predicate IsPowerOfTwo(x: nat) {
    if x < 2 then false
    else if BitAnd(x, x - 1) != 0 then false
    else true
  }

  lemma {:induction false} BitAndSelf(a: nat)
    ensures BitAnd(a, a) == a
  {
    if a > 0 {
      BitAndSelf(a / 2);
    }
  }

  // The bit trick recognises exactly the powers 2, 4, 8, ...
  lemma {:induction false} IsPowerOfTwoCorrect(x: nat)
    ensures IsPowerOfTwo(x) <==> exists k: nat :: k > 0 && x == Pow2(k)
  {
    if IsPowerOfTwo(x) {
      var k := ExponentOf(x);
    }
    forall k: nat | k > 0 && x == Pow2(k)
      ensures IsPowerOfTwo(x)
    {
      PowerPassesTest(k);
    }
  }

  lemma {:induction false} ExponentOf(x: nat) returns (k: nat)
    requires IsPowerOfTwo(x)
    ensures k > 0 && x == Pow2(k)
  {
    if x == 2 {
      assert Pow2(1) == 2 * Pow2(0);
      return 1;
    }
    if x % 2 == 1 {
      assert (x - 1) / 2 == x / 2;
      BitAndSelf(x / 2);
      assert false;
    }
    assert (x - 1) / 2 == x / 2 - 1;
    k := ExponentOf(x / 2);
    k := k + 1;
  }

  lemma {:induction false} PowerPassesTest(k: nat)
    ensures BitAnd(Pow2(k), Pow2(k) - 1) == 0
    ensures k > 0 ==> Pow2(k) >= 2
  {
    if k > 0 {
      PowerPassesTest(k - 1);
      assert (Pow2(k) - 1) / 2 == Pow2(k - 1) - 1;
    }
  }

  // Testing bit i of a multiple of 2^i tests the parity of the factor.
  lemma {:induction false} BitAndPow2(i: nat, q: nat)
    ensures 0 <= Pow2(i) * q
    ensures BitAnd(Pow2(i) * q, Pow2(i)) != 0 <==> q % 2 == 1
    decreases i
  {
    if i == 0 {
      assert Pow2(0) == 1;
      assert BitAnd(q, 1) == q % 2;
    } else {
      BitAndPow2(i - 1, q);
      MulHalf(i, q);
      var x := Pow2(i - 1) * q;
      assert 2 * x / 2 == x && 2 * x % 2 == 0;
      assert BitAnd(2 * x, Pow2(i)) == 2 * BitAnd(x, Pow2(i - 1));
    }
  }

  lemma MulHalf(i: nat, q: nat)
    requires i > 0
    ensures Pow2(i) * q == 2 * (Pow2(i - 1) * q)
  {
  }

  // Position of the lowest one bit; the caller only passes powers of two.
  method NumberOfBitsNeeded(powerOfTwo: nat) returns (bits: Option<nat>)
    ensures bits.None? <==> powerOfTwo < 2
    ensures bits.Some? ==> exists q: nat :: q % 2 == 1 && powerOfTwo == Pow2(bits.value) * q
    ensures forall k: nat :: k > 0 && powerOfTwo == Pow2(k) ==> bits == Some(k)
  {
    if powerOfTwo < 2 {
      return None;
    }
    var i := 0;
    ghost var q := powerOfTwo;
    assert Pow2(0) == 1;
    BitAndPow2(0, q);
    while BitAnd(powerOfTwo, Pow2(i)) == 0
      invariant q > 0 && powerOfTwo == Pow2(i) * q
      invariant BitAnd(powerOfTwo, Pow2(i)) == 0 <==> q % 2 == 0
      decreases q
    {
      MulHalf(i + 1, q / 2);
      Double(Pow2(i), q);
      i, q := i + 1, q / 2;
      BitAndPow2(i, q);
    }
    forall k: nat | k > 0 && powerOfTwo == Pow2(k)
      ensures i == k
    {
      LowestBit(k, i, q);
    }
    return Some(i);
  }

  lemma Double(p: nat, q: nat)
    requires q % 2 == 0
    ensures p * q == 2 * (p * (q / 2))
  {
    assert q == 2 * (q / 2);
  }

  lemma {:induction false} LowestBit(k: nat, i: nat, q: nat)
    requires Pow2(k) == Pow2(i) * q && q % 2 == 1
    ensures i == k
  {
    if i > 0 {
      MulHalf(i, q);
      if k > 0 {
        LowestBit(k - 1, i - 1, q);
      }
    }
  }

  // ----- bit reversal

  // The lowest bit of i becomes bit k-1, the next one bit k-2, and so on.
  function Reversal(i: nat, k: nat): (r: nat)
    ensures r < Pow2(k)
  {
    if k == 0 then 0 else (if i % 2 == 0 then 0 else Pow2(k - 1)) + Reversal(i / 2, k - 1)
  }

  lemma ReversalStep(i: nat, k: nat)
    ensures k == 0 ==> Reversal(i, k) == 0
    ensures k > 0 ==> Reversal(i, k) == (if i % 2 == 0 then 0 else Pow2(k - 1)) + Reversal(i / 2, k - 1)
  {
  }

  lemma ShiftIn(rev: nat, p: nat, bit: nat)
    requires bit < 2
    ensures rev * (2 * p) + (if bit == 0 then 0 else p) == (2 * rev + bit) * p
  {
  }

  method ReverseBits(index: nat, numBits: nat) returns (rev: nat)
    ensures rev == Reversal(index, numBits)
  {
    var i, rest := 0, index;
    rev := 0;
    while i < numBits
      invariant i <= numBits
      invariant rev * Pow2(numBits - i) + Reversal(rest, numBits - i) == Reversal(index, numBits)
    {
      ShiftIn(rev, Pow2(numBits - i - 1), rest % 2);
      rev := 2 * rev + rest % 2;
      rest := rest / 2;
      i := i + 1;
    }
  }

  // Seen from the other end: the top bit of an index becomes the lowest bit of its reversal.
  lemma {:induction false} ReversalTopBit(top: bool, lo: nat, k: nat)
    requires k > 0 && lo < Pow2(k - 1)
    ensures Reversal(if top then Pow2(k - 1) + lo else lo, k) == 2 * Reversal(lo, k - 1) + (if top then 1 else 0)
  {
    hide Reversal;
    var i := if top then Pow2(k - 1) + lo else lo;
    ReversalStep(i, k);
    ReversalStep(lo, k - 1);
    if k == 1 {
      ReversalStep(i / 2, 0);
    } else {
      HalveBelowTop(top, lo, k);
      ReversalTopBit(top, lo / 2, k - 1);
    }
  }

  lemma HalveBelowTop(top: bool, lo: nat, k: nat)
    requires k > 1 && lo < Pow2(k - 1)
    ensures var i := if top then Pow2(k - 1) + lo else lo;
            i % 2 == lo % 2 && i / 2 == (if top then Pow2(k - 2) + lo / 2 else lo / 2) && lo / 2 < Pow2(k - 2)
  {
    assert Pow2(k - 1) == 2 * Pow2(k - 2);
  }

  // Reversing twice is the identity, so reversal permutes the indices.
  lemma {:induction false} ReversalInvolution(i: nat, k: nat)
    requires i < Pow2(k)
    ensures Reversal(Reversal(i, k), k) == i
  {
    hide Reversal;
    if k == 0 {
      ReversalStep(0, 0);
    } else {
      ReversalStep(i, k);
      ReversalInvolution(i / 2, k - 1);
      ReversalTopBit(i % 2 == 1, Reversal(i / 2, k - 1), k);
    }
  }
}
