/** How the parallel SUSAN divides a loop over 0..n-1 among P threads: equal blocks, the last
    thread also takes the remainder. */
module WorkShares {

  lemma ProductIsNat(a: nat, b: nat)
    ensures a * b >= 0
  {
  }

  function First(n: nat, P: nat, t: nat): (lo: nat)
    requires P > 0
  {
    ProductIsNat(n / P, t);
    n / P * t
  }

  function End(n: nat, P: nat, t: nat): (hi: nat)
    requires P > 0
  {
    ProductIsNat(n / P, t + 1);
    n / P * (t + 1) + if t + 1 == P && n % P != 0 then n % P else 0
  }

  // Blocks follow each other without a gap.
  lemma BlocksMeet(n: nat, P: nat, t: nat)
    requires t < P
    ensures First(n, P, 0) == 0
    ensures First(n, P, t) <= End(n, P, t)
    ensures t + 1 < P ==> End(n, P, t) == First(n, P, t + 1)
    ensures t + 1 == P ==> End(n, P, t) == n
  {
    var q := n / P;
    assert q * (t + 1) == q * t + q;
    assert q * P + n % P == n;
  }

  // Every thread gets n / P; the last one also gets what is left over, fewer than P.
  lemma BlockSizes(n: nat, P: nat, t: nat)
    requires t < P
    ensures End(n, P, t) - First(n, P, t) == n / P + if t == P - 1 then n - P * (n / P) else 0
    ensures 0 <= n - P * (n / P) < P
  {
    var q := n / P;
    assert q * (t + 1) == q * t + q;
    assert P * q + n % P == n;
  }

  lemma {:induction false} BlocksOrdered(n: nat, P: nat, t: nat, u: nat)
    requires t < u < P
    ensures End(n, P, t) <= First(n, P, u)
    decreases u
  {
    BlocksMeet(n, P, t);
    if t + 1 < u {
      BlocksOrdered(n, P, t, u - 1);
      BlocksMeet(n, P, u - 1);
    }
  }

  lemma {:induction false} BlockInRange(n: nat, P: nat, t: nat)
    requires t < P
    ensures End(n, P, t) <= n
  {
    BlocksMeet(n, P, t);
    if t + 1 < P {
      BlocksOrdered(n, P, t, P - 1);
      BlocksMeet(n, P, P - 1);
    }
  }

  predicate InBlock(n: nat, P: nat, t: nat, i: int)
    requires P > 0
  {
    First(n, P, t) <= i < End(n, P, t)
  }

  // The thread among the first m whose block holds i, or P
  function Finder(n: nat, P: nat, i: int, m: nat): (t: nat)
    requires P > 0 && m <= P
    ensures t == P || (t < m && InBlock(n, P, t, i))
  {
    if m == 0 then P else if InBlock(n, P, m - 1, i) then m - 1 else Finder(n, P, i, m - 1)
  }

  function BlockOf(n: nat, P: nat, i: int): nat
    requires P > 0
  {
    Finder(n, P, i, P)
  }

  lemma {:induction false} FinderFinds(n: nat, P: nat, i: nat, m: nat)
    requires 0 < m <= P && i < End(n, P, m - 1)
    ensures Finder(n, P, i, m) < P
    decreases m
  {
    BlocksMeet(n, P, m - 1);
    if !InBlock(n, P, m - 1, i) {
      BlocksMeet(n, P, 0);
      if m > 1 {
        BlocksMeet(n, P, m - 2);
        FinderFinds(n, P, i, m - 1);
      }
    }
  }

  /** The blocks tile the range: every index belongs to exactly one thread. */
  lemma BlocksTile(n: nat, P: nat, i: nat)
    requires P > 0
    ensures i < n <==> BlockOf(n, P, i) < P
    ensures i < n ==> InBlock(n, P, BlockOf(n, P, i), i)
    ensures forall t: nat :: t < P && InBlock(n, P, t, i) ==> i < n && BlockOf(n, P, i) == t
  {
    BlocksMeet(n, P, P - 1);
    if i < n {
      FinderFinds(n, P, i, P);
    } else if BlockOf(n, P, i) < P {
      BlockInRange(n, P, BlockOf(n, P, i));
    }
    forall t: nat | t < P && InBlock(n, P, t, i)
      ensures i < n && BlockOf(n, P, i) == t
    {
      BlockInRange(n, P, t);
      FinderFinds(n, P, i, P);
      OnlyBlock(n, P, i, t, BlockOf(n, P, i));
    }
  }

  lemma OnlyBlock(n: nat, P: nat, i: int, t: nat, u: nat)
    requires t < P && u < P && InBlock(n, P, t, i) && InBlock(n, P, u, i)
    ensures t == u
  {
    if t < u {
      BlocksOrdered(n, P, t, u);
    } else if u < t {
      BlocksOrdered(n, P, u, t);
    }
  }

  // C divides towards zero.
  function Quotient(a: int, b: int): int
    requires b > 0
  {
    if a >= 0 then a / b else -((-a) / b)
  }

  /** For a negative number of iterations the bounds that the source computes are the wrong way
      round, so no thread does anything. */
  lemma NegativeRangeIsEmpty(n: int, P: nat, t: nat)
    requires n < 0 && t < P
    ensures var q := Quotient(n, P);
            var residue := n - q * P;
            q * (t + 1) + (if t + 1 == P && residue != 0 then residue else 0) <= q * t
  {
    var q, a := Quotient(n, P), -n;
    assert a == a / P * P + a % P;
    assert q * (t + 1) == q * t + q;
  }
}
