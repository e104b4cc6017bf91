/** Weighted directed graphs given by an adjacency matrix in which NONE marks a missing edge. */
module Graph {

  const NONE := 9999

  type Matrix = seq<seq<int>>

  // A square matrix of missing edges and non-negative weights (the source's are unsigned)
  ghost predicate WellFormed(adj: Matrix) {
    && (forall u :: 0 <= u < |adj| ==> |adj[u]| == |adj|)
    && (forall u, v :: 0 <= u < |adj| && 0 <= v < |adj| ==> 0 <= adj[u][v])
  }

  ghost predicate IsWalk(adj: Matrix, p: seq<nat>)
    requires WellFormed(adj)
  {
    && |p| > 0
    && p[|p| - 1] < |adj|
    && (|p| > 1 ==> IsWalk(adj, p[..|p| - 1]) && adj[p[|p| - 2]][p[|p| - 1]] != NONE)
  }

  ghost predicate WalkBetween(adj: Matrix, p: seq<nat>, u: nat, v: nat)
    requires WellFormed(adj)
  {
    IsWalk(adj, p) && p[0] == u && p[|p| - 1] == v
  }

  ghost function Weight(adj: Matrix, p: seq<nat>): (w: int)
    requires WellFormed(adj) && IsWalk(adj, p)
    ensures w >= 0
  {
    if |p| == 1 then 0
    else Weight(adj, p[..|p| - 1]) + adj[p[|p| - 2]][p[|p| - 1]]
  }

  ghost predicate Simple(p: seq<nat>) {
    forall i, j :: 0 <= i < j < |p| ==> p[i] != p[j]
  }

  // No path without repeated nodes is as heavy as the sentinel.
  ghost predicate NoCollision(adj: Matrix)
    requires WellFormed(adj)
  {
    forall p :: IsWalk(adj, p) && Simple(p) ==> Weight(adj, p) < NONE
  }

  lemma WeightSnoc(adj: Matrix, p: seq<nat>, v: nat)
    requires WellFormed(adj) && IsWalk(adj, p) && v < |adj| && adj[p[|p| - 1]][v] != NONE
    ensures IsWalk(adj, p + [v])
    ensures Weight(adj, p + [v]) == Weight(adj, p) + adj[p[|p| - 1]][v]
  {
    assert (p + [v])[..|p|] == p;
  }

  lemma {:induction false} PrefixWeight(adj: Matrix, p: seq<nat>, k: nat)
    requires WellFormed(adj) && IsWalk(adj, p) && 0 < k <= |p|
    ensures IsWalk(adj, p[..k])
    ensures Weight(adj, p[..k]) <= Weight(adj, p)
    decreases |p|
  {
    if k == |p| {
      assert p[..k] == p;
    } else {
      assert p[..|p| - 1][..k] == p[..k];
      PrefixWeight(adj, p[..|p| - 1], k);
    }
  }

  lemma {:induction false} WalkInRange(adj: Matrix, p: seq<nat>)
    requires WellFormed(adj) && IsWalk(adj, p)
    ensures forall i :: 0 <= i < |p| ==> p[i] < |adj|
  {
    if |p| > 1 {
      WalkInRange(adj, p[..|p| - 1]);
    }
  }

  // Distinct numbers below n are at most n many.
  lemma {:induction false} SimpleIsShort(p: seq<nat>, n: nat)
    requires Simple(p) && forall i :: 0 <= i < |p| ==> p[i] < n
    ensures |p| <= n
    decreases n
  {
    if p != [] {
      assert p[0] < n;
      if i :| 0 <= i < |p| && p[i] == n - 1 {
        var q := p[..i] + p[i + 1..];
        assert forall j :: 0 <= j < |q| ==> q[j] == if j < i then p[j] else p[j + 1];
        SimpleIsShort(q, n - 1);
      } else {
        SimpleIsShort(p, n - 1);
      }
    }
  }

  lemma {:induction false} WeightBound(adj: Matrix, p: seq<nat>, maxWeight: nat)
    requires WellFormed(adj) && IsWalk(adj, p)
    requires forall u, v :: 0 <= u < |adj| && 0 <= v < |adj| && adj[u][v] != NONE ==> adj[u][v] <= maxWeight
    ensures Weight(adj, p) <= (|p| - 1) * maxWeight
  {
    if |p| > 1 {
      WeightBound(adj, p[..|p| - 1], maxWeight);
      assert (|p| - 2) * maxWeight + maxWeight == (|p| - 1) * maxWeight;
    }
  }

  lemma MulMono(a: nat, b: nat, m: nat)
    requires a <= b
    ensures a * m <= b * m
  {
  }

  // Small weights rule out collisions with the sentinel.
  lemma LightGraphs(adj: Matrix, maxWeight: nat)
    requires WellFormed(adj)
    requires forall u, v :: 0 <= u < |adj| && 0 <= v < |adj| && adj[u][v] != NONE ==> adj[u][v] <= maxWeight
    requires (|adj| - 1) * maxWeight < NONE
    ensures NoCollision(adj)
  {
    forall p | IsWalk(adj, p) && Simple(p)
      ensures Weight(adj, p) < NONE
    {
      WeightBound(adj, p, maxWeight);
      WalkInRange(adj, p);
      SimpleIsShort(p, |adj|);
      MulMono(|p| - 1, |adj| - 1, maxWeight);
    }
  }
}
