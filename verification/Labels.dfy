/** What the label-correcting search of dijkstra.c keeps true of its labels and its work queue. */
module Labels {
  import opened Graph
  import opened PoolQueue

  datatype Node = Node(iDist: int, iPrev: int)

  ghost predicate Labelled(L: seq<Node>, v: int)
    requires 0 <= v < |L|
  {
    L[v].iDist != NONE
  }

  // Labels only appear and shrink.
  ghost predicate Improves(L: seq<Node>, M: seq<Node>) {
    && |L| == |M|
    && forall v {:trigger L[v]} {:trigger M[v]} :: 0 <= v < |L| && Labelled(L, v) ==>
         Labelled(M, v) && M[v].iDist <= L[v].iDist
  }

  // ----- every label and every queue entry is the weight of a simple path

  ghost predicate Supports(adj: Matrix, L: seq<Node>, p: seq<nat>)
    requires WellFormed(adj) && |L| == |adj| && IsWalk(adj, p)
    decreases |p|
  {
    var v := p[|p| - 1];
    Labelled(L, v) && L[v].iDist <= Weight(adj, p) && (|p| > 1 ==> Supports(adj, L, p[..|p| - 1]))
  }

  // p is a simple path from start to v of weight d along which no label exceeds the weight so far.
  ghost predicate Witness(adj: Matrix, start: nat, L: seq<Node>, p: seq<nat>, v: int, d: int)
    requires WellFormed(adj) && |L| == |adj|
  {
    IsWalk(adj, p) && p[0] == start && p[|p| - 1] == v && Simple(p) && Weight(adj, p) == d && Supports(adj, L, p)
  }

  ghost predicate Grounded(adj: Matrix, start: nat, L: seq<Node>, v: int, d: int)
    requires WellFormed(adj) && |L| == |adj|
  {
    exists p :: Witness(adj, start, L, p, v, d)
  }

  lemma {:induction false} SupportsImproved(adj: Matrix, L: seq<Node>, M: seq<Node>, p: seq<nat>)
    requires WellFormed(adj) && |L| == |adj| && IsWalk(adj, p)
    requires Improves(L, M) && Supports(adj, L, p)
    ensures Supports(adj, M, p)
    decreases |p|
  {
    if |p| > 1 {
      SupportsImproved(adj, L, M, p[..|p| - 1]);
    }
  }

  lemma GroundedImproved(adj: Matrix, start: nat, L: seq<Node>, M: seq<Node>, v: int, d: int)
    requires WellFormed(adj) && |L| == |adj|
    requires Improves(L, M) && Grounded(adj, start, L, v, d)
    ensures Grounded(adj, start, M, v, d)
  {
    var p :| Witness(adj, start, L, p, v, d);
    SupportsImproved(adj, L, M, p);
    assert Witness(adj, start, M, p, v, d);
  }

  // Every node on the path is labelled with at most the weight of the whole path.
  lemma {:induction false} SupportsAt(adj: Matrix, L: seq<Node>, p: seq<nat>, i: nat)
    requires WellFormed(adj) && |L| == |adj| && IsWalk(adj, p)
    requires Supports(adj, L, p) && i < |p|
    ensures p[i] < |adj| && Labelled(L, p[i]) && L[p[i]].iDist <= Weight(adj, p)
    decreases |p|
  {
    if i < |p| - 1 {
      SupportsAt(adj, L, p[..|p| - 1], i);
    }
  }

  // The test guarding an update
  predicate Better(L: seq<Node>, i: nat, d: int)
    requires i < |L|
  {
    L[i].iDist == NONE || L[i].iDist > d
  }

  lemma UpdateImproves(L: seq<Node>, i: nat, x: Node)
    requires i < |L| && Better(L, i, x.iDist) && x.iDist < NONE
    ensures Improves(L, L[i := x])
  {
    var M := L[i := x];
    forall v | 0 <= v < |L| && Labelled(L, v)
      ensures Labelled(M, v) && M[v].iDist <= L[v].iDist
    {
    }
  }

  // Relaxing an edge that improves its end extends the simple path by one node.
  lemma RelaxExtends(adj: Matrix, start: nat, L: seq<Node>, u: int, d: int, i: nat)
    requires WellFormed(adj) && |L| == |adj| && NoCollision(adj)
    requires 0 <= u < |adj| && i < |adj| && adj[u][i] != NONE
    requires Grounded(adj, start, L, u, d) && Better(L, i, d + adj[u][i])
    ensures var M := L[i := Node(d + adj[u][i], u)];
            0 <= d + adj[u][i] < NONE && Improves(L, M) && Grounded(adj, start, M, i, d + adj[u][i])
  {
    var p :| Witness(adj, start, L, p, u, d);
    var q, M := p + [i], L[i := Node(d + adj[u][i], u)];
    WeightSnoc(adj, p, i);
    forall k | 0 <= k < |p|
      ensures p[k] != i
    {
      SupportsAt(adj, L, p, k);
    }
    assert Simple(q);
    assert d + adj[u][i] == Weight(adj, q) < NONE;
    UpdateImproves(L, i, M[i]);
    SupportsImproved(adj, L, M, p);
    assert q[..|q| - 1] == p;
    assert Witness(adj, start, M, q, i, d + adj[u][i]);
  }

  // ----- predecessor links

  // Following iPrev from v reaches start in k steps.
  ghost predicate Chain(L: seq<Node>, start: nat, v: int, k: nat)
    decreases k
  {
    && 0 <= v < |L|
    && if k == 0 then v == start else v != start && Chain(L, start, L[v].iPrev, k - 1)
  }

  ghost predicate Rooted(L: seq<Node>, start: nat, v: int) {
    exists k: nat :: Chain(L, start, v, k)
  }

  // The link of v is an edge that its label pays for.
  ghost predicate PaidLink(adj: Matrix, L: seq<Node>, v: int)
    requires WellFormed(adj) && |L| == |adj| && 0 <= v < |L|
  {
    var u := L[v].iPrev;
    0 <= u < |L| && Labelled(L, u) && adj[u][v] != NONE && L[u].iDist + adj[u][v] <= L[v].iDist
  }

  ghost predicate LinksOk(adj: Matrix, start: nat, L: seq<Node>)
    requires WellFormed(adj) && |L| == |adj| && start < |L|
  {
    && L[start] == Node(0, NONE)
    && (forall v :: 0 <= v < |L| && !Labelled(L, v) ==> L[v].iPrev == NONE)
    && (forall v :: 0 <= v < |L| && Labelled(L, v) ==> L[v].iDist >= 0)
    && (forall v :: 0 <= v < |L| && v != start && Labelled(L, v) ==> PaidLink(adj, L, v))
  }

  // The links form a tree: no cycle anywhere.
  ghost predicate Acyclic(L: seq<Node>, start: nat) {
    forall v :: 0 <= v < |L| && Labelled(L, v) ==> Rooted(L, start, v)
  }

  // Labels do not grow towards the root, so whatever lies on the chain of u has no larger label.
  lemma {:induction false} ChainAvoids(adj: Matrix, start: nat, L: seq<Node>, x: int, k: nat, i: nat, e: Node)
    requires WellFormed(adj) && |L| == |adj| && start < |L| && i < |L|
    requires LinksOk(adj, start, L) && Chain(L, start, x, k)
    requires Labelled(L, x) && L[x].iDist <= e.iDist && Better(L, i, e.iDist)
    ensures Chain(L[i := e], start, x, k) && x != i
    decreases k
  {
    if k > 0 {
      assert PaidLink(adj, L, x);
      ChainAvoids(adj, start, L, L[x].iPrev, k - 1, i, e);
    }
  }

  // Every chain survives the update, rerouted if it passed through i.
  lemma {:induction false} ChainRerouted(L: seq<Node>, start: nat, i: nat, e: Node, ku: nat, x: int, k: nat)
    requires i < |L| && i != start
    requires Chain(L[i := e], start, e.iPrev, ku) && Chain(L, start, x, k)
    ensures Rooted(L[i := e], start, x)
    decreases k
  {
    var M := L[i := e];
    if x == i {
      assert Chain(M, start, x, ku + 1);
    } else if k == 0 {
      assert Chain(M, start, x, 0);
    } else {
      ChainRerouted(L, start, i, e, ku, L[x].iPrev, k - 1);
      var k': nat :| Chain(M, start, L[x].iPrev, k');
      assert Chain(M, start, x, k' + 1);
    }
  }

  // The link that an update of i to e would set
  ghost predicate GoodUpdate(adj: Matrix, L: seq<Node>, i: nat, e: Node)
    requires WellFormed(adj) && |L| == |adj| && i < |L|
  {
    && 0 <= e.iPrev < |L| && adj[e.iPrev][i] != NONE
    && Labelled(L, e.iPrev) && L[e.iPrev].iDist + adj[e.iPrev][i] <= e.iDist < NONE
    && Better(L, i, e.iDist)
  }

  lemma RelaxAcyclic(adj: Matrix, start: nat, L: seq<Node>, i: nat, e: Node)
    requires WellFormed(adj) && |L| == |adj| && start < |L| && i < |adj|
    requires LinksOk(adj, start, L) && Acyclic(L, start) && GoodUpdate(adj, L, i, e)
    ensures Acyclic(L[i := e], start)
  {
    var M, u := L[i := e], e.iPrev;
    assert Rooted(L, start, u);
    var ku: nat :| Chain(L, start, u, ku);
    ChainAvoids(adj, start, L, u, ku, i, e);
    forall v | 0 <= v < |M| && Labelled(M, v)
      ensures Rooted(M, start, v)
    {
      if v == i {
        assert Chain(M, start, i, ku + 1);
      } else {
        assert Labelled(L, v) && Rooted(L, start, v);
        var k: nat :| Chain(L, start, v, k);
        ChainRerouted(L, start, i, e, ku, v, k);
      }
    }
  }

  lemma RelaxLinks(adj: Matrix, start: nat, L: seq<Node>, i: nat, e: Node)
    requires WellFormed(adj) && |L| == |adj| && start < |L| && i < |adj|
    requires LinksOk(adj, start, L) && GoodUpdate(adj, L, i, e)
    ensures LinksOk(adj, start, L[i := e]) && i != start
  {
    var M := L[i := e];
    UpdateImproves(L, i, e);
    forall v | 0 <= v < |M| && v != start && Labelled(M, v)
      ensures PaidLink(adj, M, v)
    {
      if v != i {
        assert PaidLink(adj, L, v);
        assert Labelled(L, L[v].iPrev);
      }
    }
  }

  // ----- the work that remains

  ghost predicate Relaxed(adj: Matrix, L: seq<Node>, v: int, w: int)
    requires WellFormed(adj) && |L| == |adj| && 0 <= v < |L| && 0 <= w < |L|
  {
    adj[v][w] != NONE ==> Labelled(L, w) && L[w].iDist <= L[v].iDist + adj[v][w]
  }

  ghost predicate Settled(adj: Matrix, L: seq<Node>, v: int, upTo: int)
    requires WellFormed(adj) && |L| == |adj| && 0 <= v < |L| && upTo <= |L|
  {
    forall w :: 0 <= w < upTo ==> Relaxed(adj, L, v, w)
  }

  ghost predicate Pending(L: seq<Node>, q: seq<Entry>, v: int)
    requires 0 <= v < |L|
  {
    exists e :: e in q && e.iNode == v && e.iDist == L[v].iDist
  }

  // u is the node being scanned, with distance d, and its edges to nodes below i are done.
  ghost predicate WorkOk(adj: Matrix, L: seq<Node>, q: seq<Entry>, u: int, d: int, i: int)
    requires WellFormed(adj) && |L| == |adj| && i <= |L|
  {
    forall v :: 0 <= v < |L| && Labelled(L, v) ==>
      Pending(L, q, v) || Settled(adj, L, v, |L|) || (v == u && L[v].iDist == d && Settled(adj, L, v, i))
  }

  ghost predicate QueueOk(adj: Matrix, start: nat, L: seq<Node>, q: seq<Entry>)
    requires WellFormed(adj) && |L| == |adj|
  {
    forall e :: e in q ==> Grounded(adj, start, L, e.iNode, e.iDist)
  }

  ghost predicate LabelsOk(adj: Matrix, start: nat, L: seq<Node>)
    requires WellFormed(adj) && |L| == |adj|
  {
    forall v :: 0 <= v < |L| && Labelled(L, v) ==> Grounded(adj, start, L, v, L[v].iDist)
  }

  lemma SettledImproved(adj: Matrix, L: seq<Node>, M: seq<Node>, v: int, upTo: int)
    requires WellFormed(adj) && |L| == |adj| && 0 <= v < |L| && upTo <= |L|
    requires Improves(L, M) && M[v].iDist == L[v].iDist && Settled(adj, L, v, upTo)
    ensures Settled(adj, M, v, upTo)
  {
    forall w | 0 <= w < upTo
      ensures Relaxed(adj, M, v, w)
    {
      assert Relaxed(adj, L, v, w);
      if adj[v][w] != NONE {
        assert Labelled(L, w);
      }
    }
  }

  lemma RelaxWork(adj: Matrix, L: seq<Node>, q: seq<Entry>, u: int, d: int, i: nat)
    requires WellFormed(adj) && |L| == |adj|
    requires 0 <= u < |adj| && i < |adj| && adj[u][i] != NONE
    requires WorkOk(adj, L, q, u, d, i) && u != i && Better(L, i, d + adj[u][i])
    requires d + adj[u][i] < NONE
    ensures WorkOk(adj, L[i := Node(d + adj[u][i], u)], q + [Entry(i, d + adj[u][i], u)], u, d, i + 1)
  {
    var e := Entry(i, d + adj[u][i], u);
    var M, r := L[i := Node(d + adj[u][i], u)], q + [e];
    UpdateImproves(L, i, M[i]);
    forall v | 0 <= v < |M| && Labelled(M, v)
      ensures Pending(M, r, v) || Settled(adj, M, v, |M|) || (v == u && M[v].iDist == d && Settled(adj, M, v, i + 1))
    {
      if v == i {
        assert e in r;
      } else if Pending(L, q, v) {
        var f :| f in q && f.iNode == v && f.iDist == L[v].iDist;
        assert f in r;
      } else if Settled(adj, L, v, |L|) {
        SettledImproved(adj, L, M, v, |L|);
      } else {
        SettledImproved(adj, L, M, v, i);
      }
    }
  }

  lemma SkipWork(adj: Matrix, L: seq<Node>, q: seq<Entry>, u: int, d: int, i: nat)
    requires WellFormed(adj) && |L| == |adj| && 0 <= u < |adj| && i < |adj|
    requires WorkOk(adj, L, q, u, d, i)
    requires adj[u][i] == NONE || !Better(L, i, d + adj[u][i])
    ensures WorkOk(adj, L, q, u, d, i + 1)
  {
  }

  lemma StartWork(adj: Matrix, L: seq<Node>, q: seq<Entry>)
    requires WellFormed(adj) && |L| == |adj| && |q| > 0
    requires WorkOk(adj, L, q, -1, 0, 0)
    ensures WorkOk(adj, L, q[1..], q[0].iNode, q[0].iDist, 0)
  {
    forall v | 0 <= v < |L| && Labelled(L, v) && Pending(L, q, v)
      ensures Pending(L, q[1..], v) || (v == q[0].iNode && L[v].iDist == q[0].iDist)
    {
      var f :| f in q && f.iNode == v && f.iDist == L[v].iDist;
    }
  }

  lemma EndWork(adj: Matrix, L: seq<Node>, q: seq<Entry>, u: int, d: int)
    requires WellFormed(adj) && |L| == |adj|
    requires WorkOk(adj, L, q, u, d, |L|)
    ensures WorkOk(adj, L, q, -1, 0, 0)
  {
  }

  // ----- termination: the labels sum up to less and less

  ghost function Sum(L: seq<Node>): int {
    if L == [] then 0 else Sum(L[..|L| - 1]) + L[|L| - 1].iDist
  }

  lemma {:induction false} SumUpdate(L: seq<Node>, i: nat, x: Node)
    requires i < |L|
    ensures Sum(L[i := x]) == Sum(L) - L[i].iDist + x.iDist
    decreases |L|
  {
    if i == |L| - 1 {
      assert L[i := x][..i] == L[..i];
    } else {
      SumUpdate(L[..|L| - 1], i, x);
      assert L[i := x][..|L| - 1] == L[..|L| - 1][i := x];
    }
  }

  lemma {:induction false} SumNonNegative(L: seq<Node>)
    requires forall v :: 0 <= v < |L| ==> L[v].iDist >= 0
    ensures Sum(L) >= 0
  {
    if L != [] {
      SumNonNegative(L[..|L| - 1]);
    }
  }

  lemma {:induction false} SumUnlabelled(L: seq<Node>)
    requires forall v :: 0 <= v < |L| ==> L[v].iDist == NONE
    ensures Sum(L) == |L| * NONE
  {
    if L != [] {
      SumUnlabelled(L[..|L| - 1]);
    }
  }

  // ----- what the labels mean once no work remains

  ghost predicate ShortestDistances(adj: Matrix, start: nat, L: seq<Node>)
    requires WellFormed(adj) && |L| == |adj|
  {
    forall v :: 0 <= v < |L| ==>
      if Labelled(L, v) then
        && (exists p :: WalkBetween(adj, p, start, v) && Weight(adj, p) == L[v].iDist)
        && (forall p :: WalkBetween(adj, p, start, v) ==> L[v].iDist <= Weight(adj, p))
      else
        !exists p :: WalkBetween(adj, p, start, v)
  }

  lemma {:induction false} WalkIsLabelled(adj: Matrix, start: nat, L: seq<Node>, p: seq<nat>)
    requires WellFormed(adj) && |L| == |adj| && start < |L|
    requires L[start].iDist == 0 && WorkOk(adj, L, [], -1, 0, 0)
    requires IsWalk(adj, p) && p[0] == start
    ensures Labelled(L, p[|p| - 1]) && L[p[|p| - 1]].iDist <= Weight(adj, p)
    decreases |p|
  {
    if |p| > 1 {
      WalkIsLabelled(adj, start, L, p[..|p| - 1]);
      assert Settled(adj, L, p[|p| - 2], |L|);
      assert Relaxed(adj, L, p[|p| - 2], p[|p| - 1]);
    }
  }

  lemma NoWorkMeansShortest(adj: Matrix, start: nat, L: seq<Node>)
    requires WellFormed(adj) && |L| == |adj| && start < |L|
    requires L[start].iDist == 0 && LabelsOk(adj, start, L) && WorkOk(adj, L, [], -1, 0, 0)
    ensures ShortestDistances(adj, start, L)
  {
    forall v, p | 0 <= v < |L| && WalkBetween(adj, p, start, v)
      ensures Labelled(L, v) && L[v].iDist <= Weight(adj, p)
    {
      WalkIsLabelled(adj, start, L, p);
    }
    forall v | 0 <= v < |L| && Labelled(L, v)
      ensures exists p :: WalkBetween(adj, p, start, v) && Weight(adj, p) == L[v].iDist
    {
      assert Grounded(adj, start, L, v, L[v].iDist);
      var p :| Witness(adj, start, L, p, v, L[v].iDist);
      assert WalkBetween(adj, p, start, v);
    }
  }

  // At the end every link is tight.
  lemma NoWorkMeansTight(adj: Matrix, start: nat, L: seq<Node>, v: nat)
    requires WellFormed(adj) && |L| == |adj| && start < |L|
    requires LinksOk(adj, start, L) && WorkOk(adj, L, [], -1, 0, 0)
    requires v < |L| && v != start && Labelled(L, v)
    ensures PaidLink(adj, L, v) && L[L[v].iPrev].iDist + adj[L[v].iPrev][v] == L[v].iDist
  {
    assert Settled(adj, L, L[v].iPrev, |L|);
    assert Relaxed(adj, L, L[v].iPrev, v);
  }
}
