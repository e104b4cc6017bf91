/** 8-connectivity of sets of pixels, and when removing a pixel preserves it. */
module Connectivity {

  type Pixel = (int, int)

  predicate Adjacent(p: Pixel, q: Pixel) {
    p != q && -1 <= p.0 - q.0 <= 1 && -1 <= p.1 - q.1 <= 1
  }

  ghost predicate IsPath(E: set<Pixel>, path: seq<Pixel>) {
    && |path| > 0
    && path[|path| - 1] in E
    && (|path| > 1 ==> IsPath(E, path[..|path| - 1]) && Adjacent(path[|path| - 2], path[|path| - 1]))
  }

  ghost predicate Joins(E: set<Pixel>, path: seq<Pixel>, p: Pixel, q: Pixel) {
    IsPath(E, path) && path[0] == p && path[|path| - 1] == q
  }

  ghost predicate Connected(E: set<Pixel>, p: Pixel, q: Pixel) {
    exists path :: Joins(E, path, p, q)
  }

  // Whatever is in both sets and was connected in E is still connected in F.
  ghost predicate KeepsConnected(E: set<Pixel>, F: set<Pixel>) {
    forall p, q :: p in E && p in F && q in E && q in F && Connected(E, p, q) ==> Connected(F, p, q)
  }

  // ----- connectivity is an equivalence on E

  lemma ConnectedSelf(E: set<Pixel>, p: Pixel)
    requires p in E
    ensures Connected(E, p, p)
  {
    assert Joins(E, [p], p, p);
  }

  lemma ConnectedStep(E: set<Pixel>, p: Pixel, q: Pixel, r: Pixel)
    requires Connected(E, p, q) && r in E && Adjacent(q, r)
    ensures Connected(E, p, r)
  {
    var path :| Joins(E, path, p, q);
    assert (path + [r])[..|path|] == path;
    assert Joins(E, path + [r], p, r);
  }

  lemma ConnectedAdjacent(E: set<Pixel>, p: Pixel, q: Pixel)
    requires p in E && q in E && Adjacent(p, q)
    ensures Connected(E, p, q)
  {
    ConnectedSelf(E, p);
    ConnectedStep(E, p, p, q);
  }

  lemma {:induction false} ConnectedAlong(E: set<Pixel>, p: Pixel, path: seq<Pixel>)
    requires IsPath(E, path) && Connected(E, p, path[0])
    ensures Connected(E, p, path[|path| - 1])
    decreases |path|
  {
    if |path| > 1 {
      ConnectedAlong(E, p, path[..|path| - 1]);
      ConnectedStep(E, p, path[|path| - 2], path[|path| - 1]);
    }
  }

  lemma ConnectedTrans(E: set<Pixel>, p: Pixel, q: Pixel, r: Pixel)
    requires Connected(E, p, q) && Connected(E, q, r)
    ensures Connected(E, p, r)
  {
    var path :| Joins(E, path, q, r);
    ConnectedAlong(E, p, path);
  }

  lemma {:induction false} ConnectedBack(E: set<Pixel>, path: seq<Pixel>)
    requires IsPath(E, path)
    ensures Connected(E, path[|path| - 1], path[0])
    decreases |path|
  {
    var last := path[|path| - 1];
    if |path| == 1 {
      ConnectedSelf(E, last);
    } else {
      ConnectedBack(E, path[..|path| - 1]);
      ConnectedAdjacent(E, last, path[|path| - 2]);
      ConnectedTrans(E, last, path[|path| - 2], path[0]);
    }
  }

  lemma ConnectedSym(E: set<Pixel>, p: Pixel, q: Pixel)
    requires Connected(E, p, q)
    ensures Connected(E, q, p)
  {
    var path :| Joins(E, path, p, q);
    ConnectedBack(E, path);
  }

  // ----- changing the set

  lemma {:induction false} PathInSuperset(E: set<Pixel>, F: set<Pixel>, path: seq<Pixel>)
    requires IsPath(E, path) && E <= F
    ensures IsPath(F, path)
    decreases |path|
  {
    if |path| > 1 {
      PathInSuperset(E, F, path[..|path| - 1]);
    }
  }

  lemma AddingKeeps(E: set<Pixel>, F: set<Pixel>)
    requires E <= F
    ensures KeepsConnected(E, F)
  {
    forall p, q | p in E && p in F && q in E && q in F && Connected(E, p, q)
      ensures Connected(F, p, q)
    {
      var path :| Joins(E, path, p, q);
      PathInSuperset(E, F, path);
      assert Joins(F, path, p, q);
    }
  }

  // All neighbours of c in E are connected to each other in F.
  ghost predicate NeighboursJoined(E: set<Pixel>, F: set<Pixel>, c: Pixel) {
    forall a, b :: a in E && b in E && Adjacent(a, c) && Adjacent(b, c) ==> Connected(F, a, b)
  }

  // A path that avoids c at both ends can be rerouted around it.
  lemma {:induction false} Reroute(E: set<Pixel>, F: set<Pixel>, c: Pixel, path: seq<Pixel>)
    requires IsPath(E, path) && E - {c} <= F && NeighboursJoined(E, F, c)
    requires path[0] != c && path[|path| - 1] != c
    ensures Connected(F, path[0], path[|path| - 1])
    decreases |path|
  {
    var n := |path|;
    if n == 1 {
      ConnectedSelf(F, path[0]);
    } else if path[n - 2] != c {
      Reroute(E, F, c, path[..n - 1]);
      ConnectedStep(F, path[0], path[n - 2], path[n - 1]);
    } else {
      assert path[..n - 1][..n - 2] == path[..n - 2];
      Reroute(E, F, c, path[..n - 2]);
      ConnectedTrans(F, path[0], path[n - 3], path[n - 1]);
    }
  }

  lemma RemovingKeeps(E: set<Pixel>, F: set<Pixel>, c: Pixel)
    requires E - {c} <= F && c !in F && NeighboursJoined(E, F, c)
    ensures KeepsConnected(E, F)
  {
    forall p, q | p in E && p in F && q in E && q in F && Connected(E, p, q)
      ensures Connected(F, p, q)
    {
      var path :| Joins(E, path, p, q);
      Reroute(E, F, c, path);
    }
  }

  // A component of at least two pixels, given by two of them
  ghost predicate Together(E: set<Pixel>, a: Pixel, b: Pixel) {
    a != b && a in E && b in E && Connected(E, a, b)
  }

  ghost predicate Lone(E: set<Pixel>, p: Pixel) {
    forall a :: a in E ==> !Adjacent(a, p)
  }

  // Two neighbours of p stay, and stay connected.
  ghost predicate LeavesPair(E: set<Pixel>, F: set<Pixel>, p: Pixel) {
    exists a, b :: Adjacent(a, p) && Adjacent(b, p) && a in E && b in E && Together(F, a, b)
  }

  lemma TogetherIsNotLone(E: set<Pixel>, a: Pixel, b: Pixel)
    requires Together(E, a, b)
    ensures !Lone(E, a)
  {
    ConnectedSym(E, a, b);
    var path :| Joins(E, path, b, a);
    assert |path| > 1 && Adjacent(path[|path| - 2], a) && IsPath(E, path[..|path| - 1]);
  }

  // If a goes away, one of its neighbours takes its place.
  lemma Successor(E: set<Pixel>, F: set<Pixel>, c: Pixel, a: Pixel, b: Pixel) returns (a': Pixel)
    requires E - {c} <= F && KeepsConnected(E, F) && Together(E, a, b) && b in F
    requires c in E && c !in F ==> Lone(E, c) || LeavesPair(E, F, c)
    ensures Together(F, a', b) && a' in E && Connected(E, a, a')
  {
    if a in F {
      a' := a;
      ConnectedSelf(E, a);
    } else {
      TogetherIsNotLone(E, a, b);
      var u, v :| Adjacent(u, c) && Adjacent(v, c) && u in E && v in E && Together(F, u, v);
      a' := if u != b then u else v;
      ConnectedAdjacent(E, a, a');
      ConnectedSym(E, a, a');
      ConnectedTrans(E, a', a, b);
    }
  }

  lemma TogetherSym(E: set<Pixel>, a: Pixel, b: Pixel)
    requires Together(E, a, b)
    ensures Together(E, b, a)
  {
    ConnectedSym(E, a, b);
  }

  lemma PairSuccessor(E: set<Pixel>, F: set<Pixel>, c: Pixel, a: Pixel, b: Pixel) returns (a': Pixel, b': Pixel)
    requires E - {c} <= F && KeepsConnected(E, F) && Together(E, a, b)
    requires c in E && c !in F ==> Lone(E, c) || LeavesPair(E, F, c)
    ensures Together(F, a', b') && a' in E && b' in E && Connected(E, a, a') && Connected(E, b, b')
  {
    hide Connected, KeepsConnected, Lone, LeavesPair;
    if b in F {
      a' := Successor(E, F, c, a, b);
      b' := b;
      ConnectedSelf(E, b);
    } else {
      TogetherSym(E, a, b);
      b' := Successor(E, F, c, b, a);
      a' := a;
      ConnectedSelf(E, a);
      TogetherSym(F, b', a');
    }
  }
}
