/** The test that susan_thin applies to a pixel with more than two neighbours: when it succeeds,
    the neighbours are connected to each other without the pixel. */
module SimplePoint {
  import opened Connectivity

  // The eight neighbours of c, clockwise from the upper left; odd positions share a side with c.
  function Ring(c: Pixel, k: int): (p: Pixel)
    requires 0 <= k < 8
    ensures Adjacent(p, c)
  {
    match k
    case 0 => (c.0 - 1, c.1 - 1)
    case 1 => (c.0 - 1, c.1)
    case 2 => (c.0 - 1, c.1 + 1)
    case 3 => (c.0, c.1 + 1)
    case 4 => (c.0 + 1, c.1 + 1)
    case 5 => (c.0 + 1, c.1)
    case 6 => (c.0 + 1, c.1 - 1)
    case 7 => (c.0, c.1 - 1)
  }

  function RingIndex(c: Pixel, p: Pixel): (k: int)
    requires Adjacent(p, c)
    ensures 0 <= k < 8 && Ring(c, k) == p
  {
    if p.0 < c.0 then p.1 - c.1 + 1
    else if p.0 > c.0 then 5 - (p.1 - c.1)
    else if p.1 > c.1 then 3 else 7
  }

  function Next(g: int): int {
    if g == 3 then 0 else g + 1
  }

  // Group g holds ring positions 2g (a corner) and 2g+1 (a side).
  ghost predicate Occupied(F: set<Pixel>, c: Pixel, g: int)
    requires 0 <= g < 4
  {
    Ring(c, 2 * g) in F || Ring(c, 2 * g + 1) in F
  }

  // The side of group g touches everything in the next group.
  ghost predicate Bridged(F: set<Pixel>, c: Pixel, g: int)
    requires 0 <= g < 4
  {
    Ring(c, 2 * g + 1) in F && Occupied(F, c, Next(g))
  }

  function Bit(b: bool): int {
    if b then 1 else 0
  }

  // Occupied groups minus bridges: below two, there is at most one component.
  ghost predicate OneComponent(F: set<Pixel>, c: Pixel) {
    Bit(Occupied(F, c, 0)) + Bit(Occupied(F, c, 1)) + Bit(Occupied(F, c, 2)) + Bit(Occupied(F, c, 3))
    - (Bit(Bridged(F, c, 0)) + Bit(Bridged(F, c, 1)) + Bit(Bridged(F, c, 2)) + Bit(Bridged(F, c, 3))) < 2
  }

  ghost predicate Linked(F: set<Pixel>, c: Pixel, g: int, h: int)
    requires 0 <= g < 4 && 0 <= h < 4
  {
    forall k, l :: 2 * g <= k <= 2 * g + 1 && 2 * h <= l <= 2 * h + 1 && Ring(c, k) in F && Ring(c, l) in F ==>
      Connected(F, Ring(c, k), Ring(c, l))
  }

  lemma LinkedSelf(F: set<Pixel>, c: Pixel, g: int)
    requires 0 <= g < 4
    ensures Linked(F, c, g, g)
  {
    forall k, l | 2 * g <= k <= 2 * g + 1 && 2 * g <= l <= 2 * g + 1 && Ring(c, k) in F && Ring(c, l) in F
      ensures Connected(F, Ring(c, k), Ring(c, l))
    {
      if k == l {
        ConnectedSelf(F, Ring(c, k));
      } else {
        ConnectedAdjacent(F, Ring(c, k), Ring(c, l));
      }
    }
  }

  lemma LinkedBridge(F: set<Pixel>, c: Pixel, g: int)
    requires 0 <= g < 4 && Bridged(F, c, g)
    ensures Linked(F, c, g, Next(g))
  {
    var h, s := Next(g), Ring(c, 2 * g + 1);
    LinkedSelf(F, c, g);
    forall k, l | 2 * g <= k <= 2 * g + 1 && 2 * h <= l <= 2 * h + 1 && Ring(c, k) in F && Ring(c, l) in F
      ensures Connected(F, Ring(c, k), Ring(c, l))
    {
      ConnectedStep(F, Ring(c, k), s, Ring(c, l));
    }
  }

  lemma LinkedSym(F: set<Pixel>, c: Pixel, g: int, h: int)
    requires 0 <= g < 4 && 0 <= h < 4 && Linked(F, c, g, h)
    ensures Linked(F, c, h, g)
  {
    forall k, l | 2 * h <= k <= 2 * h + 1 && 2 * g <= l <= 2 * g + 1 && Ring(c, k) in F && Ring(c, l) in F
      ensures Connected(F, Ring(c, k), Ring(c, l))
    {
      ConnectedSym(F, Ring(c, l), Ring(c, k));
    }
  }

  lemma LinkedTrans(F: set<Pixel>, c: Pixel, g: int, m: int, h: int)
    requires 0 <= g < 4 && 0 <= m < 4 && 0 <= h < 4
    requires Linked(F, c, g, m) && Linked(F, c, m, h) && Occupied(F, c, m)
    ensures Linked(F, c, g, h)
  {
    var i := if Ring(c, 2 * m) in F then 2 * m else 2 * m + 1;
    forall k, l | 2 * g <= k <= 2 * g + 1 && 2 * h <= l <= 2 * h + 1 && Ring(c, k) in F && Ring(c, l) in F
      ensures Connected(F, Ring(c, k), Ring(c, l))
    {
      ConnectedTrans(F, Ring(c, k), Ring(c, i), Ring(c, l));
    }
  }

  // Two bridges in a row, starting at g
  lemma LinkedTwice(F: set<Pixel>, c: Pixel, g: int)
    requires 0 <= g < 4 && Bridged(F, c, g) && Bridged(F, c, Next(g))
    ensures Linked(F, c, g, Next(Next(g)))
  {
    LinkedBridge(F, c, g);
    LinkedBridge(F, c, Next(g));
    LinkedTrans(F, c, g, Next(g), Next(Next(g)));
  }

  // Neighbouring groups: bridged directly, or all the way round the other side.
  lemma LinkedNext(F: set<Pixel>, c: Pixel, g: int)
    requires 0 <= g < 4 && OneComponent(F, c)
    ensures Linked(F, c, g, Next(g))
  {
    var h := Next(g);
    if Bridged(F, c, g) {
      LinkedBridge(F, c, g);
    } else if Occupied(F, c, g) && Occupied(F, c, h) {
      var m := Next(h);
      assert Bridged(F, c, h) && Bridged(F, c, m) && Bridged(F, c, Next(m));
      LinkedTwice(F, c, h);
      LinkedBridge(F, c, Next(m));
      LinkedTrans(F, c, h, Next(m), g);
      LinkedSym(F, c, h, g);
    }
  }

  // Opposite groups: two bridges one way or the other.
  lemma LinkedOpposite(F: set<Pixel>, c: Pixel, g: int)
    requires 0 <= g < 4 && OneComponent(F, c)
    ensures Linked(F, c, g, Next(Next(g)))
  {
    var h := Next(Next(g));
    if Bridged(F, c, g) && Bridged(F, c, Next(g)) {
      LinkedTwice(F, c, g);
    } else if Occupied(F, c, g) && Occupied(F, c, h) {
      assert Bridged(F, c, h) && Bridged(F, c, Next(h));
      LinkedTwice(F, c, h);
      LinkedSym(F, c, h, g);
    }
  }

  lemma AllLinked(F: set<Pixel>, c: Pixel, g: int, h: int)
    requires 0 <= g < 4 && 0 <= h < 4 && OneComponent(F, c)
    ensures Linked(F, c, g, h)
  {
    if g == h {
      LinkedSelf(F, c, g);
    } else if h == Next(g) {
      LinkedNext(F, c, g);
    } else if g == Next(h) {
      LinkedNext(F, c, h);
      LinkedSym(F, c, h, g);
    } else {
      LinkedOpposite(F, c, g);
    }
  }

  // Removing c from E keeps its neighbours connected.
  lemma OneComponentJoins(E: set<Pixel>, c: Pixel)
    requires OneComponent(E, c)
    ensures NeighboursJoined(E, E - {c}, c)
  {
    var F := E - {c};
    assert OneComponent(F, c);
    forall a, b | a in E && b in E && Adjacent(a, c) && Adjacent(b, c)
      ensures Connected(F, a, b)
    {
      var k, l := RingIndex(c, a), RingIndex(c, b);
      AllLinked(F, c, k / 2, l / 2);
      assert Ring(c, k) == a && Ring(c, l) == b;
    }
  }

  // ----- and the other way round: the test counts the components

  // The neighbours of c that are in E
  ghost function Ringed(E: set<Pixel>, c: Pixel): set<Pixel> {
    set p | p in E && Adjacent(p, c)
  }

  // All of N hangs together without leaving N.
  ghost predicate OnePiece(N: set<Pixel>) {
    forall p, q :: p in N && q in N ==> Connected(N, p, q)
  }

  function GroupOf(c: Pixel, p: Pixel): (g: int)
    requires Adjacent(p, c)
    ensures 0 <= g < 4
  {
    RingIndex(c, p) / 2
  }

  // Neighbours of c that touch are in one group or on a bridge.
  lemma TouchingGroups(N: set<Pixel>, c: Pixel, p: Pixel, q: Pixel)
    requires p in N && q in N && Adjacent(p, c) && Adjacent(q, c) && Adjacent(p, q)
    ensures var g, h := GroupOf(c, p), GroupOf(c, q);
            g == h || (h == Next(g) && Bridged(N, c, g)) || (g == Next(h) && Bridged(N, c, h))
  {
    var k, l := RingIndex(c, p), RingIndex(c, q);
    assert Ring(c, k) == p && Ring(c, l) == q;
  }

  lemma GroupOccupied(N: set<Pixel>, c: Pixel, g: int) returns (p: Pixel)
    requires 0 <= g < 4 && Occupied(N, c, g)
    ensures p in N && Adjacent(p, c) && GroupOf(c, p) == g
  {
    p := if Ring(c, 2 * g) in N then Ring(c, 2 * g) else Ring(c, 2 * g + 1);
  }

  // No bridge leads out of the groups x+1 to y.
  ghost predicate Cut(N: set<Pixel>, c: Pixel, x: int, y: int) {
    0 <= x < y < 4 && !Bridged(N, c, x) && !Bridged(N, c, y)
  }

  lemma {:induction false} PathStaysInCut(N: set<Pixel>, c: Pixel, x: int, y: int, path: seq<Pixel>)
    requires Cut(N, c, x, y) && IsPath(N, path) && forall p :: p in N ==> Adjacent(p, c)
    requires path[0] in N && x < GroupOf(c, path[0]) <= y
    ensures path[|path| - 1] in N && x < GroupOf(c, path[|path| - 1]) <= y
    decreases |path|
  {
    hide RingIndex, Bridged;
    if |path| > 1 {
      PathStaysInCut(N, c, x, y, path[..|path| - 1]);
      TouchingGroups(N, c, path[|path| - 2], path[|path| - 1]);
    }
  }

  // With two or more components by count, two cuts leave something on either side.
  lemma SomeCut(N: set<Pixel>, c: Pixel) returns (x: int, y: int, g: int, h: int)
    requires !OneComponent(N, c)
    ensures Cut(N, c, x, y) && x < g <= y && 0 <= h < 4 && !(x < h <= y)
    ensures Occupied(N, c, g) && Occupied(N, c, h)
  {
    var o0, o1, o2, o3 := Occupied(N, c, 0), Occupied(N, c, 1), Occupied(N, c, 2), Occupied(N, c, 3);
    var b0, b1, b2, b3 := Bridged(N, c, 0), Bridged(N, c, 1), Bridged(N, c, 2), Bridged(N, c, 3);
    BridgeEnds(N, c);
    if !b0 && !b1 && o1 && (o2 || o3 || o0) {
      x, y, g, h := 0, 1, 1, if o2 then 2 else if o3 then 3 else 0;
    } else if !b1 && !b2 && o2 && (o3 || o0 || o1) {
      x, y, g, h := 1, 2, 2, if o3 then 3 else if o0 then 0 else 1;
    } else if !b2 && !b3 && o3 && (o0 || o1 || o2) {
      x, y, g, h := 2, 3, 3, if o0 then 0 else if o1 then 1 else 2;
    } else if !b0 && !b3 && o0 && (o1 || o2 || o3) {
      x, y, h, g := 0, 3, 0, if o1 then 1 else if o2 then 2 else 3;
    } else if !b0 && !b2 && (o1 || o2) && (o3 || o0) {
      x, y, g, h := 0, 2, if o1 then 1 else 2, if o3 then 3 else 0;
    } else {
      x, y, g, h := 1, 3, if o2 then 2 else 3, if o0 then 0 else 1;
    }
  }

  lemma BridgeEnds(N: set<Pixel>, c: Pixel)
    ensures forall g :: 0 <= g < 4 && Bridged(N, c, g) ==> Occupied(N, c, g) && Occupied(N, c, Next(g))
  {
  }

  /** The test that counts groups and bridges succeeds exactly when the neighbours hang together
      among themselves. */
  lemma OneComponentExact(E: set<Pixel>, c: Pixel)
    ensures OneComponent(E, c) <==> OnePiece(Ringed(E, c))
  {
    hide OneComponent, Connected;
    var N := Ringed(E, c);
    SameRing(E, c);
    if OneComponent(E, c) {
      OneComponentJoins(N, c);
      assert N - {c} == N;
    } else {
      var x, y, g, h := SomeCut(N, c);
      var p := GroupOccupied(N, c, g);
      var q := GroupOccupied(N, c, h);
      if Connected(N, p, q) {
        NotAcross(N, c, x, y, p, q);
      }
    }
  }

  lemma NotAcross(N: set<Pixel>, c: Pixel, x: int, y: int, p: Pixel, q: Pixel)
    requires Cut(N, c, x, y) && forall z :: z in N ==> Adjacent(z, c)
    requires p in N && q in N && x < GroupOf(c, p) <= y && Connected(N, p, q)
    ensures x < GroupOf(c, q) <= y
  {
    hide GroupOf, Cut;
    var path :| Joins(N, path, p, q);
    PathStaysInCut(N, c, x, y, path);
  }

  lemma SameRing(E: set<Pixel>, c: Pixel)
    ensures OneComponent(E, c) <==> OneComponent(Ringed(E, c), c)
  {
    forall k | 0 <= k < 8
      ensures Ring(c, k) in E <==> Ring(c, k) in Ringed(E, c)
    {
    }
  }
}
