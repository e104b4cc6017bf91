/** What one step of susan_thin (susan.c) does, said in terms of the set of edge pixels and the
    eight neighbours of the visited one, and the proof that the loop body does exactly that. */
module ThinStep {
  import opened Connectivity
  import opened Grids
  import opened SimplePoint
  import opened Thinning

  // ----- the specification

  ghost predicate SharesSide(p: Pixel, c: Pixel) {
    p.0 == c.0 || p.1 == c.1
  }

  ghost predicate TwoSides(N: set<Pixel>, c: Pixel) {
    exists p, q :: p in N && q in N && p != q && SharesSide(p, c) && SharesSide(q, c)
  }

  // c + n * d + t * e, where d is a unit step along a row or a column and e the one across
  ghost function Reach(c: Pixel, d: Pixel, n: int, t: int): Pixel {
    (c.0 + n * d.0 + t * d.1, c.1 + n * d.1 + t * d.0)
  }

  ghost predicate Straight(d: Pixel) {
    d == (-1, 0) || d == (1, 0) || d == (0, -1) || d == (0, 1)
  }

  // The two neighbours are the corners on either side of c + d.
  ghost predicate CornersBeside(N: set<Pixel>, c: Pixel, d: Pixel) {
    Straight(d) && N == {Reach(c, d, 1, -1), Reach(c, d, 1, 1)}
  }

  // Nothing in the three places beyond c + d
  ghost predicate ClearBeyond(E: set<Pixel>, c: Pixel, d: Pixel) {
    Reach(c, d, 2, -1) !in E && Reach(c, d, 2, 0) !in E && Reach(c, d, 2, 1) !in E
  }

  // The two neighbours share a side with c, at a right angle.
  ghost predicate RightAngle(N: set<Pixel>, c: Pixel, d: Pixel, e: Pixel) {
    Straight(d) && Straight(e) && d.0 * e.0 + d.1 * e.1 == 0 && N == {Reach(c, d, 1, 0), Reach(c, e, 1, 0)}
  }

  // The line that leaves c towards d turns off behind c + d.
  ghost predicate TurnsOff(E: set<Pixel>, c: Pixel, d: Pixel) {
    Reach(c, d, 2, -1) in E || Reach(c, d, 2, 1) in E
  }

  /** How much a continuation of the line through c to p counts when the line comes from q: most
      straight on, less half a right angle off, least at a right angle, and not at all backwards. */
  ghost function Straightness(c: Pixel, q: Pixel, p: Pixel): int {
    Continuation((q.0 - c.0, q.1 - c.1), (p.0 - c.0, p.1 - c.1))
  }

  // The same for the two offsets from c
  ghost function Continuation(u: Pixel, v: Pixel): int {
    var a, b := u.0 + v.0, u.1 + v.1;
    if a == 0 && b == 0 then 4
    else if (a == 0 && -1 <= b <= 1) || (b == 0 && -1 <= a <= 1) then 3
    else if u.0 * v.0 + u.1 * v.1 == 0 then 2
    else 0
  }

  ghost predicate RasterBefore(p: Pixel, q: Pixel) {
    p.0 < q.0 || (p.0 == q.0 && p.1 < q.1)
  }

  ghost function Score(r: Grid, ySize: nat, xSize: nat, c: Pixel, q: Pixel, p: Pixel): int
    requires Around(r, ySize, xSize, c.0, c.1) && Adjacent(p, c)
  {
    r[p.0][p.1] * Straightness(c, q, p)
  }

  // p is the first of the neighbours of c with the highest score, and that score is positive.
  ghost predicate Best(r: Grid, ySize: nat, xSize: nat, c: Pixel, q: Pixel, p: Pixel)
    requires Around(r, ySize, xSize, c.0, c.1)
  {
    && Adjacent(p, c) && Score(r, ySize, xSize, c, q, p) > 0
    && forall z: Pixel :: Adjacent(z, c) ==>
         && Score(r, ySize, xSize, c, q, z) <= Score(r, ySize, xSize, c, q, p)
         && (RasterBefore(z, p) ==> Score(r, ySize, xSize, c, q, z) < Score(r, ySize, xSize, c, q, p))
  }

  ghost function Inside(v: int): int {
    if v < 4 then 4 else v
  }

  // The line that comes from q and ends at (i, j) grows by one pixel, if any is worth it.
  ghost predicate Grows(mid: Grid, r: Grid, ySize: nat, xSize: nat, i: int, j: int, q: Pixel, o: Outcome)
    requires Around(mid, ySize, xSize, i, j) && Around(r, ySize, xSize, i, j)
  {
    || ((forall z: Pixel :: Adjacent(z, (i, j)) ==> Score(r, ySize, xSize, (i, j), q, z) <= 0) &&
        o == Outcome(mid, i, j))
    || exists p: Pixel ::
         && Best(r, ySize, xSize, (i, j), q, p)
         && o.mid == Put(mid, p.0, p.1, if mid[i][j] < 4 then 4 else mid[i][j] + 1)
         && (if RasterBefore(p, (i, j)) then o.i == Inside(p.0) && o.j == Inside(p.1 - 1) else o.i == i && o.j == j)
  }

  ghost predicate Moves(mid: Grid, r: Grid, ySize: nat, xSize: nat, i: int, j: int, d: Pixel)
    requires Around(mid, ySize, xSize, i, j) && Around(r, ySize, xSize, i, j) && Straight(d)
  {
    10 * r[i + d.0][j + d.1] > 7 * r[i][j] && ClearBeyond(Edges(mid, ySize, xSize), (i, j), d)
  }

  ghost predicate IsCornerPair(N: set<Pixel>, c: Pixel) {
    exists d: Pixel :: CornersBeside(N, c, d)
  }

  ghost predicate IsOddAngle(E: set<Pixel>, N: set<Pixel>, c: Pixel) {
    exists d: Pixel, e: Pixel :: RightAngle(N, c, d, e) && TurnsOff(E, c, d)
  }

  /** One step at (i, j), by the number of neighbours that are edge pixels.  The outcome is the new
      map and the position from which the scan goes on. */
  ghost predicate Step(mid: Grid, r: Grid, ySize: nat, xSize: nat, i: int, j: int, o: Outcome)
    requires MapOk(mid, r, ySize, xSize) && Interior(ySize, xSize, i, j)
  {
    var E, c := Edges(mid, ySize, xSize), (i, j);
    var N := Ringed(E, c);
    var still := Outcome(mid, i, j);
    var gone := Outcome(Put(mid, i, j, 100), Inside(i - 1), Inside(j - 2));
    if c !in E then o == still
    else if |N| == 0 then o == Outcome(Put(mid, i, j, 100), i, j)
    else if |N| == 1 then
      if mid[i][j] < 6 then exists q: Pixel :: N == {q} && Grows(mid, r, ySize, xSize, i, j, q, o) else o == still
    else if |N| == 2 then
      if IsCornerPair(N, c) then
        exists d: Pixel ::
          && CornersBeside(N, c, d)
          && o == if Moves(mid, r, ySize, xSize, i, j, d)
                  then Outcome(Put(Put(mid, i, j, 100), i + d.0, j + d.1, 3), i, j) else still
      else o == if IsOddAngle(E, N, c) then gone else still
    else o == if TwoSides(N, c) && OnePiece(N) then gone else still
  }

  // ----- counting the neighbours

  ghost function RingedUpTo(E: set<Pixel>, c: Pixel, k: int): set<Pixel> {
    set p | p in E && Adjacent(p, c) && RingIndex(c, p) < k
  }

  lemma RingIndexIs(c: Pixel, z: Pixel, k: int)
    requires 0 <= k < 8 && Adjacent(z, c)
    ensures RingIndex(c, z) == k <==> z == Ring(c, k)
  {
  }

  lemma NextRinged(E: set<Pixel>, c: Pixel, k: int)
    requires 0 <= k < 8
    ensures |RingedUpTo(E, c, k + 1)| == |RingedUpTo(E, c, k)| + Bit(Ring(c, k) in E)
  {
    hide Ring, RingIndex, Adjacent;
    var p := Ring(c, k);
    forall z: Pixel | Adjacent(z, c)
      ensures RingIndex(c, z) == k <==> z == p
    {
      RingIndexIs(c, z, k);
    }
    assert RingedUpTo(E, c, k + 1) == RingedUpTo(E, c, k) + if p in E then {p} else {};
  }

  lemma RingedCount(E: set<Pixel>, c: Pixel)
    ensures |Ringed(E, c)| ==
            Bit(Ring(c, 0) in E) + Bit(Ring(c, 1) in E) + Bit(Ring(c, 2) in E) + Bit(Ring(c, 3) in E)
            + Bit(Ring(c, 4) in E) + Bit(Ring(c, 5) in E) + Bit(Ring(c, 6) in E) + Bit(Ring(c, 7) in E)
  {
    hide RingIndex, Ring;
    assert RingedUpTo(E, c, 0) == {};
    assert RingedUpTo(E, c, 8) == Ringed(E, c);
    NextRinged(E, c, 0);
    NextRinged(E, c, 1);
    NextRinged(E, c, 2);
    NextRinged(E, c, 3);
    NextRinged(E, c, 4);
    NextRinged(E, c, 5);
    NextRinged(E, c, 6);
    NextRinged(E, c, 7);
  }

  lemma NeighboursCount(mid: Grid, ySize: nat, xSize: nat, i: int, j: int)
    requires Around(mid, ySize, xSize, i, j)
    ensures Neighbours(mid, ySize, xSize, i, j) == |Ringed(Edges(mid, ySize, xSize), (i, j))|
  {
    hide Edges, Ring, Ringed;
    RingBits(mid, ySize, xSize, i, j);
    RingedCount(Edges(mid, ySize, xSize), (i, j));
  }

  // ----- more than two neighbours

  lemma RemovableExact(mid: Grid, ySize: nat, xSize: nat, i: int, j: int)
    requires Around(mid, ySize, xSize, i, j)
    ensures var N := Ringed(Edges(mid, ySize, xSize), (i, j));
            Removable(mid, ySize, xSize, i, j) <==> TwoSides(N, (i, j)) && OnePiece(N)
  {
    hide Edges, OnePiece, OneComponent, TwoSides, Ringed, Removable;
    var E, c := Edges(mid, ySize, xSize), (i, j);
    OneComponentExact(E, c);
    TwoSidesExact(E, c);
    RemovableCounts(mid, ySize, xSize, i, j);
  }

  lemma RemovableCounts(mid: Grid, ySize: nat, xSize: nat, i: int, j: int)
    requires Around(mid, ySize, xSize, i, j)
    ensures var E, c := Edges(mid, ySize, xSize), (i, j);
            Removable(mid, ySize, xSize, i, j) <==>
            Bit(Ring(c, 1) in E) + Bit(Ring(c, 3) in E) + Bit(Ring(c, 5) in E) + Bit(Ring(c, 7) in E) > 1 &&
            OneComponent(E, c)
  {
    hide Edges, Ring;
    RingBits(mid, ySize, xSize, i, j);
  }

  lemma TwoSidesExact(E: set<Pixel>, c: Pixel)
    ensures TwoSides(Ringed(E, c), c) <==>
            Bit(Ring(c, 1) in E) + Bit(Ring(c, 3) in E) + Bit(Ring(c, 5) in E) + Bit(Ring(c, 7) in E) > 1
  {
    var N := Ringed(E, c);
    var a, b, x, y := Ring(c, 1), Ring(c, 3), Ring(c, 5), Ring(c, 7);
    assert SharesSide(a, c) && SharesSide(b, c) && SharesSide(x, c) && SharesSide(y, c);
    assert forall p :: p in N && SharesSide(p, c) ==> p == a || p == b || p == x || p == y;
    assert (a in E <==> a in N) && (b in E <==> b in N) && (x in E <==> x in N) && (y in E <==> y in N);
  }

  // ----- one neighbour

  // Pixel k of the 3x3 window around (i, j), row by row
  ghost function InWindow(i: int, j: int, k: int): Pixel {
    (i + k / 3 - 1, j + k % 3 - 1)
  }

  ghost function WindowIndex(c: Pixel, p: Pixel): (k: int)
    requires Adjacent(p, c)
    ensures 0 <= k < 9 && k != 4 && InWindow(c.0, c.1, k) == p
  {
    3 * (p.0 - c.0 + 1) + (p.1 - c.1 + 1)
  }

  lemma WindowAdjacent(i: int, j: int, k: int)
    requires 0 <= k < 9 && k != 4
    ensures Adjacent(InWindow(i, j, k), (i, j)) && WindowIndex((i, j), InWindow(i, j, k)) == k
  {
  }

  // Row by row, the weights around a line end whose neighbour is at offset u
  ghost function WeightsFrom(u: Pixel): seq<int> {
    [Continuation(u, (-1, -1)), Continuation(u, (-1, 0)), Continuation(u, (-1, 1)),
     Continuation(u, (0, -1)), 0, Continuation(u, (0, 1)),
     Continuation(u, (1, -1)), Continuation(u, (1, 0)), Continuation(u, (1, 1))]
  }

  lemma CornerWeights()
    ensures WeightsFrom((-1, -1)) == [0, 0, 2, 0, 0, 3, 2, 3, 4]
    ensures WeightsFrom((-1, 1)) == [2, 0, 0, 3, 0, 0, 4, 3, 2]
    ensures WeightsFrom((1, -1)) == [2, 3, 4, 0, 0, 3, 0, 0, 2]
    ensures WeightsFrom((1, 1)) == [4, 3, 2, 3, 0, 0, 2, 0, 0]
  {
  }

  lemma SideWeights()
    ensures WeightsFrom((-1, 0)) == [0, 0, 0, 2, 0, 2, 3, 4, 3]
    ensures WeightsFrom((0, -1)) == [0, 2, 3, 0, 0, 4, 0, 2, 3]
    ensures WeightsFrom((0, 1)) == [3, 2, 0, 4, 0, 0, 3, 2, 0]
    ensures WeightsFrom((1, 0)) == [3, 4, 3, 2, 0, 2, 0, 0, 0]
  {
  }

  lemma WeightsTable(present: int)
    requires 0 <= present < 9 && present != 4
    ensures Weights(present) == WeightsFrom(InWindow(0, 0, present))
  {
    hide WeightsFrom;
    CornerWeights();
    SideWeights();
  }

  lemma WeightsFromAt(u: Pixel, k: int)
    requires 0 <= k < 9 && k != 4
    ensures WeightsFrom(u)[k] == Continuation(u, InWindow(0, 0, k))
  {
    hide Continuation;
  }

  // The source's table of weights is the angle to the neighbour that is present.
  lemma WeightsAre(i: int, j: int, present: int, k: int)
    requires 0 <= present < 9 && present != 4 && 0 <= k < 9 && k != 4
    ensures Weights(present)[k] == Straightness((i, j), InWindow(i, j, present), InWindow(i, j, k))
  {
    hide Continuation, Weights;
    WeightsTable(present);
    WeightsFromAt(InWindow(0, 0, present), k);
    SameOffset(i, j, present);
    SameOffset(i, j, k);
  }

  lemma SameOffset(i: int, j: int, k: int)
    ensures (InWindow(i, j, k).0 - i, InWindow(i, j, k).1 - j) == InWindow(0, 0, k)
  {
  }

  lemma PresentIs(mid: Grid, ySize: nat, xSize: nat, i: int, j: int, q: Pixel)
    requires Around(mid, ySize, xSize, i, j) && Ringed(Edges(mid, ySize, xSize), (i, j)) == {q}
    ensures var k := Present(mid, ySize, xSize, i, j); 0 <= k < 9 && k != 4 && InWindow(i, j, k) == q
  {
    var k := Present(mid, ySize, xSize, i, j);
    var l := WindowIndex((i, j), q);
    assert q in Ringed(Edges(mid, ySize, xSize), (i, j));
    assert mid[q.0][q.1] < 8;
    WindowAdjacent(i, j, k);
    assert InWindow(i, j, k) in Ringed(Edges(mid, ySize, xSize), (i, j)) by {
      PresentIsEdge(mid, ySize, xSize, i, j, l);
    }
  }

  lemma PresentIsEdge(mid: Grid, ySize: nat, xSize: nat, i: int, j: int, l: int)
    requires Around(mid, ySize, xSize, i, j) && 0 <= l < 9 && l != 4
    requires mid[InWindow(i, j, l).0][InWindow(i, j, l).1] < 8
    ensures var p := InWindow(i, j, Present(mid, ySize, xSize, i, j)); mid[p.0][p.1] < 8
  {
  }

  lemma ScoreIs(mid: Grid, r: Grid, ySize: nat, xSize: nat, i: int, j: int, q: Pixel, k: nat)
    requires Around(mid, ySize, xSize, i, j) && Rect(r, ySize, xSize) && k < 9
    requires Ringed(Edges(mid, ySize, xSize), (i, j)) == {q}
    ensures k != 4 ==> Scores(mid, r, ySize, xSize, i, j)[k] == Score(r, ySize, xSize, (i, j), q, InWindow(i, j, k))
    ensures k == 4 ==> Scores(mid, r, ySize, xSize, i, j)[k] == 0
  {
    hide Scores, Straightness, Edges, Ringed, Present;
    var present := Present(mid, ySize, xSize, i, j);
    PresentIs(mid, ySize, xSize, i, j, q);
    ScoreAt(mid, r, ySize, xSize, i, j, k);
    if k == 4 {
      CentreWeighsNothing(present);
    } else {
      hide Weights;
      WindowAdjacent(i, j, k);
      WeightsAre(i, j, present, k);
    }
  }

  lemma CentreWeighsNothing(present: int)
    ensures Weights(present)[4] == 0
  {
  }

  lemma NothingToGrow(mid: Grid, r: Grid, ySize: nat, xSize: nat, i: int, j: int, q: Pixel)
    requires Around(mid, ySize, xSize, i, j) && Rect(r, ySize, xSize)
    requires Ringed(Edges(mid, ySize, xSize), (i, j)) == {q}
    requires Highest(Scores(mid, r, ySize, xSize, i, j), 9) == 9
    ensures forall z: Pixel :: Adjacent(z, (i, j)) ==> Score(r, ySize, xSize, (i, j), q, z) <= 0
  {
    hide Scores, Highest, Edges, Ringed, Score;
    forall z: Pixel | Adjacent(z, (i, j))
      ensures Score(r, ySize, xSize, (i, j), q, z) <= 0
    {
      ScoreIs(mid, r, ySize, xSize, i, j, q, WindowIndex((i, j), z));
    }
  }

  lemma HighestIsBest(mid: Grid, r: Grid, ySize: nat, xSize: nat, i: int, j: int, q: Pixel)
    requires Around(mid, ySize, xSize, i, j) && Rect(r, ySize, xSize)
    requires Ringed(Edges(mid, ySize, xSize), (i, j)) == {q}
    ensures var k := Highest(Scores(mid, r, ySize, xSize, i, j), 9);
            k != 9 ==> Best(r, ySize, xSize, (i, j), q, InWindow(i, j, k))
  {
    hide Scores, Highest, Edges, Ringed, Score;
    var s := Scores(mid, r, ySize, xSize, i, j);
    var k := Highest(s, 9);
    if k != 9 {
      var p := InWindow(i, j, k);
      ScoreIs(mid, r, ySize, xSize, i, j, q, k);
      WindowAdjacent(i, j, k);
      forall z: Pixel | Adjacent(z, (i, j))
        ensures Score(r, ySize, xSize, (i, j), q, z) <= Score(r, ySize, xSize, (i, j), q, p)
        ensures RasterBefore(z, p) ==> Score(r, ySize, xSize, (i, j), q, z) < Score(r, ySize, xSize, (i, j), q, p)
      {
        var l := WindowIndex((i, j), z);
        ScoreIs(mid, r, ySize, xSize, i, j, q, l);
        WindowOrder(i, j, l, k);
      }
    }
  }

  lemma WindowOrder(i: int, j: int, k: int, l: int)
    requires 0 <= k < 9 && 0 <= l < 9
    ensures RasterBefore(InWindow(i, j, k), InWindow(i, j, l)) <==> k < l
  {
  }

  lemma ExtendGrows(mid: Grid, r: Grid, ySize: nat, xSize: nat, i: int, j: int, q: Pixel)
    requires Around(mid, ySize, xSize, i, j) && Rect(r, ySize, xSize)
    requires Ringed(Edges(mid, ySize, xSize), (i, j)) == {q}
    ensures Grows(mid, r, ySize, xSize, i, j, q, Extend(mid, r, ySize, xSize, i, j))
  {
    hide Scores, Highest, Edges, Ringed, Score, Best;
    var k := Highest(Scores(mid, r, ySize, xSize, i, j), 9);
    if k == 9 {
      NothingToGrow(mid, r, ySize, xSize, i, j, q);
    } else {
      HighestIsBest(mid, r, ySize, xSize, i, j, q);
      WindowOrder(i, j, k, 4);
      assert Best(r, ySize, xSize, (i, j), q, InWindow(i, j, k));
    }
  }

  // ----- two neighbours

  lemma RingedAre(mid: Grid, ySize: nat, xSize: nat, i: int, j: int, p: Pixel)
    requires Around(mid, ySize, xSize, i, j)
    ensures p in Ringed(Edges(mid, ySize, xSize), (i, j)) <==> Adjacent(p, (i, j)) && mid[p.0][p.1] < 8
  {
  }

  lemma SideOfCorners(mid: Grid, ySize: nat, xSize: nat, i: int, j: int)
    requires Around(mid, ySize, xSize, i, j)
    requires Neighbours(mid, ySize, xSize, i, j) == 2 && CornerPair(mid, ySize, xSize, i, j)
    ensures CornersBeside(Ringed(Edges(mid, ySize, xSize), (i, j)), (i, j), Side(mid, ySize, xSize, i, j))
  {
    hide Edges, Ringed;
    var N, c, d := Ringed(Edges(mid, ySize, xSize), (i, j)), (i, j), Side(mid, ySize, xSize, i, j);
    var M := {Reach(c, d, 1, -1), Reach(c, d, 1, 1)};
    forall p: Pixel
      ensures p in N <==> p in M
    {
      RingedAre(mid, ySize, xSize, i, j, p);
    }
    assert N == M;
  }

  lemma CornersOfSide(mid: Grid, ySize: nat, xSize: nat, i: int, j: int, d: Pixel)
    requires Around(mid, ySize, xSize, i, j)
    requires CornersBeside(Ringed(Edges(mid, ySize, xSize), (i, j)), (i, j), d)
    ensures CornerPair(mid, ySize, xSize, i, j) && Side(mid, ySize, xSize, i, j) == d
  {
    hide Edges, Ringed;
    RingedAre(mid, ySize, xSize, i, j, (i - 1, j - 1));
    RingedAre(mid, ySize, xSize, i, j, (i - 1, j + 1));
    RingedAre(mid, ySize, xSize, i, j, (i + 1, j - 1));
    RingedAre(mid, ySize, xSize, i, j, (i + 1, j + 1));
  }

  lemma ComparableExact(response: int, centre: int)
    requires centre > 0
    ensures Comparable(response, centre) <==> 10 * response > 7 * centre
  {
    var z, d := response as real / centre as real, centre as real;
    assert z * d == response as real;
    QuotientAbove(z, d, response as real);
  }

  lemma QuotientAbove(z: real, d: real, n: real)
    requires d > 0.0 && z * d == n
    ensures z > 0.7 <==> 10.0 * n > 7.0 * d
  {
    var e := z - 0.7;
    assert e > 0.0 <==> e * d > 0.0;
    assert e * d == n - 0.7 * d;
  }

  lemma ClearExact(mid: Grid, ySize: nat, xSize: nat, i: int, j: int, d: Pixel)
    requires Around(mid, ySize, xSize, i, j) && Straight(d)
    ensures BeyondClear(mid, ySize, xSize, i, j, d.0, d.1) <==> ClearBeyond(Edges(mid, ySize, xSize), (i, j), d)
  {
  }

  lemma AngleFound(mid: Grid, ySize: nat, xSize: nat, i: int, j: int, d: Pixel, e: Pixel)
    requires Around(mid, ySize, xSize, i, j) && Neighbours(mid, ySize, xSize, i, j) == 2
    requires Straight(d) && Straight(e) && d.0 * e.0 + d.1 * e.1 == 0
    requires mid[i + d.0][j + d.1] < 8 && mid[i + e.0][j + e.1] < 8
    ensures RightAngle(Ringed(Edges(mid, ySize, xSize), (i, j)), (i, j), d, e)
  {
    hide Edges, Ringed;
    var N, c := Ringed(Edges(mid, ySize, xSize), (i, j)), (i, j);
    var M := {Reach(c, d, 1, 0), Reach(c, e, 1, 0)};
    forall p: Pixel
      ensures p in N <==> p in M
    {
      RingedAre(mid, ySize, xSize, i, j, p);
    }
    assert N == M;
  }

  lemma TurnsOffExact(mid: Grid, ySize: nat, xSize: nat, i: int, j: int, d: Pixel)
    requires Around(mid, ySize, xSize, i, j) && Straight(d)
    ensures TurnsOff(Edges(mid, ySize, xSize), (i, j), d) <==>
            mid[i + 2 * d.0 - d.1][j + 2 * d.1 - d.0] < 8 || mid[i + 2 * d.0 + d.1][j + 2 * d.1 + d.0] < 8
  {
  }

  lemma OddAngleFound(mid: Grid, ySize: nat, xSize: nat, i: int, j: int)
    requires Around(mid, ySize, xSize, i, j)
    requires Neighbours(mid, ySize, xSize, i, j) == 2 && OddRightAngle(mid, ySize, xSize, i, j)
    ensures var E := Edges(mid, ySize, xSize); IsOddAngle(E, Ringed(E, (i, j)), (i, j))
  {
    hide Edges, Ringed, RightAngle, TurnsOff, Neighbours;
    var up, down, left, right := (-1, 0), (1, 0), (0, -1), (0, 1);
    var v := if mid[i - 1][j] < 8 then up else down;
    var h := if mid[i][j - 1] < 8 then left else right;
    AngleFound(mid, ySize, xSize, i, j, v, h);
    AngleFound(mid, ySize, xSize, i, j, h, v);
    TurnsOffExact(mid, ySize, xSize, i, j, v);
    TurnsOffExact(mid, ySize, xSize, i, j, h);
    if TurnsOff(Edges(mid, ySize, xSize), (i, j), v) {
      assert RightAngle(Ringed(Edges(mid, ySize, xSize), (i, j)), (i, j), v, h);
    } else {
      assert RightAngle(Ringed(Edges(mid, ySize, xSize), (i, j)), (i, j), h, v);
    }
  }

  lemma OddAngleNeeded(mid: Grid, ySize: nat, xSize: nat, i: int, j: int, d: Pixel, e: Pixel)
    requires Around(mid, ySize, xSize, i, j)
    requires RightAngle(Ringed(Edges(mid, ySize, xSize), (i, j)), (i, j), d, e)
    requires TurnsOff(Edges(mid, ySize, xSize), (i, j), d)
    ensures OddRightAngle(mid, ySize, xSize, i, j)
  {
    hide Edges, Ringed, TurnsOff;
    TurnsOffExact(mid, ySize, xSize, i, j, d);
    RingedAre(mid, ySize, xSize, i, j, (i - 1, j));
    RingedAre(mid, ySize, xSize, i, j, (i + 1, j));
    RingedAre(mid, ySize, xSize, i, j, (i, j - 1));
    RingedAre(mid, ySize, xSize, i, j, (i, j + 1));
  }

  lemma PairSteps(mid: Grid, r: Grid, ySize: nat, xSize: nat, i: int, j: int)
    requires MapOk(mid, r, ySize, xSize) && Interior(ySize, xSize, i, j) && mid[i][j] < 8
    requires Neighbours(mid, ySize, xSize, i, j) == 2
    ensures Step(mid, r, ySize, xSize, i, j, Pair(mid, r, ySize, xSize, i, j))
  {
    hide MapOk, Edges, Ringed, Neighbours, CornerPair, OddRightAngle, CornersBeside, RightAngle, TurnsOff, ClearBeyond,
      BeyondClear, Comparable, Side, OnePiece, TwoSides, Grows;
    MapOkAt(mid, r, ySize, xSize, i, j);
    VisitedIsEdge(mid, ySize, xSize, i, j);
    NeighboursCount(mid, ySize, xSize, i, j);
    var E, c := Edges(mid, ySize, xSize), (i, j);
    var N := Ringed(E, c);
    if CornerPair(mid, ySize, xSize, i, j) {
      var d := Side(mid, ySize, xSize, i, j);
      SideOfCorners(mid, ySize, xSize, i, j);
      ComparableExact(r[i + d.0][j + d.1], r[i][j]);
      ClearExact(mid, ySize, xSize, i, j, d);
      assert CornersBeside(N, c, d);
    } else {
      forall d: Pixel
        ensures !CornersBeside(N, c, d)
      {
        if CornersBeside(N, c, d) {
          CornersOfSide(mid, ySize, xSize, i, j, d);
        }
      }
      OddAngleExact(mid, ySize, xSize, i, j);
    }
  }

  lemma OddAngleExact(mid: Grid, ySize: nat, xSize: nat, i: int, j: int)
    requires Around(mid, ySize, xSize, i, j) && Neighbours(mid, ySize, xSize, i, j) == 2
    ensures var E := Edges(mid, ySize, xSize);
            OddRightAngle(mid, ySize, xSize, i, j) <==> IsOddAngle(E, Ringed(E, (i, j)), (i, j))
  {
    hide Edges, Ringed, RightAngle, TurnsOff, OddRightAngle;
    if OddRightAngle(mid, ySize, xSize, i, j) {
      OddAngleFound(mid, ySize, xSize, i, j);
    } else {
      var E, c := Edges(mid, ySize, xSize), (i, j);
      forall d: Pixel, e: Pixel
        ensures !(RightAngle(Ringed(E, c), c, d, e) && TurnsOff(E, c, d))
      {
        if RightAngle(Ringed(E, c), c, d, e) && TurnsOff(E, c, d) {
          OddAngleNeeded(mid, ySize, xSize, i, j, d, e);
        }
      }
    }
  }

  lemma VisitedIsEdge(mid: Grid, ySize: nat, xSize: nat, i: int, j: int)
    requires Rect(mid, ySize, xSize) && 0 <= i < ySize && 0 <= j < xSize
    ensures (i, j) in Edges(mid, ySize, xSize) <==> mid[i][j] < 8
  {
  }

  lemma Only(N: set<Pixel>) returns (q: Pixel)
    requires |N| == 1
    ensures N == {q}
  {
    q :| q in N;
    assert |N - {q}| == 0;
  }

  /** The body of the scan does exactly what a step is said to do. */
  lemma BodySteps(mid: Grid, r: Grid, ySize: nat, xSize: nat, i: int, j: int)
    requires MapOk(mid, r, ySize, xSize) && Interior(ySize, xSize, i, j)
    ensures Step(mid, r, ySize, xSize, i, j, Body(mid, r, ySize, xSize, i, j))
  {
    hide MapOk, Edges, Ringed, Neighbours, Extend, Pair, Removable, Grows, OnePiece, TwoSides, IsCornerPair, IsOddAngle;
    MapOkAt(mid, r, ySize, xSize, i, j);
    VisitedIsEdge(mid, ySize, xSize, i, j);
    NeighboursCount(mid, ySize, xSize, i, j);
    var n := Neighbours(mid, ySize, xSize, i, j);
    if mid[i][j] < 8 {
      if n == 1 {
        var q := Only(Ringed(Edges(mid, ySize, xSize), (i, j)));
        ExtendGrows(mid, r, ySize, xSize, i, j, q);
      } else if n == 2 {
        PairSteps(mid, r, ySize, xSize, i, j);
      } else if n > 2 {
        RemovableExact(mid, ySize, xSize, i, j);
      }
    }
  }

  // ----- a step has one outcome

  lemma OneBest(r: Grid, ySize: nat, xSize: nat, c: Pixel, q: Pixel, p: Pixel, z: Pixel)
    requires Around(r, ySize, xSize, c.0, c.1)
    requires Best(r, ySize, xSize, c, q, p) && Best(r, ySize, xSize, c, q, z)
    ensures p == z
  {
    hide Score;
    assert RasterBefore(p, z) || RasterBefore(z, p) || p == z;
  }

  lemma OneGrowth(mid: Grid, r: Grid, ySize: nat, xSize: nat, i: int, j: int, q: Pixel, o: Outcome, u: Outcome)
    requires Around(mid, ySize, xSize, i, j) && Around(r, ySize, xSize, i, j)
    requires Grows(mid, r, ySize, xSize, i, j, q, o) && Grows(mid, r, ySize, xSize, i, j, q, u)
    ensures o == u
  {
    hide Score;
    if p: Pixel, z: Pixel :| Best(r, ySize, xSize, (i, j), q, p) && Best(r, ySize, xSize, (i, j), q, z) && p != z {
      OneBest(r, ySize, xSize, (i, j), q, p, z);
    }
  }

  lemma OneSide(mid: Grid, ySize: nat, xSize: nat, i: int, j: int, d: Pixel, e: Pixel)
    requires Around(mid, ySize, xSize, i, j)
    requires CornersBeside(Ringed(Edges(mid, ySize, xSize), (i, j)), (i, j), d)
    requires CornersBeside(Ringed(Edges(mid, ySize, xSize), (i, j)), (i, j), e)
    ensures d == e
  {
    hide CornersBeside, Edges, Ringed;
    CornersOfSide(mid, ySize, xSize, i, j, d);
    CornersOfSide(mid, ySize, xSize, i, j, e);
  }

  /** The description leaves nothing open: it holds of the result of the body and of nothing else. */
  lemma StepExact(mid: Grid, r: Grid, ySize: nat, xSize: nat, i: int, j: int, o: Outcome)
    requires MapOk(mid, r, ySize, xSize) && Interior(ySize, xSize, i, j)
    ensures Step(mid, r, ySize, xSize, i, j, o) <==> o == Body(mid, r, ySize, xSize, i, j)
  {
    hide Body, Grows, Edges, Ringed, CornersBeside, IsOddAngle, TwoSides, OnePiece, Moves;
    var u := Body(mid, r, ySize, xSize, i, j);
    BodySteps(mid, r, ySize, xSize, i, j);
    MapOkAt(mid, r, ySize, xSize, i, j);
    var N := Ringed(Edges(mid, ySize, xSize), (i, j));
    if Step(mid, r, ySize, xSize, i, j, o) && (i, j) in Edges(mid, ySize, xSize) {
      if |N| == 1 && mid[i][j] < 6 {
        var q := Only(N);
        OneGrowth(mid, r, ySize, xSize, i, j, q, o, u);
      } else if |N| == 2 && IsCornerPair(N, (i, j)) {
        forall d: Pixel, e: Pixel | CornersBeside(N, (i, j), d) && CornersBeside(N, (i, j), e)
          ensures d == e
        {
          OneSide(mid, ySize, xSize, i, j, d, e);
        }
      }
    }
  }
}
