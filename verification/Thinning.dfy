/** One step of susan_thin (susan.c) as a function of the edge map and the scan position.

    The edge map is a grid of numbers; a value below 8 marks an edge pixel, 100 marks none.
    The single-precision quotient that guards straightening is taken exactly. */
module Thinning {
  import opened Connectivity
  import opened Grids
  import opened SimplePoint

  // The edge map after marking or after any number of steps: values 1..6 or 100, and the edge
  // response is positive wherever there is an edge pixel.
  ghost predicate MapOk(mid: Grid, r: Grid, ySize: nat, xSize: nat) {
    && Rect(mid, ySize, xSize) && Rect(r, ySize, xSize)
    && forall i, j :: 0 <= i < ySize && 0 <= j < xSize ==>
         (1 <= mid[i][j] <= 6 && r[i][j] > 0) || mid[i][j] == 100
  }

  ghost function Edges(mid: Grid, ySize: nat, xSize: nat): set<Pixel>
    requires Rect(mid, ySize, xSize)
  {
    set i, j | 0 <= i < ySize && 0 <= j < xSize && mid[i][j] < 8 :: (i, j)
  }

  // The scan visits this part of the image.
  predicate Interior(ySize: nat, xSize: nat, i: int, j: int) {
    4 <= i < ySize - 4 && 4 <= j < xSize - 4
  }

  // Is there an edge pixel at this offset?
  function B(mid: Grid, i: int, j: int): int
    requires 0 <= i < |mid| && 0 <= j < |mid[i]|
  {
    if mid[i][j] < 8 then 1 else 0
  }

  ghost predicate Around(mid: Grid, ySize: nat, xSize: nat, i: int, j: int) {
    Rect(mid, ySize, xSize) && Interior(ySize, xSize, i, j)
  }

  function Neighbours(mid: Grid, ghost ySize: nat, ghost xSize: nat, i: int, j: int): int
    requires Around(mid, ySize, xSize, i, j)
  {
    B(mid, i - 1, j - 1) + B(mid, i - 1, j) + B(mid, i - 1, j + 1) +
    B(mid, i, j - 1) + B(mid, i, j + 1) +
    B(mid, i + 1, j - 1) + B(mid, i + 1, j) + B(mid, i + 1, j + 1)
  }

  // Edge map and loop variables after the body of the two scan loops
  datatype Outcome = Outcome(mid: Grid, i: int, j: int)

  function Back(mid: Grid, i: int, j: int): Outcome {
    Outcome(mid, if i < 4 then 4 else i, if j < 4 then 4 else j)
  }

  // ----- one neighbour: extend the line

  // Index in the 3x3 window, row by row, of the only neighbour
  function Present(mid: Grid, ghost ySize: nat, ghost xSize: nat, i: int, j: int): int
    requires Around(mid, ySize, xSize, i, j)
  {
    if mid[i - 1][j - 1] < 8 then 0
    else if mid[i - 1][j] < 8 then 1
    else if mid[i - 1][j + 1] < 8 then 2
    else if mid[i][j - 1] < 8 then 3
    else if mid[i][j + 1] < 8 then 5
    else if mid[i + 1][j - 1] < 8 then 6
    else if mid[i + 1][j] < 8 then 7
    else 8
  }

  // Directions close to the neighbour weigh nothing, the opposite one weighs most.
  function Weights(present: int): (w: seq<int>)
    ensures |w| == 9
  {
    match present
    case 0 => [0, 0, 2, 0, 0, 3, 2, 3, 4]
    case 1 => [0, 0, 0, 2, 0, 2, 3, 4, 3]
    case 2 => [2, 0, 0, 3, 0, 0, 4, 3, 2]
    case 3 => [0, 2, 3, 0, 0, 4, 0, 2, 3]
    case 5 => [3, 2, 0, 4, 0, 0, 3, 2, 0]
    case 6 => [2, 3, 4, 0, 0, 3, 0, 0, 2]
    case 7 => [3, 4, 3, 2, 0, 2, 0, 0, 0]
    case _ => [4, 3, 2, 3, 0, 0, 2, 0, 0]
  }

  // The responses in the 3x3 window, row by row
  function Window(r: Grid, ghost ySize: nat, ghost xSize: nat, i: int, j: int): (w: seq<int>)
    requires Around(r, ySize, xSize, i, j)
    ensures |w| == 9
    ensures forall k :: 0 <= k < 9 ==> w[k] == r[i + k / 3 - 1][j + k % 3 - 1]
  {
    [r[i - 1][j - 1], r[i - 1][j], r[i - 1][j + 1],
     r[i][j - 1], r[i][j], r[i][j + 1],
     r[i + 1][j - 1], r[i + 1][j], r[i + 1][j + 1]]
  }

  // The first of the highest scores, or 9 when none of the first n is positive
  function Highest(score: seq<int>, n: nat): (k: nat)
    requires n <= |score| <= 9
    ensures k == 9 || (k < n && score[k] > 0)
    ensures forall h :: 0 <= h < n ==> score[h] <= if k == 9 then 0 else score[k]
    ensures k != 9 ==> forall h :: 0 <= h < k ==> score[h] < score[k]
  {
    if n == 0 then 9
    else
      var k := Highest(score, n - 1);
      if score[n - 1] > (if k == 9 then 0 else score[k]) then n - 1 else k
  }

  function Scores(mid: Grid, r: Grid, ghost ySize: nat, ghost xSize: nat, i: int, j: int): (s: seq<int>)
    requires Around(mid, ySize, xSize, i, j) && Rect(r, ySize, xSize)
    ensures |s| == 9
  {
    Times(Window(r, ySize, xSize, i, j), Weights(Present(mid, ySize, xSize, i, j)))
  }

  function Times(w: seq<int>, f: seq<int>): (s: seq<int>)
    requires |w| == |f|
    ensures |s| == |w|
  {
    seq(|w|, k requires 0 <= k < |w| => w[k] * f[k])
  }

  function Extend(mid: Grid, r: Grid, ghost ySize: nat, ghost xSize: nat, i: int, j: int): Outcome
    requires Around(mid, ySize, xSize, i, j) && Rect(r, ySize, xSize)
  {
    var k := Highest(Scores(mid, r, ySize, xSize, i, j), 9);
    if k == 9 then Outcome(mid, i, j)
    else
      var a, b := k / 3, k % 3;
      var grown := Put(mid, i + a - 1, j + b - 1, if mid[i][j] < 4 then 4 else mid[i][j] + 1);
      if a + a + b < 3 then Back(grown, i + a - 1, j + b - 2) else Outcome(grown, i, j)
  }

  // ----- two neighbours: straighten, or clear an odd right angle

  // Offset (row, column) of the side that lies between the two corners
  function Side(mid: Grid, ghost ySize: nat, ghost xSize: nat, i: int, j: int): (o: (int, int))
    requires Around(mid, ySize, xSize, i, j)
    ensures o in {(-1, 0), (1, 0), (0, -1), (0, 1)}
  {
    if mid[i - 1][j - 1] < 8 then (if mid[i - 1][j + 1] < 8 then (-1, 0) else (0, -1))
    else if mid[i - 1][j + 1] < 8 then (0, 1) else (1, 0)
  }

  predicate Comparable(response: int, centre: int)
    requires centre != 0
  {
    response as real / centre as real > 0.7
  }

  // No edge pixel in the three places just beyond that side
  predicate BeyondClear(mid: Grid, ghost ySize: nat, ghost xSize: nat, i: int, j: int, y: int, x: int)
    requires Around(mid, ySize, xSize, i, j) && -1 <= y <= 1 && -1 <= x <= 1
  {
    (x == 0 && mid[i + 2 * y][j] > 7 && mid[i + 2 * y][j - 1] > 7 && mid[i + 2 * y][j + 1] > 7) ||
    (y == 0 && mid[i][j + 2 * x] > 7 && mid[i + 1][j + 2 * x] > 7 && mid[i - 1][j + 2 * x] > 7)
  }

  function Straighten(mid: Grid, r: Grid, ghost ySize: nat, ghost xSize: nat, i: int, j: int): Outcome
    requires Around(mid, ySize, xSize, i, j) && Rect(r, ySize, xSize) && r[i][j] != 0
  {
    var (y, x) := Side(mid, ySize, xSize, i, j);
    if Comparable(r[i + y][j + x], r[i][j]) && BeyondClear(mid, ySize, xSize, i, j, y, x)
    then Outcome(Put(Put(mid, i, j, 100), i + y, j + x, 3), i, j)
    else Outcome(mid, i, j)
  }

  predicate CornerPair(mid: Grid, ghost ySize: nat, ghost xSize: nat, i: int, j: int)
    requires Around(mid, ySize, xSize, i, j)
  {
    var b00, b02, b20, b22 :=
      mid[i - 1][j - 1] < 8, mid[i - 1][j + 1] < 8, mid[i + 1][j - 1] < 8, mid[i + 1][j + 1] < 8;
    Bit(b00) + Bit(b02) + Bit(b20) + Bit(b22) == 2 && (b00 || b22) && (b02 || b20)
  }

  predicate OddRightAngle(mid: Grid, ghost ySize: nat, ghost xSize: nat, i: int, j: int)
    requires Around(mid, ySize, xSize, i, j)
  {
    var b01, b12, b21, b10 := mid[i - 1][j] < 8, mid[i][j + 1] < 8, mid[i + 1][j] < 8, mid[i][j - 1] < 8;
    && Bit(b01) + Bit(b12) + Bit(b21) + Bit(b10) == 2
    && (b10 || b12) && (b01 || b21)
    && ((b01 && (mid[i - 2][j - 1] < 8 || mid[i - 2][j + 1] < 8)) ||
        (b10 && (mid[i - 1][j - 2] < 8 || mid[i + 1][j - 2] < 8)) ||
        (b12 && (mid[i - 1][j + 2] < 8 || mid[i + 1][j + 2] < 8)) ||
        (b21 && (mid[i + 2][j - 1] < 8 || mid[i + 2][j + 1] < 8)))
  }

  function Pair(mid: Grid, r: Grid, ghost ySize: nat, ghost xSize: nat, i: int, j: int): Outcome
    requires Around(mid, ySize, xSize, i, j) && Rect(r, ySize, xSize) && r[i][j] != 0
  {
    if CornerPair(mid, ySize, xSize, i, j) then Straighten(mid, r, ySize, xSize, i, j)
    else if OddRightAngle(mid, ySize, xSize, i, j) then Back(Put(mid, i, j, 100), i - 1, j - 2)
    else Outcome(mid, i, j)
  }

  // ----- more than two neighbours: thin

  predicate Removable(mid: Grid, ghost ySize: nat, ghost xSize: nat, i: int, j: int)
    requires Around(mid, ySize, xSize, i, j)
  {
    var b01, b12, b21, b10 := mid[i - 1][j] < 8, mid[i][j + 1] < 8, mid[i + 1][j] < 8, mid[i][j - 1] < 8;
    Bit(b01) + Bit(b12) + Bit(b21) + Bit(b10) > 1 &&
    (var b00, b02, b20, b22 :=
      mid[i - 1][j - 1] < 8, mid[i - 1][j + 1] < 8, mid[i + 1][j - 1] < 8, mid[i + 1][j + 1] < 8;
     var p1, p2, p3, p4 := b00 || b01, b02 || b12, b22 || b21, b20 || b10;
     (Bit(p1) + Bit(p2) + Bit(p3) + Bit(p4))
     - (Bit(b01 && p2) + Bit(b12 && p3) + Bit(b21 && p4) + Bit(b10 && p1)) < 2)
  }

  function Cluster(mid: Grid, ghost ySize: nat, ghost xSize: nat, i: int, j: int): Outcome
    requires Around(mid, ySize, xSize, i, j)
  {
    if Removable(mid, ySize, xSize, i, j) then Back(Put(mid, i, j, 100), i - 1, j - 2)
    else Outcome(mid, i, j)
  }

  // ----- the body of the scan

  function Body(mid: Grid, r: Grid, ghost ySize: nat, ghost xSize: nat, i: int, j: int): Outcome
    requires MapOk(mid, r, ySize, xSize) && Interior(ySize, xSize, i, j)
  {
    if mid[i][j] >= 8 then Outcome(mid, i, j)
    else
      var n := Neighbours(mid, ySize, xSize, i, j);
      if n == 0 then Outcome(Put(mid, i, j, 100), i, j)
      else if n == 1 then
        if mid[i][j] < 6 then Extend(mid, r, ySize, xSize, i, j) else Outcome(mid, i, j)
      else if n == 2 then Pair(mid, r, ySize, xSize, i, j)
      else Cluster(mid, ySize, xSize, i, j)
  }

  // ----- what each case does to the set of edge pixels

  lemma EdgesPut(mid: Grid, ySize: nat, xSize: nat, i: int, j: int, v: int)
    requires Rect(mid, ySize, xSize) && 0 <= i < ySize && 0 <= j < xSize
    ensures Rect(Put(mid, i, j, v), ySize, xSize)
    ensures Edges(Put(mid, i, j, v), ySize, xSize) ==
            if v < 8 then Edges(mid, ySize, xSize) + {(i, j)} else Edges(mid, ySize, xSize) - {(i, j)}
  {
    var E, p := Edges(mid, ySize, xSize), Put(mid, i, j, v);
    forall h, k | 0 <= h < ySize && 0 <= k < xSize
      ensures p[h][k] == if h == i && k == j then v else mid[h][k]
    {
    }
    assert forall q :: q in Edges(p, ySize, xSize) <==> (if q == (i, j) then v < 8 else q in E);
  }

  lemma MapOkPut(mid: Grid, r: Grid, ySize: nat, xSize: nat, i: int, j: int, v: int)
    requires MapOk(mid, r, ySize, xSize) && 0 <= i < ySize && 0 <= j < xSize
    requires v == 100 || (1 <= v <= 6 && r[i][j] > 0)
    ensures MapOk(Put(mid, i, j, v), r, ySize, xSize)
  {
    var p := Put(mid, i, j, v);
    forall h, k | 0 <= h < ySize && 0 <= k < xSize
      ensures (1 <= p[h][k] <= 6 && r[h][k] > 0) || p[h][k] == 100
    {
    }
  }

  lemma NoNeighbours(E: set<Pixel>, c: Pixel)
    requires forall k :: 0 <= k < 8 ==> Ring(c, k) !in E
    ensures forall a :: a in E ==> !Adjacent(a, c)
  {
    forall a | Adjacent(a, c)
      ensures a !in E
    {
      assert a == Ring(c, RingIndex(c, a));
    }
  }

  lemma RemoveIsolated(mid: Grid, ySize: nat, xSize: nat, i: int, j: int)
    requires Around(mid, ySize, xSize, i, j) && Neighbours(mid, ySize, xSize, i, j) == 0
    ensures Rect(Put(mid, i, j, 100), ySize, xSize)
    ensures KeepsConnected(Edges(mid, ySize, xSize), Edges(Put(mid, i, j, 100), ySize, xSize))
  {
    hide KeepsConnected;
    var E := Edges(mid, ySize, xSize);
    EdgesPut(mid, ySize, xSize, i, j, 100);
    NoNeighbours(E, (i, j));
    RemovingKeeps(E, E - {(i, j)}, (i, j));
  }

  // The target of an extension is not an edge pixel yet, and its response is positive.
  lemma ExtensionTarget(mid: Grid, r: Grid, ySize: nat, xSize: nat, i: int, j: int)
    requires MapOk(mid, r, ySize, xSize) && Interior(ySize, xSize, i, j)
    requires Neighbours(mid, ySize, xSize, i, j) == 1
    ensures var k := Highest(Scores(mid, r, ySize, xSize, i, j), 9);
            k != 9 ==> k != 4 && mid[i + k / 3 - 1][j + k % 3 - 1] == 100 && r[i + k / 3 - 1][j + k % 3 - 1] > 0
  {
    hide Present, Weights, Neighbours, Scores, Highest;
    var s, p := Scores(mid, r, ySize, xSize, i, j), Present(mid, ySize, xSize, i, j);
    var k := Highest(s, 9);
    if k != 9 {
      WeightRange(p, k);
      ScoreAt(mid, r, ySize, xSize, i, j, k);
      PositiveProduct(r[i + k / 3 - 1][j + k % 3 - 1], Weights(p)[k]);
      OnlyPresent(mid, ySize, xSize, i, j, k);
    }
  }

  lemma ScoreAt(mid: Grid, r: Grid, ySize: nat, xSize: nat, i: int, j: int, k: nat)
    requires Around(mid, ySize, xSize, i, j) && Rect(r, ySize, xSize) && k < 9
    ensures Scores(mid, r, ySize, xSize, i, j)[k]
            == r[i + k / 3 - 1][j + k % 3 - 1] * Weights(Present(mid, ySize, xSize, i, j))[k]
  {
    hide Present, Weights, Window;
  }

  lemma WeightRange(present: int, k: nat)
    requires k < 9
    ensures 0 <= Weights(present)[k] <= 4
  {
  }

  // So extending a line only adds a pixel.
  lemma ExtendAdds(mid: Grid, r: Grid, ySize: nat, xSize: nat, i: int, j: int)
    requires MapOk(mid, r, ySize, xSize) && Interior(ySize, xSize, i, j)
    requires mid[i][j] < 6 && Neighbours(mid, ySize, xSize, i, j) == 1
    ensures var o := Extend(mid, r, ySize, xSize, i, j);
            MapOk(o.mid, r, ySize, xSize) && Edges(mid, ySize, xSize) <= Edges(o.mid, ySize, xSize)
  {
    hide Scores, Highest, Neighbours, Edges, MapOk;
    MapOkAt(mid, r, ySize, xSize, i, j);
    var k := Highest(Scores(mid, r, ySize, xSize, i, j), 9);
    ExtensionTarget(mid, r, ySize, xSize, i, j);
    if k != 9 {
      var v := if mid[i][j] < 4 then 4 else mid[i][j] + 1;
      EdgesPut(mid, ySize, xSize, i + k / 3 - 1, j + k % 3 - 1, v);
      MapOkPut(mid, r, ySize, xSize, i + k / 3 - 1, j + k % 3 - 1, v);
    }
  }

  lemma PositiveProduct(a: int, w: int)
    requires a * w > 0 && w >= 0
    ensures a > 0 && w > 0
  {
  }

  lemma OnlyPresent(mid: Grid, ySize: nat, xSize: nat, i: int, j: int, k: nat)
    requires Around(mid, ySize, xSize, i, j) && k < 9
    requires Neighbours(mid, ySize, xSize, i, j) == 1
    requires Weights(Present(mid, ySize, xSize, i, j))[k] > 0
    ensures k != 4 && mid[i + k / 3 - 1][j + k % 3 - 1] >= 8
  {
  }

  // The pixel moves between the two corners that it connected.
  lemma StraightenKeeps(mid: Grid, r: Grid, ySize: nat, xSize: nat, i: int, j: int)
    requires MapOk(mid, r, ySize, xSize) && Interior(ySize, xSize, i, j) && mid[i][j] < 8
    requires Neighbours(mid, ySize, xSize, i, j) == 2 && CornerPair(mid, ySize, xSize, i, j)
    ensures var o := Straighten(mid, r, ySize, xSize, i, j);
            && MapOk(o.mid, r, ySize, xSize)
            && KeepsConnected(Edges(mid, ySize, xSize), Edges(o.mid, ySize, xSize))
            && Edges(mid, ySize, xSize) - {(i, j)} <= Edges(o.mid, ySize, xSize)
  {
    hide KeepsConnected, Edges, MapOk, CornerPair, Neighbours, Side, BeyondClear, Comparable;
    MapOkAt(mid, r, ySize, xSize, i, j);
    var (y, x) := Side(mid, ySize, xSize, i, j);
    if Straighten(mid, r, ySize, xSize, i, j).mid == mid {
      AddingKeeps(Edges(mid, ySize, xSize), Edges(mid, ySize, xSize));
    } else {
      PositiveQuotient(r[i + y][j + x], r[i][j]);
      MapOkPut(mid, r, ySize, xSize, i, j, 100);
      MapOkPut(Put(mid, i, j, 100), r, ySize, xSize, i + y, j + x, 3);
      EdgesPut(mid, ySize, xSize, i, j, 100);
      EdgesPut(Put(mid, i, j, 100), ySize, xSize, i + y, j + x, 3);
      BothBesideSide(mid, ySize, xSize, i, j);
      MovedBetween(Edges(mid, ySize, xSize), (i, j), y, x);
    }
  }

  lemma BothBesideSide(mid: Grid, ySize: nat, xSize: nat, i: int, j: int)
    requires Around(mid, ySize, xSize, i, j)
    requires Neighbours(mid, ySize, xSize, i, j) == 2 && CornerPair(mid, ySize, xSize, i, j)
    ensures var (y, x) := Side(mid, ySize, xSize, i, j);
            forall a :: a in Edges(mid, ySize, xSize) && Adjacent(a, (i, j)) ==> Adjacent(a, (i + y, j + x))
  {
    var (y, x) := Side(mid, ySize, xSize, i, j);
    forall a | a in Edges(mid, ySize, xSize) && Adjacent(a, (i, j))
      ensures Adjacent(a, (i + y, j + x))
    {
      assert a == Ring((i, j), RingIndex((i, j), a));
      RingBits(mid, ySize, xSize, i, j);
    }
  }

  lemma PositiveQuotient(a: int, c: int)
    requires c > 0 && Comparable(a, c)
    ensures a > 0
  {
    var q := a as real / c as real;
    assert q * c as real == a as real;
  }

  // Two corners of c on the same side, and nothing else around it: c may move to that side.
  lemma MovedBetween(E: set<Pixel>, c: Pixel, y: int, x: int)
    requires (y, x) != (0, 0)
    requires forall a :: a in E && Adjacent(a, c) ==> Adjacent(a, (c.0 + y, c.1 + x))
    ensures KeepsConnected(E, E - {c} + {(c.0 + y, c.1 + x)})
  {
    var m := (c.0 + y, c.1 + x);
    var F := E - {c} + {m};
    forall a, b | a in E && b in E && Adjacent(a, c) && Adjacent(b, c)
      ensures Connected(F, a, b)
    {
      ConnectedAdjacent(F, a, m);
      ConnectedStep(F, a, m, b);
    }
    RemovingKeeps(E, F, c);
  }

  // The two sides of a right angle touch each other diagonally.
  lemma RightAngleKeeps(mid: Grid, ySize: nat, xSize: nat, i: int, j: int)
    requires Around(mid, ySize, xSize, i, j)
    requires Neighbours(mid, ySize, xSize, i, j) == 2 && OddRightAngle(mid, ySize, xSize, i, j)
    ensures Rect(Put(mid, i, j, 100), ySize, xSize)
    ensures KeepsConnected(Edges(mid, ySize, xSize), Edges(Put(mid, i, j, 100), ySize, xSize))
  {
    hide KeepsConnected;
    var E, c := Edges(mid, ySize, xSize), (i, j);
    EdgesPut(mid, ySize, xSize, i, j, 100);
    assert OneComponent(E, c) by {
      RingBits(mid, ySize, xSize, i, j);
    }
    OneComponentJoins(E, c);
    RemovingKeeps(E, E - {c}, c);
  }

  lemma RingBits(mid: Grid, ySize: nat, xSize: nat, i: int, j: int)
    requires Around(mid, ySize, xSize, i, j)
    ensures var E := Edges(mid, ySize, xSize);
            && (Ring((i, j), 0) in E <==> mid[i - 1][j - 1] < 8) && (Ring((i, j), 1) in E <==> mid[i - 1][j] < 8)
            && (Ring((i, j), 2) in E <==> mid[i - 1][j + 1] < 8) && (Ring((i, j), 3) in E <==> mid[i][j + 1] < 8)
            && (Ring((i, j), 4) in E <==> mid[i + 1][j + 1] < 8) && (Ring((i, j), 5) in E <==> mid[i + 1][j] < 8)
            && (Ring((i, j), 6) in E <==> mid[i + 1][j - 1] < 8) && (Ring((i, j), 7) in E <==> mid[i][j - 1] < 8)
  {
  }

  lemma ThinKeeps(mid: Grid, ySize: nat, xSize: nat, i: int, j: int)
    requires Around(mid, ySize, xSize, i, j) && Removable(mid, ySize, xSize, i, j)
    ensures Rect(Put(mid, i, j, 100), ySize, xSize)
    ensures KeepsConnected(Edges(mid, ySize, xSize), Edges(Put(mid, i, j, 100), ySize, xSize))
  {
    hide KeepsConnected;
    var E, c := Edges(mid, ySize, xSize), (i, j);
    EdgesPut(mid, ySize, xSize, i, j, 100);
    assert OneComponent(E, c) by {
      RingBits(mid, ySize, xSize, i, j);
    }
    OneComponentJoins(E, c);
    RemovingKeeps(E, E - {c}, c);
  }

  // ----- the body keeps the map in order, the scan inside the image and survivors connected

  ghost predicate StepOk(mid: Grid, r: Grid, ySize: nat, xSize: nat, i: int, j: int, o: Outcome)
    requires MapOk(mid, r, ySize, xSize)
  {
    && MapOk(o.mid, r, ySize, xSize)
    && KeepsConnected(Edges(mid, ySize, xSize), Edges(o.mid, ySize, xSize))
    && Edges(mid, ySize, xSize) - {(i, j)} <= Edges(o.mid, ySize, xSize)
    && 4 <= o.i <= i && 4 <= o.j <= j + 1 && Interior(ySize, xSize, o.i, o.j)
  }

  lemma BodyOk(mid: Grid, r: Grid, ySize: nat, xSize: nat, i: int, j: int)
    requires MapOk(mid, r, ySize, xSize) && Interior(ySize, xSize, i, j)
    ensures StepOk(mid, r, ySize, xSize, i, j, Body(mid, r, ySize, xSize, i, j))
  {
    hide KeepsConnected, MapOk, Edges, Straighten, CornerPair, OddRightAngle, Removable, Scores, Neighbours;
    MapOkAt(mid, r, ySize, xSize, i, j);
    AddingKeeps(Edges(mid, ySize, xSize), Edges(mid, ySize, xSize));
    var n := Neighbours(mid, ySize, xSize, i, j);
    if mid[i][j] < 8 {
      MapOkPut(mid, r, ySize, xSize, i, j, 100);
      if n == 0 {
        RemoveIsolated(mid, ySize, xSize, i, j);
        EdgesPut(mid, ySize, xSize, i, j, 100);
      } else if n == 1 && mid[i][j] < 6 {
        ExtendAdds(mid, r, ySize, xSize, i, j);
        AddingKeeps(Edges(mid, ySize, xSize), Edges(Extend(mid, r, ySize, xSize, i, j).mid, ySize, xSize));
      } else if n == 2 && CornerPair(mid, ySize, xSize, i, j) {
        StraightenKeeps(mid, r, ySize, xSize, i, j);
        StraightenStays(mid, r, ySize, xSize, i, j);
      } else if n == 2 && OddRightAngle(mid, ySize, xSize, i, j) {
        RightAngleKeeps(mid, ySize, xSize, i, j);
        EdgesPut(mid, ySize, xSize, i, j, 100);
      } else if n > 2 && Removable(mid, ySize, xSize, i, j) {
        ThinKeeps(mid, ySize, xSize, i, j);
        EdgesPut(mid, ySize, xSize, i, j, 100);
      }
    }
  }

  lemma TwoNeighbours(mid: Grid, ySize: nat, xSize: nat, i: int, j: int) returns (a: Pixel, b: Pixel)
    requires Around(mid, ySize, xSize, i, j) && Neighbours(mid, ySize, xSize, i, j) >= 2
    ensures a != b && Adjacent(a, (i, j)) && Adjacent(b, (i, j))
    ensures a in Edges(mid, ySize, xSize) && b in Edges(mid, ySize, xSize)
  {
    hide Edges;
    RingBits(mid, ySize, xSize, i, j);
    var E, c := Edges(mid, ySize, xSize), (i, j);
    var k := if Ring(c, 0) in E then 0 else if Ring(c, 1) in E then 1 else if Ring(c, 2) in E then 2
             else if Ring(c, 3) in E then 3 else if Ring(c, 4) in E then 4 else if Ring(c, 5) in E then 5 else 6;
    var l := if Ring(c, 7) in E then 7 else if Ring(c, 6) in E then 6 else if Ring(c, 5) in E then 5
             else if Ring(c, 4) in E then 4 else if Ring(c, 3) in E then 3 else if Ring(c, 2) in E then 2 else 1;
    a, b := Ring(c, k), Ring(c, l);
  }

  lemma NoneAround(mid: Grid, ySize: nat, xSize: nat, i: int, j: int)
    requires Around(mid, ySize, xSize, i, j) && Neighbours(mid, ySize, xSize, i, j) == 0
    ensures Lone(Edges(mid, ySize, xSize), (i, j))
  {
    hide Edges;
    RingBits(mid, ySize, xSize, i, j);
    NoNeighbours(Edges(mid, ySize, xSize), (i, j));
  }

  // With one neighbour nothing is removed.
  lemma OneNeighbourStays(mid: Grid, r: Grid, ySize: nat, xSize: nat, i: int, j: int)
    requires MapOk(mid, r, ySize, xSize) && Interior(ySize, xSize, i, j)
    requires Neighbours(mid, ySize, xSize, i, j) == 1
    ensures MapOk(Body(mid, r, ySize, xSize, i, j).mid, r, ySize, xSize)
    ensures Edges(mid, ySize, xSize) <= Edges(Body(mid, r, ySize, xSize, i, j).mid, ySize, xSize)
  {
    hide MapOk, Edges, Neighbours, Extend;
    MapOkAt(mid, r, ySize, xSize, i, j);
    if mid[i][j] < 6 {
      ExtendAdds(mid, r, ySize, xSize, i, j);
    }
  }

  lemma RemovedLeavesPair(E: set<Pixel>, F: set<Pixel>, p: Pixel, a: Pixel, b: Pixel)
    requires p in E && E - {p} <= F && KeepsConnected(E, F)
    requires a != b && a in E && b in E && Adjacent(a, p) && Adjacent(b, p)
    ensures LeavesPair(E, F, p)
  {
    ConnectedAdjacent(E, a, p);
    ConnectedAdjacent(E, p, b);
    ConnectedTrans(E, a, p, b);
    assert Together(F, a, b);
  }

  // A step removes at most the pixel it looks at. Such a pixel was alone, or it leaves two
  // neighbours that are connected without it.
  lemma OnlyLonePixelsVanish(mid: Grid, r: Grid, ySize: nat, xSize: nat, i: int, j: int, p: Pixel)
    requires MapOk(mid, r, ySize, xSize) && Interior(ySize, xSize, i, j)
    requires p in Edges(mid, ySize, xSize)
    ensures MapOk(Body(mid, r, ySize, xSize, i, j).mid, r, ySize, xSize)
    ensures var E, F := Edges(mid, ySize, xSize), Edges(Body(mid, r, ySize, xSize, i, j).mid, ySize, xSize);
            p !in F ==> p == (i, j) && (Lone(E, p) || LeavesPair(E, F, p))
  {
    hide Body, Edges, Neighbours, KeepsConnected, Lone, LeavesPair;
    BodyOk(mid, r, ySize, xSize, i, j);
    MapOkAt(mid, r, ySize, xSize, i, j);
    var n := Neighbours(mid, ySize, xSize, i, j);
    if n == 0 {
      NoneAround(mid, ySize, xSize, i, j);
    } else if n == 1 {
      OneNeighbourStays(mid, r, ySize, xSize, i, j);
    } else {
      var a, b := TwoNeighbours(mid, ySize, xSize, i, j);
      var E, F := Edges(mid, ySize, xSize), Edges(Body(mid, r, ySize, xSize, i, j).mid, ySize, xSize);
      if p !in F {
        RemovedLeavesPair(E, F, p, a, b);
      }
    }
  }

  lemma MapOkAt(mid: Grid, r: Grid, ySize: nat, xSize: nat, i: int, j: int)
    requires MapOk(mid, r, ySize, xSize) && Interior(ySize, xSize, i, j)
    ensures Around(mid, ySize, xSize, i, j) && Rect(r, ySize, xSize)
    ensures mid[i][j] < 8 ==> r[i][j] > 0 && mid[i][j] >= 1
    ensures Neighbours(mid, ySize, xSize, i, j) >= 0
  {
  }

  lemma StraightenStays(mid: Grid, r: Grid, ySize: nat, xSize: nat, i: int, j: int)
    requires Around(mid, ySize, xSize, i, j) && Rect(r, ySize, xSize) && r[i][j] != 0
    ensures var o := Straighten(mid, r, ySize, xSize, i, j); o.i == i && o.j == j
  {
  }
}
