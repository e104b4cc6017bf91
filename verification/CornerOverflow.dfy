/** An image on which the merging of corner lists (susan-parallel/susan.c) leaves the shared list: no
    thread finds too many corners, all of them together do.

    In every fourth row runs of four equal pixels start at every eighth column; apart from them, pixels
    at most three rows and columns apart differ. The left end of each run is a corner. */
module CornerOverflow {
  import opened Grids
  import opened Usan
  import opened Corners
  import opened Barrier
  import opened Phases
  import opened WorkShares
  import opened ParallelCorners

  // Brightness table of a vanishing threshold
  function Exact(d: int): int {
    if d == 0 then 100 else 0
  }

  predicate OnRun(i: int, j: int) {
    i % 4 == 0 && j % 8 < 4
  }

  function Colour(i: int, j: int): (v: int)
    ensures 0 <= v < 64
  {
    8 * (i % 8) + if OnRun(i, j) then 0 else j % 8
  }

  function Pattern(y: nat, x: nat): (g: Grid)
    ensures Rect(g, y, x)
    ensures forall i, j :: 0 <= i < y && 0 <= j < x ==> g[i][j] == Colour(i, j)
  {
    seq(y, i requires 0 <= i < y => seq(x, j requires 0 <= j < x => Colour(i, j)))
  }

  // Which pixels at most three away have the same colour
  predicate Alike(i: int, j: int, dy: int, dx: int) {
    dy == 0 && OnRun(i, j) && 0 <= j % 8 + dx < 4
  }

  lemma SameColour(i: int, j: int, dy: int, dx: int)
    requires -3 <= dy <= 3 && -3 <= dx <= 3 && (dy != 0 || dx != 0)
    ensures Colour(i, j) == Colour(i + dy, j + dx) <==> Alike(i, j, dy, dx)
  {
    if dy != 0 {
      assert (i + dy) % 8 != i % 8;
    } else {
      assert (j + dx) % 8 != j % 8;
      assert 0 <= j % 8 + dx < 8 ==> (j + dx) % 8 == j % 8 + dx;
    }
  }

  lemma OffsetRange(k: nat)
    requires k < 36
    ensures -3 <= Usan.Offset(k).0 <= 3 && -3 <= Usan.Offset(k).1 <= 3 && Usan.Offset(k) != (0, 0)
    ensures Usan.Offset(k).0 == 0 <==> 15 <= k < 21
  {
  }

  lemma SimilarityIs(y: nat, x: nat, i: int, j: int, k: nat)
    requires Margin(y, x, i, j, 3) && k < 36
    ensures Similarity(Pattern(y, x), Exact, y, x, i, j, k) ==
            if Alike(i, j, Usan.Offset(k).0, Usan.Offset(k).1) then 100 else 0
  {
    hide Usan.Offset, Colour, Alike;
    OffsetRange(k);
    SameColour(i, j, Usan.Offset(k).0, Usan.Offset(k).1);
  }

  // Mask pixels that differ from the centre add nothing.
  lemma {:induction false} SumStays(m: Moment, y: nat, x: nat, i: int, j: int, a: nat, b: nat)
    requires Margin(y, x, i, j, 3) && a <= b <= 36
    requires forall k: nat :: a <= k < b ==> !Alike(i, j, Usan.Offset(k).0, Usan.Offset(k).1)
    ensures Sum(m, Pattern(y, x), Exact, y, x, i, j, b) == Sum(m, Pattern(y, x), Exact, y, x, i, j, a)
    decreases b
  {
    hide Usan.Offset, Colour, Alike, Pattern, Similarity, Coefficient;
    if a < b {
      SumStays(m, y, x, i, j, a, b - 1);
      SimilarityIs(y, x, i, j, b - 1);
    }
  }

  // Weight of the pixel dx columns away in the same row
  function Weight(m: Moment, dx: int): int {
    match m
    case Mass => 1
    case X => dx
    case XX => dx * dx
    case _ => 0
  }

  function Part(m: Moment, i: int, j: int, dx: int): int {
    if Alike(i, j, 0, dx) then 100 * Weight(m, dx) else 0
  }

  // Only the six mask pixels of the row itself count.
  lemma SumIs(m: Moment, y: nat, x: nat, i: int, j: int)
    requires Margin(y, x, i, j, 3)
    ensures Sum(m, Pattern(y, x), Exact, y, x, i, j, 36) ==
            Part(m, i, j, -3) + Part(m, i, j, -2) + Part(m, i, j, -1) +
            Part(m, i, j, 1) + Part(m, i, j, 2) + Part(m, i, j, 3)
  {
    hide Pattern, Similarity, Sum, Usan.Offset, Part, Alike;
    OtherRows(i, j);
    SumStays(m, y, x, i, j, 0, 15);
    SumStays(m, y, x, i, j, 21, 36);
    SumNone(m, Pattern(y, x), Exact, y, x, i, j);
    SumStep(m, y, x, i, j, 15);
    SumStep(m, y, x, i, j, 16);
    SumStep(m, y, x, i, j, 17);
    SumStep(m, y, x, i, j, 18);
    SumStep(m, y, x, i, j, 19);
    SumStep(m, y, x, i, j, 20);
  }

  lemma OtherRows(i: int, j: int)
    ensures forall k: nat :: k < 36 && !(15 <= k < 21) ==> !Alike(i, j, Usan.Offset(k).0, Usan.Offset(k).1)
  {
    forall k: nat | k < 36 && !(15 <= k < 21)
      ensures !Alike(i, j, Usan.Offset(k).0, Usan.Offset(k).1)
    {
      OffsetRange(k);
    }
  }

  lemma SumStep(m: Moment, y: nat, x: nat, i: int, j: int, k: nat)
    requires Margin(y, x, i, j, 3) && 15 <= k < 21
    ensures Sum(m, Pattern(y, x), Exact, y, x, i, j, k + 1) ==
            Sum(m, Pattern(y, x), Exact, y, x, i, j, k) + Part(m, i, j, if k < 18 then k - 18 else k - 17)
  {
    hide Pattern, Similarity, Alike;
    SimilarityIs(y, x, i, j, k);
    assert Usan.Offset(k) == (0, if k < 18 then k - 18 else k - 17);
  }

  // ----- responses

  lemma OffRun(y: nat, x: nat, maxNo: int, i: int, j: int)
    requires Margin(y, x, i, j, 3) && !OnRun(i, j)
    ensures CornerResponse(Pattern(y, x), Exact, maxNo, y, x, i, j) == 0
  {
    hide Pattern, Sum, AlongGradient;
    SumIs(Mass, y, x, i, j);
    SumIs(X, y, x, i, j);
    SumIs(Y, y, x, i, j);
  }

  lemma RunArea(y: nat, x: nat, i: int, j: int)
    requires Margin(y, x, i, j, 3) && OnRun(i, j)
    ensures Area(Pattern(y, x), Exact, y, x, i, j) == 400
  {
    hide Pattern, Sum;
    SumIs(Mass, y, x, i, j);
  }

  lemma AtMostRun(y: nat, x: nat, maxNo: int, i: int, j: int)
    requires Margin(y, x, i, j, 3) && maxNo > 400
    ensures CornerResponse(Pattern(y, x), Exact, maxNo, y, x, i, j) <= maxNo - 400
  {
    hide Pattern, Sum, AlongGradient, Area;
    if OnRun(i, j) {
      RunArea(y, x, i, j);
    } else {
      OffRun(y, x, maxNo, i, j);
    }
  }

  lemma LeftEnd(y: nat, x: nat, maxNo: int, i: int, j: int)
    requires Margin(y, x, i, j, 3) && maxNo > 400 && i % 4 == 0 && j % 8 == 0
    ensures CornerResponse(Pattern(y, x), Exact, maxNo, y, x, i, j) == maxNo - 400
  {
    hide Pattern, Sum, AlongGradient, Area;
    RunArea(y, x, i, j);
    SumIs(X, y, x, i, j);
    SumIs(Y, y, x, i, j);
    AlongRun(y, x, i, j);
  }

  lemma AlongRun(y: nat, x: nat, i: int, j: int)
    requires Margin(y, x, i, j, 3) && i % 4 == 0 && j % 8 == 0
    ensures AlongGradient(Pattern(y, x), Exact, y, x, i, j, 600, 0) == 300
  {
    hide GradientPixel, Pattern, Colour;
    GradientPixelExact(600, 0, 1, (0, 1));
    GradientPixelExact(600, 0, 2, (0, 2));
    GradientPixelExact(600, 0, 3, (0, 3));
    SameColour(i, j, 0, 1);
    SameColour(i, j, 0, 2);
    SameColour(i, j, 0, 3);
  }

  // ----- corners

  ghost predicate Patterned(z: Setup) {
    Ok(z) && z.img == Pattern(z.y, z.x) && z.lut == Exact && z.maxNo > 400
  }

  lemma LeftEndIsCorner(z: Setup, i: int, j: int)
    requires Patterned(z) && Margin(z.y, z.x, i, j, 5) && i % 4 == 0 && j % 8 == 0
    ensures LocalMax(Responses(z), z.y, z.x, i, j)
  {
    hide Pattern, CornerResponse, Responses;
    var r := Responses(z);
    LeftEnd(z.y, z.x, z.maxNo, i, j);
    forall di, dj | -3 <= di <= 3 && -3 <= dj <= 3 && (di != 0 || dj != 0)
      ensures if Before(di, dj) then r[i][j] > r[i + di][j + dj] else r[i][j] >= r[i + di][j + dj]
    {
      if Margin(z.y, z.x, i + di, j + dj, 5) {
        AtMostRun(z.y, z.x, z.maxNo, i + di, j + dj);
        if Before(di, dj) {
          BeforeIsOffRun(i, j, di, dj);
          OffRun(z.y, z.x, z.maxNo, i + di, j + dj);
        }
      }
    }
  }

  lemma BeforeIsOffRun(i: int, j: int, di: int, dj: int)
    requires i % 4 == 0 && j % 8 == 0 && -3 <= di <= 3 && -3 <= dj <= 3 && Before(di, dj)
    ensures !OnRun(i + di, j + dj)
  {
  }

  // At least b corners in the row up to column 8b
  lemma {:induction false} RowCount(z: Setup, i: int, b: nat)
    requires Patterned(z) && 5 <= i < z.y - 5 && i % 4 == 0 && b > 0 && 8 * b < z.x - 5
    ensures Ok(z) && |RowCorners(Responses(z), z.y, z.x, 5, i, 8 * b + 1)| >= b
    decreases b
  {
    hide Responses, LocalMax, RowCorners, Patterned, Ok;
    PatternedOk(z);
    var r, j := Responses(z), 8 * b;
    if b > 1 {
      RowCount(z, i, b - 1);
      RowPrefix(r, z.y, z.x, 5, i, 8 * (b - 1) + 1, j);
    }
    OneMore(z, i, j);
  }

  lemma PatternedOk(z: Setup)
    requires Patterned(z)
    ensures Ok(z)
  {
  }

  lemma OneMore(z: Setup, i: int, j: int)
    requires Patterned(z) && Margin(z.y, z.x, i, j, 5) && i % 4 == 0 && j % 8 == 0
    ensures |RowCorners(Responses(z), z.y, z.x, 5, i, j + 1)| == |RowCorners(Responses(z), z.y, z.x, 5, i, j)| + 1
  {
    hide Responses, LocalMax, RowCorners, Pattern;
    LeftEndIsCorner(z, i, j);
    NextColumn(Responses(z), z.y, z.x, 5, i, j);
  }

  // At least a * b corners up to row 4a + 4
  lemma {:induction false} Count(z: Setup, a: nat, b: nat)
    requires Patterned(z) && a > 0 && b > 0 && 4 * a + 4 < z.y - 5 && 8 * b < z.x - 5
    ensures Ok(z) && |CornersAbove(Responses(z), z.y, z.x, 5, 4 * a + 5)| >= a * b
    decreases a
  {
    hide Responses, LocalMax, RowCorners, CornersAbove, Patterned, Ok;
    PatternedOk(z);
    var r, i := Responses(z), 4 * a + 4;
    RowCount(z, i, b);
    RowPrefix(r, z.y, z.x, 5, i, 8 * b + 1, z.x - 5);
    NextRow(r, z.y, z.x, 5, i);
    if a > 1 {
      Count(z, a - 1, b);
      RowsPrefix(r, z.y, z.x, 5, 4 * (a - 1) + 5, i);
    }
    assert a * b == (a - 1) * b + b;
  }

  /** An image with a rows and b columns of runs has at least a * b corners. */
  lemma ManyCorners(z: Setup, a: nat, b: nat)
    requires Patterned(z) && a > 0 && b > 0 && 4 * a + 4 < z.y - 5 && 8 * b < z.x - 5
    ensures |Sequential(z)| >= a * b
  {
    hide Responses, CornersAbove;
    Count(z, a, b);
    RowsPrefix(Responses(z), z.y, z.x, 5, 4 * a + 5, z.y - 5);
  }

  // ----- one row for each thread

  lemma {:induction false} RowBound(r: Grid, y: nat, x: nat, i: int, j: int)
    requires Rect(r, y, x) && 5 <= i < y - 5 && 5 <= j <= x - 5
    ensures |RowCorners(r, y, x, 5, i, j)| <= j - 5
    decreases j
  {
    hide LocalMax;
    if j > 5 {
      RowBound(r, y, x, i, j - 1);
    }
  }

  lemma OneRowEach(z: Setup, t: nat)
    requires Ok(z) && t < z.P && z.P == Rows(z) && z.x >= 10
    ensures |OwnCorners(z, t)| <= z.x - 10
  {
    hide Responses, RowCorners;
    UnitBlocks(z.P, t);
    var r, i := Responses(z), Row(z, t, 0);
    assert Row(z, t, Share(z, t, 0)) == i + 1;
    assert Between(r, z.y, z.x, i, i) == [];
    assert OwnCorners(z, t) == [] + RowOf(r, z.y, z.x, i);
    if 5 <= i < z.y - 5 {
      RowBound(r, z.y, z.x, i, z.x - 5);
    }
  }

  lemma UnitBlocks(P: nat, t: nat)
    requires t < P
    ensures First(P, P, t) == t && End(P, P, t) == t + 1
  {
    assert P / P == 1 && P % P == 0;
  }

  // ----- memory

  // The responses are cleared, the list holds blank entries, and numbers lie behind it.
  function Blank(z: Setup): map<Loc, Cell> {
    (map i, j | 0 <= i < z.y && 0 <= j < z.x :: Resp(i, j) := Num(0)) +
    (map t | 0 <= t < z.P :: Ns(t) := Num(0)) +
    (map c | 0 <= c < z.cells :: Out(c) := if c < MAX_CORNERS then Entry(Corner(0, 0), 0) else Num(0))
  }

  lemma BlankIsReady(z: Setup)
    requires MAX_CORNERS <= z.cells
    ensures Phase0Ok(Shared(seq(z.P, _ => Local(0, [], 0)), Blank(z)), z) && OthersBehind(Blank(z), z)
  {
  }

  lemma SameSequential(z: Setup, cells: nat)
    requires Ok(z)
    ensures Ok(z.(cells := cells)) && Sequential(z.(cells := cells)) == Sequential(z)
  {
    hide CornerResponse, AllCorners;
    var g, h := Responses(z), Responses(z.(cells := cells));
    assert forall i :: 0 <= i < z.y ==> g[i] == h[i];
    assert g == h;
  }

  /** The list is left: with 60 threads, each of which finds at most 90 corners, some interleaving
      on an image of 70 rows and 100 columns ends with the memory behind the list overwritten. */
  lemma OverflowHappens() returns (z: Setup, init: Shared<Local, Loc, Cell>, schedule: seq<nat>)
    ensures Ok(z) && Phase0Ok(init, z) && OthersBehind(init.mem, z)
    ensures MAX_CORNERS <= |Sequential(z)| < z.cells
    ensures forall t: nat :: t < z.P ==> |OwnCorners(z, t)| < MAX_CORNERS
    ensures Interleaving(Merging(z), init, 2, schedule)
    ensures Finished(Merging(z), Reached(Merging(z), init, schedule), z.P, 2)
    ensures !NothingOverwritten(init.mem, Reached(Merging(z), init, schedule).mem, z)
  {
    hide Pattern, Sequential, OwnCorners, Merging, Reached, Interleaving, Finished, NothingOverwritten, Phase0Ok;
    hide OthersBehind, Blank, Bound;
    var z0 := Setup(70, 100, 60, Pattern(70, 100), Exact, 1850, 0);
    ManyCorners(z0, 15, 11);
    SameSequential(z0, |Sequential(z0)| + MAX_CORNERS + 1);
    z := z0.(cells := |Sequential(z0)| + MAX_CORNERS + 1);
    forall t: nat | t < z.P
      ensures |OwnCorners(z, t)| < MAX_CORNERS
    {
      OneRowEach(z, t);
    }
    init := Shared(seq(z.P, _ => Local(0, [], 0)), Blank(z));
    BlankIsReady(z);
    NoSteps(z, init);
    schedule := ParallelCornersEnd(z, init, []);
    MergingFitsExactly(z, init, schedule);
  }

  lemma NoSteps(z: Setup, init: Shared<Local, Loc, Cell>)
    requires Ok(z)
    ensures Interleaving(Merging(z), init, 2, [])
  {
  }
}
