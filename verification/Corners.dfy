/** Finding corners (susan.c): non-maximum suppression over a response image, in raster order. */
module Corners {
  import opened Grids
  import opened Usan

  const MAX_CORNERS := 150

  datatype Corner = Corner(y: int, x: int)

  // The source stops the program when the list would overflow.
  datatype Found = TooMany | List(corners: seq<Corner>)

  // Does (di, dj) come before the centre in raster order?
  predicate Before(di: int, dj: int) {
    di < 0 || (di == 0 && dj < 0)
  }

  // Strictly above everything earlier in the 7x7 window, at least as high as everything later
  predicate LocalMax(r: Grid, ghost ySize: nat, ghost xSize: nat, i: int, j: int)
    requires Rect(r, ySize, xSize) && Margin(ySize, xSize, i, j, 3)
  {
    && r[i][j] > 0
    && forall di, dj :: -3 <= di <= 3 && -3 <= dj <= 3 && (di != 0 || dj != 0) ==>
         if Before(di, dj) then r[i][j] > r[i + di][j + dj] else r[i][j] >= r[i + di][j + dj]
  }

  // Corners of row i in columns m to j-1
  function RowCorners(r: Grid, ghost ySize: nat, ghost xSize: nat, m: nat, i: int, j: int): (c: seq<Corner>)
    requires Rect(r, ySize, xSize) && m >= 3 && m <= i < ySize - m && m <= j && j <= xSize - m
    decreases j
  {
    if j == m then []
    else RowCorners(r, ySize, xSize, m, i, j - 1)
         + if LocalMax(r, ySize, xSize, i, j - 1) then [Corner(i, j - 1)] else []
  }

  // Corners of rows m to i-1
  function CornersAbove(r: Grid, ghost ySize: nat, xSize: nat, m: nat, i: int): (c: seq<Corner>)
    requires Rect(r, ySize, xSize) && m >= 3 && m <= i <= ySize - m && 2 * m <= xSize
    decreases i
  {
    if i == m then []
    else CornersAbove(r, ySize, xSize, m, i - 1) + RowCorners(r, ySize, xSize, m, i - 1, xSize - m)
  }

  function AllCorners(r: Grid, ySize: nat, xSize: nat, m: nat): seq<Corner>
    requires Rect(r, ySize, xSize) && m >= 3
  {
    if 2 * m <= ySize && 2 * m <= xSize then CornersAbove(r, ySize, xSize, m, ySize - m) else []
  }

  // ----- the list holds exactly the local maxima, in raster order

  predicate RasterBefore(a: Corner, b: Corner) {
    a.y < b.y || (a.y == b.y && a.x < b.x)
  }

  ghost predicate RasterSorted(c: seq<Corner>) {
    forall a, b :: 0 <= a < b < |c| ==> RasterBefore(c[a], c[b])
  }

  lemma {:induction false} RowCornersAre(r: Grid, ySize: nat, xSize: nat, m: nat, i: int, j: int)
    requires Rect(r, ySize, xSize) && m >= 3 && m <= i < ySize - m && m <= j && j <= xSize - m
    ensures var c := RowCorners(r, ySize, xSize, m, i, j);
            && RasterSorted(c)
            && (forall h :: 0 <= h < |c| ==> c[h].y == i && m <= c[h].x < j && LocalMax(r, ySize, xSize, i, c[h].x))
            && (forall x :: m <= x < j && LocalMax(r, ySize, xSize, i, x) ==> Corner(i, x) in c)
    decreases j
  {
    hide LocalMax;
    if j > m {
      RowCornersAre(r, ySize, xSize, m, i, j - 1);
    }
  }

  lemma {:induction false} CornersAboveAre(r: Grid, ySize: nat, xSize: nat, m: nat, i: int)
    requires Rect(r, ySize, xSize) && m >= 3 && m <= i <= ySize - m && 2 * m <= xSize
    ensures var c := CornersAbove(r, ySize, xSize, m, i);
            && RasterSorted(c)
            && (forall h :: 0 <= h < |c| ==>
                  m <= c[h].y < i && m <= c[h].x < xSize - m && LocalMax(r, ySize, xSize, c[h].y, c[h].x))
            && (forall y, x :: m <= y < i && m <= x < xSize - m && LocalMax(r, ySize, xSize, y, x) ==>
                  Corner(y, x) in c)
    decreases i
  {
    hide LocalMax, RowCorners, RasterSorted;
    if i == m {
      NoneIsSorted();
    } else {
      CornersAboveAre(r, ySize, xSize, m, i - 1);
      RowCornersAre(r, ySize, xSize, m, i - 1, xSize - m);
      var a, b := CornersAbove(r, ySize, xSize, m, i - 1), RowCorners(r, ySize, xSize, m, i - 1, xSize - m);
      RowsFollow(a, b, i - 1);
      assert forall y, x :: m <= y < i && m <= x < xSize - m && LocalMax(r, ySize, xSize, y, x) ==>
               Corner(y, x) in a || Corner(y, x) in b;
    }
  }

  lemma NoneIsSorted()
    ensures RasterSorted([])
  {
  }

  lemma RowsFollow(a: seq<Corner>, b: seq<Corner>, y: int)
    requires RasterSorted(a) && RasterSorted(b)
    requires forall h :: 0 <= h < |a| ==> a[h].y < y
    requires forall h :: 0 <= h < |b| ==> b[h].y == y
    ensures RasterSorted(a + b)
  {
  }

  // No pixel at most three rows and three columns away is higher, and none that comes earlier in
  // raster order is as high.
  ghost predicate Peak(r: Grid, ySize: nat, xSize: nat, y: int, x: int)
    requires Rect(r, ySize, xSize) && Margin(ySize, xSize, y, x, 3)
  {
    && r[y][x] > 0
    && forall h, k :: y - 3 <= h <= y + 3 && x - 3 <= k <= x + 3 ==>
         r[h][k] <= r[y][x] && (RasterBefore(Corner(h, k), Corner(y, x)) ==> r[h][k] < r[y][x])
  }

  // c lists the peaks inside the margin, in raster order.
  ghost predicate PeaksOf(r: Grid, ySize: nat, xSize: nat, m: nat, c: seq<Corner>)
    requires Rect(r, ySize, xSize) && m >= 3
  {
    && RasterSorted(c)
    && forall y, x :: Corner(y, x) in c <==> Margin(ySize, xSize, y, x, m) && Peak(r, ySize, xSize, y, x)
  }

  lemma LocalMaxIsPeak(r: Grid, ySize: nat, xSize: nat, y: int, x: int)
    requires Rect(r, ySize, xSize) && Margin(ySize, xSize, y, x, 3)
    ensures LocalMax(r, ySize, xSize, y, x) <==> Peak(r, ySize, xSize, y, x)
  {
    if LocalMax(r, ySize, xSize, y, x) {
      forall h, k | y - 3 <= h <= y + 3 && x - 3 <= k <= x + 3
        ensures r[h][k] <= r[y][x] && (RasterBefore(Corner(h, k), Corner(y, x)) ==> r[h][k] < r[y][x])
      {
        var di, dj := h - y, k - x;
        assert Before(di, dj) <==> RasterBefore(Corner(h, k), Corner(y, x));
        assert r[y + di][x + dj] == r[h][k];
      }
    }
    if Peak(r, ySize, xSize, y, x) {
      forall di, dj | -3 <= di <= 3 && -3 <= dj <= 3 && (di != 0 || dj != 0)
        ensures if Before(di, dj) then r[y][x] > r[y + di][x + dj] else r[y][x] >= r[y + di][x + dj]
      {
        assert Before(di, dj) <==> RasterBefore(Corner(y + di, x + dj), Corner(y, x));
      }
    }
  }

  /** The reported list is exactly the local maxima inside the margin, in raster order. */
  lemma AllCornersExact(r: Grid, ySize: nat, xSize: nat, m: nat)
    requires Rect(r, ySize, xSize) && m >= 3
    ensures PeaksOf(r, ySize, xSize, m, AllCorners(r, ySize, xSize, m))
  {
    hide LocalMax, CornersAbove, Peak;
    forall y, x | Margin(ySize, xSize, y, x, m)
      ensures LocalMax(r, ySize, xSize, y, x) <==> Peak(r, ySize, xSize, y, x)
    {
      LocalMaxIsPeak(r, ySize, xSize, y, x);
    }
    if 2 * m <= ySize && 2 * m <= xSize {
      CornersAboveAre(r, ySize, xSize, m, ySize - m);
    }
  }

  // ----- the suppression window works

  lemma Apart(r: Grid, ySize: nat, xSize: nat, y1: int, x1: int, y2: int, x2: int)
    requires Rect(r, ySize, xSize) && Margin(ySize, xSize, y1, x1, 3) && Margin(ySize, xSize, y2, x2, 3)
    requires LocalMax(r, ySize, xSize, y1, x1) && LocalMax(r, ySize, xSize, y2, x2)
    requires (y1, x1) != (y2, x2)
    ensures Abs(y1 - y2) > 3 || Abs(x1 - x2) > 3
  {
    assert Before(y2 - y1, x2 - x1) == !Before(y1 - y2, x1 - x2);
  }

  /** Any two reported corners are more than three apart in row or column. */
  lemma CornersApart(r: Grid, ySize: nat, xSize: nat, m: nat, a: nat, b: nat)
    requires Rect(r, ySize, xSize) && m >= 3
    requires a < b < |AllCorners(r, ySize, xSize, m)|
    ensures var c := AllCorners(r, ySize, xSize, m);
            Abs(c[a].y - c[b].y) > 3 || Abs(c[a].x - c[b].x) > 3
  {
    hide LocalMax, CornersAbove;
    var c := AllCorners(r, ySize, xSize, m);
    CornersAboveAre(r, ySize, xSize, m, ySize - m);
    Apart(r, ySize, xSize, c[a].y, c[a].x, c[b].y, c[b].x);
  }

  // Nothing outside the margin
  ghost predicate ZeroOutside(r: Grid, ySize: nat, xSize: nat, m: nat)
    requires Rect(r, ySize, xSize)
  {
    forall i, j :: 0 <= i < ySize && 0 <= j < xSize && !Margin(ySize, xSize, i, j, m) ==> r[i][j] == 0
  }

  // (i, j) holds the highest response of the image, and no earlier pixel is as high.
  ghost predicate FirstHighest(r: Grid, ySize: nat, xSize: nat, i: int, j: int)
    requires Rect(r, ySize, xSize) && 0 <= i < ySize && 0 <= j < xSize
  {
    forall y, x :: 0 <= y < ySize && 0 <= x < xSize ==>
      r[y][x] <= r[i][j] && (RasterBefore(Corner(y, x), Corner(i, j)) ==> r[y][x] < r[i][j])
  }

  lemma FirstHighestExists(r: Grid, ySize: nat, xSize: nat) returns (i: int, j: int)
    requires Rect(r, ySize, xSize) && ySize > 0 && xSize > 0
    ensures 0 <= i < ySize && 0 <= j < xSize && FirstHighest(r, ySize, xSize, i, j)
  {
    i, j := 0, 0;
    var y := 0;
    while y < ySize
      invariant 0 <= y <= ySize && 0 <= i < ySize && 0 <= j < xSize && (i < y || (i == 0 && j == 0))
      invariant forall h, k :: 0 <= h < y && 0 <= k < xSize ==>
                  r[h][k] <= r[i][j] && (RasterBefore(Corner(h, k), Corner(i, j)) ==> r[h][k] < r[i][j])
    {
      var x := 0;
      while x < xSize
        invariant 0 <= x <= xSize && 0 <= i < ySize && 0 <= j < xSize
        invariant i < y || (i == y && j < x) || (i == 0 && j == 0)
        invariant forall h, k :: 0 <= h < y && 0 <= k < xSize ==>
                    r[h][k] <= r[i][j] && (RasterBefore(Corner(h, k), Corner(i, j)) ==> r[h][k] < r[i][j])
        invariant forall k :: 0 <= k < x ==>
                    r[y][k] <= r[i][j] && (RasterBefore(Corner(y, k), Corner(i, j)) ==> r[y][k] < r[i][j])
      {
        if r[y][x] > r[i][j] {
          i, j := y, x;
        }
        x := x + 1;
      }
      y := y + 1;
    }
  }

  /** If any response is positive, the first of the highest pixels is reported. */
  lemma SomeCorner(r: Grid, ySize: nat, xSize: nat, m: nat, y: int, x: int) returns (i: int, j: int)
    requires Rect(r, ySize, xSize) && m >= 3 && ZeroOutside(r, ySize, xSize, m)
    requires Margin(ySize, xSize, y, x, m) && r[y][x] > 0
    ensures 0 <= i < ySize && 0 <= j < xSize && FirstHighest(r, ySize, xSize, i, j)
    ensures Corner(i, j) in AllCorners(r, ySize, xSize, m)
  {
    hide CornersAbove;
    i, j := FirstHighestExists(r, ySize, xSize);
    assert LocalMax(r, ySize, xSize, i, j);
    CornersAboveAre(r, ySize, xSize, m, ySize - m);
  }

  // ----- the loops

  method FindCorners(r: array2<int>, m: nat) returns (f: Found)
    requires m >= 3
    ensures var all := AllCorners(Snap(r), r.Length0, r.Length1, m);
            f == if |all| < MAX_CORNERS then List(all) else TooMany
    ensures f.List? ==> PeaksOf(Snap(r), r.Length0, r.Length1, m, f.corners)
  {
    hide LocalMax, RowCorners, CornersAbove, Snap, PeaksOf;
    ghost var g, ySize, xSize := Snap(r), r.Length0, r.Length1;
    AllCornersExact(g, ySize, xSize, m);
    var list: seq<Corner> := [];
    if r.Length0 < 2 * m || r.Length1 < 2 * m {
      return List([]);
    }
    var i := m;
    NoRows(g, ySize, xSize, m);
    while i < r.Length0 - m
      invariant m <= i <= r.Length0 - m
      invariant list == CornersAbove(g, ySize, xSize, m, i) && |list| < MAX_CORNERS
    {
      var j := m;
      ghost var above := list;
      NoColumns(g, ySize, xSize, m, i);
      while j < r.Length1 - m
        invariant m <= j <= r.Length1 - m
        invariant list == above + RowCorners(g, ySize, xSize, m, i, j) && |list| < MAX_CORNERS
      {
        NextColumn(g, ySize, xSize, m, i, j);
        var isCorner := IsLocalMax(r, i, j);
        if isCorner {
          list := list + [Corner(i, j)];
          if |list| == MAX_CORNERS {
            OverflowStays(g, ySize, xSize, m, i, j + 1);
            return TooMany;
          }
        }
        j := j + 1;
      }
      NextRow(g, ySize, xSize, m, i);
      i := i + 1;
    }
    return List(list);
  }

  // The 48 comparisons
  method IsLocalMax(r: array2<int>, i: int, j: int) returns (b: bool)
    requires Margin(r.Length0, r.Length1, i, j, 3)
    ensures b == LocalMax(Snap(r), r.Length0, r.Length1, i, j)
  {
    b := r[i, j] > 0 &&
         forall di, dj :: -3 <= di <= 3 && -3 <= dj <= 3 && (di != 0 || dj != 0) ==>
           if Before(di, dj) then r[i, j] > r[i + di, j + dj] else r[i, j] >= r[i + di, j + dj];
  }

  lemma NoRows(r: Grid, ySize: nat, xSize: nat, m: nat)
    requires Rect(r, ySize, xSize) && m >= 3 && 2 * m <= ySize && 2 * m <= xSize
    ensures CornersAbove(r, ySize, xSize, m, m) == []
  {
  }

  lemma NoColumns(r: Grid, ySize: nat, xSize: nat, m: nat, i: int)
    requires Rect(r, ySize, xSize) && m >= 3 && m <= i < ySize - m && 2 * m <= xSize
    ensures RowCorners(r, ySize, xSize, m, i, m) == []
  {
  }

  lemma NextColumn(r: Grid, ySize: nat, xSize: nat, m: nat, i: int, j: int)
    requires Rect(r, ySize, xSize) && m >= 3 && m <= i < ySize - m && m <= j && j < xSize - m
    ensures RowCorners(r, ySize, xSize, m, i, j + 1) ==
            RowCorners(r, ySize, xSize, m, i, j) + if LocalMax(r, ySize, xSize, i, j) then [Corner(i, j)] else []
  {
  }

  lemma NextRow(r: Grid, ySize: nat, xSize: nat, m: nat, i: int)
    requires Rect(r, ySize, xSize) && m >= 3 && m <= i < ySize - m && 2 * m <= xSize
    ensures CornersAbove(r, ySize, xSize, m, i + 1) ==
            CornersAbove(r, ySize, xSize, m, i) + RowCorners(r, ySize, xSize, m, i, xSize - m)
  {
  }

  lemma {:induction false} RowPrefix(r: Grid, ySize: nat, xSize: nat, m: nat, i: int, j: int, k: int)
    requires Rect(r, ySize, xSize) && m >= 3 && m <= i < ySize - m && m <= j <= k && k <= xSize - m
    ensures |RowCorners(r, ySize, xSize, m, i, j)| <= |RowCorners(r, ySize, xSize, m, i, k)|
    decreases k
  {
    if j < k {
      RowPrefix(r, ySize, xSize, m, i, j, k - 1);
    }
  }

  lemma {:induction false} RowsPrefix(r: Grid, ySize: nat, xSize: nat, m: nat, i: int, k: int)
    requires Rect(r, ySize, xSize) && m >= 3 && m <= i <= k && k <= ySize - m && 2 * m <= xSize
    ensures |CornersAbove(r, ySize, xSize, m, i)| <= |CornersAbove(r, ySize, xSize, m, k)|
    decreases k
  {
    if i < k {
      RowsPrefix(r, ySize, xSize, m, i, k - 1);
    }
  }

  // A partial list that is already too long stays too long.
  lemma OverflowStays(r: Grid, ySize: nat, xSize: nat, m: nat, i: int, j: int)
    requires Rect(r, ySize, xSize) && m >= 3 && m <= i < ySize - m && m <= j && j <= xSize - m
    ensures |CornersAbove(r, ySize, xSize, m, i)| + |RowCorners(r, ySize, xSize, m, i, j)|
            <= |CornersAbove(r, ySize, xSize, m, ySize - m)|
  {
    hide LocalMax, CornersAbove, RowCorners;
    RowPrefix(r, ySize, xSize, m, i, j, xSize - m);
    NextRow(r, ySize, xSize, m, i);
    RowsPrefix(r, ySize, xSize, m, i + 1, ySize - m);
  }

  // r holds the plain response of every pixel inside the margin, and zero outside.
  ghost predicate PlainResponses(img: Grid, lut: Lut, maxNo: int, r: Grid, ySize: nat, xSize: nat, m: nat)
    requires Rect(img, ySize, xSize) && Rect(r, ySize, xSize) && m >= 3
  {
    forall i, j :: 0 <= i < ySize && 0 <= j < xSize ==>
      if Margin(ySize, xSize, i, j, m) then ResponseIs(img, lut, maxNo, ySize, xSize, i, j, r[i][j]) else r[i][j] == 0
  }

  lemma PlainResponsesAre(img: Grid, lut: Lut, maxNo: int, r: Grid, ySize: nat, xSize: nat, m: nat)
    requires Rect(img, ySize, xSize) && Rect(r, ySize, xSize) && m >= 3
    requires forall i, j :: 0 <= i < ySize && 0 <= j < xSize ==>
               r[i][j] == if Margin(ySize, xSize, i, j, m)
                          then Response(img, lut, maxNo, ySize, xSize, i, j) else 0
    ensures PlainResponses(img, lut, maxNo, r, ySize, xSize, m)
  {
    hide Response, ResponseIs;
    forall i, j | 0 <= i < ySize && 0 <= j < xSize
      ensures if Margin(ySize, xSize, i, j, m) then ResponseIs(img, lut, maxNo, ySize, xSize, i, j, r[i][j])
              else r[i][j] == 0
    {
      if Margin(ySize, xSize, i, j, m) {
        ResponseExact(img, lut, maxNo, ySize, xSize, i, j);
      }
    }
  }

  /** susan_corners_quick: responses with margin 7, then suppression. */
  method CornersQuick(img: array2<int>, lut: Lut, maxNo: int) returns (r: array2<int>, f: Found)
    requires NonNegative(lut)
    ensures r.Length0 == img.Length0 && r.Length1 == img.Length1
    ensures forall i, j :: 0 <= i < r.Length0 && 0 <= j < r.Length1 ==>
              r[i, j] == if Margin(r.Length0, r.Length1, i, j, 7)
                         then Response(Snap(img), lut, maxNo, img.Length0, img.Length1, i, j) else 0
    ensures PlainResponses(Snap(img), lut, maxNo, Snap(r), r.Length0, r.Length1, 7)
    ensures ZeroOutside(Snap(r), r.Length0, r.Length1, 7)
    ensures var all := AllCorners(Snap(r), r.Length0, r.Length1, 7);
            f == if |all| < MAX_CORNERS then List(all) else TooMany
    ensures f.List? ==> PeaksOf(Snap(r), r.Length0, r.Length1, 7, f.corners)
  {
    hide Response, AllCorners, Snap, PeaksOf, ResponseIs;
    r := new int[img.Length0, img.Length1]((_, _) => 0);
    var i := 7;
    while i < img.Length0 - 7
      invariant 7 <= i
      invariant forall h, k :: 0 <= h < r.Length0 && 0 <= k < r.Length1 ==>
                  r[h, k] == if Margin(r.Length0, r.Length1, h, k, 7) && h < i
                             then Response(Snap(img), lut, maxNo, img.Length0, img.Length1, h, k) else 0
    {
      var j := 7;
      while j < img.Length1 - 7
        invariant 7 <= j
        invariant forall h, k :: 0 <= h < r.Length0 && 0 <= k < r.Length1 ==>
                    r[h, k] == if Margin(r.Length0, r.Length1, h, k, 7) && (h < i || (h == i && k < j))
                               then Response(Snap(img), lut, maxNo, img.Length0, img.Length1, h, k) else 0
      {
        var v := EarlyExitResponse(img, lut, maxNo, i, j);
        r[i, j] := v;
        j := j + 1;
      }
      i := i + 1;
    }
    PlainResponsesAre(Snap(img), lut, maxNo, Snap(r), r.Length0, r.Length1, 7);
    f := FindCorners(r, 7);
  }

  // r holds the full response of every pixel, written out in terms of the image.
  ghost predicate CornerResponses(img: Grid, lut: Lut, maxNo: int, r: Grid, ySize: nat, xSize: nat)
    requires Rect(img, ySize, xSize) && Rect(r, ySize, xSize)
  {
    forall i, j :: 0 <= i < ySize && 0 <= j < xSize ==>
      r[i][j] == if Margin(ySize, xSize, i, j, 5) && CornerAt(img, lut, maxNo, ySize, xSize, i, j)
                 then maxNo - (100 + DiscSum(Mass, img, lut, ySize, xSize, i, j)) else 0
  }

  lemma CornerResponsesAre(img: Grid, lut: Lut, maxNo: int, r: Grid, ySize: nat, xSize: nat)
    requires Rect(img, ySize, xSize) && Rect(r, ySize, xSize)
    requires forall i, j :: 0 <= i < ySize && 0 <= j < xSize ==>
               r[i][j] == if Margin(ySize, xSize, i, j, 5)
                          then CornerResponse(img, lut, maxNo, ySize, xSize, i, j) else 0
    ensures CornerResponses(img, lut, maxNo, r, ySize, xSize)
  {
    hide CornerResponse, CornerAt, DiscSum;
    forall i, j | 0 <= i < ySize && 0 <= j < xSize
      ensures r[i][j] == if Margin(ySize, xSize, i, j, 5) && CornerAt(img, lut, maxNo, ySize, xSize, i, j)
                         then maxNo - (100 + DiscSum(Mass, img, lut, ySize, xSize, i, j)) else 0
    {
      if Margin(ySize, xSize, i, j, 5) {
        CornerResponseExact(img, lut, maxNo, ySize, xSize, i, j);
      }
    }
  }

  /** susan_corners: full responses with margin 5, then suppression. */
  method SusanCorners(img: array2<int>, lut: Lut, maxNo: int) returns (r: array2<int>, f: Found)
    requires NonNegative(lut)
    ensures r.Length0 == img.Length0 && r.Length1 == img.Length1
    ensures forall i, j :: 0 <= i < r.Length0 && 0 <= j < r.Length1 ==>
              r[i, j] == if Margin(r.Length0, r.Length1, i, j, 5)
                         then CornerResponse(Snap(img), lut, maxNo, img.Length0, img.Length1, i, j) else 0
    ensures CornerResponses(Snap(img), lut, maxNo, Snap(r), r.Length0, r.Length1)
    ensures ZeroOutside(Snap(r), r.Length0, r.Length1, 5)
    ensures var all := AllCorners(Snap(r), r.Length0, r.Length1, 5);
            f == if |all| < MAX_CORNERS then List(all) else TooMany
    ensures f.List? ==> PeaksOf(Snap(r), r.Length0, r.Length1, 5, f.corners)
  {
    hide CornerResponse, Response, AllCorners, Snap, PeaksOf, CornerAt, DiscSum;
    r := new int[img.Length0, img.Length1]((_, _) => 0);
    var i := 5;
    while i < img.Length0 - 5
      invariant 5 <= i
      invariant forall h, k :: 0 <= h < r.Length0 && 0 <= k < r.Length1 ==>
                  r[h, k] == if Margin(r.Length0, r.Length1, h, k, 5) && h < i
                             then CornerResponse(Snap(img), lut, maxNo, img.Length0, img.Length1, h, k) else 0
    {
      var j := 5;
      while j < img.Length1 - 5
        invariant 5 <= j
        invariant forall h, k :: 0 <= h < r.Length0 && 0 <= k < r.Length1 ==>
                    r[h, k] == if Margin(r.Length0, r.Length1, h, k, 5) && (h < i || (h == i && k < j))
                               then CornerResponse(Snap(img), lut, maxNo, img.Length0, img.Length1, h, k) else 0
      {
        var v := FullResponse(img, lut, maxNo, i, j);
        r[i, j] := v;
        j := j + 1;
      }
      i := i + 1;
    }
    CornerResponsesAre(Snap(img), lut, maxNo, Snap(r), r.Length0, r.Length1);
    f := FindCorners(r, 5);
  }
}
