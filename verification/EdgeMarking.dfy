/** susan_edges (susan.c): edge response of every pixel, then marking of those that are highest
    across the edge, which is the map that susan_thin starts from.

    Square root and single-precision quotients are taken exactly. */
module EdgeMarking {
  import opened Grids
  import opened Usan
  import opened Thinning
  import opened ThinScan

  datatype Mark = Mark(a: int, b: int, value: int)

  // The distance of the centre of gravity from the pixel exceeds 0.9 of the area.
  predicate FarOut(x: int, y: int, n: int) {
    100 * (x * x + y * y) > 81 * (n * n)
  }

  function Ratio(p: int, q: int): real {
    if q == 0 then 1000000.0 else p as real / q as real
  }

  // Row and column step across the edge, and the value that a mark would get
  function AcrossEdge(img: Grid, lut: Lut, ghost ySize: nat, ghost xSize: nat, n: int, i: int, j: int): (d: Mark)
    requires Rect(img, ySize, xSize) && Margin(ySize, xSize, i, j, 3)
    ensures -1 <= d.a <= 1 && 0 <= d.b <= 1 && (d.a != 0 || d.b != 0)
    ensures d.value == 1 || d.value == 2
  {
    var x, y := Sum(X, img, lut, ySize, xSize, i, j, 36), Sum(Y, img, lut, ySize, xSize, i, j, 36);
    if n > 600 && FarOut(x, y, n) then Towards(x, y)
    else AlongSpread(Sum(XX, img, lut, ySize, xSize, i, j, 36), Sum(YY, img, lut, ySize, xSize, i, j, 36),
                     Sum(XY, img, lut, ySize, xSize, i, j, 36))
  }

  function Towards(x: int, y: int): (d: Mark)
    ensures -1 <= d.a <= 1 && 0 <= d.b <= 1 && (d.a != 0 || d.b != 0) && d.value == 1
  {
    var z := Ratio(y, x);
    var size := if z < 0.0 then -z else z;
    if size < 0.5 then Mark(0, 1, 1)
    else if size > 2.0 then Mark(1, 0, 1)
    else if z < 0.0 then Mark(-1, 1, 1) else Mark(1, 1, 1)
  }

  function AlongSpread(xx: int, yy: int, xy: int): (d: Mark)
    ensures -1 <= d.a <= 1 && 0 <= d.b <= 1 && (d.a != 0 || d.b != 0) && d.value == 2
  {
    var z := Ratio(xx, yy);
    if z < 0.5 then Mark(0, 1, 2)
    else if z > 2.0 then Mark(1, 0, 2)
    else if xy > 0 then Mark(-1, 1, 2) else Mark(1, 1, 2)
  }

  // ----- the direction in integers, over the moments of the image

  // From the centre of gravity (x, y): along the longer component, diagonally if neither is twice
  // the other.
  ghost predicate AcrossGravity(x: int, y: int, d: Mark) {
    && d.value == 1
    && (d.a == 0 && d.b == 1 <==> 2 * Abs(y) < Abs(x))
    && (d.a == 1 && d.b == 0 <==> Abs(y) > 2 * Abs(x))
    && (d.a == 1 && d.b == 1 <==> Abs(x) <= 2 * Abs(y) && Abs(y) <= 2 * Abs(x) && (x < 0 <==> y < 0))
    && (d.a == -1 && d.b == 1 <==> Abs(x) <= 2 * Abs(y) && Abs(y) <= 2 * Abs(x) && (x < 0 <==> y > 0))
  }

  // From the second moments, which a non-negative table makes non-negative; the source's quotient
  // is large if yy is zero.
  ghost predicate AcrossSpread(xx: int, yy: int, xy: int, d: Mark) {
    && d.value == 2
    && (d.a == 0 && d.b == 1 <==> (yy > 0 && 2 * xx < yy) || (yy < 0 && 2 * xx > yy))
    && (d.a == 1 && d.b == 0 <==> yy == 0 || (yy > 0 && xx > 2 * yy) || (yy < 0 && xx < 2 * yy))
    && (d.b == 1 && d.a != 0 ==> d.a == if xy > 0 then -1 else 1)
    && (d.b == 0 ==> d.a == 1) && 0 <= d.b <= 1 && -1 <= d.a <= 1
  }

  ghost predicate Across(img: Grid, lut: Lut, ySize: nat, xSize: nat, n: int, i: int, j: int, d: Mark)
    requires Rect(img, ySize, xSize) && Margin(ySize, xSize, i, j, 3)
  {
    var x, y := DiscSum(X, img, lut, ySize, xSize, i, j), DiscSum(Y, img, lut, ySize, xSize, i, j);
    if n > 600 && 100 * (x * x + y * y) > 81 * (n * n) then AcrossGravity(x, y, d)
    else AcrossSpread(DiscSum(XX, img, lut, ySize, xSize, i, j), DiscSum(YY, img, lut, ySize, xSize, i, j),
                      DiscSum(XY, img, lut, ySize, xSize, i, j), d)
  }

  lemma RatioBelow(p: int, q: int, c: real)
    requires q > 0
    ensures Ratio(p, q) < c <==> p as real < c * q as real
    ensures Ratio(p, q) > c <==> p as real > c * q as real
  {
    var z, d := Ratio(p, q), q as real;
    assert z * d == p as real;
    SignOfProduct(z - c, d);
    assert (z - c) * d == p as real - c * d;
  }

  lemma RatioFlip(p: int, q: int)
    requires q != 0
    ensures Ratio(p, q) == Ratio(-p, -q)
  {
    var z := Ratio(p, q);
    assert z * q as real == p as real;
    assert z * (-q) as real == (-p) as real;
  }

  lemma RatioBounds(p: int, q: int)
    requires q > 0
    ensures Ratio(p, q) < 0.0 <==> p < 0
    ensures Ratio(p, q) < 0.5 <==> 2 * p < q
    ensures Ratio(p, q) > 2.0 <==> p > 2 * q
    ensures Ratio(p, q) > -0.5 <==> 2 * p > -q
    ensures Ratio(p, q) < -2.0 <==> p < -2 * q
  {
    hide Ratio;
    RatioBelow(p, q, 0.0);
    RatioBelow(p, q, 0.5);
    RatioBelow(p, q, 2.0);
    RatioBelow(p, q, -0.5);
    RatioBelow(p, q, -2.0);
  }

  lemma GravityExact(x: int, y: int)
    requires x != 0 || y != 0
    ensures AcrossGravity(x, y, Towards(x, y))
  {
    if x > 0 {
      hide Ratio;
      RatioBounds(y, x);
    } else if x < 0 {
      hide Ratio;
      RatioFlip(y, x);
      RatioBounds(-y, -x);
    }
  }

  lemma SpreadExact(xx: int, yy: int, xy: int)
    ensures AcrossSpread(xx, yy, xy, AlongSpread(xx, yy, xy))
  {
    if yy > 0 {
      hide Ratio;
      RatioBounds(xx, yy);
    } else if yy < 0 {
      hide Ratio;
      RatioFlip(xx, yy);
      RatioBounds(-xx, -yy);
    }
  }

  lemma AcrossExact(img: Grid, lut: Lut, ySize: nat, xSize: nat, n: int, i: int, j: int)
    requires Rect(img, ySize, xSize) && Margin(ySize, xSize, i, j, 3)
    ensures Across(img, lut, ySize, xSize, n, i, j, AcrossEdge(img, lut, ySize, xSize, n, i, j))
  {
    hide Sum, DiscSum, AcrossGravity, AcrossSpread, Towards, AlongSpread;
    SumIsDisc(X, img, lut, ySize, xSize, i, j);
    SumIsDisc(Y, img, lut, ySize, xSize, i, j);
    SumIsDisc(XX, img, lut, ySize, xSize, i, j);
    SumIsDisc(YY, img, lut, ySize, xSize, i, j);
    SumIsDisc(XY, img, lut, ySize, xSize, i, j);
    var x, y := DiscSum(X, img, lut, ySize, xSize, i, j), DiscSum(Y, img, lut, ySize, xSize, i, j);
    if n > 600 && FarOut(x, y, n) {
      OffCentre(x, y, n);
      GravityExact(x, y);
    } else {
      SpreadExact(DiscSum(XX, img, lut, ySize, xSize, i, j), DiscSum(YY, img, lut, ySize, xSize, i, j),
                  DiscSum(XY, img, lut, ySize, xSize, i, j));
    }
  }

  lemma OffCentre(x: int, y: int, n: int)
    requires FarOut(x, y, n)
    ensures x != 0 || y != 0
  {
    assert n * n >= 0;
  }

  // ----- laws about images

  // Odd moments vanish where pixels do not depend on the row, or not on the column.
  lemma ColumnsBalance(img: Grid, lut: Lut, ySize: nat, xSize: nat, i: int, j: int)
    requires Rect(img, ySize, xSize) && Margin(ySize, xSize, i, j, 3)
    requires forall h, k :: i - 3 <= h <= i + 3 && j - 3 <= k <= j + 3 ==> img[h][k] == img[i][k]
    ensures DiscSum(Y, img, lut, ySize, xSize, i, j) == 0
  {
    hide Term;
    forall dy, dx | -3 <= dy <= 3 && -3 <= dx <= 3
      ensures Term(Y, img, lut, ySize, xSize, i, j, dy, dx) == -Term(Y, img, lut, ySize, xSize, i, j, -dy, dx)
    {
      MirroredRow(img, lut, ySize, xSize, i, j, dy, dx);
    }
  }

  lemma MirroredRow(img: Grid, lut: Lut, ySize: nat, xSize: nat, i: int, j: int, dy: int, dx: int)
    requires Rect(img, ySize, xSize) && Margin(ySize, xSize, i, j, 3) && -3 <= dy <= 3 && -3 <= dx <= 3
    requires img[i + dy][j + dx] == img[i][j + dx] == img[i - dy][j + dx]
    ensures Term(Y, img, lut, ySize, xSize, i, j, dy, dx) == -Term(Y, img, lut, ySize, xSize, i, j, -dy, dx)
  {
    assert (-dy) * (-dy) == dy * dy;
  }

  lemma RowsBalance(img: Grid, lut: Lut, ySize: nat, xSize: nat, i: int, j: int)
    requires Rect(img, ySize, xSize) && Margin(ySize, xSize, i, j, 3)
    requires forall h, k :: i - 3 <= h <= i + 3 && j - 3 <= k <= j + 3 ==> img[h][k] == img[h][j]
    ensures DiscSum(X, img, lut, ySize, xSize, i, j) == 0
  {
    hide Term;
    forall dy, dx | -3 <= dy <= 3 && -3 <= dx <= 3
      ensures Term(X, img, lut, ySize, xSize, i, j, dy, dx) == -Term(X, img, lut, ySize, xSize, i, j, dy, -dx)
    {
      MirroredColumn(img, lut, ySize, xSize, i, j, dy, dx);
    }
  }

  lemma MirroredColumn(img: Grid, lut: Lut, ySize: nat, xSize: nat, i: int, j: int, dy: int, dx: int)
    requires Rect(img, ySize, xSize) && Margin(ySize, xSize, i, j, 3) && -3 <= dy <= 3 && -3 <= dx <= 3
    requires img[i + dy][j + dx] == img[i + dy][j] == img[i + dy][j - dx]
    ensures Term(X, img, lut, ySize, xSize, i, j, dy, dx) == -Term(X, img, lut, ySize, xSize, i, j, dy, -dx)
  {
    assert (-dx) * (-dx) == dx * dx;
  }

  // The centre of gravity decides.
  ghost predicate ByGravity(img: Grid, lut: Lut, ySize: nat, xSize: nat, n: int, i: int, j: int)
    requires Rect(img, ySize, xSize) && Margin(ySize, xSize, i, j, 3)
  {
    n > 600 && FarOut(DiscSum(X, img, lut, ySize, xSize, i, j), DiscSum(Y, img, lut, ySize, xSize, i, j), n)
  }

  /** At a vertical edge, where the pixels around depend on the column only, responses are compared
      along the row. */
  lemma VerticalEdge(img: Grid, lut: Lut, ySize: nat, xSize: nat, n: int, i: int, j: int, d: Mark)
    requires Rect(img, ySize, xSize) && Margin(ySize, xSize, i, j, 3)
    requires forall h, k :: i - 3 <= h <= i + 3 && j - 3 <= k <= j + 3 ==> img[h][k] == img[i][k]
    requires ByGravity(img, lut, ySize, xSize, n, i, j) && Across(img, lut, ySize, xSize, n, i, j, d)
    ensures d == Mark(0, 1, 1)
  {
    hide DiscSum;
    ColumnsBalance(img, lut, ySize, xSize, i, j);
    OffCentre(DiscSum(X, img, lut, ySize, xSize, i, j), 0, n);
  }

  /** At a horizontal edge they are compared along the column. */
  lemma HorizontalEdge(img: Grid, lut: Lut, ySize: nat, xSize: nat, n: int, i: int, j: int, d: Mark)
    requires Rect(img, ySize, xSize) && Margin(ySize, xSize, i, j, 3)
    requires forall h, k :: i - 3 <= h <= i + 3 && j - 3 <= k <= j + 3 ==> img[h][k] == img[h][j]
    requires ByGravity(img, lut, ySize, xSize, n, i, j) && Across(img, lut, ySize, xSize, n, i, j, d)
    ensures d == Mark(1, 0, 1)
  {
    hide DiscSum;
    RowsBalance(img, lut, ySize, xSize, i, j);
    OffCentre(0, DiscSum(Y, img, lut, ySize, xSize, i, j), n);
  }

  ghost predicate Transposed(img: Grid, flip: Grid, ySize: nat, xSize: nat) {
    && Rect(img, ySize, xSize) && Rect(flip, xSize, ySize)
    && forall i, j :: 0 <= i < ySize && 0 <= j < xSize ==> flip[j][i] == img[i][j]
  }

  ghost function Swapped(m: Moment): Moment {
    match m
    case Mass => Mass
    case X => Y
    case Y => X
    case XX => YY
    case YY => XX
    case XY => XY
  }

  lemma TermSwapped(m: Moment, img: Grid, flip: Grid, lut: Lut, ySize: nat, xSize: nat, i: int, j: int,
                    dy: int, dx: int)
    requires Transposed(img, flip, ySize, xSize) && Margin(ySize, xSize, i, j, 3) && -3 <= dy <= 3 && -3 <= dx <= 3
    ensures Term(m, flip, lut, xSize, ySize, j, i, dx, dy) == Term(Swapped(m), img, lut, ySize, xSize, i, j, dy, dx)
  {
  }

  lemma DiscSwapped(m: Moment, img: Grid, flip: Grid, lut: Lut, ySize: nat, xSize: nat, i: int, j: int)
    requires Transposed(img, flip, ySize, xSize) && Margin(ySize, xSize, i, j, 3)
    ensures DiscSum(m, flip, lut, xSize, ySize, j, i) == DiscSum(Swapped(m), img, lut, ySize, xSize, i, j)
  {
    hide Term, Swapped;
    forall dy, dx | -3 <= dy <= 3 && -3 <= dx <= 3
      ensures Term(m, flip, lut, xSize, ySize, j, i, dx, dy) == Term(Swapped(m), img, lut, ySize, xSize, i, j, dy, dx)
    {
      TermSwapped(m, img, flip, lut, ySize, xSize, i, j, dy, dx);
    }
  }

  lemma SpreadNotNegative(m: Moment, img: Grid, lut: Lut, ySize: nat, xSize: nat, i: int, j: int)
    requires Rect(img, ySize, xSize) && Margin(ySize, xSize, i, j, 3) && NonNegative(lut)
    requires m == XX || m == YY
    ensures DiscSum(m, img, lut, ySize, xSize, i, j) >= 0
  {
    hide Term;
    forall dy, dx | -3 <= dy <= 3 && -3 <= dx <= 3
      ensures Term(m, img, lut, ySize, xSize, i, j, dy, dx) >= 0
    {
      TermNotNegative(m, img, lut, ySize, xSize, i, j, dy, dx);
    }
  }

  lemma TermNotNegative(m: Moment, img: Grid, lut: Lut, ySize: nat, xSize: nat, i: int, j: int, dy: int, dx: int)
    requires Rect(img, ySize, xSize) && Margin(ySize, xSize, i, j, 3) && NonNegative(lut)
    requires (m == XX || m == YY) && -3 <= dy <= 3 && -3 <= dx <= 3
    ensures Term(m, img, lut, ySize, xSize, i, j, dy, dx) >= 0
  {
    var v := lut(img[i][j] - img[i + dy][j + dx]);
    assert v >= 0 && dx * dx >= 0 && dy * dy >= 0;
    ProductNotNegative(dx * dx, v);
    ProductNotNegative(dy * dy, v);
  }

  lemma ProductNotNegative(a: int, b: int)
    requires a >= 0 && b >= 0
    ensures a * b >= 0
  {
  }

  // The straight directions exchanged, the diagonals kept
  ghost function Exchanged(d: Mark): Mark {
    if d.a == 0 then Mark(1, 0, d.value) else if d.b == 0 then Mark(0, 1, d.value) else d
  }

  /** Transposing the image exchanges the two straight directions and keeps the diagonals.  The one
      exception is a pixel without second moments, where both give a step along the column. */
  lemma TransposeExchanges(img: Grid, flip: Grid, lut: Lut, ySize: nat, xSize: nat, n: int, i: int, j: int,
                           d: Mark, e: Mark)
    requires Transposed(img, flip, ySize, xSize) && Margin(ySize, xSize, i, j, 3) && NonNegative(lut)
    requires Across(img, lut, ySize, xSize, n, i, j, d) && Across(flip, lut, xSize, ySize, n, j, i, e)
    ensures ByGravity(img, lut, ySize, xSize, n, i, j) <==> ByGravity(flip, lut, xSize, ySize, n, j, i)
    ensures var flat := DiscSum(XX, img, lut, ySize, xSize, i, j) == DiscSum(YY, img, lut, ySize, xSize, i, j) == 0;
            if !ByGravity(img, lut, ySize, xSize, n, i, j) && flat then d == e == Mark(1, 0, 2) else e == Exchanged(d)
  {
    hide DiscSum, NonNegative, AcrossGravity, AcrossSpread, FarOut, Exchanged;
    DiscSwapped(X, img, flip, lut, ySize, xSize, i, j);
    DiscSwapped(Y, img, flip, lut, ySize, xSize, i, j);
    var x, y := DiscSum(X, img, lut, ySize, xSize, i, j), DiscSum(Y, img, lut, ySize, xSize, i, j);
    FarOutSymmetric(x, y, n);
    if n > 600 && FarOut(x, y, n) {
      OffCentre(x, y, n);
      GravityExchanged(x, y, d, e);
    } else {
      DiscSwapped(XX, img, flip, lut, ySize, xSize, i, j);
      DiscSwapped(YY, img, flip, lut, ySize, xSize, i, j);
      DiscSwapped(XY, img, flip, lut, ySize, xSize, i, j);
      SpreadNotNegative(XX, img, lut, ySize, xSize, i, j);
      SpreadNotNegative(YY, img, lut, ySize, xSize, i, j);
      SpreadExchanged(DiscSum(XX, img, lut, ySize, xSize, i, j), DiscSum(YY, img, lut, ySize, xSize, i, j),
                      DiscSum(XY, img, lut, ySize, xSize, i, j), d, e);
    }
  }

  lemma FarOutSymmetric(x: int, y: int, n: int)
    ensures FarOut(x, y, n) <==> FarOut(y, x, n)
    ensures FarOut(x, y, n) <==> 100 * (x * x + y * y) > 81 * (n * n)
    ensures FarOut(x, y, n) <==> 100 * (y * y + x * x) > 81 * (n * n)
  {
  }

  lemma GravityExchanged(x: int, y: int, d: Mark, e: Mark)
    requires x != 0 || y != 0
    requires AcrossGravity(x, y, d) && AcrossGravity(y, x, e)
    ensures e == Exchanged(d)
  {
  }

  lemma SpreadExchanged(xx: int, yy: int, xy: int, d: Mark, e: Mark)
    requires xx >= 0 && yy >= 0
    requires AcrossSpread(xx, yy, xy, d) && AcrossSpread(yy, xx, xy, e)
    ensures if xx == yy == 0 then d == e == Mark(1, 0, 2) else e == Exchanged(d)
  {
  }

  // ----- marking

  // Higher than the two pixels ahead, not lower than the two behind
  predicate HighestAcross(r: Grid, ghost ySize: nat, ghost xSize: nat, i: int, j: int, a: int, b: int)
    requires Rect(r, ySize, xSize) && Margin(ySize, xSize, i, j, 4) && -1 <= a <= 1 && -1 <= b <= 1
  {
    && r[i][j] > r[i + a][j + b] && r[i][j] >= r[i - a][j - b]
    && r[i][j] > r[i + 2 * a][j + 2 * b] && r[i][j] >= r[i - 2 * a][j - 2 * b]
  }

  // What marking leaves at (i, j)
  function Marked(img: Grid, lut: Lut, maxNo: int, r: Grid, ghost ySize: nat, ghost xSize: nat, i: int, j: int): int
    requires Rect(img, ySize, xSize) && Rect(r, ySize, xSize) && Margin(ySize, xSize, i, j, 4)
  {
    if r[i][j] > 0 then
      var d := AcrossEdge(img, lut, ySize, xSize, maxNo - r[i][j], i, j);
      if HighestAcross(r, ySize, xSize, i, j, d.a, d.b) then d.value else 100
    else 100
  }

  /** v is the mark of (i, j), written out: the direction comes from the moments of the image, the
      response must be higher than the two ahead and not lower than the two behind. */
  ghost predicate MarkIs(img: Grid, lut: Lut, maxNo: int, r: Grid, ySize: nat, xSize: nat, i: int, j: int, v: int)
    requires Rect(img, ySize, xSize) && Rect(r, ySize, xSize) && Margin(ySize, xSize, i, j, 4)
  {
    exists d: Mark :: && Across(img, lut, ySize, xSize, maxNo - r[i][j], i, j, d)
                      && -1 <= d.a <= 1 && -1 <= d.b <= 1
                      && v == if r[i][j] > 0 && Ridge(r[i][j], r[i + d.a][j + d.b], r[i + 2 * d.a][j + 2 * d.b],
                                                      r[i - d.a][j - d.b], r[i - 2 * d.a][j - 2 * d.b])
                              then d.value else 100
  }

  ghost predicate Ridge(m: int, ahead1: int, ahead2: int, behind1: int, behind2: int) {
    m > ahead1 && m > ahead2 && m >= behind1 && m >= behind2
  }

  lemma MarkedExact(img: Grid, lut: Lut, maxNo: int, r: Grid, ySize: nat, xSize: nat, i: int, j: int)
    requires Rect(img, ySize, xSize) && Rect(r, ySize, xSize) && Margin(ySize, xSize, i, j, 4)
    ensures MarkIs(img, lut, maxNo, r, ySize, xSize, i, j, Marked(img, lut, maxNo, r, ySize, xSize, i, j))
  {
    hide AcrossEdge, Across;
    AcrossExact(img, lut, ySize, xSize, maxNo - r[i][j], i, j);
  }

  // The two maps that edge detection makes of an image
  ghost predicate EdgeMaps(img: Grid, lut: Lut, maxNo: int, r: Grid, mid: Grid, ySize: nat, xSize: nat)
    requires Rect(img, ySize, xSize) && Rect(r, ySize, xSize) && Rect(mid, ySize, xSize)
  {
    forall i, j :: 0 <= i < ySize && 0 <= j < xSize ==>
      && (if Margin(ySize, xSize, i, j, 3) then ResponseIs(img, lut, maxNo, ySize, xSize, i, j, r[i][j])
          else r[i][j] == 0)
      && (if Margin(ySize, xSize, i, j, 4) then MarkIs(img, lut, maxNo, r, ySize, xSize, i, j, mid[i][j])
          else mid[i][j] == 100)
  }

  lemma EdgeMapsAre(img: Grid, lut: Lut, maxNo: int, r: Grid, mid: Grid, ySize: nat, xSize: nat)
    requires Rect(img, ySize, xSize) && Rect(r, ySize, xSize) && Rect(mid, ySize, xSize)
    requires forall i, j :: 0 <= i < ySize && 0 <= j < xSize ==>
               r[i][j] == if Margin(ySize, xSize, i, j, 3)
                          then Response(img, lut, maxNo, ySize, xSize, i, j) else 0
    requires forall i, j :: 0 <= i < ySize && 0 <= j < xSize ==>
               mid[i][j] == if Margin(ySize, xSize, i, j, 4)
                            then Marked(img, lut, maxNo, r, ySize, xSize, i, j) else 100
    ensures EdgeMaps(img, lut, maxNo, r, mid, ySize, xSize)
  {
    hide Response, ResponseIs, Marked, MarkIs;
    forall i, j | 0 <= i < ySize && 0 <= j < xSize
      ensures if Margin(ySize, xSize, i, j, 3) then ResponseIs(img, lut, maxNo, ySize, xSize, i, j, r[i][j])
              else r[i][j] == 0
      ensures if Margin(ySize, xSize, i, j, 4) then MarkIs(img, lut, maxNo, r, ySize, xSize, i, j, mid[i][j])
              else mid[i][j] == 100
    {
      if Margin(ySize, xSize, i, j, 3) {
        ResponseExact(img, lut, maxNo, ySize, xSize, i, j);
      }
      if Margin(ySize, xSize, i, j, 4) {
        MarkedExact(img, lut, maxNo, r, ySize, xSize, i, j);
      }
    }
  }

  /** Two neighbours in the direction across the edge are never both marked for that direction:
      marked edges are one pixel wide where the direction is constant, even on a plateau. */
  lemma MarkedOnce(r: Grid, ySize: nat, xSize: nat, i: int, j: int, a: int, b: int, s: int)
    requires Rect(r, ySize, xSize) && -1 <= a <= 1 && -1 <= b <= 1 && (s == 1 || s == 2)
    requires Margin(ySize, xSize, i, j, 4) && Margin(ySize, xSize, i + s * a, j + s * b, 4)
    requires HighestAcross(r, ySize, xSize, i, j, a, b)
    ensures !HighestAcross(r, ySize, xSize, i + s * a, j + s * b, a, b)
  {
  }

  method FindDirection(img: array2<int>, lut: Lut, n: int, i: int, j: int) returns (d: Mark)
    requires Margin(img.Length0, img.Length1, i, j, 3)
    ensures d == AcrossEdge(Snap(img), lut, img.Length0, img.Length1, n, i, j)
    ensures Across(Snap(img), lut, img.Length0, img.Length1, n, i, j, d)
  {
    hide FarOut, Ratio, Sum, Snap, DiscSum, Across;
    AcrossExact(Snap(img), lut, img.Length0, img.Length1, n, i, j);
    var x := MomentOf(X, img, lut, i, j);
    var y := MomentOf(Y, img, lut, i, j);
    if n > 600 && FarOut(x, y, n) {
      var z, w := Ratio(y, x), 1;
      if z < 0.0 { z := -z; w := -1; }
      if z < 0.5 { d := Mark(0, 1, 1); }
      else if z > 2.0 { d := Mark(1, 0, 1); }
      else if w > 0 { d := Mark(1, 1, 1); }
      else { d := Mark(-1, 1, 1); }
    } else {
      var xx := MomentOf(XX, img, lut, i, j);
      var yy := MomentOf(YY, img, lut, i, j);
      var w := MomentOf(XY, img, lut, i, j);
      var z := Ratio(xx, yy);
      if z < 0.5 { d := Mark(0, 1, 2); }
      else if z > 2.0 { d := Mark(1, 0, 2); }
      else if w > 0 { d := Mark(-1, 1, 2); }
      else { d := Mark(1, 1, 2); }
    }
  }

  method MarkPixel(img: array2<int>, lut: Lut, maxNo: int, r: array2<int>, i: int, j: int) returns (v: int)
    requires Margin(img.Length0, img.Length1, i, j, 4)
    requires r.Length0 == img.Length0 && r.Length1 == img.Length1
    ensures v == Marked(Snap(img), lut, maxNo, Snap(r), img.Length0, img.Length1, i, j)
    ensures MarkIs(Snap(img), lut, maxNo, Snap(r), img.Length0, img.Length1, i, j, v)
  {
    hide AcrossEdge, Snap, Across, MarkIs;
    MarkedExact(Snap(img), lut, maxNo, Snap(r), img.Length0, img.Length1, i, j);
    v := 100;
    if r[i, j] > 0 {
      var m := r[i, j];
      var d := FindDirection(img, lut, maxNo - m, i, j);
      var a, b := d.a, d.b;
      if m > r[i + a, j + b] && m >= r[i - a, j - b] && m > r[i + 2 * a, j + 2 * b] && m >= r[i - 2 * a, j - 2 * b] {
        v := d.value;
      }
    }
  }

  method SusanEdges(img: array2<int>, lut: Lut, maxNo: int) returns (r: array2<int>, mid: array2<int>)
    ensures fresh(r) && fresh(mid)
    ensures r.Length0 == mid.Length0 == img.Length0 && r.Length1 == mid.Length1 == img.Length1
    ensures forall i, j :: 0 <= i < r.Length0 && 0 <= j < r.Length1 ==>
              r[i, j] == if Margin(r.Length0, r.Length1, i, j, 3)
                         then Response(Snap(img), lut, maxNo, img.Length0, img.Length1, i, j) else 0
    ensures forall i, j :: 0 <= i < r.Length0 && 0 <= j < r.Length1 ==>
              mid[i, j] == if Margin(r.Length0, r.Length1, i, j, 4)
                           then Marked(Snap(img), lut, maxNo, Snap(r), img.Length0, img.Length1, i, j) else 100
    ensures EdgeMaps(Snap(img), lut, maxNo, Snap(r), Snap(mid), img.Length0, img.Length1)
    ensures Arrays(mid, r)
  {
    hide Marked, Response, EdgeMaps, Snap;
    r := ResponseImage(img, lut, maxNo);
    mid := MarkImage(img, lut, maxNo, r);
    EdgeMapsAre(Snap(img), lut, maxNo, Snap(r), Snap(mid), img.Length0, img.Length1);
    MarkedMapOk(Snap(img), lut, maxNo, Snap(r), Snap(mid), img.Length0, img.Length1);
  }

  lemma MarkedMapOk(img: Grid, lut: Lut, maxNo: int, r: Grid, mid: Grid, ySize: nat, xSize: nat)
    requires Rect(img, ySize, xSize) && Rect(r, ySize, xSize) && Rect(mid, ySize, xSize)
    requires forall i, j :: 0 <= i < ySize && 0 <= j < xSize ==>
               mid[i][j] == if Margin(ySize, xSize, i, j, 4)
                            then Marked(img, lut, maxNo, r, ySize, xSize, i, j) else 100
    ensures MapOk(mid, r, ySize, xSize)
  {
    forall i, j | 0 <= i < ySize && 0 <= j < xSize
      ensures (1 <= mid[i][j] <= 6 && r[i][j] > 0) || mid[i][j] == 100
    {
      assert mid[i][j] == if Margin(ySize, xSize, i, j, 4)
                          then Marked(img, lut, maxNo, r, ySize, xSize, i, j) else 100;
    }
  }

  method ResponseImage(img: array2<int>, lut: Lut, maxNo: int) returns (r: array2<int>)
    ensures fresh(r) && r.Length0 == img.Length0 && r.Length1 == img.Length1
    ensures forall i, j :: 0 <= i < r.Length0 && 0 <= j < r.Length1 ==>
              r[i, j] == if Margin(r.Length0, r.Length1, i, j, 3)
                         then Response(Snap(img), lut, maxNo, img.Length0, img.Length1, i, j) else 0
  {
    hide Response, Snap, ResponseIs;
    r := new int[img.Length0, img.Length1]((_, _) => 0);
    var i := 3;
    while i < img.Length0 - 3
      invariant 3 <= i
      invariant forall h, k :: 0 <= h < r.Length0 && 0 <= k < r.Length1 ==>
                  r[h, k] == if Margin(r.Length0, r.Length1, h, k, 3) && h < i
                             then Response(Snap(img), lut, maxNo, img.Length0, img.Length1, h, k) else 0
    {
      var j := 3;
      while j < img.Length1 - 3
        invariant 3 <= j
        invariant forall h, k :: 0 <= h < r.Length0 && 0 <= k < r.Length1 ==>
                    r[h, k] == if Margin(r.Length0, r.Length1, h, k, 3) && (h < i || (h == i && k < j))
                               then Response(Snap(img), lut, maxNo, img.Length0, img.Length1, h, k) else 0
      {
        var v := PlainResponse(img, lut, maxNo, i, j);
        r[i, j] := v;
        j := j + 1;
      }
      i := i + 1;
    }
  }

  method MarkImage(img: array2<int>, lut: Lut, maxNo: int, r: array2<int>) returns (mid: array2<int>)
    requires r.Length0 == img.Length0 && r.Length1 == img.Length1
    ensures fresh(mid) && mid.Length0 == img.Length0 && mid.Length1 == img.Length1
    ensures forall i, j :: 0 <= i < r.Length0 && 0 <= j < r.Length1 ==>
              mid[i, j] == if Margin(r.Length0, r.Length1, i, j, 4)
                           then Marked(Snap(img), lut, maxNo, Snap(r), img.Length0, img.Length1, i, j) else 100
  {
    hide Marked, Snap, MarkIs;
    mid := new int[img.Length0, img.Length1]((_, _) => 100);
    var i := 4;
    while i < img.Length0 - 4
      invariant 4 <= i
      invariant forall h, k :: 0 <= h < r.Length0 && 0 <= k < r.Length1 ==>
                  mid[h, k] == if Margin(r.Length0, r.Length1, h, k, 4) && h < i
                               then Marked(Snap(img), lut, maxNo, Snap(r), img.Length0, img.Length1, h, k) else 100
    {
      var j := 4;
      while j < img.Length1 - 4
        invariant 4 <= j
        invariant forall h, k :: 0 <= h < r.Length0 && 0 <= k < r.Length1 ==>
                    mid[h, k] == if Margin(r.Length0, r.Length1, h, k, 4) && (h < i || (h == i && k < j))
                                 then Marked(Snap(img), lut, maxNo, Snap(r), img.Length0, img.Length1, h, k) else 100
      {
        var v := MarkPixel(img, lut, maxNo, r, i, j);
        mid[i, j] := v;
        j := j + 1;
      }
      i := i + 1;
    }
  }

  /** The edge mode of main: the map that marking makes of the image goes through any number of
      thinning steps; at the end it still holds only marks 1..6 on positive responses. */
  method DetectEdges(img: array2<int>, lut: Lut, maxNo: int, steps: nat)
    returns (r: array2<int>, mid: array2<int>, ghost marked: Grid)
    ensures r.Length0 == mid.Length0 == img.Length0 && r.Length1 == mid.Length1 == img.Length1
    ensures forall i, j :: 0 <= i < r.Length0 && 0 <= j < r.Length1 ==>
              r[i, j] == if Margin(r.Length0, r.Length1, i, j, 3)
                         then Response(Snap(img), lut, maxNo, img.Length0, img.Length1, i, j) else 0
    ensures Rect(marked, r.Length0, r.Length1)
    ensures forall i, j :: 0 <= i < r.Length0 && 0 <= j < r.Length1 ==>
              marked[i][j] == if Margin(r.Length0, r.Length1, i, j, 4)
                              then Marked(Snap(img), lut, maxNo, Snap(r), img.Length0, img.Length1, i, j) else 100
    ensures EdgeMaps(Snap(img), lut, maxNo, Snap(r), marked, r.Length0, r.Length1)
    ensures Arrays(mid, r) && MapOk(marked, Snap(r), r.Length0, r.Length1)
    ensures Snap(mid) == After(marked, Snap(r), r.Length0, r.Length1, steps).mid
    ensures exists run: seq<Outcome> ::
              && IsRun(marked, Snap(r), r.Length0, r.Length1, run)
              && |run| == steps + 1 && run[steps].mid == Snap(mid)
  {
    r, mid := SusanEdges(img, lut, maxNo);
    marked := Snap(mid);
    SusanThin(r, mid, steps);
  }
}
