/** The SUSAN principle (susan.c): similarity-weighted area and moments over a 37-pixel mask.

    The brightness table is an arbitrary function of the difference of two pixels; only that its
    values are not negative is ever used. Images are grids of pixels. */
module Usan {
  import opened Grids

  type Lut = int -> int

  ghost predicate NonNegative(lut: Lut) {
    forall d :: lut(d) >= 0
  }

  // A pixel at least m away from the border
  predicate Margin(ySize: nat, xSize: nat, i: int, j: int, m: int) {
    m <= i < ySize - m && m <= j < xSize - m
  }

  // ----- the mask as a disc

  datatype Moment = Mass | X | Y | XX | YY | XY

  ghost predicate InDisc(dy: int, dx: int) {
    0 < dy * dy + dx * dx <= 10
  }

  ghost function Weight(m: Moment, dy: int, dx: int): int {
    match m
    case Mass => 1
    case X => dx
    case Y => dy
    case XX => dx * dx
    case YY => dy * dy
    case XY => dx * dy
  }

  // What the pixel at (dy, dx) from the centre contributes
  ghost function Term(m: Moment, img: Grid, lut: Lut, ySize: nat, xSize: nat, i: int, j: int, dy: int, dx: int): int
    requires Rect(img, ySize, xSize) && Margin(ySize, xSize, i, j, 3)
    requires -3 <= dy <= 3 && -3 <= dx <= 3
  {
    if InDisc(dy, dx) then Weight(m, dy, dx) * lut(img[i][j] - img[i + dy][j + dx]) else 0
  }

  ghost function DiscRow(m: Moment, img: Grid, lut: Lut, ySize: nat, xSize: nat, i: int, j: int, dy: int): int
    requires Rect(img, ySize, xSize) && Margin(ySize, xSize, i, j, 3) && -3 <= dy <= 3
  {
    Term(m, img, lut, ySize, xSize, i, j, dy, -3) + Term(m, img, lut, ySize, xSize, i, j, dy, -2)
    + Term(m, img, lut, ySize, xSize, i, j, dy, -1) + Term(m, img, lut, ySize, xSize, i, j, dy, 0)
    + Term(m, img, lut, ySize, xSize, i, j, dy, 1) + Term(m, img, lut, ySize, xSize, i, j, dy, 2)
    + Term(m, img, lut, ySize, xSize, i, j, dy, 3)
  }

  // A moment of the similarities over all pixels of the disc around (i, j)
  ghost function DiscSum(m: Moment, img: Grid, lut: Lut, ySize: nat, xSize: nat, i: int, j: int): int
    requires Rect(img, ySize, xSize) && Margin(ySize, xSize, i, j, 3)
  {
    DiscRow(m, img, lut, ySize, xSize, i, j, -3) + DiscRow(m, img, lut, ySize, xSize, i, j, -2)
    + DiscRow(m, img, lut, ySize, xSize, i, j, -1) + DiscRow(m, img, lut, ySize, xSize, i, j, 0)
    + DiscRow(m, img, lut, ySize, xSize, i, j, 1) + DiscRow(m, img, lut, ySize, xSize, i, j, 2)
    + DiscRow(m, img, lut, ySize, xSize, i, j, 3)
  }

  // ----- the mask as the source walks over it

  // Row and column offset of the k-th mask pixel in the order in which the source visits them
  function Offset(k: int): (int, int) {
    if k < 3 then (-3, k - 1)
    else if k < 8 then (-2, k - 5)
    else if k < 15 then (-1, k - 11)
    else if k < 18 then (0, k - 18)
    else if k < 21 then (0, k - 17)
    else if k < 28 then (1, k - 24)
    else if k < 33 then (2, k - 30)
    else (3, k - 34)
  }

  // What the source adds to its pixel pointer between visits k and k+1
  function PointerStep(k: int, xSize: int): int {
    if k == 2 || k == 32 then xSize - 3
    else if k == 7 || k == 27 then xSize - 5
    else if k == 14 || k == 20 then xSize - 6
    else if k == 17 then 2
    else 1
  }

  function PointerAfter(k: nat, xSize: int): int {
    if k == 0 then -3 * xSize - 1 else PointerAfter(k - 1, xSize) + PointerStep(k - 1, xSize)
  }

  // The pointer walk visits exactly the mask, row by row.
  lemma {:induction false} PointerWalk(k: nat, xSize: int)
    requires k < 36
    ensures PointerAfter(k, xSize) == Offset(k).0 * xSize + Offset(k).1
  {
    if k > 0 {
      PointerWalk(k - 1, xSize);
      RowStep(k - 1, xSize);
    }
  }

  lemma RowStep(k: nat, xSize: int)
    requires k < 35
    ensures Offset(k).0 * xSize + Offset(k).1 + PointerStep(k, xSize) == Offset(k + 1).0 * xSize + Offset(k + 1).1
  {
    var a, b := Offset(k).0, Offset(k + 1).0;
    assert b == a || b == a + 1;
    assert (a + 1) * xSize == a * xSize + xSize;
  }

  function Similarity(img: Grid, lut: Lut, ghost ySize: nat, ghost xSize: nat, i: int, j: int, k: nat): int
    requires Rect(img, ySize, xSize) && Margin(ySize, xSize, i, j, 3) && k < 36
  {
    lut(img[i][j] - img[i + Offset(k).0][j + Offset(k).1])
  }

  function Coefficient(m: Moment, k: int): int {
    var (dy, dx) := Offset(k);
    match m
    case Mass => 1
    case X => dx
    case Y => dy
    case XX => dx * dx
    case YY => dy * dy
    case XY => dx * dy
  }

  // Sum over the first n mask pixels
  function Sum(m: Moment, img: Grid, lut: Lut, ghost ySize: nat, ghost xSize: nat, i: int, j: int, n: nat): int
    requires Rect(img, ySize, xSize) && Margin(ySize, xSize, i, j, 3) && n <= 36
  {
    if n == 0 then 0
    else Sum(m, img, lut, ySize, xSize, i, j, n - 1)
         + Coefficient(m, n - 1) * Similarity(img, lut, ySize, xSize, i, j, n - 1)
  }

  // How many mask pixels the source visits before it comes to (dy, dx)
  ghost function Rank(dy: int, dx: int): int {
    var first := if dy == -3 then 0 else if dy == -2 then 3 else if dy == -1 then 8 else if dy == 0 then 15
                 else if dy == 1 then 21 else if dy == 2 then 28 else 33;
    var half := if dy == -3 || dy == 3 then 1 else if dy == -2 || dy == 2 then 2 else 3;
    first + (if dx <= -half then 0 else if dx > half then 2 * half + 1 else dx + half)
          - (if dy == 0 && dx > 0 then 1 else 0)
  }

  lemma RankStep(dy: int, dx: int)
    requires -3 <= dy <= 3 && -3 <= dx <= 3
    ensures 0 <= Rank(dy, dx) <= Rank(dy, dx + 1) <= 36
    ensures InDisc(dy, dx) ==> Rank(dy, dx + 1) == Rank(dy, dx) + 1 && Offset(Rank(dy, dx)) == (dy, dx)
    ensures !InDisc(dy, dx) ==> Rank(dy, dx + 1) == Rank(dy, dx)
  {
  }

  lemma TermAdds(m: Moment, img: Grid, lut: Lut, ySize: nat, xSize: nat, i: int, j: int, dy: int, dx: int)
    requires Rect(img, ySize, xSize) && Margin(ySize, xSize, i, j, 3)
    requires -3 <= dy <= 3 && -3 <= dx <= 3
    ensures 0 <= Rank(dy, dx) <= Rank(dy, dx + 1) <= 36
    ensures Sum(m, img, lut, ySize, xSize, i, j, Rank(dy, dx + 1)) ==
            Sum(m, img, lut, ySize, xSize, i, j, Rank(dy, dx)) + Term(m, img, lut, ySize, xSize, i, j, dy, dx)
  {
    hide Rank, InDisc, Offset, Sum;
    RankStep(dy, dx);
    if InDisc(dy, dx) {
      MomentMore(m, img, lut, ySize, xSize, i, j, Rank(dy, dx));
      WeightIs(m, Rank(dy, dx));
    }
  }

  lemma WeightIs(m: Moment, k: int)
    ensures Coefficient(m, k) == Weight(m, Offset(k).0, Offset(k).1)
  {
    hide Offset;
  }

  lemma RowAdds(m: Moment, img: Grid, lut: Lut, ySize: nat, xSize: nat, i: int, j: int, dy: int)
    requires Rect(img, ySize, xSize) && Margin(ySize, xSize, i, j, 3) && -3 <= dy <= 3
    ensures 0 <= Rank(dy, -3) <= Rank(dy, 4) <= 36
    ensures Sum(m, img, lut, ySize, xSize, i, j, Rank(dy, 4)) ==
            Sum(m, img, lut, ySize, xSize, i, j, Rank(dy, -3)) + DiscRow(m, img, lut, ySize, xSize, i, j, dy)
  {
    hide Rank, Sum, Term;
    TermAdds(m, img, lut, ySize, xSize, i, j, dy, -3);
    TermAdds(m, img, lut, ySize, xSize, i, j, dy, -2);
    TermAdds(m, img, lut, ySize, xSize, i, j, dy, -1);
    TermAdds(m, img, lut, ySize, xSize, i, j, dy, 0);
    TermAdds(m, img, lut, ySize, xSize, i, j, dy, 1);
    TermAdds(m, img, lut, ySize, xSize, i, j, dy, 2);
    TermAdds(m, img, lut, ySize, xSize, i, j, dy, 3);
  }

  /** The 36 visits cover the disc, each pixel once: what the source accumulates is the moment over
      all pixels at a distance of at most the square root of 10, without the centre. */
  lemma SumIsDisc(m: Moment, img: Grid, lut: Lut, ySize: nat, xSize: nat, i: int, j: int)
    requires Rect(img, ySize, xSize) && Margin(ySize, xSize, i, j, 3)
    ensures Sum(m, img, lut, ySize, xSize, i, j, 36) == DiscSum(m, img, lut, ySize, xSize, i, j)
  {
    hide Rank, Sum, DiscRow;
    RowsFollow();
    SumNone(m, img, lut, ySize, xSize, i, j);
    RowAdds(m, img, lut, ySize, xSize, i, j, -3);
    RowAdds(m, img, lut, ySize, xSize, i, j, -2);
    RowAdds(m, img, lut, ySize, xSize, i, j, -1);
    RowAdds(m, img, lut, ySize, xSize, i, j, 0);
    RowAdds(m, img, lut, ySize, xSize, i, j, 1);
    RowAdds(m, img, lut, ySize, xSize, i, j, 2);
    RowAdds(m, img, lut, ySize, xSize, i, j, 3);
  }

  lemma RowsFollow()
    ensures Rank(-3, -3) == 0 && Rank(3, 4) == 36
    ensures Rank(-3, 4) == Rank(-2, -3) && Rank(-2, 4) == Rank(-1, -3) && Rank(-1, 4) == Rank(0, -3)
    ensures Rank(0, 4) == Rank(1, -3) && Rank(1, 4) == Rank(2, -3) && Rank(2, 4) == Rank(3, -3)
  {
  }

  // The area similar to the centre; the centre itself counts 100.
  function Area(img: Grid, lut: Lut, ghost ySize: nat, ghost xSize: nat, i: int, j: int): int
    requires Rect(img, ySize, xSize) && Margin(ySize, xSize, i, j, 3)
  {
    100 + Sum(Mass, img, lut, ySize, xSize, i, j, 36)
  }

  function Response(img: Grid, lut: Lut, maxNo: int, ghost ySize: nat, ghost xSize: nat, i: int, j: int): (r: int)
    requires Rect(img, ySize, xSize) && Margin(ySize, xSize, i, j, 3)
    ensures r >= 0
  {
    var n := Area(img, lut, ySize, xSize, i, j);
    if n < maxNo then maxNo - n else 0
  }

  // The response written out: what the area over the disc and the centre leaves of maxNo
  ghost predicate ResponseIs(img: Grid, lut: Lut, maxNo: int, ySize: nat, xSize: nat, i: int, j: int, r: int)
    requires Rect(img, ySize, xSize) && Margin(ySize, xSize, i, j, 3)
  {
    var n := 100 + DiscSum(Mass, img, lut, ySize, xSize, i, j);
    r == if n < maxNo then maxNo - n else 0
  }

  lemma ResponseExact(img: Grid, lut: Lut, maxNo: int, ySize: nat, xSize: nat, i: int, j: int)
    requires Rect(img, ySize, xSize) && Margin(ySize, xSize, i, j, 3)
    ensures ResponseIs(img, lut, maxNo, ySize, xSize, i, j, Response(img, lut, maxNo, ySize, xSize, i, j))
  {
    hide Sum, DiscSum;
    SumIsDisc(Mass, img, lut, ySize, xSize, i, j);
  }

  lemma {:induction false} SumGrows(img: Grid, lut: Lut, ySize: nat, xSize: nat, i: int, j: int, n: nat, m: nat)
    requires Rect(img, ySize, xSize) && Margin(ySize, xSize, i, j, 3) && n <= m <= 36
    requires NonNegative(lut)
    ensures Sum(Mass, img, lut, ySize, xSize, i, j, n) <= Sum(Mass, img, lut, ySize, xSize, i, j, m)
    decreases m
  {
    if n < m {
      SumGrows(img, lut, ySize, xSize, i, j, n, m - 1);
    }
  }

  // susan_principle for one pixel: the plain sum, then one test.
  method PlainResponse(img: array2<int>, lut: Lut, maxNo: int, i: int, j: int) returns (r: int)
    requires Margin(img.Length0, img.Length1, i, j, 3)
    ensures r == Response(Snap(img), lut, maxNo, img.Length0, img.Length1, i, j)
    ensures ResponseIs(Snap(img), lut, maxNo, img.Length0, img.Length1, i, j, r)
  {
    ghost var g, y, x := Snap(img), img.Length0, img.Length1;
    hide Similarity, Sum, Offset, Coefficient, Snap, ResponseIs, DiscSum;
    var n, k := 100, 0;
    SumNone(Mass, g, lut, y, x, i, j);
    while k < 36
      invariant k <= 36 && n == 100 + Sum(Mass, g, lut, y, x, i, j, k)
    {
      MassMore(g, lut, y, x, i, j, k);
      n := n + lut(img[i, j] - img[i + Offset(k).0, j + Offset(k).1]);
      k := k + 1;
    }
    r := 0;
    if n <= maxNo {
      r := maxNo - n;
    }
    ResponseExact(g, lut, maxNo, y, x, i, j);
  }

  // susan_corners_quick for one pixel: half of the mask, then a test before every further pixel.
  method EarlyExitResponse(img: array2<int>, lut: Lut, maxNo: int, i: int, j: int) returns (r: int)
    requires Margin(img.Length0, img.Length1, i, j, 3) && NonNegative(lut)
    ensures r == Response(Snap(img), lut, maxNo, img.Length0, img.Length1, i, j)
    ensures ResponseIs(Snap(img), lut, maxNo, img.Length0, img.Length1, i, j, r)
  {
    ghost var g, y, x := Snap(img), img.Length0, img.Length1;
    hide Similarity, Sum, Offset, Coefficient, Snap, ResponseIs, DiscSum, Response, NonNegative;
    var n, k := 100, 0;
    SumNone(Mass, g, lut, y, x, i, j);
    while k < 36 && (k < 18 || n < maxNo)
      invariant k <= 36 && n == 100 + Sum(Mass, g, lut, y, x, i, j, k)
    {
      MassMore(g, lut, y, x, i, j, k);
      n := n + lut(img[i, j] - img[i + Offset(k).0, j + Offset(k).1]);
      k := k + 1;
    }
    ExitIsSafe(g, lut, maxNo, y, x, i, j, n, k);
    r := 0;
    if n < maxNo {
      r := maxNo - n;
    }
  }

  lemma ExitIsSafe(img: Grid, lut: Lut, maxNo: int, ySize: nat, xSize: nat, i: int, j: int, n: int, k: nat)
    requires Rect(img, ySize, xSize) && Margin(ySize, xSize, i, j, 3) && NonNegative(lut) && k <= 36
    requires n == 100 + Sum(Mass, img, lut, ySize, xSize, i, j, k) && (k == 36 || n >= maxNo)
    ensures Response(img, lut, maxNo, ySize, xSize, i, j) == if n < maxNo then maxNo - n else 0
    ensures ResponseIs(img, lut, maxNo, ySize, xSize, i, j, if n < maxNo then maxNo - n else 0)
  {
    hide Sum, ResponseIs, NonNegative;
    SumGrows(img, lut, ySize, xSize, i, j, k, 36);
    ResponseExact(img, lut, maxNo, ySize, xSize, i, j);
  }

  lemma SumNone(m: Moment, img: Grid, lut: Lut, ySize: nat, xSize: nat, i: int, j: int)
    requires Rect(img, ySize, xSize) && Margin(ySize, xSize, i, j, 3)
    ensures Sum(m, img, lut, ySize, xSize, i, j, 0) == 0
  {
  }

  lemma MassMore(img: Grid, lut: Lut, ySize: nat, xSize: nat, i: int, j: int, k: nat)
    requires Rect(img, ySize, xSize) && Margin(ySize, xSize, i, j, 3) && k < 36
    ensures -3 <= Offset(k).0 <= 3 && -3 <= Offset(k).1 <= 3
    ensures Sum(Mass, img, lut, ySize, xSize, i, j, k + 1) ==
            Sum(Mass, img, lut, ySize, xSize, i, j, k) + lut(img[i][j] - img[i + Offset(k).0][j + Offset(k).1])
  {
  }

  lemma MomentMore(m: Moment, img: Grid, lut: Lut, ySize: nat, xSize: nat, i: int, j: int, k: nat)
    requires Rect(img, ySize, xSize) && Margin(ySize, xSize, i, j, 3) && k < 36
    ensures -3 <= Offset(k).0 <= 3 && -3 <= Offset(k).1 <= 3
    ensures Sum(m, img, lut, ySize, xSize, i, j, k + 1) ==
            Sum(m, img, lut, ySize, xSize, i, j, k)
            + Coefficient(m, k) * lut(img[i][j] - img[i + Offset(k).0][j + Offset(k).1])
  {
  }

  // One of the sums that the source accumulates while walking over the mask
  method MomentOf(m: Moment, img: array2<int>, lut: Lut, i: int, j: int) returns (s: int)
    requires Margin(img.Length0, img.Length1, i, j, 3)
    ensures s == Sum(m, Snap(img), lut, img.Length0, img.Length1, i, j, 36)
    ensures s == DiscSum(m, Snap(img), lut, img.Length0, img.Length1, i, j)
  {
    hide Offset, Coefficient, Sum, Snap, DiscSum;
    ghost var g, y, x := Snap(img), img.Length0, img.Length1;
    SumIsDisc(m, g, lut, y, x, i, j);
    var k := 0;
    s := 0;
    SumNone(m, g, lut, y, x, i, j);
    while k < 36
      invariant k <= 36 && s == Sum(m, g, lut, y, x, i, j, k)
    {
      MomentMore(m, g, lut, y, x, i, j, k);
      s := s + Coefficient(m, k) * lut(img[i, j] - img[i + Offset(k).0, j + Offset(k).1]);
      k := k + 1;
    }
  }

  // ----- the full corner response of susan_corners

  // Rounding to the nearest integer, halves away from zero
  function Ftoi(a: real): int {
    if a < 0.0 then -((0.5 - a).Floor) else (a + 0.5).Floor
  }

  lemma FtoiBound(a: real, m: int)
    requires m >= 0 && -(m as real) <= a <= m as real
    ensures -m <= Ftoi(a) <= m
  {
  }

  function Abs(x: int): int {
    if x < 0 then -x else x
  }

  function Sign(x: int): int {
    if x < 0 then -1 else 1
  }

  lemma SmallerSquare(a: int, b: int)
    requires a * a <= b * b
    ensures Abs(a) <= Abs(b)
  {
    if Abs(a) > Abs(b) {
      LargerSquare(Abs(a), Abs(b));
    }
  }

  lemma LargerSquare(a: nat, b: nat)
    requires a > b
    ensures a * a > b * b
  {
  }

  function Slope(c: int, den: int): real
    requires den > 0
  {
    c as real / den as real
  }

  function Multiple(k: int, q: real): real {
    k as real * q
  }

  lemma SlopeBound(a: int, den: int)
    requires den > 0 && Abs(a) <= den
    ensures -1.0 <= Slope(a, den) <= 1.0
  {
    var q, d := Slope(a, den), den as real;
    assert q * d == a as real;
  }

  lemma MultipleBound(k: int, q: real)
    requires k >= 0 && -1.0 <= q <= 1.0
    ensures -(k as real) <= Multiple(k, q) <= k as real
  {
    var r := k as real;
    assert r * (1.0 - q) >= 0.0 && r * (1.0 + q) >= 0.0;
  }

  // Row and column offset of the k-th pixel in the direction (x, y) of the centre of gravity
  function GradientPixel(x: int, y: int, k: int): (d: (int, int))
    requires (x != 0 || y != 0) && k >= 0
    ensures -k <= d.0 <= k && -k <= d.1 <= k
  {
    if y * y < x * x then
      SlopeWithin(y, x, k);
      (Rounded(k, y, Abs(x)), k * Sign(x))
    else
      SlopeWithin(x, y, k);
      (k * Sign(y), Rounded(k, x, Abs(y)))
  }

  function Rounded(k: int, c: int, den: int): int
    requires den > 0
  {
    Ftoi(Multiple(k, Slope(c, den)))
  }

  lemma SlopeWithin(a: int, b: int, k: int)
    requires b != 0 && a * a <= b * b && k >= 0
    ensures -k <= Rounded(k, a, Abs(b)) <= k
    ensures -k <= k * Sign(b) <= k
  {
    hide Ftoi, Slope, Multiple;
    SmallerSquare(a, b);
    SlopeBound(a, Abs(b));
    MultipleBound(k, Slope(a, Abs(b)));
    FtoiBound(Multiple(k, Slope(a, Abs(b))), k);
  }

  // m is the integer nearest to num / den, a half being rounded away from zero.
  ghost predicate RoundsTo(m: int, num: int, den: int) {
    AtMostHalf(m * den - num, num, den)
  }

  // excess / den is at most a half, and a half goes away from zero.
  ghost predicate AtMostHalf(excess: int, num: int, den: int) {
    -den <= 2 * excess <= den && (2 * excess == den ==> num > 0) && (2 * excess == -den ==> num < 0)
  }

  // The error of rounding a to m, and which way a half goes
  ghost predicate Nearest(error: real, a: real) {
    -0.5 <= error <= 0.5 && (error == 0.5 ==> a > 0.0) && (error == -0.5 ==> a < 0.0)
  }

  lemma FtoiIs(a: real, m: int)
    ensures m == Ftoi(a) <==> Nearest(m as real - a, a)
  {
  }

  ghost predicate NearestOf(excess: real, num: real, d: real) {
    -d <= 2.0 * excess <= d && (2.0 * excess == d ==> num > 0.0) && (2.0 * excess == -d ==> num < 0.0)
  }

  lemma NearestScales(error: real, a: real, d: real, excess: real, num: real)
    requires d > 0.0 && error * d == excess && a * d == num
    ensures Nearest(error, a) <==> NearestOf(excess, num, d)
  {
    SignOfProduct(a, d);
    SignOfProduct(error - 0.5, d);
    SignOfProduct(error + 0.5, d);
    assert (error - 0.5) * d == error * d - 0.5 * d && (error + 0.5) * d == error * d + 0.5 * d;
  }

  lemma NearestInIntegers(excess: int, num: int, den: int)
    ensures NearestOf(excess as real, num as real, den as real) <==> AtMostHalf(excess, num, den)
  {
  }

  lemma ErrorScaled(m: int, num: int, den: int, a: real)
    requires a * den as real == num as real
    ensures (m as real - a) * den as real == (m * den - num) as real
  {
    ProductAsReal(m, den);
  }

  lemma SignOfProduct(a: real, d: real)
    requires d > 0.0
    ensures (a > 0.0 <==> a * d > 0.0) && (a < 0.0 <==> a * d < 0.0)
  {
  }

  lemma Cleared(k: int, c: int, den: int)
    requires den > 0
    ensures Multiple(k, Slope(c, den)) * den as real == (k * c) as real
  {
    var q, d := Slope(c, den), den as real;
    assert q * d == c as real;
    Reassociate(k as real, q, d);
    ProductAsReal(k, c);
  }

  lemma Reassociate(a: real, b: real, c: real)
    ensures a * b * c == a * (b * c)
  {
  }

  lemma ProductAsReal(a: int, b: int)
    ensures (a * b) as real == a as real * b as real
  {
  }

  lemma RoundedExact(k: int, c: int, den: int, m: int)
    requires den > 0
    ensures m == Rounded(k, c, den) <==> RoundsTo(m, k * c, den)
  {
    hide Ftoi, Slope, Multiple, Nearest, NearestOf, AtMostHalf;
    var a, num := Multiple(k, Slope(c, den)), k * c;
    var excess := m * den - num;
    FtoiIs(a, m);
    Cleared(k, c, den);
    ErrorScaled(m, num, den, a);
    NearestScales(m as real - a, a, den as real, excess as real, num as real);
    NearestInIntegers(excess, num, den);
  }

  // d is k steps along the longer component of (x, y) and, along the shorter one, nearest to the
  // ray through (x, y).
  ghost predicate OnRay(x: int, y: int, k: int, d: (int, int)) {
    if y * y < x * x then d.1 == k * Sign(x) && RoundsTo(d.0, k * y, Abs(x))
    else d.0 == k * Sign(y) && RoundsTo(d.1, k * x, Abs(y))
  }

  lemma GradientPixelExact(x: int, y: int, k: int, d: (int, int))
    requires (x != 0 || y != 0) && k >= 0
    ensures d == GradientPixel(x, y, k) <==> OnRay(x, y, k, d)
  {
    hide Rounded, RoundsTo;
    if y * y < x * x {
      RoundedExact(k, y, Abs(x), d.0);
    } else {
      RoundedExact(k, x, Abs(y), d.1);
    }
  }

  // How similar the pixel at an offset of at most 3 is to the centre
  function SimilarityAt(img: Grid, lut: Lut, ghost ySize: nat, ghost xSize: nat, i: int, j: int, d: (int, int)): int
    requires Rect(img, ySize, xSize) && Margin(ySize, xSize, i, j, 3)
    requires -3 <= d.0 <= 3 && -3 <= d.1 <= 3
  {
    lut(img[i][j] - img[i + d.0][j + d.1])
  }

  // How similar the three pixels in the direction (x, y) of the centre of gravity are
  function AlongGradient(img: Grid, lut: Lut, ghost ySize: nat, ghost xSize: nat, i: int, j: int, x: int, y: int): int
    requires Rect(img, ySize, xSize) && Margin(ySize, xSize, i, j, 3)
    requires x != 0 || y != 0
  {
    SimilarityAt(img, lut, ySize, xSize, i, j, GradientPixel(x, y, 1))
    + SimilarityAt(img, lut, ySize, xSize, i, j, GradientPixel(x, y, 2))
    + SimilarityAt(img, lut, ySize, xSize, i, j, GradientPixel(x, y, 3))
  }

  // susan_corners: the area must be small, off centre, and uniform along the gradient.
  function CornerResponse(img: Grid, lut: Lut, maxNo: int, ghost ySize: nat, ghost xSize: nat, i: int, j: int): (r: int)
    requires Rect(img, ySize, xSize) && Margin(ySize, xSize, i, j, 3)
    ensures r == 0 || (r > 0 && r == Response(img, lut, maxNo, ySize, xSize, i, j))
  {
    var n := Area(img, lut, ySize, xSize, i, j);
    var x, y := Sum(X, img, lut, ySize, xSize, i, j, 36), Sum(Y, img, lut, ySize, xSize, i, j, 36);
    if n < maxNo && x * x + y * y > n * n / 2 && AlongGradient(img, lut, ySize, xSize, i, j, x, y) > 290
    then maxNo - n else 0
  }

  // The similarities at three offsets add up to more than 290.
  ghost predicate Uniform(img: Grid, lut: Lut, ySize: nat, xSize: nat, i: int, j: int,
                          d1: (int, int), d2: (int, int), d3: (int, int))
    requires Rect(img, ySize, xSize) && Margin(ySize, xSize, i, j, 3)
  {
    && -3 <= d1.0 <= 3 && -3 <= d1.1 <= 3 && -3 <= d2.0 <= 3 && -3 <= d2.1 <= 3 && -3 <= d3.0 <= 3 && -3 <= d3.1 <= 3
    && var c := img[i][j];
       lut(c - img[i + d1.0][j + d1.1]) + lut(c - img[i + d2.0][j + d2.1]) + lut(c - img[i + d3.0][j + d3.1]) > 290
  }

  /** What makes a corner: the area is below maxNo, its centre of gravity is off centre, and the
      three pixels on the ray towards the centre of gravity are like the centre. */
  ghost predicate CornerAt(img: Grid, lut: Lut, maxNo: int, ySize: nat, xSize: nat, i: int, j: int)
    requires Rect(img, ySize, xSize) && Margin(ySize, xSize, i, j, 3)
  {
    var n := 100 + DiscSum(Mass, img, lut, ySize, xSize, i, j);
    var x, y := DiscSum(X, img, lut, ySize, xSize, i, j), DiscSum(Y, img, lut, ySize, xSize, i, j);
    && n < maxNo
    && x * x + y * y > n * n / 2
    && exists d1: (int, int), d2: (int, int), d3: (int, int) ::
         OnRay(x, y, 1, d1) && OnRay(x, y, 2, d2) && OnRay(x, y, 3, d3) &&
         Uniform(img, lut, ySize, xSize, i, j, d1, d2, d3)
  }

  lemma AlongRay(img: Grid, lut: Lut, ySize: nat, xSize: nat, i: int, j: int, x: int, y: int)
    requires Rect(img, ySize, xSize) && Margin(ySize, xSize, i, j, 3) && (x != 0 || y != 0)
    ensures AlongGradient(img, lut, ySize, xSize, i, j, x, y) > 290 <==>
            exists d1: (int, int), d2: (int, int), d3: (int, int) ::
              OnRay(x, y, 1, d1) && OnRay(x, y, 2, d2) && OnRay(x, y, 3, d3) &&
              Uniform(img, lut, ySize, xSize, i, j, d1, d2, d3)
  {
    hide GradientPixel, OnRay;
    var p1, p2, p3 := GradientPixel(x, y, 1), GradientPixel(x, y, 2), GradientPixel(x, y, 3);
    forall k, d: (int, int) | k >= 0
      ensures OnRay(x, y, k, d) <==> d == GradientPixel(x, y, k)
    {
      GradientPixelExact(x, y, k, d);
    }
    assert Uniform(img, lut, ySize, xSize, i, j, p1, p2, p3) <==>
           AlongGradient(img, lut, ySize, xSize, i, j, x, y) > 290;
  }

  /** The corner response is maxNo less the area at the corners, and zero everywhere else. */
  lemma CornerResponseExact(img: Grid, lut: Lut, maxNo: int, ySize: nat, xSize: nat, i: int, j: int)
    requires Rect(img, ySize, xSize) && Margin(ySize, xSize, i, j, 3)
    ensures CornerResponse(img, lut, maxNo, ySize, xSize, i, j) ==
            if CornerAt(img, lut, maxNo, ySize, xSize, i, j)
            then maxNo - (100 + DiscSum(Mass, img, lut, ySize, xSize, i, j)) else 0
  {
    hide Sum, DiscSum, AlongGradient, OnRay, Uniform, Response;
    SumIsDisc(Mass, img, lut, ySize, xSize, i, j);
    SumIsDisc(X, img, lut, ySize, xSize, i, j);
    SumIsDisc(Y, img, lut, ySize, xSize, i, j);
    var n := 100 + DiscSum(Mass, img, lut, ySize, xSize, i, j);
    var x, y := DiscSum(X, img, lut, ySize, xSize, i, j), DiscSum(Y, img, lut, ySize, xSize, i, j);
    if x * x + y * y > n * n / 2 {
      NotCentred(x, y, n);
      AlongRay(img, lut, ySize, xSize, i, j, x, y);
    }
  }

  // Reads the three pixels from the image itself.
  method GradientSimilarity(img: array2<int>, lut: Lut, i: int, j: int, x: int, y: int) returns (sq: int)
    requires Margin(img.Length0, img.Length1, i, j, 3) && (x != 0 || y != 0)
    ensures sq == AlongGradient(Snap(img), lut, img.Length0, img.Length1, i, j, x, y)
  {
    hide Snap, Ftoi, GradientPixel, Slope;
    var c := img[i, j];
    if y * y < x * x {
      var divide, s := Slope(y, Abs(x)), Sign(x);
      MostlyAcross(x, y);
      sq := lut(c - img[i + Ftoi(divide), j + s])
            + lut(c - img[i + Ftoi(2.0 * divide), j + 2 * s])
            + lut(c - img[i + Ftoi(3.0 * divide), j + 3 * s]);
    } else {
      var divide, s := Slope(x, Abs(y)), Sign(y);
      MostlyDown(x, y);
      sq := lut(c - img[i + s, j + Ftoi(divide)])
            + lut(c - img[i + 2 * s, j + Ftoi(2.0 * divide)])
            + lut(c - img[i + 3 * s, j + Ftoi(3.0 * divide)]);
    }
  }

  lemma MostlyAcross(x: int, y: int)
    requires y * y < x * x && x != 0
    ensures var divide, s := Slope(y, Abs(x)), Sign(x);
            && GradientPixel(x, y, 1) == (Ftoi(divide), s)
            && GradientPixel(x, y, 2) == (Ftoi(2.0 * divide), 2 * s)
            && GradientPixel(x, y, 3) == (Ftoi(3.0 * divide), 3 * s)
  {
    hide Ftoi, Slope;
  }

  lemma MostlyDown(x: int, y: int)
    requires !(y * y < x * x) && y != 0
    ensures var divide, s := Slope(x, Abs(y)), Sign(y);
            && GradientPixel(x, y, 1) == (s, Ftoi(divide))
            && GradientPixel(x, y, 2) == (2 * s, Ftoi(2.0 * divide))
            && GradientPixel(x, y, 3) == (3 * s, Ftoi(3.0 * divide))
  {
    hide Ftoi, Slope;
  }

  // susan_corners for one pixel: early exit from the area, then the two tests on the gradient.
  method FullResponse(img: array2<int>, lut: Lut, maxNo: int, i: int, j: int) returns (r: int)
    requires Margin(img.Length0, img.Length1, i, j, 3) && NonNegative(lut)
    ensures r == CornerResponse(Snap(img), lut, maxNo, img.Length0, img.Length1, i, j)
    ensures r > 0 <==> CornerAt(Snap(img), lut, maxNo, img.Length0, img.Length1, i, j)
    ensures r == if CornerAt(Snap(img), lut, maxNo, img.Length0, img.Length1, i, j)
                 then maxNo - (100 + DiscSum(Mass, Snap(img), lut, img.Length0, img.Length1, i, j)) else 0
  {
    hide Snap, Sum, AlongGradient, CornerAt, DiscSum, ResponseIs;
    CornerResponseExact(Snap(img), lut, maxNo, img.Length0, img.Length1, i, j);
    CornerPositive(Snap(img), lut, maxNo, img.Length0, img.Length1, i, j);
    r := EarlyExitResponse(img, lut, maxNo, i, j);
    if r > 0 {
      var n := maxNo - r;
      var x := MomentOf(X, img, lut, i, j);
      var y := MomentOf(Y, img, lut, i, j);
      var sq := 0;
      if x * x + y * y > n * n / 2 {
        NotCentred(x, y, n);
        sq := GradientSimilarity(img, lut, i, j, x, y);
      }
      if sq <= 290 {
        r := 0;
      }
    }
  }

  lemma CornerPositive(img: Grid, lut: Lut, maxNo: int, ySize: nat, xSize: nat, i: int, j: int)
    requires Rect(img, ySize, xSize) && Margin(ySize, xSize, i, j, 3)
    ensures CornerAt(img, lut, maxNo, ySize, xSize, i, j) ==>
              100 + DiscSum(Mass, img, lut, ySize, xSize, i, j) < maxNo
  {
    hide DiscSum, OnRay, Uniform;
  }

  lemma NotCentred(x: int, y: int, n: int)
    requires x * x + y * y > n * n / 2
    ensures x != 0 || y != 0
  {
    assert n * n >= 0;
  }
}
