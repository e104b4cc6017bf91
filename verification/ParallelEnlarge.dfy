/** enlarge, sequential (susan.c) and parallel (susan-parallel/susan.c): a border of mirrored
    pixels around an image.  The parallel version takes three barriers: the image, then the rows
    above and below, then the columns left and right, then the new size. */
module ParallelEnlarge {
  import opened Barrier
  import opened Phases
  import opened WorkShares
  import opened Grids

  // ----- what enlarging means

  // Position i of an image of size n continued by mirroring at both ends
  function Mirror(i: int, n: int): int {
    if i < 0 then -1 - i else if i >= n then 2 * n - 1 - i else i
  }

  predicate Fits(y: nat, x: nat, b: nat) {
    b <= y && b <= x
  }

  // r is in the border and s as far from the edge of the image on the other side of it.
  ghost predicate Opposite(r: int, s: int, b: int, n: int) {
    (0 <= r < b && r + s == 2 * b - 1) || (b + n <= r < n + 2 * b && r + s == 2 * (b + n) - 1)
  }

  /** tmp is img with a border of b pixels in which the rows and columns next to the edge of img
      appear again in the opposite order. */
  ghost predicate Reflected(img: Grid, tmp: Grid, y: nat, x: nat, b: nat)
    requires Rect(img, y, x) && Fits(y, x, b)
  {
    && Rect(tmp, y + 2 * b, x + 2 * b)
    && (forall r, c :: 0 <= r < y && 0 <= c < x ==> tmp[b + r][b + c] == img[r][c])
    && (forall r, s, c :: 0 <= c < x + 2 * b && Opposite(r, s, b, y) ==> tmp[r][c] == tmp[s][c])
    && (forall r, c, d :: 0 <= r < y + 2 * b && Opposite(c, d, b, x) ==> tmp[r][c] == tmp[r][d])
  }

  // Every pixel of tmp is that of the mirrored position.
  ghost predicate Mirrored(img: Grid, tmp: Grid, y: nat, x: nat, b: nat)
    requires Rect(img, y, x) && Fits(y, x, b) && Rect(tmp, y + 2 * b, x + 2 * b)
  {
    forall r, c :: 0 <= r < y + 2 * b && 0 <= c < x + 2 * b ==> tmp[r][c] == img[Mirror(r - b, y)][Mirror(c - b, x)]
  }

  lemma MirrorReflects(img: Grid, tmp: Grid, y: nat, x: nat, b: nat)
    requires Rect(img, y, x) && Fits(y, x, b) && Rect(tmp, y + 2 * b, x + 2 * b) && Mirrored(img, tmp, y, x, b)
    ensures Reflected(img, tmp, y, x, b)
  {
    hide Mirror, Mirrored;
    forall r, c | 0 <= r < y && 0 <= c < x
      ensures tmp[b + r][b + c] == img[r][c]
    {
      MirroredAt(img, tmp, y, x, b, b + r, b + c);
      MirrorInside(r, y);
      MirrorInside(c, x);
    }
    forall r, s, c | 0 <= c < x + 2 * b && Opposite(r, s, b, y)
      ensures tmp[r][c] == tmp[s][c]
    {
      MirroredAt(img, tmp, y, x, b, r, c);
      MirroredAt(img, tmp, y, x, b, s, c);
      MirrorSymmetric(r - b, s - b, y);
    }
    forall r, c, d | 0 <= r < y + 2 * b && Opposite(c, d, b, x)
      ensures tmp[r][c] == tmp[r][d]
    {
      MirroredAt(img, tmp, y, x, b, r, c);
      MirroredAt(img, tmp, y, x, b, r, d);
      MirrorSymmetric(c - b, d - b, x);
    }
  }

  lemma MirroredAt(img: Grid, tmp: Grid, y: nat, x: nat, b: nat, r: int, c: int)
    requires Rect(img, y, x) && Fits(y, x, b) && Rect(tmp, y + 2 * b, x + 2 * b) && Mirrored(img, tmp, y, x, b)
    requires 0 <= r < y + 2 * b && 0 <= c < x + 2 * b
    ensures 0 <= Mirror(r - b, y) < y && 0 <= Mirror(c - b, x) < x
    ensures tmp[r][c] == img[Mirror(r - b, y)][Mirror(c - b, x)]
  {
  }

  lemma MirrorInside(i: int, n: int)
    requires 0 <= i < n
    ensures Mirror(i, n) == i
  {
  }

  lemma MirrorSymmetric(i: int, k: int, n: int)
    requires (i < 0 <= k && i + k == -1) || (k < n <= i && i + k == 2 * n - 1)
    requires 0 <= k < n
    ensures Mirror(i, n) == Mirror(k, n)
  {
  }

  // ----- the sequential version

  method Enlarge(img: array2<int>, border: nat) returns (tmp: array2<int>)
    requires Fits(img.Length0, img.Length1, border)
    ensures tmp.Length0 == img.Length0 + 2 * border && tmp.Length1 == img.Length1 + 2 * border
    ensures forall r, c :: 0 <= r < tmp.Length0 && 0 <= c < tmp.Length1 ==>
              tmp[r, c] == img[Mirror(r - border, img.Length0), Mirror(c - border, img.Length1)]
    ensures Reflected(Snap(img), Snap(tmp), img.Length0, img.Length1, border)
  {
    hide RowsDone, ColumnsDone, Reflected, Snap;
    tmp := new int[img.Length0 + 2 * border, img.Length1 + 2 * border];
    CopyImage(img, tmp, border);
    MirrorRows(img, tmp, border);
    RowsAreColumns(img, tmp, border);
    MirrorSides(img, tmp, border);
    AllDone(img, tmp, border);
    assert Mirrored(Snap(img), Snap(tmp), img.Length0, img.Length1, border);
    MirrorReflects(Snap(img), Snap(tmp), img.Length0, img.Length1, border);
  }

  lemma RowsAreColumns(img: array2<int>, tmp: array2<int>, b: nat)
    requires Fits(img.Length0, img.Length1, b)
    requires tmp.Length0 == img.Length0 + 2 * b && tmp.Length1 == img.Length1 + 2 * b
    requires RowsDone(img, tmp, b, 0, tmp.Length0)
    ensures ColumnsDone(img, tmp, b, b, b + img.Length1)
  {
  }

  lemma AllDone(img: array2<int>, tmp: array2<int>, b: nat)
    requires Fits(img.Length0, img.Length1, b)
    requires tmp.Length0 == img.Length0 + 2 * b && tmp.Length1 == img.Length1 + 2 * b
    requires ColumnsDone(img, tmp, b, 0, tmp.Length1)
    ensures forall r, c :: 0 <= r < tmp.Length0 && 0 <= c < tmp.Length1 ==>
              tmp[r, c] == img[Mirror(r - b, img.Length0), Mirror(c - b, img.Length1)]
  {
  }

  method CopyImage(img: array2<int>, tmp: array2<int>, border: nat)
    requires Fits(img.Length0, img.Length1, border) && img != tmp
    requires tmp.Length0 == img.Length0 + 2 * border && tmp.Length1 == img.Length1 + 2 * border
    modifies tmp
    ensures RowsDone(img, tmp, border, border, border + img.Length0)
  {
    for i := 0 to img.Length0
      invariant RowsDone(img, tmp, border, border, border + i)
    {
      CopyRowInto(img, i, tmp, i + border, border);
    }
  }

  method MirrorRows(img: array2<int>, tmp: array2<int>, border: nat)
    requires Fits(img.Length0, img.Length1, border) && img != tmp
    requires tmp.Length0 == img.Length0 + 2 * border && tmp.Length1 == img.Length1 + 2 * border
    requires RowsDone(img, tmp, border, border, border + img.Length0)
    modifies tmp
    ensures RowsDone(img, tmp, border, 0, tmp.Length0)
  {
    for i := 0 to border
      invariant RowsDone(img, tmp, border, border - i, border + img.Length0 + i)
    {
      CopyRowInto(img, i, tmp, border - 1 - i, border);
      CopyRowInto(img, img.Length0 - i - 1, tmp, img.Length0 + border + i, border);
    }
  }

  method MirrorSides(img: array2<int>, tmp: array2<int>, border: nat)
    requires Fits(img.Length0, img.Length1, border) && img != tmp
    requires tmp.Length0 == img.Length0 + 2 * border && tmp.Length1 == img.Length1 + 2 * border
    requires ColumnsDone(img, tmp, border, border, border + img.Length1)
    modifies tmp
    ensures ColumnsDone(img, tmp, border, 0, tmp.Length1)
  {
    var xSize := img.Length1;
    for i := 0 to border
      invariant ColumnsDone(img, tmp, border, border - i, border + xSize + i)
    {
      MirrorColumns(tmp, border - 1 - i, border + i, xSize + border + i, xSize + border - 1 - i);
    }
  }

  // Rows lo to hi-1 are right between the left and the right border.
  ghost predicate RowsDone(img: array2<int>, tmp: array2<int>, b: nat, lo: int, hi: int)
    requires Fits(img.Length0, img.Length1, b)
    requires tmp.Length0 == img.Length0 + 2 * b && tmp.Length1 == img.Length1 + 2 * b
    requires 0 <= lo && hi <= tmp.Length0
    reads img, tmp
  {
    forall r, c :: lo <= r < hi && b <= c < b + img.Length1 ==> tmp[r, c] == img[Mirror(r - b, img.Length0), c - b]
  }

  // Columns lo to hi-1 are right.
  ghost predicate ColumnsDone(img: array2<int>, tmp: array2<int>, b: nat, lo: int, hi: int)
    requires Fits(img.Length0, img.Length1, b)
    requires tmp.Length0 == img.Length0 + 2 * b && tmp.Length1 == img.Length1 + 2 * b
    requires 0 <= lo && hi <= tmp.Length1
    reads img, tmp
  {
    forall r, c :: 0 <= r < tmp.Length0 && lo <= c < hi ==>
      tmp[r, c] == img[Mirror(r - b, img.Length0), Mirror(c - b, img.Length1)]
  }

  // One column on the left and one on the right
  method MirrorColumns(tmp: array2<int>, left: int, fromLeft: int, right: int, fromRight: int)
    requires 0 <= left < tmp.Length1 && 0 <= fromLeft < tmp.Length1
    requires 0 <= right < tmp.Length1 && 0 <= fromRight < tmp.Length1
    requires left != right && left != fromLeft && left != fromRight && right != fromLeft && right != fromRight
    modifies tmp
    ensures forall r, c :: 0 <= r < tmp.Length0 && 0 <= c < tmp.Length1 ==>
              tmp[r, c] == old(tmp[r, if c == left then fromLeft else if c == right then fromRight else c])
  {
    for j := 0 to tmp.Length0
      invariant forall r, c :: 0 <= r < tmp.Length0 && 0 <= c < tmp.Length1 ==>
                  tmp[r, c] ==
                  old(tmp[r, if r >= j then c else if c == left then fromLeft else if c == right then fromRight else c])
    {
      tmp[j, left] := tmp[j, fromLeft];
      tmp[j, right] := tmp[j, fromRight];
    }
  }

  // memcpy of one image row
  method CopyRowInto(img: array2<int>, from: int, tmp: array2<int>, to: int, border: nat)
    requires img != tmp && 0 <= from < img.Length0 && 0 <= to < tmp.Length0
    requires tmp.Length1 == img.Length1 + 2 * border
    modifies tmp
    ensures forall r, c :: 0 <= r < tmp.Length0 && 0 <= c < tmp.Length1 ==>
              tmp[r, c] ==
              if r == to && border <= c < border + img.Length1 then img[from, c - border] else old(tmp[r, c])
  {
    for k := 0 to img.Length1
      invariant forall r, c :: 0 <= r < tmp.Length0 && 0 <= c < tmp.Length1 ==>
                  tmp[r, c] == if r == to && border <= c < border + k then img[from, c - border] else old(tmp[r, c])
    {
      tmp[to, border + k] := img[from, k];
    }
  }

  // ----- the parallel version

  datatype Loc = In(y: int, x: int) | Tmp(y: int, x: int) | XSize | YSize

  datatype Local = Local(step: nat)

  datatype Sizes = Sizes(y: nat, x: nat, b: nat, P: nat)

  predicate Ok(z: Sizes) {
    Fits(z.y, z.x, z.b) && z.P > 0
  }

  function Read(m: map<Loc, int>, p: Loc): int {
    if p in m then m[p] else 0
  }

  // Iterations of the loop of phase k that the threads share
  function Count(z: Sizes, k: int): nat {
    if k == 0 then z.y else z.b
  }

  function Share(z: Sizes, t: nat, k: int): int
    requires Ok(z)
  {
    if k < 3 then End(Count(z, k), z.P, t) - First(Count(z, k), z.P, t)
    else if t == 0 then 1 else 0
  }

  // Steps of thread t up to the end of phase k
  function Goal(z: Sizes, t: nat, k: int): int
    requires Ok(z)
    decreases k
  {
    if k < 0 then 0 else Goal(z, t, k - 1) + Share(z, t, k)
  }

  function CopyRow(m: map<Loc, int>, z: Sizes, from: int, to: int): map<Loc, int> {
    map c | z.b <= c < z.x + z.b :: Tmp(to, c) := Read(m, In(from, c - z.b))
  }

  function CopyColumn(m: map<Loc, int>, z: Sizes, from: int, to: int): map<Loc, int> {
    map r | 0 <= r < z.y + 2 * z.b :: Tmp(r, to) := Read(m, Tmp(r, from))
  }

  // Iteration i of the loop of phase k
  function Iteration(z: Sizes, k: nat, i: int, m: map<Loc, int>): map<Loc, int> {
    if k == 0 then CopyRow(m, z, i, i + z.b)
    else if k == 1 then CopyRow(m, z, i, z.b - 1 - i) + CopyRow(m, z, z.y - i - 1, z.y + z.b + i)
    else CopyColumn(m, z, z.b + i, z.b - 1 - i) + CopyColumn(m, z, z.x + z.b - 1 - i, z.x + z.b + i)
  }

  // The sizes as a thread finds them in *x_size and *y_size; every iteration reads them anew.
  function Seen(z: Sizes, m: map<Loc, int>): Sizes {
    var y, x := Read(m, YSize), Read(m, XSize);
    Sizes(if y >= 0 then y else 0, if x >= 0 then x else 0, z.b, z.P)
  }

  function Updates(z: Sizes, t: nat, k: nat, l: Local, m: map<Loc, int>): map<Loc, int>
    requires Ok(z)
  {
    if k < 3 then
      Iteration(Seen(z, m), k, First(Count(Seen(z, m), k), z.P, t) + l.step - Goal(z, t, k - 1), m)
    else map[XSize := Read(m, XSize) + 2 * z.b, YSize := Read(m, YSize) + 2 * z.b]
  }

  ghost predicate SizesIn(m: map<Loc, int>, z: Sizes) {
    Read(m, XSize) == z.x && Read(m, YSize) == z.y
  }

  lemma UpdatesIs(z: Sizes, t: nat, k: nat, l: Local, m: map<Loc, int>)
    requires Ok(z) && k < 3 && SizesIn(m, z)
    ensures Updates(z, t, k, l, m) == Iteration(z, k, Current(z, t, k, l), m)
  {
    hide Iteration, First, Goal;
    assert Seen(z, m) == z;
  }

  /** Why the last barrier is there: an iteration over the columns that finds the size already
      changed leaves out the pixel it is for and writes one that is not in the image. */
  lemma LateIterationGoesAstray(z: Sizes, i: nat, m: map<Loc, int>, r: int)
    requires Ok(z) && i < z.b && 0 <= r < z.y + 2 * z.b
    requires Read(m, XSize) == z.x + 2 * z.b && Read(m, YSize) == z.y + 2 * z.b
    ensures var u := Iteration(Seen(z, m), 2, i, m);
            Tmp(r, z.x + z.b + i) !in u && Tmp(r, z.x + 3 * z.b + i) in u
  {
    hide Read, CopyColumn;
    var s := Seen(z, m);
    assert s == Sizes(z.y + 2 * z.b, z.x + 2 * z.b, z.b, z.P);
    CopyColumnIs(m, s, s.b + i, s.b - 1 - i);
    CopyColumnIs(m, s, s.x + s.b - 1 - i, s.x + s.b + i);
  }

  // ----- which iteration writes which pixel, and from where

  // Pixels of the enlarged image written in phase k
  predicate Target(z: Sizes, k: int, r: int, c: int) {
    0 <= r < z.y + 2 * z.b && 0 <= c < z.x + 2 * z.b &&
    if k == 0 then z.b <= r < z.y + z.b && z.b <= c < z.x + z.b
    else if k == 1 then !(z.b <= r < z.y + z.b) && z.b <= c < z.x + z.b
    else !(z.b <= c < z.x + z.b)
  }

  function Index(z: Sizes, k: int, r: int, c: int): int {
    if k == 0 then r - z.b
    else if k == 1 then (if r < z.b then z.b - 1 - r else r - z.y - z.b)
    else if c < z.b then z.b - 1 - c else c - z.x - z.b
  }

  function Source(z: Sizes, k: int, r: int, c: int): Loc {
    if k <= 1 then In(Mirror(r - z.b, z.y), c - z.b) else Tmp(r, z.b + Mirror(c - z.b, z.x))
  }

  lemma CopyRowIs(m: map<Loc, int>, z: Sizes, from: int, to: int)
    ensures forall p :: p in CopyRow(m, z, from, to) <==> p.Tmp? && p.y == to && z.b <= p.x < z.x + z.b
    ensures forall p :: p in CopyRow(m, z, from, to) ==> CopyRow(m, z, from, to)[p] == Read(m, In(from, p.x - z.b))
  {
    hide Read;
  }

  lemma CopyColumnIs(m: map<Loc, int>, z: Sizes, from: int, to: int)
    ensures forall p :: p in CopyColumn(m, z, from, to) <==> p.Tmp? && p.x == to && 0 <= p.y < z.y + 2 * z.b
    ensures forall p :: p in CopyColumn(m, z, from, to) ==> CopyColumn(m, z, from, to)[p] == Read(m, Tmp(p.y, from))
  {
    hide Read;
  }

  lemma IterationIs(z: Sizes, k: nat, i: nat, m: map<Loc, int>)
    requires Ok(z) && k < 3 && i < (if k == 0 then z.y else z.b)
    ensures forall p :: p in Iteration(z, k, i, m) <==> p.Tmp? && Target(z, k, p.y, p.x) && Index(z, k, p.y, p.x) == i
    ensures forall p :: p in Iteration(z, k, i, m) ==> Iteration(z, k, i, m)[p] == Read(m, Source(z, k, p.y, p.x))
  {
    hide *;
    if k == 0 {
      ImageIteration(z, i, m);
    } else if k == 1 {
      RowIteration(z, i, m);
    } else {
      ColumnIteration(z, i, m);
    }
  }

  lemma ImageIteration(z: Sizes, i: nat, m: map<Loc, int>)
    requires Ok(z) && i < z.y
    ensures forall p :: p in Iteration(z, 0, i, m) <==> p.Tmp? && Target(z, 0, p.y, p.x) && Index(z, 0, p.y, p.x) == i
    ensures forall p :: p in Iteration(z, 0, i, m) ==> Iteration(z, 0, i, m)[p] == Read(m, Source(z, 0, p.y, p.x))
  {
    hide Read, CopyRow, CopyColumn;
    CopyRowIs(m, z, i, i + z.b);
  }

  lemma RowIteration(z: Sizes, i: nat, m: map<Loc, int>)
    requires Ok(z) && i < z.b
    ensures forall p :: p in Iteration(z, 1, i, m) <==> p.Tmp? && Target(z, 1, p.y, p.x) && Index(z, 1, p.y, p.x) == i
    ensures forall p :: p in Iteration(z, 1, i, m) ==> Iteration(z, 1, i, m)[p] == Read(m, Source(z, 1, p.y, p.x))
  {
    hide Read, CopyRow, CopyColumn, Target, Index, Source;
    var u := Iteration(z, 1, i, m);
    forall p
      ensures p in u <==> p.Tmp? && Target(z, 1, p.y, p.x) && Index(z, 1, p.y, p.x) == i
      ensures p in u ==> u[p] == Read(m, Source(z, 1, p.y, p.x))
    {
      CopyRowIs(m, z, i, z.b - 1 - i);
      CopyRowIs(m, z, z.y - i - 1, z.y + z.b + i);
      if p.Tmp? {
        RowPlace(z, i, p.y, p.x);
      }
    }
  }

  lemma RowPlace(z: Sizes, i: nat, r: int, c: int)
    requires Ok(z) && i < z.b
    ensures Target(z, 1, r, c) && Index(z, 1, r, c) == i <==>
              z.b <= c < z.x + z.b && (r == z.b - 1 - i || r == z.y + z.b + i)
    ensures r == z.b - 1 - i ==> Source(z, 1, r, c) == In(i, c - z.b)
    ensures r == z.y + z.b + i ==> Source(z, 1, r, c) == In(z.y - i - 1, c - z.b)
  {
  }

  lemma ColumnIteration(z: Sizes, i: nat, m: map<Loc, int>)
    requires Ok(z) && i < z.b
    ensures forall p :: p in Iteration(z, 2, i, m) <==> p.Tmp? && Target(z, 2, p.y, p.x) && Index(z, 2, p.y, p.x) == i
    ensures forall p :: p in Iteration(z, 2, i, m) ==> Iteration(z, 2, i, m)[p] == Read(m, Source(z, 2, p.y, p.x))
  {
    hide Read, CopyRow, CopyColumn, Target, Index, Source;
    var u := Iteration(z, 2, i, m);
    forall p
      ensures p in u <==> p.Tmp? && Target(z, 2, p.y, p.x) && Index(z, 2, p.y, p.x) == i
      ensures p in u ==> u[p] == Read(m, Source(z, 2, p.y, p.x))
    {
      CopyColumnIs(m, z, z.b + i, z.b - 1 - i);
      CopyColumnIs(m, z, z.x + z.b - 1 - i, z.x + z.b + i);
      if p.Tmp? {
        ColumnPlace(z, i, p.y, p.x);
      }
    }
  }

  lemma ColumnPlace(z: Sizes, i: nat, r: int, c: int)
    requires Ok(z) && i < z.b
    ensures Target(z, 2, r, c) && Index(z, 2, r, c) == i <==>
              0 <= r < z.y + 2 * z.b && (c == z.b - 1 - i || c == z.x + z.b + i)
    ensures c == z.b - 1 - i ==> Source(z, 2, r, c) == Tmp(r, z.b + i)
    ensures c == z.x + z.b + i ==> Source(z, 2, r, c) == Tmp(r, z.x + z.b - 1 - i)
  {
  }

  function OwnerOf(z: Sizes, k: nat, p: Loc): Owner
    requires Ok(z)
  {
    match p
    case In(_, _) => Free
    case Tmp(r, c) =>
      if k < 3 && Target(z, k, r, c) && BlockOf(Count(z, k), z.P, Index(z, k, r, c)) < z.P
      then By(BlockOf(Count(z, k), z.P, Index(z, k, r, c))) else Free
    case XSize => if k == 3 then By(0) else Free
    case YSize => if k == 3 then By(0) else Free
  }

  ghost function Enlarging(z: Sizes): Program<Local, Loc, int>
    requires Ok(z)
  {
    Program(
      (t: nat, k: nat, l: Local, m: map<Loc, int>) => Updates(z, t, k, l, m),
      (t: nat, k: nat, l: Local, m: map<Loc, int>) => Local(l.step + 1),
      (t: nat, k: nat, l: Local) => l.step >= Goal(z, t, k),
      (t: nat, k: nat, l: Local, m: map<Loc, int>) => if Share(z, t, k) >= 0 then Share(z, t, k) else 0,
      (k: nat, m: map<Loc, int>, p: Loc) => OwnerOf(z, k, p))
  }

  ghost predicate Memory(m: map<Loc, int>, img: Grid, z: Sizes) {
    && Rect(img, z.y, z.x)
    && (forall r, c :: 0 <= r < z.y && 0 <= c < z.x ==> In(r, c) in m && m[In(r, c)] == img[r][c])
    && (forall r, c :: 0 <= r < z.y + 2 * z.b && 0 <= c < z.x + 2 * z.b ==> Tmp(r, c) in m)
    && XSize in m && YSize in m && SizesIn(m, z)
  }

  // ----- each step keeps to its own

  lemma ShareNonNegative(z: Sizes, t: nat, k: int)
    requires Ok(z) && t < z.P
    ensures Share(z, t, k) >= 0
    ensures k < 3 ==> First(Count(z, k), z.P, t) + Share(z, t, k) <= Count(z, k)
  {
    hide First, End;
    if k < 3 {
      BlocksMeet(Count(z, k), z.P, t);
      BlockInRange(Count(z, k), z.P, t);
    }
  }

  // The iteration that thread t executes at its next step
  function Current(z: Sizes, t: nat, k: nat, l: Local): int
    requires Ok(z)
  {
    First(Count(z, k), z.P, t) + l.step - Goal(z, t, k - 1)
  }

  lemma StepOwns(z: Sizes, img: Grid, t: nat, k: nat, start: map<Loc, int>, l: Local, m: map<Loc, int>)
    requires Ok(z) && t < z.P && k <= 3 && Memory(start, img, z)
    requires Goal(z, t, k - 1) <= l.step < Goal(z, t, k) && (k < 3 ==> SizesIn(m, z))
    ensures forall p :: p in Updates(z, t, k, l, m) ==> p in start && OwnerOf(z, k, p) == By(t)
    ensures k < 3 ==> XSize !in Updates(z, t, k, l, m) && YSize !in Updates(z, t, k, l, m)
  {
    hide First, End, BlockOf, Read, Iteration, Goal, Share;
    GoalIs(z, t, k);
    ShareNonNegative(z, t, k);
    if k < 3 {
      var i := Current(z, t, k, l);
      UpdatesIs(z, t, k, l, m);
      IterationIs(z, k, i, m);
      ShareIs(z, t, k);
      assert InBlock(Count(z, k), z.P, t, i);
      BlocksTile(Count(z, k), z.P, i);
    } else {
      LastShare(z, t);
    }
  }

  lemma GoalIs(z: Sizes, t: nat, k: nat)
    requires Ok(z)
    ensures Goal(z, t, k) == Goal(z, t, k - 1) + Share(z, t, k)
  {
  }

  lemma ShareIs(z: Sizes, t: nat, k: nat)
    requires Ok(z) && k < 3
    ensures Share(z, t, k) == End(Count(z, k), z.P, t) - First(Count(z, k), z.P, t)
  {
  }

  lemma LastShare(z: Sizes, t: nat)
    requires Ok(z) && Share(z, t, 3) > 0
    ensures t == 0
  {
  }

  // What an iteration reads does not belong to anybody else.
  lemma SameEffect(z: Sizes, t: nat, k: nat, start: map<Loc, int>, l: Local, m: map<Loc, int>, m2: map<Loc, int>)
    requires Ok(z) && t < z.P && k <= 3
    requires LooksSame(Enlarging(z), t, k, start, m, m2)
    requires k < 3 ==> 0 <= Current(z, t, k, l) < Count(z, k) && SizesIn(m, z)
    requires k == 3 ==> t == 0
    ensures Updates(z, t, k, l, m2) == Updates(z, t, k, l, m)
  {
    hide First, End, BlockOf, Iteration, Goal, Share;
    if k < 3 {
      var i := Current(z, t, k, l);
      UpdatesIs(z, t, k, l, m);
      UpdatesIs(z, t, k, l, m2);
      var u, u2 := Iteration(z, k, i, m), Iteration(z, k, i, m2);
      IterationIs(z, k, i, m);
      IterationIs(z, k, i, m2);
      forall p | p in u
        ensures p in u2 && u[p] == u2[p]
      {
        SourceIsFree(z, k, p.y, p.x);
      }
      assert u == u2;
    }
  }

  lemma SourceIsFree(z: Sizes, k: nat, r: int, c: int)
    requires Ok(z) && k < 3 && Target(z, k, r, c)
    ensures OwnerOf(z, k, Source(z, k, r, c)) == Free
  {
    hide BlockOf;
  }

  lemma StepKeeps(z: Sizes, img: Grid, t: nat, k: nat, start: map<Loc, int>, l: Local, m: map<Loc, int>)
    requires Ok(z) && t < z.P && k <= 3 && Memory(start, img, z)
    requires Goal(z, t, k - 1) <= l.step < Goal(z, t, k) && (k < 3 ==> SizesIn(m, z))
    ensures StepDisciplined(Enlarging(z), t, k, start, l, m)
    ensures Updates(z, t, k, l, m).Keys <= start.Keys
    ensures k < 3 ==> XSize !in Updates(z, t, k, l, m) && YSize !in Updates(z, t, k, l, m)
  {
    hide First, End, BlockOf, Read, Updates, Goal, Share, LooksSame, OwnerOf;
    var p := Enlarging(z);
    StepOwns(z, img, t, k, start, l, m);
    GoalIs(z, t, k);
    ShareNonNegative(z, t, k);
    if k == 3 {
      LastShare(z, t);
    }
    forall m2 | LooksSame(p, t, k, start, m, m2)
      ensures Updates(z, t, k, l, m2) == Updates(z, t, k, l, m)
    {
      SameEffect(z, t, k, start, l, m, m2);
    }
  }

  lemma {:induction false} AloneCounts(z: Sizes, img: Grid, t: nat, k: nat, l: Local, start: map<Loc, int>, n: nat)
    requires Ok(z) && t < z.P && k <= 3 && Memory(start, img, z)
    requires l.step == Goal(z, t, k - 1) && l.step + n <= Goal(z, t, k)
    ensures var a := Alone(Enlarging(z), t, k, l, start, n);
            a.0.step == l.step + n && a.1.Keys == start.Keys && (k < 3 ==> SizesIn(a.1, z))
    decreases n
  {
    hide First, End, BlockOf, Updates, Goal, Share, OwnerOf;
    if n > 0 {
      AloneCounts(z, img, t, k, l, start, n - 1);
      var a := Alone(Enlarging(z), t, k, l, start, n - 1);
      StepKeeps(z, img, t, k, start, a.0, a.1);
    }
  }

  lemma PhaseKeeps(z: Sizes, img: Grid, t: nat, k: nat, l: Local, start: map<Loc, int>)
    requires Ok(z) && t < z.P && k <= 3 && Memory(start, img, z)
    requires l.step == Goal(z, t, k - 1)
    ensures PhaseDisciplined(Enlarging(z), t, k, l, start)
  {
    hide First, End, BlockOf, Read, Updates, Goal, Share, OwnerOf, Memory, Alone;
    ShareNonNegative(z, t, k);
    GoalIs(z, t, k);
    var p := Enlarging(z);
    forall n: nat | n < p.work(t, k, l, start)
      ensures var a := Alone(p, t, k, l, start, n); StepDisciplined(p, t, k, start, a.0, a.1)
    {
      AloneCounts(z, img, t, k, l, start, n);
      var a := Alone(p, t, k, l, start, n);
      StepKeeps(z, img, t, k, start, a.0, a.1);
    }
    AloneCounts(z, img, t, k, l, start, p.work(t, k, l, start));
  }

  // ----- phase by phase

  ghost predicate PhaseOk(s: Shared<Local, Loc, int>, img: Grid, z: Sizes, k: nat)
    requires Ok(z)
  {
    && |s.locals| == z.P && Memory(s.mem, img, z)
    && forall t: nat :: t < z.P ==> s.locals[t].step == Goal(z, t, k - 1)
  }

  lemma NextPhaseOk(z: Sizes, img: Grid, k: nat, s: Shared<Local, Loc, int>)
    requires Ok(z) && k < 3 && PhaseOk(s, img, z, k)
    ensures PhaseOk(PhaseEnd(Enlarging(z), k, s), img, z, k + 1)
  {
    hide First, End, BlockOf, Read, Updates, Goal, Share, Alone;
    var e, p := PhaseEnd(Enlarging(z), k, s), Enlarging(z);
    forall t: nat | t < z.P
      ensures e.locals[t].step == Goal(z, t, k)
    {
      ShareNonNegative(z, t, k);
      GoalIs(z, t, k);
      AloneCounts(z, img, t, k, s.locals[t], s.mem, p.work(t, k, s.locals[t], s.mem));
    }
    forall r, c | 0 <= r < z.y && 0 <= c < z.x
      ensures In(r, c) in e.mem && e.mem[In(r, c)] == img[r][c]
    {
      assert e.mem[In(r, c)] == Final(p, k, s, In(r, c));
    }
    assert e.mem[XSize] == Final(p, k, s, XSize) && e.mem[YSize] == Final(p, k, s, YSize);
    SizesKept(s.mem, e.mem, z);
  }

  lemma SizesKept(m: map<Loc, int>, e: map<Loc, int>, z: Sizes)
    requires SizesIn(m, z) && XSize in m && YSize in m && XSize in e && YSize in e
    requires e[XSize] == m[XSize] && e[YSize] == m[YSize]
    ensures SizesIn(e, z)
  {
  }

  lemma {:induction false} PhasesOk(z: Sizes, img: Grid, k: nat, init: Shared<Local, Loc, int>)
    requires Ok(z) && k <= 3 && PhaseOk(init, img, z, 0)
    ensures PhaseOk(PhaseStart(Enlarging(z), init, k), img, z, k)
  {
    hide PhaseOk, PhaseEnd;
    if k > 0 {
      PhasesOk(z, img, k - 1, init);
      NextPhaseOk(z, img, k - 1, PhaseStart(Enlarging(z), init, k - 1));
    }
  }

  lemma EnlargingIsDisciplined(z: Sizes, img: Grid, init: Shared<Local, Loc, int>)
    requires Ok(z) && PhaseOk(init, img, z, 0)
    ensures Disciplined(Enlarging(z), init, 3)
  {
    hide First, End, BlockOf, Read, Updates, Goal, Share, Alone, PhaseStart, PhaseDisciplined, OwnerOf;
    var p := Enlarging(z);
    forall k: nat, t: nat | k <= 3 && t < |init.locals|
      ensures PhaseDisciplined(p, t, k, PhaseStart(p, init, k).locals[t], PhaseStart(p, init, k).mem)
    {
      PhasesOk(z, img, k, init);
      var s := PhaseStart(p, init, k);
      PhaseKeeps(z, img, t, k, s.locals[t], s.mem);
    }
  }

  // One more step of a thread on its own
  lemma AloneStep(z: Sizes, t: nat, k: nat, l: Local, start: map<Loc, int>, n: nat)
    requires Ok(z)
    ensures var a := Alone(Enlarging(z), t, k, l, start, n);
            Alone(Enlarging(z), t, k, l, start, n + 1) == (Local(a.0.step + 1), a.1 + Updates(z, t, k, a.0, a.1))
  {
    hide First, End, BlockOf, Updates, Alone, Goal, Share, OwnerOf;
    AloneNext(Enlarging(z), t, k, l, start, n);
  }

  // Iterations lo to hi-1 of phase k have been done.
  ghost predicate DoneUpTo(z: Sizes, k: nat, start: map<Loc, int>, m: map<Loc, int>, lo: int, hi: int) {
    forall r, c :: Target(z, k, r, c) && lo <= Index(z, k, r, c) < hi ==>
      Read(m, Tmp(r, c)) == Read(start, Source(z, k, r, c))
  }

  lemma {:induction false} Doing(z: Sizes, img: Grid, t: nat, k: nat, l: Local, start: map<Loc, int>, n: nat)
    requires Ok(z) && t < z.P && k < 3 && Memory(start, img, z)
    requires l.step == Goal(z, t, k - 1) && n <= Share(z, t, k)
    ensures var lo := First(Count(z, k), z.P, t);
            DoneUpTo(z, k, start, Alone(Enlarging(z), t, k, l, start, n).1, lo, lo + n)
    decreases n
  {
    hide First, End, BlockOf, Updates, Alone, Goal, Share, Memory, Source, Index, Target, Enlarging, Read;
    if n > 0 {
      Doing(z, img, t, k, l, start, n - 1);
      GoalIs(z, t, k);
      ShareNonNegative(z, t, k);
      AloneStep(z, t, k, l, start, n - 1);
      AloneCounts(z, img, t, k, l, start, n - 1);
      var a := Alone(Enlarging(z), t, k, l, start, n - 1);
      PhaseKeeps(z, img, t, k, l, start);
      SourcesKept(z, img, t, k, l, start, n - 1);
      DoOne(z, t, k, start, a.0, a.1);
    }
  }

  lemma SourcesKept(z: Sizes, img: Grid, t: nat, k: nat, l: Local, start: map<Loc, int>, n: nat)
    requires Ok(z) && t < z.P && k < 3 && Memory(start, img, z)
    requires l.step == Goal(z, t, k - 1) && n <= Share(z, t, k)
    ensures forall r, c :: Target(z, k, r, c) ==>
              Read(Alone(Enlarging(z), t, k, l, start, n).1, Source(z, k, r, c)) == Read(start, Source(z, k, r, c))
  {
    hide First, End, BlockOf, Updates, Alone, Goal, Share, Memory, Source, Index, Target, OwnerOf;
    PhaseKeeps(z, img, t, k, l, start);
    AloneKeys(Enlarging(z), t, k, l, start, n);
    forall r, c | Target(z, k, r, c)
      ensures Read(Alone(Enlarging(z), t, k, l, start, n).1, Source(z, k, r, c)) == Read(start, Source(z, k, r, c))
    {
      SourceIsFree(z, k, r, c);
    }
  }

  lemma DoOne(z: Sizes, t: nat, k: nat, start: map<Loc, int>, l: Local, m: map<Loc, int>)
    requires Ok(z) && t < z.P && k < 3
    requires 0 <= Current(z, t, k, l) < Count(z, k)
    requires SizesIn(m, z) && DoneUpTo(z, k, start, m, First(Count(z, k), z.P, t), Current(z, t, k, l))
    requires forall r, c :: Target(z, k, r, c) ==> Read(m, Source(z, k, r, c)) == Read(start, Source(z, k, r, c))
    ensures DoneUpTo(z, k, start, m + Updates(z, t, k, l, m), First(Count(z, k), z.P, t), Current(z, t, k, l) + 1)
  {
    hide First, End, Goal, Iteration, Source, Index, Target, Count;
    var i := Current(z, t, k, l);
    CountIs(z, k);
    UpdatesIs(z, t, k, l, m);
    IterationIs(z, k, i, m);
    var m' := m + Updates(z, t, k, l, m);
    forall r, c | Target(z, k, r, c) && First(Count(z, k), z.P, t) <= Index(z, k, r, c) < i + 1
      ensures Read(m', Tmp(r, c)) == Read(start, Source(z, k, r, c))
    {
      assert Tmp(r, c) in Iteration(z, k, i, m) <==> Index(z, k, r, c) == i;
    }
  }

  lemma CountIs(z: Sizes, k: nat)
    ensures Count(z, k) == if k == 0 then z.y else z.b
  {
  }

  // The end of phase k < 3, pixel by pixel
  lemma AfterPhase(z: Sizes, img: Grid, k: nat, s: Shared<Local, Loc, int>, r: int, c: int)
    requires Ok(z) && k < 3 && PhaseOk(s, img, z, k)
    requires 0 <= r < z.y + 2 * z.b && 0 <= c < z.x + 2 * z.b
    ensures Read(PhaseEnd(Enlarging(z), k, s).mem, Tmp(r, c)) ==
            Read(s.mem, if Target(z, k, r, c) then Source(z, k, r, c) else Tmp(r, c))
  {
    hide First, End, BlockOf, Updates, Alone, Goal, Share, Source, Target;
    var p := Enlarging(z);
    var e := PhaseEnd(p, k, s);
    assert e.mem[Tmp(r, c)] == Final(p, k, s, Tmp(r, c));
    if Target(z, k, r, c) {
      TargetIndex(z, k, r, c);
      var i := Index(z, k, r, c);
      BlocksTile(Count(z, k), z.P, i);
      var t := BlockOf(Count(z, k), z.P, i);
      var l := s.locals[t];
      ShareNonNegative(z, t, k);
      ShareIs(z, t, k);
      Doing(z, img, t, k, l, s.mem, Share(z, t, k));
      GoalIs(z, t, k);
      AloneCounts(z, img, t, k, l, s.mem, Share(z, t, k));
      assert AloneAtEnd(p, t, k, l, s.mem) == Alone(p, t, k, l, s.mem, Share(z, t, k));
    }
  }

  lemma TargetIndex(z: Sizes, k: nat, r: int, c: int)
    requires Ok(z) && k < 3 && Target(z, k, r, c)
    ensures 0 <= Index(z, k, r, c) < Count(z, k)
  {
  }

  lemma AfterThreePhases(z: Sizes, img: Grid, init: Shared<Local, Loc, int>, r: int, c: int)
    requires Ok(z) && PhaseOk(init, img, z, 0)
    requires 0 <= r < z.y + 2 * z.b && 0 <= c < z.x + 2 * z.b
    ensures Rect(img, z.y, z.x)
    ensures Read(PhaseStart(Enlarging(z), init, 3).mem, Tmp(r, c)) == img[Mirror(r - z.b, z.y)][Mirror(c - z.b, z.x)]
  {
    hide First, End, BlockOf, Enlarging, PhaseStart, PhaseEnd, Goal;
    var p := Enlarging(z);
    PhasesOk(z, img, 0, init);
    PhasesOk(z, img, 1, init);
    PhasesOk(z, img, 2, init);
    NextPhase(p, init, 0);
    NextPhase(p, init, 1);
    NextPhase(p, init, 2);
    var c' := z.b + Mirror(c - z.b, z.x);
    AfterPhase(z, img, 2, PhaseStart(p, init, 2), r, c);
    AfterPhase(z, img, 1, PhaseStart(p, init, 1), r, c');
    AfterPhase(z, img, 0, PhaseStart(p, init, 0), r, c');
  }

  lemma AfterLastPhase(z: Sizes, img: Grid, s: Shared<Local, Loc, int>)
    requires Ok(z) && PhaseOk(s, img, z, 3)
    ensures var m := PhaseEnd(Enlarging(z), 3, s).mem;
            && Read(m, XSize) == z.x + 2 * z.b && Read(m, YSize) == z.y + 2 * z.b
            && forall r, c :: 0 <= r < z.y + 2 * z.b && 0 <= c < z.x + 2 * z.b ==>
                 Read(m, Tmp(r, c)) == Read(s.mem, Tmp(r, c))
  {
    hide First, End, BlockOf, Goal, Target, Iteration;
    var p, l := Enlarging(z), s.locals[0];
    var e := PhaseEnd(p, 3, s);
    assert AloneAtEnd(p, 0, 3, l, s.mem) == Alone(p, 0, 3, l, s.mem, 1);
    AloneStep(z, 0, 3, l, s.mem, 0);
    assert e.mem[XSize] == Final(p, 3, s, XSize) && e.mem[YSize] == Final(p, 3, s, YSize);
    forall r, c | 0 <= r < z.y + 2 * z.b && 0 <= c < z.x + 2 * z.b
      ensures Read(e.mem, Tmp(r, c)) == Read(s.mem, Tmp(r, c))
    {
      assert e.mem[Tmp(r, c)] == Final(p, 3, s, Tmp(r, c));
    }
  }

  // The enlarged image in a memory
  ghost function Picture(m: map<Loc, int>, z: Sizes): (g: Grid)
    ensures Rect(g, z.y + 2 * z.b, z.x + 2 * z.b)
    ensures forall r, c :: 0 <= r < z.y + 2 * z.b && 0 <= c < z.x + 2 * z.b ==> g[r][c] == Read(m, Tmp(r, c))
  {
    seq(z.y + 2 * z.b, r requires 0 <= r < z.y + 2 * z.b =>
      seq(z.x + 2 * z.b, c requires 0 <= c < z.x + 2 * z.b => Read(m, Tmp(r, c))))
  }

  lemma EnlargedMemory(z: Sizes, img: Grid, init: Shared<Local, Loc, int>, schedule: seq<nat>)
    requires Ok(z) && PhaseOk(init, img, z, 0)
    requires Interleaving(Enlarging(z), init, 3, schedule)
    requires Finished(Enlarging(z), Reached(Enlarging(z), init, schedule), z.P, 3)
    ensures Rect(img, z.y, z.x)
    ensures var m := Reached(Enlarging(z), init, schedule).mem;
            && Read(m, XSize) == z.x + 2 * z.b && Read(m, YSize) == z.y + 2 * z.b
            && forall r, c :: 0 <= r < z.y + 2 * z.b && 0 <= c < z.x + 2 * z.b ==>
                 Read(m, Tmp(r, c)) == img[Mirror(r - z.b, z.y)][Mirror(c - z.b, z.x)]
  {
    hide First, End, BlockOf, Enlarging, PhaseStart, PhaseEnd, Goal, Reached, Interleaving, Finished, Disciplined, Read;
    var p := Enlarging(z);
    EnlargingIsDisciplined(z, img, init);
    EveryInterleavingAgrees(p, init, 3, schedule);
    PhasesOk(z, img, 3, init);
    AfterLastPhase(z, img, PhaseStart(p, init, 3));
    NextPhase(p, init, 3);
    forall r, c | 0 <= r < z.y + 2 * z.b && 0 <= c < z.x + 2 * z.b
      ensures Read(PhaseStart(p, init, 4).mem, Tmp(r, c)) == img[Mirror(r - z.b, z.y)][Mirror(c - z.b, z.x)]
    {
      AfterThreePhases(z, img, init, r, c);
    }
  }

  /** For every interleaving of P threads, the parallel version ends with the image that the
      sequential one makes: the image inside its own reflections, and the size has grown. */
  lemma ParallelEnlargeAgrees(z: Sizes, img: Grid, init: Shared<Local, Loc, int>, schedule: seq<nat>)
    requires Ok(z) && PhaseOk(init, img, z, 0)
    requires Interleaving(Enlarging(z), init, 3, schedule)
    requires Finished(Enlarging(z), Reached(Enlarging(z), init, schedule), z.P, 3)
    ensures Rect(img, z.y, z.x)
    ensures var m := Reached(Enlarging(z), init, schedule).mem;
            && Read(m, XSize) == z.x + 2 * z.b && Read(m, YSize) == z.y + 2 * z.b
            && Mirrored(img, Picture(m, z), z.y, z.x, z.b)
            && Reflected(img, Picture(m, z), z.y, z.x, z.b)
  {
    hide Enlarging, Reached, Interleaving, Finished, PhaseOk, Read, Reflected, Picture, Mirror;
    EnlargedMemory(z, img, init, schedule);
    var m := Reached(Enlarging(z), init, schedule).mem;
    MirrorReflects(img, Picture(m, z), z.y, z.x, z.b);
  }

  /** The threads always get there: no interleaving is longer than the bound, and each can be
      completed. */
  lemma ParallelEnlargeEnds(z: Sizes, img: Grid, init: Shared<Local, Loc, int>, schedule: seq<nat>)
    returns (whole: seq<nat>)
    requires Ok(z) && PhaseOk(init, img, z, 0)
    requires Interleaving(Enlarging(z), init, 3, schedule)
    ensures |schedule| <= Bound(Enlarging(z), init, 3)
    ensures schedule <= whole && Interleaving(Enlarging(z), init, 3, whole)
    ensures Finished(Enlarging(z), Reached(Enlarging(z), init, whole), z.P, 3)
  {
    hide Enlarging, PhaseStart, PhaseEnd, Goal, Reached, Interleaving, Finished, Disciplined, Read, Bound, Memory;
    EnlargingIsDisciplined(z, img, init);
    InterleavingsAreFinite(Enlarging(z), init, 3, schedule);
    whole := EveryInterleavingCanFinish(Enlarging(z), init, 3, schedule);
  }
}
