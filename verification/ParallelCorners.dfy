/** susan_corners in parallel (susan-parallel/susan.c): every thread finds the corners of its rows
    in a list of its own; the lists are then copied to the shared list one after the other, each
    at the offset given by the lengths of the lists before it. */
module ParallelCorners {
  import opened Grids
  import opened Usan
  import opened Corners
  import opened Barrier
  import opened Phases
  import opened WorkShares

  datatype Loc = Resp(i: int, j: int) | Ns(t: int) | Out(k: int)

  datatype Cell = Num(n: int) | Entry(corner: Corner, info: int)

  // Steps taken so far, the thread's own corner_list, and previous_n
  datatype Local = Local(step: nat, list: seq<Corner>, prev: nat)

  // cells counts the entries of the shared list together with what lies behind it in memory.
  datatype Setup = Setup(y: nat, x: nat, P: nat, img: Grid, lut: Lut, maxNo: int, cells: nat)

  ghost predicate Ok(z: Setup) {
    Rect(z.img, z.y, z.x) && z.P > 0
  }

  function ReadNum(m: map<Loc, Cell>, p: Loc): int {
    if p in m && m[p].Num? then m[p].n else 0
  }

  function ReadCorner(m: map<Loc, Cell>, p: Loc): Corner {
    if p in m && m[p].Entry? then m[p].corner else Corner(0, 0)
  }

  // The responses in shared memory, as an image
  function Image(z: Setup, m: map<Loc, Cell>): (g: Grid)
    ensures Rect(g, z.y, z.x)
    ensures forall i, j :: 0 <= i < z.y && 0 <= j < z.x ==> g[i][j] == ReadNum(m, Resp(i, j))
  {
    seq(z.y, i requires 0 <= i < z.y => seq(z.x, j requires 0 <= j < z.x => ReadNum(m, Resp(i, j))))
  }

  // The response image of the sequential program
  ghost function Responses(z: Setup): (g: Grid)
    requires Ok(z)
    ensures Rect(g, z.y, z.x)
    ensures forall i, j :: 0 <= i < z.y && 0 <= j < z.x ==>
              g[i][j] == if Margin(z.y, z.x, i, j, 5) then CornerResponse(z.img, z.lut, z.maxNo, z.y, z.x, i, j) else 0
  {
    seq(z.y, i requires 0 <= i < z.y => seq(z.x, j requires 0 <= j < z.x =>
      if Margin(z.y, z.x, i, j, 5) then CornerResponse(z.img, z.lut, z.maxNo, z.y, z.x, i, j) else 0))
  }

  // Rows inside the margin; NegativeRangeIsEmpty is why the loops of the source skip small images.
  function Rows(z: Setup): nat {
    if z.y >= 10 then z.y - 10 else 0
  }

  function Share(z: Setup, t: nat, k: int): int
    requires z.P > 0
  {
    var rows := End(Rows(z), z.P, t) - First(Rows(z), z.P, t);
    if k == 0 then rows else if k == 1 then rows + 1 else t + 1 + if t + 1 == z.P then 1 else 0
  }

  function Goal(z: Setup, t: nat, k: int): int
    requires z.P > 0
    decreases k
  {
    if k < 0 then 0 else Goal(z, t, k - 1) + Share(z, t, k)
  }

  // The row that thread t works on, d steps into phase 0 or 1
  function Row(z: Setup, t: nat, d: int): int
    requires z.P > 0
  {
    5 + First(Rows(z), z.P, t) + d
  }

  ghost function Updates(z: Setup, t: nat, k: nat, l: Local, m: map<Loc, Cell>): map<Loc, Cell>
    requires Ok(z)
  {
    var d := l.step - Goal(z, t, k - 1);
    if k == 0 then
      map j | 5 <= j < z.x - 5 && Margin(z.y, z.x, Row(z, t, d), j, 5) ::
        Resp(Row(z, t, d), j) := Num(CornerResponse(z.img, z.lut, z.maxNo, z.y, z.x, Row(z, t, d), j))
    else if k == 1 then
      if d + 1 == Share(z, t, 1) then map[Ns(t) := Num(|l.list|)] else map[]
    else
      if d == t then map c | l.prev <= c < l.prev + |l.list| :: Out(c) := Entry(l.list[c - l.prev], 0)
      else if d == t + 1 then
        map[Out(l.prev + |l.list|) := Entry(ReadCorner(m, Out(l.prev + |l.list|)), 7)]
      else map[]
  }

  ghost function Next(z: Setup, t: nat, k: nat, l: Local, m: map<Loc, Cell>): Local
    requires Ok(z)
  {
    var d := l.step - Goal(z, t, k - 1);
    if k == 1 && d + 1 < Share(z, t, 1) then
      Local(l.step + 1, l.list + RowOf(Image(z, m), z.y, z.x, Row(z, t, d)), l.prev)
    else if k == 2 && 0 <= d < t then
      Local(l.step + 1, l.list, l.prev + if ReadNum(m, Ns(d)) >= 0 then ReadNum(m, Ns(d)) else 0)
    else l.(step := l.step + 1)
  }

  // ----- offsets

  function Length(m: map<Loc, Cell>, t: nat): nat {
    if ReadNum(m, Ns(t)) >= 0 then ReadNum(m, Ns(t)) else 0
  }

  // Corners found by the threads before t
  function Offset(m: map<Loc, Cell>, t: nat): nat {
    if t == 0 then 0 else Offset(m, t - 1) + Length(m, t - 1)
  }

  // The thread among the first n whose stretch of the shared list holds k, or P
  function SlotOwner(m: map<Loc, Cell>, P: nat, k: int, n: nat): nat {
    if n == 0 then P
    else if Offset(m, n - 1) <= k < Offset(m, n) then n - 1
    else SlotOwner(m, P, k, n - 1)
  }

  function OwnerOf(z: Setup, k: nat, start: map<Loc, Cell>, p: Loc): Owner
    requires z.P > 0
  {
    match p
    case Resp(i, j) =>
      if k == 0 && 5 <= i && BlockOf(Rows(z), z.P, i - 5) < z.P then By(BlockOf(Rows(z), z.P, i - 5)) else Free
    case Ns(t) => if k == 1 && t >= 0 then By(t) else Free
    case Out(c) =>
      if k != 2 then Free
      else if c == Offset(start, z.P) then By(z.P - 1)
      else if SlotOwner(start, z.P, c, z.P) < z.P then By(SlotOwner(start, z.P, c, z.P)) else Free
  }

  ghost function Merging(z: Setup): Program<Local, Loc, Cell>
    requires Ok(z)
  {
    Program(
      (t: nat, k: nat, l: Local, m: map<Loc, Cell>) => Updates(z, t, k, l, m),
      (t: nat, k: nat, l: Local, m: map<Loc, Cell>) => Next(z, t, k, l, m),
      (t: nat, k: nat, l: Local) => l.step >= Goal(z, t, k),
      (t: nat, k: nat, l: Local, m: map<Loc, Cell>) => if Share(z, t, k) >= 0 then Share(z, t, k) else 0,
      (k: nat, m: map<Loc, Cell>, p: Loc) => OwnerOf(z, k, m, p))
  }

  // The shared variables
  ghost predicate Memory(m: map<Loc, Cell>, z: Setup) {
    && (forall i, j :: 0 <= i < z.y && 0 <= j < z.x ==> Resp(i, j) in m)
    && (forall t :: 0 <= t < z.P ==> Ns(t) in m)
    && (forall c :: 0 <= c < z.cells ==> Out(c) in m)
  }

  // ----- corners of a range of rows

  // Corners of one row, if it is inside the margin
  function RowOf(r: Grid, ghost y: nat, x: nat, i: int): seq<Corner>
    requires Rect(r, y, x)
  {
    if x >= 10 && 5 <= i < |r| - 5 then RowCorners(r, y, x, 5, i, x - 5) else []
  }

  function Between(r: Grid, ghost y: nat, x: nat, a: int, b: int): (c: seq<Corner>)
    requires Rect(r, y, x) && a <= b
    decreases b - a
  {
    if b == a then [] else Between(r, y, x, a, b - 1) + RowOf(r, y, x, b - 1)
  }

  lemma {:induction false} BetweenJoins(r: Grid, y: nat, x: nat, a: int, b: int, c: int)
    requires Rect(r, y, x) && a <= b <= c
    ensures Between(r, y, x, a, b) + Between(r, y, x, b, c) == Between(r, y, x, a, c)
    decreases c - b
  {
    hide RowOf;
    if b < c {
      BetweenJoins(r, y, x, a, b, c - 1);
    }
  }

  lemma {:induction false} BetweenIsAbove(r: Grid, y: nat, x: nat, b: int)
    requires Rect(r, y, x) && 5 <= b <= y - 5 && x >= 10
    ensures Between(r, y, x, 5, b) == CornersAbove(r, y, x, 5, b)
    decreases b
  {
    hide RowCorners;
    if b > 5 {
      BetweenIsAbove(r, y, x, b - 1);
    }
  }

  lemma {:induction false} BetweenIsNone(r: Grid, y: nat, x: nat, b: int)
    requires Rect(r, y, x) && 5 <= b && x < 10
    ensures Between(r, y, x, 5, b) == []
    decreases b
  {
    if b > 5 {
      BetweenIsNone(r, y, x, b - 1);
    }
  }

  lemma BetweenIsAll(z: Setup, r: Grid)
    requires Rect(r, z.y, z.x)
    ensures Between(r, z.y, z.x, 5, 5 + Rows(z)) == AllCorners(r, z.y, z.x, 5)
  {
    hide CornersAbove, Between;
    if z.x < 10 {
      BetweenIsNone(r, z.y, z.x, 5 + Rows(z));
    } else if z.y < 10 {
      BetweenNone(r, z.y, z.x, 5);
    } else {
      BetweenIsAbove(r, z.y, z.x, z.y - 5);
    }
  }

  // ----- shares and goals

  lemma GoalIs(z: Setup, t: nat, k: nat)
    requires z.P > 0
    ensures Goal(z, t, k) == Goal(z, t, k - 1) + Share(z, t, k)
  {
  }

  lemma ShareIs(z: Setup, t: nat)
    requires t < z.P
    ensures Share(z, t, 0) == End(Rows(z), z.P, t) - First(Rows(z), z.P, t) >= 0
    ensures Share(z, t, 1) == Share(z, t, 0) + 1
    ensures Share(z, t, 2) == t + 1 + if t + 1 == z.P then 1 else 0
    ensures First(Rows(z), z.P, t) + Share(z, t, 0) <= Rows(z)
  {
    BlocksMeet(Rows(z), z.P, t);
    BlockInRange(Rows(z), z.P, t);
  }

  lemma {:induction false} OffsetsGrow(m: map<Loc, Cell>, t: nat, u: nat)
    requires t <= u
    ensures Offset(m, t) <= Offset(m, u)
    decreases u
  {
    if t < u {
      OffsetsGrow(m, t, u - 1);
    }
  }

  lemma {:induction false} SlotOwnerFinds(m: map<Loc, Cell>, P: nat, k: int, t: nat, n: nat)
    requires t < n <= P && Offset(m, t) <= k < Offset(m, t + 1)
    ensures SlotOwner(m, P, k, n) == t
    decreases n
  {
    if t < n - 1 {
      OffsetsGrow(m, t + 1, n - 1);
      SlotOwnerFinds(m, P, k, t, n - 1);
    }
  }

  lemma {:induction false} SlotOwnerInside(m: map<Loc, Cell>, P: nat, k: int, n: nat)
    requires n <= P && 0 <= k < Offset(m, n)
    ensures var t := SlotOwner(m, P, k, n); t < n && Offset(m, t) <= k < Offset(m, t + 1)
    decreases n
  {
    if n > 0 && k < Offset(m, n - 1) {
      OffsetsGrow(m, n - 1, n);
      SlotOwnerInside(m, P, k, n - 1);
    }
  }

  // ----- one more step of a thread on its own

  lemma AloneStep(z: Setup, t: nat, k: nat, l: Local, start: map<Loc, Cell>, n: nat)
    requires Ok(z)
    ensures var a := Alone(Merging(z), t, k, l, start, n);
            Alone(Merging(z), t, k, l, start, n + 1) == (Next(z, t, k, a.0, a.1), a.1 + Updates(z, t, k, a.0, a.1))
  {
    hide First, End, BlockOf, Updates, Next, Alone, Goal, Share, OwnerOf;
    AloneNext(Merging(z), t, k, l, start, n);
  }

  lemma AloneNone(z: Setup, t: nat, k: nat, l: Local, start: map<Loc, Cell>)
    requires Ok(z)
    ensures Alone(Merging(z), t, k, l, start, 0) == (l, start)
  {
  }

  // ----- phase 0: responses

  lemma Phase0Update(z: Setup, t: nat, l: Local, m: map<Loc, Cell>)
    requires Ok(z) && t < z.P && 0 <= l.step < Share(z, t, 0)
    ensures forall p :: p in Updates(z, t, 0, l, m) <==>
              p.Resp? && p.i == Row(z, t, l.step) && 5 <= p.j < z.x - 5
    ensures forall p :: p in Updates(z, t, 0, l, m) ==>
              Margin(z.y, z.x, p.i, p.j, 5) &&
              Updates(z, t, 0, l, m)[p] == Num(CornerResponse(z.img, z.lut, z.maxNo, z.y, z.x, p.i, p.j))
    ensures Next(z, t, 0, l, m) == l.(step := l.step + 1)
    ensures 5 <= Row(z, t, l.step) < z.y - 5
  {
    hide First, End, CornerResponse, Share;
    ShareIs(z, t);
  }

  lemma Phase0Step(z: Setup, t: nat, start: map<Loc, Cell>, l: Local, m: map<Loc, Cell>)
    requires Ok(z) && t < z.P && Memory(start, z) && 0 <= l.step < Share(z, t, 0)
    ensures StepDisciplined(Merging(z), t, 0, start, l, m)
  {
    hide First, End, BlockOf, CornerResponse, Share, Updates, Next, LooksSame;
    Phase0Update(z, t, l, m);
    ShareIs(z, t);
    BlocksTile(Rows(z), z.P, Row(z, t, l.step) - 5);
    assert InBlock(Rows(z), z.P, t, Row(z, t, l.step) - 5);
    forall m2 | LooksSame(Merging(z), t, 0, start, m, m2)
      ensures Updates(z, t, 0, l, m2) == Updates(z, t, 0, l, m) && Next(z, t, 0, l, m2) == Next(z, t, 0, l, m)
    {
      Phase0Update(z, t, l, m2);
    }
  }

  ghost predicate RowsDone(z: Setup, m: map<Loc, Cell>, a: int, b: int)
    requires Ok(z)
  {
    forall i, j :: a <= i < b && Margin(z.y, z.x, i, j, 5) ==>
      ReadNum(m, Resp(i, j)) == CornerResponse(z.img, z.lut, z.maxNo, z.y, z.x, i, j)
  }

  lemma {:induction false} Phase0Alone(z: Setup, t: nat, l: Local, start: map<Loc, Cell>, n: nat)
    requires Ok(z) && t < z.P && Memory(start, z) && l.step == 0 && n <= Share(z, t, 0)
    ensures var a := Alone(Merging(z), t, 0, l, start, n);
            && a.0 == l.(step := n)
            && a.1.Keys == start.Keys
            && RowsDone(z, a.1, Row(z, t, 0), Row(z, t, n))
            && (forall p :: p in start && !(p.Resp? && 5 <= p.j < z.x - 5) ==> a.1[p] == start[p])
    decreases n
  {
    hide First, End, CornerResponse, Share, Updates, Next, Alone, Merging;
    AloneNone(z, t, 0, l, start);
    if n > 0 {
      Phase0Alone(z, t, l, start, n - 1);
      AloneStep(z, t, 0, l, start, n - 1);
      var a := Alone(Merging(z), t, 0, l, start, n - 1);
      Phase0Update(z, t, a.0, a.1);
      ShareIs(z, t);
    }
  }

  lemma Phase0Keeps(z: Setup, t: nat, l: Local, start: map<Loc, Cell>)
    requires Ok(z) && t < z.P && Memory(start, z) && l.step == 0
    ensures PhaseDisciplined(Merging(z), t, 0, l, start)
  {
    hide First, End, BlockOf, CornerResponse, Share, Updates, Next, Alone, RowsDone, OwnerOf;
    ShareIs(z, t);
    GoalIs(z, t, 0);
    var p := Merging(z);
    forall n: nat | n < p.work(t, 0, l, start)
      ensures var a := Alone(p, t, 0, l, start, n); StepDisciplined(p, t, 0, start, a.0, a.1)
    {
      Phase0Alone(z, t, l, start, n);
      var a := Alone(p, t, 0, l, start, n);
      Phase0Step(z, t, start, a.0, a.1);
    }
    Phase0Alone(z, t, l, start, Share(z, t, 0));
  }

  // ----- phase 1: the thread's own list

  lemma SameImage(z: Setup, k: nat, t: nat, start: map<Loc, Cell>, m: map<Loc, Cell>, m2: map<Loc, Cell>)
    requires Ok(z) && k > 0 && LooksSame(Merging(z), t, k, start, m, m2)
    ensures Image(z, m2) == Image(z, m)
  {
    hide BlockOf;
    var g, h := Image(z, m), Image(z, m2);
    forall i | 0 <= i < z.y
      ensures g[i] == h[i]
    {
      assert forall j :: 0 <= j < z.x ==> g[i][j] == h[i][j];
    }
  }

  // Rows still to be scanned: the list grows, memory stays.
  lemma Phase1Row(z: Setup, t: nat, l: Local, m: map<Loc, Cell>, d: nat)
    requires Ok(z) && t < z.P && l.step == Goal(z, t, 0) + d && d < Share(z, t, 0)
    ensures Updates(z, t, 1, l, m) == map[]
    ensures Next(z, t, 1, l, m) == Local(l.step + 1, l.list + RowOf(Image(z, m), z.y, z.x, Row(z, t, d)), l.prev)
  {
    hide First, End, Share, Goal, Image, RowOf;
    ShareIs(z, t);
  }

  // After the last row: the length is published.
  lemma Phase1Last(z: Setup, t: nat, l: Local, m: map<Loc, Cell>)
    requires Ok(z) && t < z.P && l.step == Goal(z, t, 0) + Share(z, t, 0)
    ensures Updates(z, t, 1, l, m) == map[Ns(t) := Num(|l.list|)]
    ensures Next(z, t, 1, l, m) == l.(step := l.step + 1)
  {
    hide First, End, Share, Goal, Image, RowOf;
    ShareIs(z, t);
  }

  lemma {:induction false} Phase1Alone(z: Setup, t: nat, l: Local, start: map<Loc, Cell>, n: nat)
    requires Ok(z) && t < z.P && l.step == Goal(z, t, 0) && l.list == [] && n <= Share(z, t, 0)
    ensures Row(z, t, 0) <= Row(z, t, n)
    ensures Alone(Merging(z), t, 1, l, start, n) ==
            (Local(l.step + n, Between(Image(z, start), z.y, z.x, Row(z, t, 0), Row(z, t, n)), l.prev), start)
    decreases n
  {
    hide First, End, Share, Goal, Image, RowOf, Updates, Next, Alone, Merging;
    ShareIs(z, t);
    AloneNone(z, t, 1, l, start);
    if n > 0 {
      Phase1Alone(z, t, l, start, n - 1);
      AloneStep(z, t, 1, l, start, n - 1);
      Phase1Row(z, t, Alone(Merging(z), t, 1, l, start, n - 1).0, start, n - 1);
      assert start + map[] == start;
    }
  }

  lemma Phase1Step(z: Setup, t: nat, start: map<Loc, Cell>, l: Local, n: nat)
    requires Ok(z) && t < z.P && Memory(start, z) && l.step == Goal(z, t, 0) + n && n <= Share(z, t, 0)
    ensures StepDisciplined(Merging(z), t, 1, start, l, start)
  {
    hide First, End, BlockOf, Share, Goal, Image, RowOf, Updates, Next, LooksSame;
    GoalIs(z, t, 1);
    ShareIs(z, t);
    forall m2 | LooksSame(Merging(z), t, 1, start, start, m2)
      ensures Updates(z, t, 1, l, m2) == Updates(z, t, 1, l, start) && Next(z, t, 1, l, m2) == Next(z, t, 1, l, start)
    {
      SameImage(z, 1, t, start, start, m2);
      if n < Share(z, t, 0) {
        Phase1Row(z, t, l, start, n);
        Phase1Row(z, t, l, m2, n);
      } else {
        Phase1Last(z, t, l, start);
        Phase1Last(z, t, l, m2);
      }
    }
    if n < Share(z, t, 0) {
      Phase1Row(z, t, l, start, n);
    } else {
      Phase1Last(z, t, l, start);
    }
  }

  lemma Phase1End(z: Setup, t: nat, l: Local, start: map<Loc, Cell>)
    requires Ok(z) && t < z.P && l.step == Goal(z, t, 0) && l.list == []
    ensures Row(z, t, 0) <= Row(z, t, Share(z, t, 0))
    ensures var list := Between(Image(z, start), z.y, z.x, Row(z, t, 0), Row(z, t, Share(z, t, 0)));
            && Share(z, t, 1) >= 0
            && var a := Alone(Merging(z), t, 1, l, start, Share(z, t, 1));
            && a.0.step == Goal(z, t, 1) && a.0.list == list && a.0.prev == l.prev
            && a.1 == start[Ns(t) := Num(|list|)]
  {
    hide First, End, Share, Goal, Image, RowOf, Updates, Next, Alone, Merging, Between;
    ShareIs(z, t);
    GoalIs(z, t, 1);
    Phase1Alone(z, t, l, start, Share(z, t, 0));
    AloneStep(z, t, 1, l, start, Share(z, t, 0));
    var a := Alone(Merging(z), t, 1, l, start, Share(z, t, 0));
    Phase1Last(z, t, a.0, start);
    assert start + map[Ns(t) := Num(|a.0.list|)] == start[Ns(t) := Num(|a.0.list|)];
  }

  lemma Phase1Keeps(z: Setup, t: nat, l: Local, start: map<Loc, Cell>)
    requires Ok(z) && t < z.P && Memory(start, z) && l.step == Goal(z, t, 0) && l.list == []
    ensures PhaseDisciplined(Merging(z), t, 1, l, start)
  {
    hide First, End, BlockOf, Share, Goal, Image, RowOf, Updates, Next, Alone, OwnerOf, Between;
    ShareIs(z, t);
    GoalIs(z, t, 1);
    var p := Merging(z);
    forall n: nat | n < p.work(t, 1, l, start)
      ensures var a := Alone(p, t, 1, l, start, n); StepDisciplined(p, t, 1, start, a.0, a.1)
    {
      Phase1Alone(z, t, l, start, n);
      Phase1Step(z, t, start, Alone(p, t, 1, l, start, n).0, n);
    }
    Phase1End(z, t, l, start);
  }

  // ----- phase 2: copying to the shared list

  // Lists and published lengths agree, and everything fits.
  ghost predicate ReadyToCopy(z: Setup, t: nat, l: Local, start: map<Loc, Cell>)
    requires z.P > 0
  {
    && l.step == Goal(z, t, 1) && l.prev == 0 && |l.list| == Length(start, t)
    && Offset(start, z.P) < z.cells
  }

  lemma Phase2Sum(z: Setup, t: nat, l: Local, m: map<Loc, Cell>, d: nat)
    requires Ok(z) && t < z.P && l.step == Goal(z, t, 1) + d && d < t
    ensures Updates(z, t, 2, l, m) == map[]
    ensures Next(z, t, 2, l, m) == Local(l.step + 1, l.list, l.prev + Length(m, d))
  {
    hide First, End, Share, Goal, Image, RowOf;
  }

  lemma Phase2Copy(z: Setup, t: nat, l: Local, m: map<Loc, Cell>)
    requires Ok(z) && t < z.P && l.step == Goal(z, t, 1) + t
    ensures forall p :: p in Updates(z, t, 2, l, m) <==> p.Out? && l.prev <= p.k < l.prev + |l.list|
    ensures forall p :: p in Updates(z, t, 2, l, m) ==> Updates(z, t, 2, l, m)[p] == Entry(l.list[p.k - l.prev], 0)
    ensures Next(z, t, 2, l, m) == l.(step := l.step + 1)
  {
    hide First, End, Share, Goal, Image, RowOf;
  }

  lemma Phase2Mark(z: Setup, t: nat, l: Local, m: map<Loc, Cell>)
    requires Ok(z) && t < z.P && l.step == Goal(z, t, 1) + t + 1
    ensures var last := Out(l.prev + |l.list|);
            Updates(z, t, 2, l, m) == map[last := Entry(ReadCorner(m, last), 7)]
    ensures Next(z, t, 2, l, m) == l.(step := l.step + 1)
  {
    hide First, End, Share, Goal, Image, RowOf;
  }

  lemma {:induction false} Phase2Alone(z: Setup, t: nat, l: Local, start: map<Loc, Cell>, n: nat)
    requires Ok(z) && t < z.P && ReadyToCopy(z, t, l, start) && n <= t
    ensures Alone(Merging(z), t, 2, l, start, n) == (Local(l.step + n, l.list, Offset(start, n)), start)
    decreases n
  {
    hide First, End, Share, Goal, Updates, Next, Alone, Merging, Length;
    AloneNone(z, t, 2, l, start);
    if n > 0 {
      Phase2Alone(z, t, l, start, n - 1);
      AloneStep(z, t, 2, l, start, n - 1);
      Phase2Sum(z, t, Alone(Merging(z), t, 2, l, start, n - 1).0, start, n - 1);
      assert start + map[] == start;
    }
  }

  // After t + 1 steps the list is in place.
  lemma Phase2Copied(z: Setup, t: nat, l: Local, start: map<Loc, Cell>)
    requires Ok(z) && t < z.P && ReadyToCopy(z, t, l, start)
    ensures var a := Alone(Merging(z), t, 2, l, start, t + 1);
            && a.0 == Local(l.step + t + 1, l.list, Offset(start, t))
            && a.1.Keys == start.Keys + (set c | Offset(start, t) <= c < Offset(start, t + 1) :: Out(c))
            && (forall c :: Offset(start, t) <= c < Offset(start, t + 1) ==>
                  a.1[Out(c)] == Entry(l.list[c - Offset(start, t)], 0))
            && (forall p :: p in start && !(p.Out? && Offset(start, t) <= p.k < Offset(start, t + 1)) ==>
                  a.1[p] == start[p])
  {
    hide First, End, Share, Goal, Updates, Next, Alone, Merging, Length;
    Phase2Alone(z, t, l, start, t);
    AloneStep(z, t, 2, l, start, t);
    var a := Alone(Merging(z), t, 2, l, start, t);
    Phase2Copy(z, t, a.0, start);
  }

  lemma SlotsOwned(z: Setup, t: nat, start: map<Loc, Cell>, c: int)
    requires Ok(z) && t < z.P && Offset(start, z.P) < z.cells && Memory(start, z)
    requires Offset(start, t) <= c < Offset(start, t + 1)
    ensures OwnerOf(z, 2, start, Out(c)) == By(t) && Out(c) in start
  {
    hide BlockOf;
    OffsetsGrow(start, t + 1, z.P);
    SlotOwnerFinds(start, z.P, c, t, z.P);
  }

  lemma Phase2SumStep(z: Setup, t: nat, start: map<Loc, Cell>, l: Local, n: nat)
    requires Ok(z) && t < z.P && l.step == Goal(z, t, 1) + n && n < t
    ensures StepDisciplined(Merging(z), t, 2, start, l, start)
  {
    hide First, End, BlockOf, Share, Goal, Updates, Next;
    GoalIs(z, t, 2);
    ShareIs(z, t);
    Phase2Sum(z, t, l, start, n);
    forall m2 | LooksSame(Merging(z), t, 2, start, start, m2)
      ensures Updates(z, t, 2, l, m2) == Updates(z, t, 2, l, start) && Next(z, t, 2, l, m2) == Next(z, t, 2, l, start)
    {
      Phase2Sum(z, t, l, m2, n);
    }
  }

  lemma Phase2CopyStep(z: Setup, t: nat, start: map<Loc, Cell>, l: Local, m: map<Loc, Cell>)
    requires Ok(z) && t < z.P && Memory(start, z) && Offset(start, z.P) < z.cells
    requires l.step == Goal(z, t, 1) + t && l.prev == Offset(start, t) && |l.list| == Length(start, t)
    ensures StepDisciplined(Merging(z), t, 2, start, l, m)
  {
    hide First, End, BlockOf, Share, Goal, Updates, Next, LooksSame, OwnerOf, Length, Memory;
    GoalIs(z, t, 2);
    ShareIs(z, t);
    Phase2Copy(z, t, l, m);
    forall p | p in Updates(z, t, 2, l, m)
      ensures p in start && OwnerOf(z, 2, start, p) == By(t)
    {
      SlotsOwned(z, t, start, p.k);
    }
    forall m2 | LooksSame(Merging(z), t, 2, start, m, m2)
      ensures Updates(z, t, 2, l, m2) == Updates(z, t, 2, l, m) && Next(z, t, 2, l, m2) == Next(z, t, 2, l, m)
    {
      Phase2Copy(z, t, l, m2);
      assert Updates(z, t, 2, l, m2) == Updates(z, t, 2, l, m);
    }
  }

  lemma Phase2MarkStep(z: Setup, t: nat, start: map<Loc, Cell>, l: Local, m: map<Loc, Cell>)
    requires Ok(z) && t + 1 == z.P && Memory(start, z) && Offset(start, z.P) < z.cells
    requires l.step == Goal(z, t, 1) + t + 1 && l.prev == Offset(start, t) && |l.list| == Length(start, t)
    ensures StepDisciplined(Merging(z), t, 2, start, l, m)
  {
    hide First, End, BlockOf, Share, Goal, Updates, Next, Length;
    GoalIs(z, t, 2);
    ShareIs(z, t);
    Phase2Mark(z, t, l, m);
    forall m2 | LooksSame(Merging(z), t, 2, start, m, m2)
      ensures Updates(z, t, 2, l, m2) == Updates(z, t, 2, l, m) && Next(z, t, 2, l, m2) == Next(z, t, 2, l, m)
    {
      Phase2Mark(z, t, l, m2);
    }
  }

  lemma Phase2Keeps(z: Setup, t: nat, l: Local, start: map<Loc, Cell>)
    requires Ok(z) && t < z.P && Memory(start, z) && ReadyToCopy(z, t, l, start)
    ensures PhaseDisciplined(Merging(z), t, 2, l, start)
  {
    hide First, End, BlockOf, Share, Goal, Updates, Next, Alone, OwnerOf, Length;
    ShareIs(z, t);
    GoalIs(z, t, 2);
    var p := Merging(z);
    forall n: nat | n < p.work(t, 2, l, start)
      ensures var a := Alone(p, t, 2, l, start, n); StepDisciplined(p, t, 2, start, a.0, a.1)
    {
      if n <= t {
        Phase2Alone(z, t, l, start, n);
        var a := Alone(p, t, 2, l, start, n);
        if n < t {
          Phase2SumStep(z, t, start, a.0, n);
        } else {
          Phase2CopyStep(z, t, start, a.0, a.1);
        }
      } else {
        Phase2Copied(z, t, l, start);
        var a := Alone(p, t, 2, l, start, t + 1);
        Phase2MarkStep(z, t, start, a.0, a.1);
      }
    }
    Phase2Copied(z, t, l, start);
    if t + 1 == z.P {
      AloneStep(z, t, 2, l, start, t + 1);
      var a := Alone(p, t, 2, l, start, t + 1);
      Phase2Mark(z, t, a.0, a.1);
    }
  }

  // ----- the state at the start of each phase

  ghost predicate Phase0Ok(s: Shared<Local, Loc, Cell>, z: Setup) {
    && |s.locals| == z.P && Memory(s.mem, z)
    && (forall t: nat :: t < z.P ==> s.locals[t] == Local(0, [], 0))
    && (forall i, j :: 0 <= i < z.y && 0 <= j < z.x ==> ReadNum(s.mem, Resp(i, j)) == 0)
  }

  ghost predicate Phase1Ok(s: Shared<Local, Loc, Cell>, z: Setup)
    requires Ok(z)
  {
    && |s.locals| == z.P && Memory(s.mem, z)
    && (forall t: nat :: t < z.P ==>
          s.locals[t].step == Goal(z, t, 0) && s.locals[t].list == [] && s.locals[t].prev == 0)
    && Image(z, s.mem) == Responses(z)
  }

  // Corners of the rows of thread t
  ghost function OwnCorners(z: Setup, t: nat): seq<Corner>
    requires Ok(z) && t < z.P
  {
    ShareIs(z, t);
    Between(Responses(z), z.y, z.x, Row(z, t, 0), Row(z, t, Share(z, t, 0)))
  }

  ghost predicate Phase2Ok(s: Shared<Local, Loc, Cell>, z: Setup)
    requires Ok(z)
  {
    && |s.locals| == z.P && Memory(s.mem, z)
    && (forall t: nat :: t < z.P ==>
          && s.locals[t].step == Goal(z, t, 1) && s.locals[t].list == OwnCorners(z, t) && s.locals[t].prev == 0
          && Length(s.mem, t) == |OwnCorners(z, t)|)
  }

  lemma AfterPhase0(z: Setup, s: Shared<Local, Loc, Cell>)
    requires Ok(z) && Phase0Ok(s, z)
    ensures Phase1Ok(PhaseEnd(Merging(z), 0, s), z)
  {
    hide First, End, BlockOf, Share, Goal, Updates, Next, Alone, CornerResponse, Image, Responses;
    var p := Merging(z);
    var e := PhaseEnd(p, 0, s);
    forall t: nat | t < z.P
      ensures e.locals[t].step == Goal(z, t, 0) && e.locals[t].list == [] && e.locals[t].prev == 0
    {
      ShareIs(z, t);
      GoalIs(z, t, 0);
      BeforeFirst(z, t);
      Phase0Alone(z, t, s.locals[t], s.mem, Share(z, t, 0));
    }
    var g, h := Image(z, e.mem), Responses(z);
    forall i | 0 <= i < z.y
      ensures g[i] == h[i]
    {
      forall j | 0 <= j < z.x
        ensures g[i][j] == h[i][j]
      {
        PixelAfterPhase0(z, s, i, j);
      }
    }
  }

  lemma BeforeFirst(z: Setup, t: nat)
    requires z.P > 0
    ensures Goal(z, t, -1) == 0
  {
  }

  lemma PixelAfterPhase0(z: Setup, s: Shared<Local, Loc, Cell>, i: int, j: int)
    requires Ok(z) && Phase0Ok(s, z) && 0 <= i < z.y && 0 <= j < z.x
    ensures ReadNum(PhaseEnd(Merging(z), 0, s).mem, Resp(i, j)) ==
            if Margin(z.y, z.x, i, j, 5) then CornerResponse(z.img, z.lut, z.maxNo, z.y, z.x, i, j) else 0
  {
    hide First, End, BlockOf, Share, Goal, Updates, Next, Alone, CornerResponse;
    var p := Merging(z);
    var e := PhaseEnd(p, 0, s);
    assert e.mem[Resp(i, j)] == Final(p, 0, s, Resp(i, j));
    if 5 <= i {
      BlocksTile(Rows(z), z.P, i - 5);
      var t := BlockOf(Rows(z), z.P, i - 5);
      if t < z.P {
        ShareIs(z, t);
        Phase0Alone(z, t, s.locals[t], s.mem, Share(z, t, 0));
        assert AloneAtEnd(p, t, 0, s.locals[t], s.mem) == Alone(p, t, 0, s.locals[t], s.mem, Share(z, t, 0));
      }
    }
  }

  lemma AfterPhase1(z: Setup, s: Shared<Local, Loc, Cell>)
    requires Ok(z) && Phase1Ok(s, z)
    ensures Phase2Ok(PhaseEnd(Merging(z), 1, s), z)
  {
    hide First, End, BlockOf, Share, Goal, Updates, Next, Alone, Image, Responses, Between;
    var p := Merging(z);
    var e := PhaseEnd(p, 1, s);
    forall t: nat | t < z.P
      ensures e.locals[t].step == Goal(z, t, 1) && e.locals[t].list == OwnCorners(z, t) && e.locals[t].prev == 0
      ensures Length(e.mem, t) == |OwnCorners(z, t)|
    {
      ShareIs(z, t);
      Phase1End(z, t, s.locals[t], s.mem);
      assert AloneAtEnd(p, t, 1, s.locals[t], s.mem) == Alone(p, t, 1, s.locals[t], s.mem, Share(z, t, 1));
      assert e.mem[Ns(t)] == Final(p, 1, s, Ns(t));
    }
  }

  // ----- offsets are numbers of corners

  // First row of thread t; for t = P the first row below the margin
  function Boundary(z: Setup, t: nat): int
    requires z.P > 0
  {
    if t < z.P then Row(z, t, 0) else 5 + Rows(z)
  }

  lemma {:induction false} OffsetIs(z: Setup, s: Shared<Local, Loc, Cell>, t: nat)
    requires Ok(z) && Phase2Ok(s, z) && t <= z.P
    ensures 5 <= Boundary(z, t) <= 5 + Rows(z)
    ensures Offset(s.mem, t) == |Between(Responses(z), z.y, z.x, 5, Boundary(z, t))|
    decreases t
  {
    hide First, End, Goal, Share, Length, RowOf, Responses, Between;
    if t == 0 {
      BlocksMeet(Rows(z), z.P, 0);
      BetweenNone(Responses(z), z.y, z.x, Boundary(z, 0));
    } else {
      OffsetIs(z, s, t - 1);
      NextBoundary(z, t - 1);
      BetweenJoins(Responses(z), z.y, z.x, 5, Boundary(z, t - 1), Boundary(z, t));
    }
  }

  lemma BetweenNone(r: Grid, y: nat, x: nat, a: int)
    requires Rect(r, y, x)
    ensures Between(r, y, x, a, a) == []
  {
  }

  lemma NextBoundary(z: Setup, t: nat)
    requires Ok(z) && t < z.P
    ensures 5 <= Boundary(z, t) <= Boundary(z, t + 1) <= 5 + Rows(z)
    ensures OwnCorners(z, t) == Between(Responses(z), z.y, z.x, Boundary(z, t), Boundary(z, t + 1))
  {
    hide First, End, Responses, Between;
    ShareIs(z, t);
    BlocksMeet(Rows(z), z.P, t);
    if t + 1 < z.P {
      ShareIs(z, t + 1);
    }
  }

  ghost function Sequential(z: Setup): seq<Corner>
    requires Ok(z)
  {
    AllCorners(Responses(z), z.y, z.x, 5)
  }

  lemma TotalIs(z: Setup, s: Shared<Local, Loc, Cell>)
    requires Ok(z) && Phase2Ok(s, z)
    ensures Offset(s.mem, z.P) == |Sequential(z)|
  {
    hide First, End, Goal, Share, Length, RowOf, Responses, Between, CornersAbove, Offset;
    OffsetIs(z, s, z.P);
    BetweenIsAll(z, Responses(z));
  }

  // Entry c of the sequential list is entry c - Offset(t) of the list of the thread that owns it.
  lemma EntryOf(z: Setup, s: Shared<Local, Loc, Cell>, t: nat, c: nat)
    requires Ok(z) && Phase2Ok(s, z) && t < z.P && Offset(s.mem, t) <= c < Offset(s.mem, t + 1)
    ensures |OwnCorners(z, t)| == Length(s.mem, t) && c < |Sequential(z)|
    ensures Sequential(z)[c] == OwnCorners(z, t)[c - Offset(s.mem, t)]
  {
    hide First, End, Goal, Share, Length, RowOf, Responses, Between, CornersAbove;
    var r, a, b, n := Responses(z), Boundary(z, t), Boundary(z, t + 1), 5 + Rows(z);
    OffsetIs(z, s, t);
    NextBoundary(z, t);
    OffsetIs(z, s, t + 1);
    BetweenJoins(r, z.y, z.x, 5, a, b);
    BetweenJoins(r, z.y, z.x, 5, b, n);
    BetweenIsAll(z, r);
  }

  // ----- the shared list at the end

  lemma AfterPhase2(z: Setup, s: Shared<Local, Loc, Cell>, c: nat)
    requires Ok(z) && Phase2Ok(s, z) && |Sequential(z)| < z.cells && c < |Sequential(z)|
    ensures Out(c) in PhaseEnd(Merging(z), 2, s).mem
    ensures PhaseEnd(Merging(z), 2, s).mem[Out(c)] == Entry(Sequential(z)[c], 0)
  {
    hide First, End, BlockOf, Share, Goal, Updates, Next, Alone, Sequential, OwnCorners, Length;
    var p := Merging(z);
    var e := PhaseEnd(p, 2, s);
    TotalIs(z, s);
    SlotOwnerInside(s.mem, z.P, c, z.P);
    var t := SlotOwner(s.mem, z.P, c, z.P);
    SlotsOwned(z, t, s.mem, c);
    var l := s.locals[t];
    EntryOf(z, s, t, c);
    CopiedAtEnd(z, t, l, s.mem, c);
    assert e.mem[Out(c)] == Final(p, 2, s, Out(c));
  }

  lemma CopiedAtEnd(z: Setup, t: nat, l: Local, start: map<Loc, Cell>, c: int)
    requires Ok(z) && t < z.P && ReadyToCopy(z, t, l, start)
    requires Offset(start, t) <= c < Offset(start, t + 1)
    ensures var m := AloneAtEnd(Merging(z), t, 2, l, start).1;
            Out(c) in m && m[Out(c)] == Entry(l.list[c - Offset(start, t)], 0)
  {
    hide First, End, BlockOf, Share, Goal, Updates, Next, Alone, Length, OwnerOf;
    ShareIs(z, t);
    Phase2Copied(z, t, l, start);
    if t + 1 == z.P {
      AloneStep(z, t, 2, l, start, t + 1);
      var a := Alone(Merging(z), t, 2, l, start, t + 1);
      Phase2Mark(z, t, a.0, a.1);
    }
  }

  lemma MarkedAtEnd(z: Setup, l: Local, start: map<Loc, Cell>)
    requires Ok(z) && ReadyToCopy(z, z.P - 1, l, start)
    ensures var m, last := AloneAtEnd(Merging(z), z.P - 1, 2, l, start).1, Out(Offset(start, z.P));
            last in m && m[last].Entry? && m[last].info == 7
  {
    hide First, End, BlockOf, Share, Goal, Updates, Next, Alone, Length, OwnerOf;
    var t := z.P - 1;
    ShareIs(z, t);
    Phase2Copied(z, t, l, start);
    AloneStep(z, t, 2, l, start, t + 1);
    var a := Alone(Merging(z), t, 2, l, start, t + 1);
    Phase2Mark(z, t, a.0, a.1);
  }

  lemma Terminated(z: Setup, s: Shared<Local, Loc, Cell>)
    requires Ok(z) && Phase2Ok(s, z) && |Sequential(z)| < z.cells
    ensures var m, last := PhaseEnd(Merging(z), 2, s).mem, Out(|Sequential(z)|);
            last in m && m[last].Entry? && m[last].info == 7
  {
    hide First, End, BlockOf, Share, Goal, Updates, Next, AloneAtEnd, Sequential, OwnCorners, Length;
    TotalIs(z, s);
    MarkedAtEnd(z, s.locals[z.P - 1], s.mem);
    var e, last := PhaseEnd(Merging(z), 2, s), Out(|Sequential(z)|);
    assert e.mem[last] == Final(Merging(z), 2, s, last);
  }

  // ----- every interleaving

  lemma PhasesOk(z: Setup, init: Shared<Local, Loc, Cell>)
    requires Ok(z) && Phase0Ok(init, z)
    ensures PhaseStart(Merging(z), init, 0) == init
    ensures Phase1Ok(PhaseStart(Merging(z), init, 1), z)
    ensures Phase2Ok(PhaseStart(Merging(z), init, 2), z)
    ensures PhaseStart(Merging(z), init, 3) == PhaseEnd(Merging(z), 2, PhaseStart(Merging(z), init, 2))
  {
    hide Phase1Ok, Phase2Ok, PhaseEnd, Merging;
    var p := Merging(z);
    assert PhaseStart(p, init, 0) == init;
    AfterPhase0(z, init);
    NextPhase(p, init, 0);
    AfterPhase1(z, PhaseStart(p, init, 1));
    NextPhase(p, init, 1);
    NextPhase(p, init, 2);
  }

  lemma MergingIsDisciplined(z: Setup, init: Shared<Local, Loc, Cell>)
    requires Ok(z) && Phase0Ok(init, z) && |Sequential(z)| < z.cells
    ensures Disciplined(Merging(z), init, 2)
  {
    hide First, End, BlockOf, Share, Goal, PhaseStart, PhaseDisciplined, OwnerOf, Merging, Sequential, OwnCorners,
        Responses, Image;
    var p := Merging(z);
    PhasesOk(z, init);
    TotalIs(z, PhaseStart(p, init, 2));
    forall k: nat, t: nat | k <= 2 && t < |init.locals|
      ensures PhaseDisciplined(p, t, k, PhaseStart(p, init, k).locals[t], PhaseStart(p, init, k).mem)
    {
      var s := PhaseStart(p, init, k);
      if k == 0 {
        Phase0Keeps(z, t, s.locals[t], s.mem);
      } else if k == 1 {
        Phase1Keeps(z, t, s.locals[t], s.mem);
      } else {
        Phase2Keeps(z, t, s.locals[t], s.mem);
      }
    }
  }

  // The sequential list, then the terminating entry
  ghost predicate HoldsList(m: map<Loc, Cell>, all: seq<Corner>) {
    && (forall c :: 0 <= c < |all| ==> Out(c) in m && m[Out(c)] == Entry(all[c], 0))
    && Out(|all|) in m && m[Out(|all|)].Entry? && m[Out(|all|)].info == 7
  }

  /** For every interleaving of P threads, the shared list ends up holding the corners of the
      sequential program in raster order, followed by the terminating entry. */
  lemma ParallelCornersAgree(z: Setup, init: Shared<Local, Loc, Cell>, schedule: seq<nat>)
    requires Ok(z) && Phase0Ok(init, z) && |Sequential(z)| < z.cells
    requires Interleaving(Merging(z), init, 2, schedule)
    requires Finished(Merging(z), Reached(Merging(z), init, schedule), z.P, 2)
    ensures HoldsList(Reached(Merging(z), init, schedule).mem, Sequential(z))
  {
    hide Merging, PhaseStart, PhaseEnd, Reached, Interleaving, Finished, Disciplined, Sequential, Phase2Ok;
    var p := Merging(z);
    MergingIsDisciplined(z, init);
    EveryInterleavingAgrees(p, init, 2, schedule);
    PhasesOk(z, init);
    var s := PhaseStart(p, init, 2);
    Terminated(z, s);
    forall c | 0 <= c < |Sequential(z)|
      ensures var m := PhaseStart(p, init, 3).mem; Out(c) in m && m[Out(c)] == Entry(Sequential(z)[c], 0)
    {
      AfterPhase2(z, s, c);
    }
  }

  lemma {:induction false} SlotOwnerOutside(m: map<Loc, Cell>, P: nat, k: int, n: nat)
    requires n <= P && Offset(m, n) <= k
    ensures SlotOwner(m, P, k, n) == P
    decreases n
  {
    if n > 0 {
      OffsetsGrow(m, n - 1, n);
      SlotOwnerOutside(m, P, k, n - 1);
    }
  }

  // Nobody writes behind the terminating entry.
  lemma BehindKept(z: Setup, init: Shared<Local, Loc, Cell>, c: nat)
    requires Ok(z) && Phase0Ok(init, z) && |Sequential(z)| < c < z.cells
    ensures Out(c) in PhaseStart(Merging(z), init, 3).mem
    ensures PhaseStart(Merging(z), init, 3).mem[Out(c)] == init.mem[Out(c)]
  {
    hide PhaseStart, PhaseEnd, AloneAtEnd, Sequential, Merging, Phase1Ok, Phase2Ok;
    var p := Merging(z);
    PhasesOk(z, init);
    NextPhase(p, init, 0);
    NextPhase(p, init, 1);
    TotalIs(z, PhaseStart(p, init, 2));
    SlotOwnerOutside(PhaseStart(p, init, 2).mem, z.P, c, z.P);
    FreeKept(z, 0, init, Out(c));
    FreeKept(z, 1, PhaseStart(p, init, 1), Out(c));
    FreeKept(z, 2, PhaseStart(p, init, 2), Out(c));
  }

  lemma FreeKept(z: Setup, k: nat, s: Shared<Local, Loc, Cell>, x: Loc)
    requires Ok(z) && x in s.mem && OwnerOf(z, k, s.mem, x) == Free
    ensures x in PhaseEnd(Merging(z), k, s).mem && PhaseEnd(Merging(z), k, s).mem[x] == s.mem[x]
  {
    hide OwnerOf, AloneAtEnd;
    assert PhaseEnd(Merging(z), k, s).mem[x] == Final(Merging(z), k, s, x);
  }

  // Behind the MAX_CORNERS entries of the list lie variables that are no entries of it.
  ghost predicate OthersBehind(m: map<Loc, Cell>, z: Setup) {
    MAX_CORNERS <= z.cells && forall c :: MAX_CORNERS <= c < z.cells ==> Out(c) in m && m[Out(c)].Num?
  }

  ghost predicate NothingOverwritten(before: map<Loc, Cell>, m: map<Loc, Cell>, z: Setup) {
    forall c :: MAX_CORNERS <= c < z.cells ==> Out(c) in m && Out(c) in before && m[Out(c)] == before[Out(c)]
  }

  /** Exactly when merging stays inside the list: the memory behind it is untouched, under every
      interleaving, if and only if the corners of all threads together fit. Otherwise, where the
      sequential program stops, the parallel one, none of whose threads has too many, writes on. */
  lemma MergingFitsExactly(z: Setup, init: Shared<Local, Loc, Cell>, schedule: seq<nat>)
    requires Ok(z) && Phase0Ok(init, z) && |Sequential(z)| < z.cells && OthersBehind(init.mem, z)
    requires forall t: nat :: t < z.P ==> |OwnCorners(z, t)| < MAX_CORNERS
    requires Interleaving(Merging(z), init, 2, schedule)
    requires Finished(Merging(z), Reached(Merging(z), init, schedule), z.P, 2)
    ensures NothingOverwritten(init.mem, Reached(Merging(z), init, schedule).mem, z) <==>
            |Sequential(z)| < MAX_CORNERS
  {
    hide Merging, PhaseStart, Reached, Interleaving, Finished, Disciplined, Sequential, OwnCorners, Phase0Ok;
    var m, all := Reached(Merging(z), init, schedule).mem, Sequential(z);
    ParallelCornersAgree(z, init, schedule);
    if |all| < MAX_CORNERS {
      MergingIsDisciplined(z, init);
      Threads(init, z);
      EveryInterleavingAgrees(Merging(z), init, 2, schedule);
      forall c | MAX_CORNERS <= c < z.cells
        ensures Out(c) in m && m[Out(c)] == init.mem[Out(c)]
      {
        BehindKept(z, init, c);
      }
    } else {
      assert m[Out(MAX_CORNERS)].Entry?;
      assert init.mem[Out(MAX_CORNERS)].Num?;
    }
  }

  lemma Threads(init: Shared<Local, Loc, Cell>, z: Setup)
    requires Phase0Ok(init, z)
    ensures |init.locals| == z.P
  {
  }

  /** The threads always get there: no interleaving is longer than the bound, and each can be
      completed. */
  lemma ParallelCornersEnd(z: Setup, init: Shared<Local, Loc, Cell>, schedule: seq<nat>)
    returns (whole: seq<nat>)
    requires Ok(z) && Phase0Ok(init, z) && |Sequential(z)| < z.cells
    requires Interleaving(Merging(z), init, 2, schedule)
    ensures |schedule| <= Bound(Merging(z), init, 2)
    ensures schedule <= whole && Interleaving(Merging(z), init, 2, whole)
    ensures Finished(Merging(z), Reached(Merging(z), init, whole), z.P, 2)
  {
    hide Merging, PhaseStart, PhaseEnd, Reached, Interleaving, Finished, Disciplined, Sequential, Bound, Memory;
    MergingIsDisciplined(z, init);
    InterleavingsAreFinite(Merging(z), init, 2, schedule);
    whole := EveryInterleavingCanFinish(Merging(z), init, 2, schedule);
  }
}
