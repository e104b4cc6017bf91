/** susan_thin: the scan over the whole image, on arrays and as a run of steps.

    The scan moves backwards after some changes and the source gives no bound on how often, so
    the loop is cut after any given number of steps: every prefix of every run is covered. */
module ThinScan {
  import opened Connectivity
  import opened Grids
  import opened SimplePoint
  import opened Thinning
  import opened ThinStep

  // j++, and i++ at the end of a row
  function Advance(o: Outcome, xSize: nat): Outcome {
    if o.j + 1 < xSize - 4 then Outcome(o.mid, o.i, o.j + 1) else Outcome(o.mid, o.i + 1, 4)
  }

  // The state after a number of executions of the loop body (fewer if the scan has ended)
  ghost function After(mid: Grid, r: Grid, ySize: nat, xSize: nat, steps: nat): (o: Outcome)
    requires MapOk(mid, r, ySize, xSize)
    ensures MapOk(o.mid, r, ySize, xSize)
  {
    if steps == 0 then Outcome(mid, 4, 4)
    else
      var o := After(mid, r, ySize, xSize, steps - 1);
      if Interior(ySize, xSize, o.i, o.j) then
        BodyOk(o.mid, r, ySize, xSize, o.i, o.j);
        Advance(Body(o.mid, r, ySize, xSize, o.i, o.j), xSize)
      else o
  }

  // From one visit to the next: a step, then the next position in raster order
  ghost predicate Moved(r: Grid, ySize: nat, xSize: nat, a: Outcome, b: Outcome)
    requires MapOk(a.mid, r, ySize, xSize)
  {
    if Interior(ySize, xSize, a.i, a.j) then
      exists o :: && Step(a.mid, r, ySize, xSize, a.i, a.j, o)
                  && b == if o.j + 1 < xSize - 4 then Outcome(o.mid, o.i, o.j + 1) else Outcome(o.mid, o.i + 1, 4)
    else b == a
  }

  // The states of a scan that starts on mid at the upper left
  ghost predicate IsRun(mid: Grid, r: Grid, ySize: nat, xSize: nat, run: seq<Outcome>) {
    && |run| > 0 && run[0] == Outcome(mid, 4, 4)
    && (forall s :: 0 <= s < |run| ==> MapOk(run[s].mid, r, ySize, xSize))
    && (forall s :: 0 < s < |run| ==> Moved(r, ySize, xSize, run[s - 1], run[s]))
  }

  lemma NextMoved(mid: Grid, r: Grid, ySize: nat, xSize: nat, steps: nat)
    requires MapOk(mid, r, ySize, xSize)
    ensures Moved(r, ySize, xSize, After(mid, r, ySize, xSize, steps), After(mid, r, ySize, xSize, steps + 1))
  {
    hide MapOk, Body, Step;
    var a := After(mid, r, ySize, xSize, steps);
    if Interior(ySize, xSize, a.i, a.j) {
      BodySteps(a.mid, r, ySize, xSize, a.i, a.j);
    }
  }

  /** The states after 0, 1, 2, ... executions of the body form a run of steps. */
  lemma {:induction false} AfterIsRun(mid: Grid, r: Grid, ySize: nat, xSize: nat, steps: nat)
    returns (run: seq<Outcome>)
    requires MapOk(mid, r, ySize, xSize)
    ensures IsRun(mid, r, ySize, xSize, run) && |run| == steps + 1
    ensures run[steps] == After(mid, r, ySize, xSize, steps)
  {
    if steps == 0 {
      hide MapOk, Moved;
      run := [Outcome(mid, 4, 4)];
    } else {
      hide *;
      var before := AfterIsRun(mid, r, ySize, xSize, steps - 1);
      NextMoved(mid, r, ySize, xSize, steps - 1);
      LongerRun(mid, r, ySize, xSize, before, After(mid, r, ySize, xSize, steps));
      run := before + [After(mid, r, ySize, xSize, steps)];
    }
  }

  lemma LongerRun(mid: Grid, r: Grid, ySize: nat, xSize: nat, run: seq<Outcome>, o: Outcome)
    requires IsRun(mid, r, ySize, xSize, run) && MapOk(o.mid, r, ySize, xSize)
    requires |run| > 0 && MapOk(run[|run| - 1].mid, r, ySize, xSize) && Moved(r, ySize, xSize, run[|run| - 1], o)
    ensures IsRun(mid, r, ySize, xSize, run + [o])
  {
    hide MapOk, Moved;
    var n, longer := |run|, run + [o];
    assert forall s :: 0 <= s < n ==> longer[s] == run[s];
    assert longer[n] == o;
  }

  ghost function EdgesAfter(mid: Grid, r: Grid, ySize: nat, xSize: nat, steps: nat): set<Pixel>
    requires MapOk(mid, r, ySize, xSize)
  {
    Edges(After(mid, r, ySize, xSize, steps).mid, ySize, xSize)
  }

  // An edge pixel at every moment of the run up to `steps`
  ghost predicate Survives(mid: Grid, r: Grid, ySize: nat, xSize: nat, steps: nat, p: Pixel)
    requires MapOk(mid, r, ySize, xSize)
  {
    forall s: nat :: s <= steps ==> p in EdgesAfter(mid, r, ySize, xSize, s)
  }

  /** Thinning never breaks connectivity: pixels that survive a run and were connected at its
      start are connected at its end. */
  lemma {:induction false} SurvivorsStayConnected(mid: Grid, r: Grid, ySize: nat, xSize: nat, steps: nat, p: Pixel,
      q: Pixel)
    requires MapOk(mid, r, ySize, xSize)
    requires Survives(mid, r, ySize, xSize, steps, p) && Survives(mid, r, ySize, xSize, steps, q)
    requires Connected(Edges(mid, ySize, xSize), p, q)
    ensures Connected(EdgesAfter(mid, r, ySize, xSize, steps), p, q)
  {
    hide MapOk, Edges, Body, Connected, Snap;
    if steps > 0 {
      SurvivorsStayConnected(mid, r, ySize, xSize, steps - 1, p, q);
      var o := After(mid, r, ySize, xSize, steps - 1);
      assert p in EdgesAfter(mid, r, ySize, xSize, steps - 1) && q in EdgesAfter(mid, r, ySize, xSize, steps - 1);
      assert p in EdgesAfter(mid, r, ySize, xSize, steps) && q in EdgesAfter(mid, r, ySize, xSize, steps);
      if Interior(ySize, xSize, o.i, o.j) {
        BodyOk(o.mid, r, ySize, xSize, o.i, o.j);
      }
    }
  }

  // Two pixels of one component at each moment; each of them was connected to its predecessor.
  ghost predicate Lineage(mid: Grid, r: Grid, ySize: nat, xSize: nat, line: seq<(Pixel, Pixel)>)
    requires MapOk(mid, r, ySize, xSize)
  {
    && |line| > 0
    && (forall s :: 0 <= s < |line| ==> Together(EdgesAfter(mid, r, ySize, xSize, s), line[s].0, line[s].1))
    && (forall s :: 0 < s < |line| ==> Inherits(EdgesAfter(mid, r, ySize, xSize, s - 1), line[s - 1], line[s]))
  }

  ghost predicate Inherits(E: set<Pixel>, before: (Pixel, Pixel), after: (Pixel, Pixel)) {
    Connected(E, before.0, after.0) && Connected(E, before.1, after.1)
  }

  /** No component of two or more pixels ever vanishes or shrinks to a single pixel: whatever two
      of its pixels one starts from, at every moment of every run there are two pixels, connected
      to each other, that descend from them. */
  lemma {:induction false} ComponentsSurvive(mid: Grid, r: Grid, ySize: nat, xSize: nat, steps: nat, p: Pixel, q: Pixel)
    returns (line: seq<(Pixel, Pixel)>)
    requires MapOk(mid, r, ySize, xSize) && Together(Edges(mid, ySize, xSize), p, q)
    ensures Lineage(mid, r, ySize, xSize, line) && |line| == steps + 1 && line[0] == (p, q)
  {
    hide MapOk, Edges, Body, Connected, KeepsConnected, Together, Inherits, EdgesAfter;
    if steps == 0 {
      line := [(p, q)];
      NothingDone(mid, r, ySize, xSize);
    } else {
      line := ComponentsSurvive(mid, r, ySize, xSize, steps - 1, p, q);
      var last := line[steps - 1];
      var next := NextPair(mid, r, ySize, xSize, steps - 1, last);
      line := line + [next];
    }
  }

  lemma NothingDone(mid: Grid, r: Grid, ySize: nat, xSize: nat)
    requires MapOk(mid, r, ySize, xSize)
    ensures EdgesAfter(mid, r, ySize, xSize, 0) == Edges(mid, ySize, xSize)
  {
  }

  lemma NextPair(mid: Grid, r: Grid, ySize: nat, xSize: nat, steps: nat, last: (Pixel, Pixel)) returns (next: (Pixel,
      Pixel))
    requires MapOk(mid, r, ySize, xSize) && Together(EdgesAfter(mid, r, ySize, xSize, steps), last.0, last.1)
    ensures Together(EdgesAfter(mid, r, ySize, xSize, steps + 1), next.0, next.1)
    ensures Inherits(EdgesAfter(mid, r, ySize, xSize, steps), last, next)
  {
    hide MapOk, Edges, Body, Connected, KeepsConnected, Lone, LeavesPair;
    var o := After(mid, r, ySize, xSize, steps);
    var E, F := EdgesAfter(mid, r, ySize, xSize, steps), EdgesAfter(mid, r, ySize, xSize, steps + 1);
    next := last;
    ConnectedSelf(E, last.0);
    ConnectedSelf(E, last.1);
    if Interior(ySize, xSize, o.i, o.j) {
      var c := (o.i, o.j);
      BodyOk(o.mid, r, ySize, xSize, o.i, o.j);
      if c in E {
        OnlyLonePixelsVanish(o.mid, r, ySize, xSize, o.i, o.j, c);
      }
      var a, b := PairSuccessor(E, F, c, last.0, last.1);
      next := (a, b);
    }
  }

  // The scan position never leaves the part of the image whose surroundings the body reads.
  lemma {:induction false} ScanStaysInside(mid: Grid, r: Grid, ySize: nat, xSize: nat, steps: nat)
    requires MapOk(mid, r, ySize, xSize) && ySize > 8 && xSize > 8
    ensures var o := After(mid, r, ySize, xSize, steps); 4 <= o.i <= ySize - 4 && 4 <= o.j < xSize - 4
  {
    hide MapOk, Edges, Body, Snap;
    if steps > 0 {
      ScanStaysInside(mid, r, ySize, xSize, steps - 1);
      var o := After(mid, r, ySize, xSize, steps - 1);
      if Interior(ySize, xSize, o.i, o.j) {
        BodyOk(o.mid, r, ySize, xSize, o.i, o.j);
      }
    }
  }

  // ----- on arrays

  ghost predicate Arrays(mid: array2<int>, r: array2<int>)
    reads mid, r
  {
    && mid != r && r.Length0 == mid.Length0 && r.Length1 == mid.Length1
    && MapOk(Snap(mid), Snap(r), mid.Length0, mid.Length1)
  }

  // The nine weighted responses around a line end
  method WeightedResponses(mid: array2<int>, r: array2<int>, i: int, j: int) returns (l: seq<int>)
    requires Arrays(mid, r) && Interior(mid.Length0, mid.Length1, i, j)
    requires Neighbours(Snap(mid), mid.Length0, mid.Length1, i, j) == 1
    ensures l == Scores(Snap(mid), Snap(r), mid.Length0, mid.Length1, i, j)
  {
    hide Neighbours, MapOk, Edges, Times, Snap;
    MapOkAt(Snap(mid), Snap(r), mid.Length0, mid.Length1, i, j);
    l := [r[i - 1, j - 1], r[i - 1, j], r[i - 1, j + 1],
          r[i, j - 1], 0, r[i, j + 1],
          r[i + 1, j - 1], r[i + 1, j], r[i + 1, j + 1]];
    LastNeighbour(Snap(mid), mid.Length0, mid.Length1, i, j);
    ghost var window := Window(Snap(r), mid.Length0, mid.Length1, i, j);
    assert l == window[4 := 0];
    if mid[i - 1, j - 1] < 8 {
      l := Times(l, [0, 0, 2, 0, 0, 3, 2, 3, 4]);
    } else if mid[i - 1, j] < 8 {
      l := Times(l, [0, 0, 0, 2, 0, 2, 3, 4, 3]);
    } else if mid[i - 1, j + 1] < 8 {
      l := Times(l, [2, 0, 0, 3, 0, 0, 4, 3, 2]);
    } else if mid[i, j - 1] < 8 {
      l := Times(l, [0, 2, 3, 0, 0, 4, 0, 2, 3]);
    } else if mid[i, j + 1] < 8 {
      l := Times(l, [3, 2, 0, 4, 0, 0, 3, 2, 0]);
    } else if mid[i + 1, j - 1] < 8 {
      l := Times(l, [2, 3, 4, 0, 0, 3, 0, 0, 2]);
    } else if mid[i + 1, j] < 8 {
      l := Times(l, [3, 4, 3, 2, 0, 2, 0, 0, 0]);
    } else if mid[i + 1, j + 1] < 8 {
      l := Times(l, [4, 3, 2, 3, 0, 0, 2, 0, 0]);
    }
    CentreIgnored(window, Present(Snap(mid), mid.Length0, mid.Length1, i, j));
  }

  lemma LastNeighbour(mid: Grid, ySize: nat, xSize: nat, i: int, j: int)
    requires Around(mid, ySize, xSize, i, j) && Neighbours(mid, ySize, xSize, i, j) == 1
    ensures Present(mid, ySize, xSize, i, j) == 8 ==> mid[i + 1][j + 1] < 8
  {
  }

  lemma CentreIgnored(w: seq<int>, present: int)
    requires |w| == 9
    ensures Times(w[4 := 0], Weights(present)) == Times(w, Weights(present))
  {
    assert Weights(present)[4] == 0;
  }

  // The double loop that looks for the highest entry
  method FindHighest(l: seq<int>) returns (m: int, a: int, b: int)
    requires |l| == 9
    ensures FoundHighest(l, 9, m, a, b)
  {
    hide Highest;
    m, a, b := 0, 0, 0;
    HighestNone(l);
    ghost var n := 0;
    for y := 0 to 3
      invariant n == 3 * y && FoundHighest(l, n, m, a, b)
    {
      for x := 0 to 3
        invariant n == 3 * y + x && FoundHighest(l, n, m, a, b)
      {
        HighestStep(l, n);
        if l[y + y + y + x] > m {
          m, a, b := l[y + y + y + x], y, x;
        }
        n := n + 1;
      }
    }
  }

  ghost predicate FoundHighest(l: seq<int>, n: nat, m: int, a: int, b: int)
    requires n <= |l| == 9
  {
    var k := Highest(l, n);
    if k == 9 then m == 0 else m == l[k] && m > 0 && k == 3 * a + b && 0 <= b < 3
  }

  lemma HighestNone(l: seq<int>)
    requires |l| == 9
    ensures Highest(l, 0) == 9
  {
  }

  lemma HighestStep(l: seq<int>, n: nat)
    requires n < |l| == 9
    ensures var k := Highest(l, n);
            Highest(l, n + 1) == if l[n] > (if k == 9 then 0 else l[k]) then n else k
  {
  }

  method ExtendLine(mid: array2<int>, r: array2<int>, i0: int, j0: int) returns (i: int, j: int)
    requires Arrays(mid, r) && Interior(mid.Length0, mid.Length1, i0, j0)
    requires Neighbours(Snap(mid), mid.Length0, mid.Length1, i0, j0) == 1
    modifies mid
    ensures Outcome(Snap(mid), i, j) == Extend(old(Snap(mid)), old(Snap(r)), mid.Length0, mid.Length1, i0, j0)
  {
    hide Scores, Highest, Neighbours, MapOk, Edges, Snap;
    MapOkAt(Snap(mid), Snap(r), mid.Length0, mid.Length1, i0, j0);
    i, j := i0, j0;
    var l := WeightedResponses(mid, r, i, j);
    var m, a, b := FindHighest(l);
    if m > 0 {
      ghost var before := Snap(mid);
      var v := if mid[i, j] < 4 then 4 else mid[i, j] + 1;
      mid[i + a - 1, j + b - 1] := v;
      SnapPut(before, Snap(mid), mid.Length0, mid.Length1, i + a - 1, j + b - 1, v);
      if a + a + b < 3 {
        i := i + a - 1;
        j := j + b - 2;
        if i < 4 { i := 4; }
        if j < 4 { j := 4; }
      }
    }
  }

  method StraightenLine(mid: array2<int>, r: array2<int>, i: int, j: int)
    requires Arrays(mid, r) && Interior(mid.Length0, mid.Length1, i, j) && mid[i, j] < 8
    modifies mid
    ensures Outcome(Snap(mid), i, j) == Straighten(old(Snap(mid)), old(Snap(r)), mid.Length0, mid.Length1, i, j)
  {
    hide MapOk, Edges, BeyondClear, Comparable, Snap;
    ghost var before := Snap(mid);
    MapOkAt(before, Snap(r), mid.Length0, mid.Length1, i, j);
    var centre := r[i, j];
    var b00, b02 := mid[i - 1, j - 1] < 8, mid[i - 1, j + 1] < 8;
    var x, y;
    if b00 {
      if b02 { x := 0; y := -1; } else { x := -1; y := 0; }
    } else {
      if b02 { x := 1; y := 0; } else { x := 0; y := 1; }
    }
    assert (y, x) == Side(before, mid.Length0, mid.Length1, i, j);
    if Comparable(r[i + y, j + x], centre) {
      var clear := LookBeyond(mid, i, j, y, x);
      if clear {
        mid[i, j] := 100;
        ghost var between := Snap(mid);
        SnapPut(before, between, mid.Length0, mid.Length1, i, j, 100);
        mid[i + y, j + x] := 3;
        SnapPut(between, Snap(mid), mid.Length0, mid.Length1, i + y, j + x, 3);
      }
    }
  }

  method LookBeyond(mid: array2<int>, i: int, j: int, y: int, x: int) returns (clear: bool)
    requires Interior(mid.Length0, mid.Length1, i, j) && -1 <= y <= 1 && -1 <= x <= 1
    ensures clear == BeyondClear(Snap(mid), mid.Length0, mid.Length1, i, j, y, x)
  {
    hide Snap;
    clear := (x == 0 && mid[i + 2 * y, j] > 7 && mid[i + 2 * y, j - 1] > 7 && mid[i + 2 * y, j + 1] > 7) ||
             (y == 0 && mid[i, j + 2 * x] > 7 && mid[i + 1, j + 2 * x] > 7 && mid[i - 1, j + 2 * x] > 7);
  }

  // Deletes (i,j) and steps back up and to the left.
  method RemoveAndStepBack(mid: array2<int>, i0: int, j0: int) returns (i: int, j: int)
    requires Interior(mid.Length0, mid.Length1, i0, j0)
    modifies mid
    ensures Outcome(Snap(mid), i, j) == Back(Put(old(Snap(mid)), i0, j0, 100), i0 - 1, j0 - 2)
  {
    hide Snap;
    ghost var before := Snap(mid);
    mid[i0, j0] := 100;
    SnapPut(before, Snap(mid), mid.Length0, mid.Length1, i0, j0, 100);
    i, j := i0 - 1, j0 - 2;
    if i < 4 { i := 4; }
    if j < 4 { j := 4; }
  }

  // The body of the two scan loops
  method ThinPixel(mid: array2<int>, r: array2<int>, i0: int, j0: int) returns (i: int, j: int)
    requires Arrays(mid, r) && Interior(mid.Length0, mid.Length1, i0, j0)
    modifies mid
    ensures Outcome(Snap(mid), i, j) == Body(old(Snap(mid)), old(Snap(r)), mid.Length0, mid.Length1, i0, j0)
    ensures Step(old(Snap(mid)), old(Snap(r)), mid.Length0, mid.Length1, i0, j0, Outcome(Snap(mid), i, j))
  {
    hide MapOk, Edges, Scores, Highest, Extend, Straighten, Snap, Step;
    ghost var g := Snap(mid);
    BodySteps(g, Snap(r), mid.Length0, mid.Length1, i0, j0);
    MapOkAt(g, Snap(r), mid.Length0, mid.Length1, i0, j0);
    i, j := i0, j0;
    if mid[i, j] < 8 {
      var n := Bit(mid[i - 1, j - 1] < 8) + Bit(mid[i - 1, j] < 8) + Bit(mid[i - 1, j + 1] < 8)
        + Bit(mid[i, j - 1] < 8) + Bit(mid[i, j + 1] < 8)
        + Bit(mid[i + 1, j - 1] < 8) + Bit(mid[i + 1, j] < 8) + Bit(mid[i + 1, j + 1] < 8);
      assert n == Neighbours(g, mid.Length0, mid.Length1, i, j);
      if n == 0 {
        mid[i, j] := 100;
        SnapPut(g, Snap(mid), mid.Length0, mid.Length1, i, j, 100);
      } else if n == 1 {
        if mid[i, j] < 6 {
          i, j := ExtendLine(mid, r, i, j);
        }
      } else if n == 2 {
        i, j := ThinPair(mid, r, i, j);
      } else {
        i, j := ThinCluster(mid, i, j);
      }
    }
  }

  method ThinPair(mid: array2<int>, r: array2<int>, i0: int, j0: int) returns (i: int, j: int)
    requires Arrays(mid, r) && Interior(mid.Length0, mid.Length1, i0, j0) && mid[i0, j0] < 8
    modifies mid
    ensures r[i0, j0] > 0
    ensures Outcome(Snap(mid), i, j) == Pair(old(Snap(mid)), old(Snap(r)), mid.Length0, mid.Length1, i0, j0)
  {
    hide MapOk, Edges, Straighten, Snap;
    ghost var g := Snap(mid);
    MapOkAt(g, Snap(r), mid.Length0, mid.Length1, i0, j0);
    i, j := i0, j0;
    var b00, b02 := mid[i - 1, j - 1] < 8, mid[i - 1, j + 1] < 8;
    var b20, b22 := mid[i + 1, j - 1] < 8, mid[i + 1, j + 1] < 8;
    if Bit(b00) + Bit(b02) + Bit(b20) + Bit(b22) == 2 && (b00 || b22) && (b02 || b20) {
      assert CornerPair(g, mid.Length0, mid.Length1, i, j);
      StraightenLine(mid, r, i, j);
    } else {
      assert !CornerPair(g, mid.Length0, mid.Length1, i, j);
      var b01, b12, b21, b10 := mid[i - 1, j] < 8, mid[i, j + 1] < 8, mid[i + 1, j] < 8, mid[i, j - 1] < 8;
      if Bit(b01) + Bit(b12) + Bit(b21) + Bit(b10) == 2 && (b10 || b12) && (b01 || b21) &&
         ((b01 && (mid[i - 2, j - 1] < 8 || mid[i - 2, j + 1] < 8)) ||
          (b10 && (mid[i - 1, j - 2] < 8 || mid[i + 1, j - 2] < 8)) ||
          (b12 && (mid[i - 1, j + 2] < 8 || mid[i + 1, j + 2] < 8)) ||
          (b21 && (mid[i + 2, j - 1] < 8 || mid[i + 2, j + 1] < 8)))
      {
        assert OddRightAngle(g, mid.Length0, mid.Length1, i, j);
        i, j := RemoveAndStepBack(mid, i, j);
      }
    }
  }

  method ThinCluster(mid: array2<int>, i0: int, j0: int) returns (i: int, j: int)
    requires Interior(mid.Length0, mid.Length1, i0, j0)
    modifies mid
    ensures Outcome(Snap(mid), i, j) == Cluster(old(Snap(mid)), mid.Length0, mid.Length1, i0, j0)
  {
    hide Snap;
    ghost var g := Snap(mid);
    i, j := i0, j0;
    var b01, b12, b21, b10 := mid[i - 1, j] < 8, mid[i, j + 1] < 8, mid[i + 1, j] < 8, mid[i, j - 1] < 8;
    if Bit(b01) + Bit(b12) + Bit(b21) + Bit(b10) > 1 {
      var b00, b02 := mid[i - 1, j - 1] < 8, mid[i - 1, j + 1] < 8;
      var b20, b22 := mid[i + 1, j - 1] < 8, mid[i + 1, j + 1] < 8;
      var p1, p2, p3, p4 := b00 || b01, b02 || b12, b22 || b21, b20 || b10;
      if (Bit(p1) + Bit(p2) + Bit(p3) + Bit(p4))
         - (Bit(b01 && p2) + Bit(b12 && p3) + Bit(b21 && p4) + Bit(b10 && p1)) < 2
      {
        assert Removable(g, mid.Length0, mid.Length1, i, j);
        i, j := RemoveAndStepBack(mid, i, j);
      }
    }
  }

  // susan_thin, stopped after at most `steps` executions of the loop body
  method SusanThin(r: array2<int>, mid: array2<int>, steps: nat)
    requires Arrays(mid, r)
    modifies mid
    ensures Arrays(mid, r)
    ensures Snap(mid) == After(old(Snap(mid)), Snap(r), mid.Length0, mid.Length1, steps).mid
    ensures exists run: seq<Outcome> ::
              && IsRun(old(Snap(mid)), Snap(r), mid.Length0, mid.Length1, run)
              && |run| == steps + 1 && run[steps].mid == Snap(mid)
  {
    hide MapOk, Edges, Body, StepOk, Snap, Step, IsRun;
    ghost var start, r0 := Snap(mid), Snap(r);
    var i, j := 4, 4;
    for s := 0 to steps
      invariant Arrays(mid, r) && Snap(r) == r0
      invariant Outcome(Snap(mid), i, j) == After(start, r0, mid.Length0, mid.Length1, s)
    {
      if 4 <= i < mid.Length0 - 4 && 4 <= j < mid.Length1 - 4 {
        i, j := ThinPixel(mid, r, i, j);
        if j + 1 < mid.Length1 - 4 {
          j := j + 1;
        } else {
          i, j := i + 1, 4;
        }
      }
      assert Outcome(Snap(mid), i, j) == After(start, r0, mid.Length0, mid.Length1, s + 1);
    }
    ghost var run := AfterIsRun(start, r0, mid.Length0, mid.Length1, steps);
    assert run[steps].mid == Snap(mid);
  }
}
