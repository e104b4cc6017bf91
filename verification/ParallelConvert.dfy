/** int_to_uchar, sequential (susan.c) and parallel (susan-parallel/susan.c): scaling a response
    image to 0..255.  The parallel version takes two barriers: block extrema, then global extrema
    by thread 0, then scaling. */
module ParallelConvert {
  import opened Barrier
  import opened Phases
  import opened WorkShares

  // ----- what the conversion means

  ghost predicate Largest(r: seq<int>, v: int) {
    v in r && forall i :: 0 <= i < |r| ==> r[i] <= v
  }

  ghost predicate Smallest(r: seq<int>, v: int) {
    v in r && forall i :: 0 <= i < |r| ==> v <= r[i]
  }

  // Not all values are equal; the source divides by their range.
  ghost predicate Varied(r: seq<int>) {
    exists i, j :: 0 <= i < |r| && 0 <= j < |r| && r[i] != r[j]
  }

  // out is r stretched linearly so that its smallest value becomes 0 and its largest 255: each
  // out[i] is (r[i] - min) * 255 / range, rounded down.
  ghost predicate Converted(r: seq<int>, out: seq<int>) {
    && |out| == |r|
    && exists max, min :: Largest(r, max) && Smallest(r, min) && min < max &&
                          forall i :: 0 <= i < |r| ==> Stretched(r[i], out[i], min, max - min)
  }

  ghost predicate Stretched(v: int, out: int, min: int, range: int) {
    out * range <= (v - min) * 255 < (out + 1) * range
  }

  // The source's expression; range is never 0 on a varied image.
  function Scaled(v: int, min: int, range: int): int {
    if range == 0 then 0 else (v - min) * 255 / range
  }

  lemma ScaledStretches(v: int, min: int, range: int)
    requires range > 0
    ensures Stretched(v, Scaled(v, min, range), min, range)
  {
    DivideBounds((v - min) * 255, range);
  }

  lemma DivideBounds(a: int, b: int)
    requires b > 0
    ensures (a / b) * b <= a < (a / b + 1) * b
  {
    var q := a / b;
    assert b * q <= a < b * q + b;
    Distribute(b, q, 1);
  }

  lemma ScaledInRange(v: int, min: int, max: int)
    requires min <= v <= max && min < max
    ensures 0 <= Scaled(v, min, max - min) <= 255
    ensures v == min ==> Scaled(v, min, max - min) == 0
    ensures v == max ==> Scaled(v, min, max - min) == 255
  {
    var d, range := v - min, max - min;
    DivideWithin(d * 255, range, 255);
  }

  lemma DivideWithin(a: int, b: int, c: int)
    requires b > 0 && 0 <= a <= b * c
    ensures 0 <= a / b <= c
    ensures a == 0 ==> a / b == 0
    ensures a == b * c ==> a / b == c
  {
    var q := a / b;
    assert b * q <= a < b * q + b;
    MulGap(b, c, q);
    MulGap(b, q, c);
    MulGap(b, q, 0);
  }

  lemma MulGap(b: int, c: int, q: int)
    requires b > 0
    ensures q > c ==> b * q >= b * c + b
  {
    if q > c {
      MulAtLeast(b, q - c);
      Distribute(b, c, q - c);
    }
  }

  lemma Distribute(b: int, c: int, e: int)
    ensures b * (c + e) == b * c + b * e
  {
  }

  lemma {:induction false} MulAtLeast(b: int, e: int)
    requires b > 0 && e > 0
    ensures b * e >= b
    decreases e
  {
    if e > 1 {
      MulAtLeast(b, e - 1);
      Distribute(b, e - 1, 1);
    }
  }

  // The result is determined by the input.
  lemma ConvertedUnique(r: seq<int>, out1: seq<int>, out2: seq<int>)
    requires Converted(r, out1) && Converted(r, out2)
    ensures out1 == out2
  {
    hide Stretched, Largest, Smallest;
    var a, b :| Largest(r, a) && Smallest(r, b) && b < a &&
                forall i :: 0 <= i < |r| ==> Stretched(r[i], out1[i], b, a - b);
    var c, d :| Largest(r, c) && Smallest(r, d) && d < c &&
                forall i :: 0 <= i < |r| ==> Stretched(r[i], out2[i], d, c - d);
    OneLargest(r, a, c);
    OneSmallest(r, b, d);
    forall i | 0 <= i < |r|
      ensures out1[i] == out2[i]
    {
      OneStretched(r[i], out1[i], out2[i], b, a - b);
    }
  }

  lemma OneStretched(v: int, o: int, q: int, min: int, range: int)
    requires range > 0 && Stretched(v, o, min, range) && Stretched(v, q, min, range)
    ensures o == q
  {
    MulGap(range, o, q);
    MulGap(range, q, o);
    Distribute(range, o, 1);
    Distribute(range, q, 1);
  }

  lemma OneLargest(r: seq<int>, a: int, b: int)
    requires Largest(r, a) && Largest(r, b)
    ensures a == b
  {
  }

  lemma OneSmallest(r: seq<int>, a: int, b: int)
    requires Smallest(r, a) && Smallest(r, b)
    ensures a == b
  {
  }

  lemma VariedRange(r: seq<int>, max: int, min: int)
    requires Varied(r) && Largest(r, max) && Smallest(r, min)
    ensures min < max
  {
  }

  // ----- the sequential conversion

  method IntToUchar(r: array<int>, out: array<int>)
    requires r.Length == out.Length && r != out && Varied(r[..])
    modifies out
    ensures Converted(r[..], out[..])
  {
    hide Scaled, Stretched;
    var maxR, minR := r[0], r[0];
    for i := 0 to r.Length
      invariant maxR in r[..] && minR in r[..]
      invariant forall h :: 0 <= h < i ==> minR <= r[h] <= maxR
    {
      if r[i] > maxR {
        maxR := r[i];
      }
      if r[i] < minR {
        minR := r[i];
      }
    }
    ghost var max := maxR;
    assert Largest(r[..], max) && Smallest(r[..], minR);
    VariedRange(r[..], max, minR);
    maxR := maxR - minR;
    for i := 0 to r.Length
      invariant forall h :: 0 <= h < i ==> out[h] == Scaled(r[h], minR, max - minR)
    {
      out[i] := Scaled(r[i], minR, maxR);
    }
    forall h | 0 <= h < r.Length
      ensures Stretched(r[h], out[h], minR, max - minR)
    {
      ScaledStretches(r[h], minR, max - minR);
    }
  }

  // ----- the parallel conversion

  datatype Loc = R(i: int) | Out(i: int) | MaxR(t: int) | MinR(t: int) | MaxG | MinG

  // The number of steps taken so far, and the thread's max_r_global and min_r_global
  datatype Local = Local(step: nat, max: int, min: int)

  function Read(m: map<Loc, int>, x: Loc): int {
    if x in m then m[x] else 0
  }

  function Share(size: nat, P: nat, t: nat): int
    requires P > 0
  {
    End(size, P, t) - First(size, P, t)
  }

  // Steps of thread t up to the end of phase k
  function Goal(size: nat, P: nat, t: nat, k: int): int
    requires P > 0
  {
    if k < 0 then 0
    else if k == 0 then 1 + Share(size, P, t)
    else if k == 1 then 1 + Share(size, P, t) + if t == 0 then P + 2 else 0
    else 2 + 2 * Share(size, P, t) + if t == 0 then P + 2 else 0
  }

  function Updates(size: nat, P: nat, t: nat, k: nat, l: Local, m: map<Loc, int>): map<Loc, int>
    requires P > 0
  {
    var d := l.step - Goal(size, P, t, k - 1);
    var i := First(size, P, t) + d - 1;
    if k == 0 then
      if d == 0 then map[MaxR(t) := Read(m, R(First(size, P, t))), MinR(t) := Read(m, R(First(size, P, t)))]
      else map[MaxR(t) := if Read(m, R(i)) > Read(m, MaxR(t)) then Read(m, R(i)) else Read(m, MaxR(t)),
               MinR(t) := if Read(m, R(i)) < Read(m, MinR(t)) then Read(m, R(i)) else Read(m, MinR(t))]
    else if k == 1 then
      if d == P + 1 then map[MaxG := l.max - l.min, MinG := l.min] else map[]
    else
      if d == 0 then map[] else map[Out(i) := Scaled(Read(m, R(i)), l.min, l.max)]
  }

  function Next(size: nat, P: nat, t: nat, k: nat, l: Local, m: map<Loc, int>): Local
    requires P > 0
  {
    var d := l.step - Goal(size, P, t, k - 1);
    if k == 1 && d == 0 then Local(l.step + 1, Read(m, MaxR(0)), Read(m, MinR(0)))
    else if k == 1 && d <= P then
      Local(l.step + 1,
            if Read(m, MaxR(d - 1)) > l.max then Read(m, MaxR(d - 1)) else l.max,
            if Read(m, MinR(d - 1)) < l.min then Read(m, MinR(d - 1)) else l.min)
    else if k == 2 && d == 0 then Local(l.step + 1, Read(m, MaxG), Read(m, MinG))
    else l.(step := l.step + 1)
  }

  function OwnerOf(size: nat, P: nat, k: nat, x: Loc): Owner
    requires P > 0
  {
    match x
    case R(_) => Free
    case Out(i) => if k == 2 && BlockOf(size, P, i) < P then By(BlockOf(size, P, i)) else Free
    case MaxR(t) => if k == 0 && t >= 0 then By(t) else Free
    case MinR(t) => if k == 0 && t >= 0 then By(t) else Free
    case MaxG => if k == 1 then By(0) else Free
    case MinG => if k == 1 then By(0) else Free
  }

  ghost function Convert(size: nat, P: nat): Program<Local, Loc, int>
    requires P > 0
  {
    Program(
      (t: nat, k: nat, l: Local, m: map<Loc, int>) => Updates(size, P, t, k, l, m),
      (t: nat, k: nat, l: Local, m: map<Loc, int>) => Next(size, P, t, k, l, m),
      (t: nat, k: nat, l: Local) => l.step >= Goal(size, P, t, k),
      (t: nat, k: nat, l: Local, m: map<Loc, int>) =>
        if Goal(size, P, t, k) >= Goal(size, P, t, k - 1) then Goal(size, P, t, k) - Goal(size, P, t, k - 1) else 0,
      (k: nat, m: map<Loc, int>, x: Loc) => OwnerOf(size, P, k, x))
  }

  // The shared variables, with r in place; everything else is uninitialised.
  ghost predicate Memory(m: map<Loc, int>, r: seq<int>, P: nat) {
    && (forall i :: 0 <= i < |r| ==> R(i) in m && m[R(i)] == r[i] && Out(i) in m)
    && (forall t :: 0 <= t < P ==> MaxR(t) in m && MinR(t) in m)
    && MaxG in m && MinG in m
  }

  lemma ShareNonNegative(size: nat, P: nat, t: nat)
    requires t < P
    ensures Share(size, P, t) >= 0 && First(size, P, t) <= size && End(size, P, t) <= size
    ensures size > 0 ==> First(size, P, t) < size
  {
    BlocksMeet(size, P, t);
    BlockInRange(size, P, t);
    if size > 0 && First(size, P, t) == size {
      FirstBelow(size, P, t);
    }
  }

  lemma FirstBelow(size: nat, P: nat, t: nat)
    requires t < P && size > 0
    ensures First(size, P, t) < size
  {
    var q := size / P;
    assert q * P + size % P == size;
    assert q * P == q * t + q * (P - t);
  }

  // ----- each step keeps to its own

  lemma StepKeeps(r: seq<int>, P: nat, t: nat, k: nat, start: map<Loc, int>, l: Local, m: map<Loc, int>)
    requires t < P && k <= 2 && |r| > 0 && Memory(start, r, P) && m.Keys == start.Keys
    requires Goal(|r|, P, t, k - 1) <= l.step < Goal(|r|, P, t, k)
    ensures StepDisciplined(Convert(|r|, P), t, k, start, l, m)
    ensures Updates(|r|, P, t, k, l, m).Keys <= start.Keys
  {
    hide First, End, BlockOf, Scaled, Updates, Next, LooksSame, Goal;
    var p := Convert(|r|, P);
    StepOwns(r, P, t, k, start, l, m);
    forall m2 | LooksSame(p, t, k, start, m, m2)
      ensures Updates(|r|, P, t, k, l, m2) == Updates(|r|, P, t, k, l, m)
      ensures Next(|r|, P, t, k, l, m2) == Next(|r|, P, t, k, l, m)
    {
      SameReads(|r|, P, t, k, start, m, m2);
      SameEffect(|r|, P, t, k, l, m, m2);
    }
  }

  lemma StepOwns(r: seq<int>, P: nat, t: nat, k: nat, start: map<Loc, int>, l: Local, m: map<Loc, int>)
    requires t < P && k <= 2 && |r| > 0 && Memory(start, r, P)
    requires Goal(|r|, P, t, k - 1) <= l.step < Goal(|r|, P, t, k)
    ensures forall x :: x in Updates(|r|, P, t, k, l, m) ==> x in start && OwnerOf(|r|, P, k, x) == By(t)
  {
    hide First, End, BlockOf, Scaled, Read;
    var d := l.step - Goal(|r|, P, t, k - 1);
    ShareNonNegative(|r|, P, t);
    var i := First(|r|, P, t) + d - 1;
    if k == 2 && d > 0 {
      BlocksTile(|r|, P, i);
      assert InBlock(|r|, P, t, i);
    }
  }

  lemma SameEffect(size: nat, P: nat, t: nat, k: nat, l: Local, m: map<Loc, int>, m2: map<Loc, int>)
    requires t < P && k <= 2
    requires forall i :: Read(m, R(i)) == Read(m2, R(i))
    requires k == 0 ==> Read(m, MaxR(t)) == Read(m2, MaxR(t)) && Read(m, MinR(t)) == Read(m2, MinR(t))
    requires k == 1 ==> forall u :: Read(m, MaxR(u)) == Read(m2, MaxR(u)) && Read(m, MinR(u)) == Read(m2, MinR(u))
    requires k == 2 ==> Read(m, MaxG) == Read(m2, MaxG) && Read(m, MinG) == Read(m2, MinG)
    ensures Updates(size, P, t, k, l, m2) == Updates(size, P, t, k, l, m)
    ensures Next(size, P, t, k, l, m2) == Next(size, P, t, k, l, m)
  {
    hide First, End, Scaled, Read, Goal;
  }

  // What a thread reads in a phase looks the same.
  lemma SameReads(size: nat, P: nat, t: nat, k: nat, start: map<Loc, int>, m: map<Loc, int>, m2: map<Loc, int>)
    requires t < P && LooksSame(Convert(size, P), t, k, start, m, m2)
    ensures forall i :: Read(m, R(i)) == Read(m2, R(i))
    ensures k == 0 ==> Read(m, MaxR(t)) == Read(m2, MaxR(t)) && Read(m, MinR(t)) == Read(m2, MinR(t))
    ensures k == 1 ==> forall u :: Read(m, MaxR(u)) == Read(m2, MaxR(u)) && Read(m, MinR(u)) == Read(m2, MinR(u))
    ensures k == 2 ==> Read(m, MaxG) == Read(m2, MaxG) && Read(m, MinG) == Read(m2, MinG)
  {
    hide BlockOf;
  }

  lemma {:induction false} AloneCounts(r: seq<int>, P: nat, t: nat, k: nat, l: Local, start: map<Loc, int>, n: nat)
    requires t < P && k <= 2 && |r| > 0 && Memory(start, r, P)
    requires l.step == Goal(|r|, P, t, k - 1) && l.step + n <= Goal(|r|, P, t, k)
    ensures var a := Alone(Convert(|r|, P), t, k, l, start, n);
            a.0.step == l.step + n && a.1.Keys == start.Keys
    decreases n
  {
    hide First, End, BlockOf, Scaled;
    if n > 0 {
      AloneCounts(r, P, t, k, l, start, n - 1);
      var a := Alone(Convert(|r|, P), t, k, l, start, n - 1);
      StepKeeps(r, P, t, k, start, a.0, a.1);
    }
  }

  lemma PhaseKeeps(r: seq<int>, P: nat, t: nat, k: nat, l: Local, start: map<Loc, int>)
    requires t < P && k <= 2 && |r| > 0 && Memory(start, r, P)
    requires l.step == Goal(|r|, P, t, k - 1)
    ensures PhaseDisciplined(Convert(|r|, P), t, k, l, start)
  {
    hide First, End, BlockOf, Scaled, Updates, Next, Alone;
    ShareNonNegative(|r|, P, t);
    var p := Convert(|r|, P);
    forall n: nat | n < p.work(t, k, l, start)
      ensures var a := Alone(p, t, k, l, start, n); StepDisciplined(p, t, k, start, a.0, a.1)
    {
      AloneCounts(r, P, t, k, l, start, n);
      var a := Alone(p, t, k, l, start, n);
      StepKeeps(r, P, t, k, start, a.0, a.1);
    }
    AloneCounts(r, P, t, k, l, start, p.work(t, k, l, start));
  }

  // ----- phase by phase

  ghost predicate PhaseOk(s: Shared<Local, Loc, int>, r: seq<int>, P: nat, k: nat) {
    && |s.locals| == P && Memory(s.mem, r, P)
    && forall t: nat :: t < P ==> s.locals[t].step == Goal(|r|, P, t, k - 1)
  }

  lemma NextPhaseOk(r: seq<int>, P: nat, k: nat, s: Shared<Local, Loc, int>)
    requires P > 0 && k <= 2 && |r| > 0 && PhaseOk(s, r, P, k)
    ensures PhaseOk(PhaseEnd(Convert(|r|, P), k, s), r, P, k + 1)
  {
    hide First, End, BlockOf, Scaled, Updates, Next, Alone;
    var e, p := PhaseEnd(Convert(|r|, P), k, s), Convert(|r|, P);
    forall t: nat | t < P
      ensures e.locals[t].step == Goal(|r|, P, t, k)
    {
      ShareNonNegative(|r|, P, t);
      AloneCounts(r, P, t, k, s.locals[t], s.mem, p.work(t, k, s.locals[t], s.mem));
    }
    forall i | 0 <= i < |r|
      ensures R(i) in e.mem && e.mem[R(i)] == r[i] && Out(i) in e.mem
    {
      assert e.mem[R(i)] == Final(p, k, s, R(i));
    }
  }

  lemma {:induction false} PhasesOk(r: seq<int>, P: nat, k: nat, init: Shared<Local, Loc, int>)
    requires P > 0 && k <= 3 && |r| > 0 && PhaseOk(init, r, P, 0)
    ensures PhaseOk(PhaseStart(Convert(|r|, P), init, k), r, P, k)
  {
    hide PhaseOk, PhaseEnd;
    if k > 0 {
      PhasesOk(r, P, k - 1, init);
      NextPhaseOk(r, P, k - 1, PhaseStart(Convert(|r|, P), init, k - 1));
    }
  }

  lemma ConvertIsDisciplined(r: seq<int>, P: nat, init: Shared<Local, Loc, int>)
    requires P > 0 && |r| > 0 && PhaseOk(init, r, P, 0)
    ensures Disciplined(Convert(|r|, P), init, 2)
  {
    hide First, End, BlockOf, Scaled, Updates, Next, Alone, PhaseStart, PhaseDisciplined;
    var p := Convert(|r|, P);
    forall k: nat, t: nat | k <= 2 && t < |init.locals|
      ensures PhaseDisciplined(p, t, k, PhaseStart(p, init, k).locals[t], PhaseStart(p, init, k).mem)
    {
      PhasesOk(r, P, k, init);
      var s := PhaseStart(p, init, k);
      PhaseKeeps(r, P, t, k, s.locals[t], s.mem);
    }
  }

  // One more step of a thread on its own
  lemma AloneStep(size: nat, P: nat, t: nat, k: nat, l: Local, start: map<Loc, int>, n: nat)
    requires P > 0
    ensures var a := Alone(Convert(size, P), t, k, l, start, n);
            Alone(Convert(size, P), t, k, l, start, n + 1) ==
            (Next(size, P, t, k, a.0, a.1), a.1 + Updates(size, P, t, k, a.0, a.1))
  {
    hide First, End, BlockOf, Scaled, Updates, Next, Alone;
    AloneNext(Convert(size, P), t, k, l, start, n);
  }

  // r stays where it is.
  lemma AloneReads(r: seq<int>, P: nat, t: nat, k: nat, l: Local, start: map<Loc, int>, n: nat, i: nat)
    requires t < P && k <= 2 && i < |r| && Memory(start, r, P)
    requires l.step == Goal(|r|, P, t, k - 1) && l.step + n <= Goal(|r|, P, t, k)
    ensures Read(Alone(Convert(|r|, P), t, k, l, start, n).1, R(i)) == r[i]
  {
    hide First, End, BlockOf, Scaled, Updates, Next, Alone;
    PhaseKeeps(r, P, t, k, l, start);
    AloneKeys(Convert(|r|, P), t, k, l, start, n);
  }

  // ----- phase 0: extrema of the blocks

  lemma Phase0Step(size: nat, P: nat, t: nat, l: Local, m: map<Loc, int>)
    requires t < P
    ensures var m', i := m + Updates(size, P, t, 0, l, m), First(size, P, t) + l.step - 1;
            if l.step == 0 then Read(m', MaxR(t)) == Read(m', MinR(t)) == Read(m, R(First(size, P, t)))
            else && Read(m', MaxR(t)) == (if Read(m, R(i)) > Read(m, MaxR(t)) then Read(m, R(i)) else Read(m, MaxR(t)))
                 && Read(m', MinR(t)) == (if Read(m, R(i)) < Read(m, MinR(t)) then Read(m, R(i)) else Read(m, MinR(t)))
  {
    hide First, End;
  }

  ghost predicate Spans(r: seq<int>, lo: int, hi: int, max: int, min: int) {
    max in r && min in r && forall i :: 0 <= i < |r| && lo <= i < hi ==> min <= r[i] <= max
  }

  lemma {:induction false} BlockExtrema(r: seq<int>, P: nat, t: nat, l: Local, start: map<Loc, int>, n: nat)
    requires t < P && |r| > 0 && Memory(start, r, P) && l.step == 0 && 0 < n <= Goal(|r|, P, t, 0)
    ensures var m := Alone(Convert(|r|, P), t, 0, l, start, n).1;
            Spans(r, First(|r|, P, t), First(|r|, P, t) + n - 1, Read(m, MaxR(t)), Read(m, MinR(t)))
    decreases n
  {
    hide First, End, BlockOf, Scaled, Updates, Next, Alone, Convert, Memory, Read;
    var lo := First(|r|, P, t);
    ShareNonNegative(|r|, P, t);
    AloneStep(|r|, P, t, 0, l, start, n - 1);
    AloneCounts(r, P, t, 0, l, start, n - 1);
    var a := Alone(Convert(|r|, P), t, 0, l, start, n - 1);
    Phase0Step(|r|, P, t, a.0, a.1);
    AloneReads(r, P, t, 0, l, start, n - 1, if n > 1 then lo + n - 2 else lo);
    if n > 1 {
      BlockExtrema(r, P, t, l, start, n - 1);
    }
  }

  // Every thread's extrema are in place after the first barrier.
  ghost predicate BlocksSpanned(m: map<Loc, int>, r: seq<int>, P: nat)
    requires P > 0
  {
    forall t: nat :: t < P ==> Spans(r, First(|r|, P, t), End(|r|, P, t), Read(m, MaxR(t)), Read(m, MinR(t)))
  }

  // Thread t's extrema are as t left them.
  lemma ExtremaKept(r: seq<int>, P: nat, s: Shared<Local, Loc, int>, t: nat)
    requires t < P && |r| > 0 && PhaseOk(s, r, P, 0) && Goal(|r|, P, t, 0) >= 0
    ensures var e, m := PhaseEnd(Convert(|r|, P), 0, s).mem,
                        Alone(Convert(|r|, P), t, 0, s.locals[t], s.mem, Goal(|r|, P, t, 0)).1;
            Read(e, MaxR(t)) == Read(m, MaxR(t)) && Read(e, MinR(t)) == Read(m, MinR(t))
  {
    hide *;
    OwnKept(r, P, s, t, MaxR(t));
    OwnKept(r, P, s, t, MinR(t));
  }

  lemma OwnKept(r: seq<int>, P: nat, s: Shared<Local, Loc, int>, t: nat, x: Loc)
    requires t < P && |r| > 0 && PhaseOk(s, r, P, 0) && Goal(|r|, P, t, 0) >= 0
    requires x == MaxR(t) || x == MinR(t)
    ensures var e, m := PhaseEnd(Convert(|r|, P), 0, s).mem,
                        Alone(Convert(|r|, P), t, 0, s.locals[t], s.mem, Goal(|r|, P, t, 0)).1;
            Read(e, x) == Read(m, x)
  {
    hide First, End, BlockOf, Scaled, Updates, Next, Alone;
    var p := Convert(|r|, P);
    var e, n := PhaseEnd(p, 0, s), Goal(|r|, P, t, 0);
    ShareNonNegative(|r|, P, t);
    AloneCounts(r, P, t, 0, s.locals[t], s.mem, n);
    assert AloneAtEnd(p, t, 0, s.locals[t], s.mem) == Alone(p, t, 0, s.locals[t], s.mem, n);
    assert e.mem[x] == Final(p, 0, s, x);
  }

  lemma AfterPhase0(r: seq<int>, P: nat, s: Shared<Local, Loc, int>)
    requires P > 0 && |r| > 0 && PhaseOk(s, r, P, 0)
    ensures BlocksSpanned(PhaseEnd(Convert(|r|, P), 0, s).mem, r, P)
  {
    hide First, End, BlockOf, Alone, Spans, Convert, PhaseEnd, Read, Memory;
    var e := PhaseEnd(Convert(|r|, P), 0, s);
    forall t: nat | t < P
      ensures Spans(r, First(|r|, P, t), End(|r|, P, t), Read(e.mem, MaxR(t)), Read(e.mem, MinR(t)))
    {
      Goals(|r|, P, t);
      BlockExtrema(r, P, t, s.locals[t], s.mem, Goal(|r|, P, t, 0));
      ExtremaKept(r, P, s, t);
    }
  }

  // ----- phase 1: extrema of everything, by thread 0

  ghost predicate Collected(m: map<Loc, int>, r: seq<int>, n: int, max: int, min: int) {
    max in r && min in r && forall t :: 0 <= t < n ==> Read(m, MaxR(t)) <= max && min <= Read(m, MinR(t))
  }

  lemma {:induction false} Collecting(r: seq<int>, P: nat, l: Local, start: map<Loc, int>, n: nat)
    requires P > 0 && |r| > 0 && Memory(start, r, P) && BlocksSpanned(start, r, P)
    requires l.step == Goal(|r|, P, 0, 0) && 0 < n <= P + 1
    ensures var a := Alone(Convert(|r|, P), 0, 1, l, start, n);
            a.1 == start && Collected(start, r, n - 1, a.0.max, a.0.min)
    decreases n
  {
    hide First, End, BlockOf, Scaled, Updates, Next, Alone, Convert, Memory, Read, Goal;
    AloneStep(|r|, P, 0, 1, l, start, n - 1);
    Goals(|r|, P, 0);
    AloneCounts(r, P, 0, 1, l, start, n - 1);
    var a := Alone(Convert(|r|, P), 0, 1, l, start, n - 1);
    Phase1Step(|r|, P, a.0, a.1, n - 1);
    if n > 1 {
      Collecting(r, P, l, start, n - 1);
      assert Spans(r, First(|r|, P, n - 2), End(|r|, P, n - 2), Read(start, MaxR(n - 2)), Read(start, MinR(n - 2)));
    } else {
      AloneNone(|r|, P, 0, 1, l, start);
      assert Spans(r, First(|r|, P, 0), End(|r|, P, 0), Read(start, MaxR(0)), Read(start, MinR(0)));
    }
  }

  lemma AloneNone(size: nat, P: nat, t: nat, k: nat, l: Local, start: map<Loc, int>)
    requires P > 0
    ensures Alone(Convert(size, P), t, k, l, start, 0) == (l, start)
  {
  }

  lemma Goals(size: nat, P: nat, t: nat)
    requires t < P
    ensures 0 <= Share(size, P, t)
    ensures Goal(size, P, t, 0) == 1 + Share(size, P, t)
    ensures Goal(size, P, t, 1) == Goal(size, P, t, 0) + if t == 0 then P + 2 else 0
    ensures Goal(size, P, t, 2) == Goal(size, P, t, 1) + 1 + Share(size, P, t)
  {
    BlocksMeet(size, P, t);
  }

  // Thread 0, d steps into phase 1
  lemma Phase1Step(size: nat, P: nat, l: Local, m: map<Loc, int>, d: nat)
    requires P > 0 && l.step == Goal(size, P, 0, 0) + d && d <= P + 1
    ensures d <= P ==> m + Updates(size, P, 0, 1, l, m) == m
    ensures d == P + 1 ==> var m' := m + Updates(size, P, 0, 1, l, m);
                           MaxG in m' && MinG in m' && m'[MaxG] == l.max - l.min && m'[MinG] == l.min
    ensures d == 0 ==> Next(size, P, 0, 1, l, m) == Local(l.step + 1, Read(m, MaxR(0)), Read(m, MinR(0)))
    ensures 0 < d <= P ==>
              Next(size, P, 0, 1, l, m) ==
              Local(l.step + 1,
                    if Read(m, MaxR(d - 1)) > l.max then Read(m, MaxR(d - 1)) else l.max,
                    if Read(m, MinR(d - 1)) < l.min then Read(m, MinR(d - 1)) else l.min)
  {
    hide First, End, Goal;
  }

  lemma CollectedIsGlobal(m: map<Loc, int>, r: seq<int>, P: nat, max: int, min: int)
    requires P > 0 && BlocksSpanned(m, r, P) && Collected(m, r, P, max, min)
    ensures Largest(r, max) && Smallest(r, min)
  {
    hide First, End, BlockOf;
    forall i | 0 <= i < |r|
      ensures min <= r[i] <= max
    {
      BlocksTile(|r|, P, i);
      var t := BlockOf(|r|, P, i);
      assert Spans(r, First(|r|, P, t), End(|r|, P, t), Read(m, MaxR(t)), Read(m, MinR(t)));
    }
  }

  ghost predicate GlobalsSet(m: map<Loc, int>, r: seq<int>) {
    Largest(r, Read(m, MaxG) + Read(m, MinG)) && Smallest(r, Read(m, MinG))
  }

  // The globals are as thread 0 left them.
  lemma GlobalsKept(r: seq<int>, P: nat, s: Shared<Local, Loc, int>)
    requires P > 0 && |r| > 0 && PhaseOk(s, r, P, 1)
    requires var m := Alone(Convert(|r|, P), 0, 1, s.locals[0], s.mem, P + 2).1; MaxG in m && MinG in m
    ensures var e, m := PhaseEnd(Convert(|r|, P), 1, s).mem, Alone(Convert(|r|, P), 0, 1, s.locals[0], s.mem, P + 2).1;
            Read(e, MaxG) == Read(m, MaxG) && Read(e, MinG) == Read(m, MinG)
  {
    hide First, End, BlockOf, Scaled, Alone, Updates, Next, Memory, Goal;
    var p, l := Convert(|r|, P), s.locals[0];
    var e := PhaseEnd(p, 1, s);
    Goals(|r|, P, 0);
    GlobalsInMemory(s.mem, r, P);
    assert AloneAtEnd(p, 0, 1, l, s.mem) == Alone(p, 0, 1, l, s.mem, P + 2);
    assert e.mem[MaxG] == Final(p, 1, s, MaxG) && e.mem[MinG] == Final(p, 1, s, MinG);
  }

  lemma AfterPhase1(r: seq<int>, P: nat, s: Shared<Local, Loc, int>)
    requires P > 0 && |r| > 0 && PhaseOk(s, r, P, 1) && BlocksSpanned(s.mem, r, P)
    ensures GlobalsSet(PhaseEnd(Convert(|r|, P), 1, s).mem, r)
  {
    hide First, End, BlockOf, Alone, BlocksSpanned, Updates, Next, Memory, Goal, Convert, PhaseEnd;
    var p, l := Convert(|r|, P), s.locals[0];
    Goals(|r|, P, 0);
    Collecting(r, P, l, s.mem, P + 1);
    var a := Alone(p, 0, 1, l, s.mem, P + 1);
    CollectedIsGlobal(s.mem, r, P, a.0.max, a.0.min);
    AloneCounts(r, P, 0, 1, l, s.mem, P + 1);
    AloneStep(|r|, P, 0, 1, l, s.mem, P + 1);
    Phase1Step(|r|, P, a.0, a.1, P + 1);
    GlobalsKept(r, P, s);
  }

  lemma GlobalsInMemory(m: map<Loc, int>, r: seq<int>, P: nat)
    requires Memory(m, r, P)
    ensures MaxG in m && MinG in m
  {
  }

  // ----- phase 2: scaling

  lemma Phase2Step(size: nat, P: nat, t: nat, l: Local, m: map<Loc, int>, d: nat)
    requires t < P && l.step == Goal(size, P, t, 1) + d
    ensures d == 0 ==> Next(size, P, t, 2, l, m) == Local(l.step + 1, Read(m, MaxG), Read(m, MinG))
    ensures d > 0 ==> Next(size, P, t, 2, l, m) == l.(step := l.step + 1)
    ensures var m', h := m + Updates(size, P, t, 2, l, m), First(size, P, t) + d - 1;
            forall i :: Read(m', Out(i)) ==
              if d > 0 && i == h then Scaled(Read(m, R(h)), l.min, l.max) else Read(m, Out(i))
  {
    hide First, End, Goal, Scaled;
  }

  ghost predicate ScaledUpTo(m: map<Loc, int>, r: seq<int>, lo: nat, hi: int, min: int, range: int) {
    hi <= |r| && forall i :: lo <= i < hi ==> Read(m, Out(i)) == Scaled(r[i], min, range)
  }

  lemma {:induction false} Scaling(r: seq<int>, P: nat, t: nat, l: Local, start: map<Loc, int>, n: nat)
    requires t < P && |r| > 0 && Memory(start, r, P)
    requires l.step == Goal(|r|, P, t, 1) && 0 < n && l.step + n <= Goal(|r|, P, t, 2)
    ensures var a, lo := Alone(Convert(|r|, P), t, 2, l, start, n), First(|r|, P, t);
            && a.0.max == Read(start, MaxG) && a.0.min == Read(start, MinG)
            && ScaledUpTo(a.1, r, lo, lo + n - 1, a.0.min, a.0.max)
    decreases n
  {
    hide First, End, BlockOf, Scaled, Updates, Next, Alone, Convert, Memory, Read, Goal;
    var lo := First(|r|, P, t);
    Goals(|r|, P, t);
    ShareNonNegative(|r|, P, t);
    AloneStep(|r|, P, t, 2, l, start, n - 1);
    AloneCounts(r, P, t, 2, l, start, n - 1);
    var a := Alone(Convert(|r|, P), t, 2, l, start, n - 1);
    Phase2Step(|r|, P, t, a.0, a.1, n - 1);
    if n > 1 {
      Scaling(r, P, t, l, start, n - 1);
      AloneReads(r, P, t, 2, l, start, n - 1, lo + n - 2);
    } else {
      AloneNone(|r|, P, t, 2, l, start);
    }
  }

  lemma AfterPhase2(r: seq<int>, P: nat, s: Shared<Local, Loc, int>, i: nat)
    requires P > 0 && PhaseOk(s, r, P, 2) && i < |r|
    ensures Read(PhaseEnd(Convert(|r|, P), 2, s).mem, Out(i)) == Scaled(r[i], Read(s.mem, MinG), Read(s.mem, MaxG))
  {
    hide First, End, BlockOf, Scaled, Alone, Updates, Next;
    var p, t := Convert(|r|, P), BlockOf(|r|, P, i);
    BlocksTile(|r|, P, i);
    var e, l, n := PhaseEnd(p, 2, s), s.locals[t], 1 + Share(|r|, P, t);
    ShareNonNegative(|r|, P, t);
    Scaling(r, P, t, l, s.mem, n);
    AloneCounts(r, P, t, 2, l, s.mem, n);
    assert AloneAtEnd(p, t, 2, l, s.mem) == Alone(p, t, 2, l, s.mem, n);
    assert e.mem[Out(i)] == Final(p, 2, s, Out(i));
  }

  // ----- every interleaving

  ghost function Output(m: map<Loc, int>, n: nat): seq<int> {
    seq(n, i requires 0 <= i < n => Read(m, Out(i)))
  }

  /** For every interleaving of P threads, the parallel conversion ends with the same output as the
      sequential one: the linear stretch of r to 0..255. */
  lemma ParallelIntToUchar(r: seq<int>, P: nat, init: Shared<Local, Loc, int>, schedule: seq<nat>)
    requires P > 0 && Varied(r) && PhaseOk(init, r, P, 0)
    requires Interleaving(Convert(|r|, P), init, 2, schedule)
    requires Finished(Convert(|r|, P), Reached(Convert(|r|, P), init, schedule), P, 2)
    ensures Converted(r, Output(Reached(Convert(|r|, P), init, schedule).mem, |r|))
  {
    hide First, End, BlockOf, Scaled, PhaseOk, Reached, Interleaving, Finished, Disciplined, BlocksSpanned, Convert,
        PhaseStart, PhaseEnd, Read, Stretched;
    VariedSize(r);
    AtStart(Convert(|r|, P), init);
    var p := Convert(|r|, P);
    ConvertIsDisciplined(r, P, init);
    InitThreads(init, r, P);
    EveryInterleavingAgrees(p, init, 2, schedule);
    PhasesOk(r, P, 0, init);
    PhasesOk(r, P, 1, init);
    PhasesOk(r, P, 2, init);
    AfterPhase0(r, P, PhaseStart(p, init, 0));
    NextPhase(p, init, 0);
    AfterPhase1(r, P, PhaseStart(p, init, 1));
    NextPhase(p, init, 1);
    var s := PhaseStart(p, init, 2);
    NextPhase(p, init, 2);
    var out := Output(PhaseStart(p, init, 3).mem, |r|);
    var range, min := Read(s.mem, MaxG), Read(s.mem, MinG);
    VariedRange(r, range + min, min);
    forall i | 0 <= i < |r|
      ensures Stretched(r[i], out[i], min, range)
    {
      AfterPhase2(r, P, s, i);
      ScaledStretches(r[i], min, range);
    }
    assert Largest(r, range + min) && Smallest(r, min);
  }

  lemma VariedSize(r: seq<int>)
    requires Varied(r)
    ensures |r| > 0
  {
  }

  lemma AtStart(p: Program<Local, Loc, int>, init: Shared<Local, Loc, int>)
    ensures PhaseStart(p, init, 0) == init
  {
  }

  lemma InitThreads(init: Shared<Local, Loc, int>, r: seq<int>, P: nat)
    requires PhaseOk(init, r, P, 0)
    ensures |init.locals| == P
  {
  }

  /** The threads always get there: no interleaving is longer than the bound, and each can be
      completed. */
  lemma ParallelIntToUcharEnds(r: seq<int>, P: nat, init: Shared<Local, Loc, int>, schedule: seq<nat>)
    returns (whole: seq<nat>)
    requires P > 0 && |r| > 0 && PhaseOk(init, r, P, 0)
    requires Interleaving(Convert(|r|, P), init, 2, schedule)
    ensures |schedule| <= Bound(Convert(|r|, P), init, 2)
    ensures schedule <= whole && Interleaving(Convert(|r|, P), init, 2, whole)
    ensures Finished(Convert(|r|, P), Reached(Convert(|r|, P), init, whole), P, 2)
  {
    hide *;
    ConvertIsDisciplined(r, P, init);
    InitThreads(init, r, P);
    InterleavingsAreFinite(Convert(|r|, P), init, 2, schedule);
    whole := EveryInterleavingCanFinish(Convert(|r|, P), init, 2, schedule);
  }
}
