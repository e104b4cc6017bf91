/** Threads that work in phases separated by the barrier.

    If in every phase each thread writes only locations it owns and reads only locations that no
    other thread owns, then every interleaving of every statement, including those of the barrier
    itself, ends with the memory that the phases produce one after the other. */
module Phases {
  import opened Barrier

  // What a thread does in a phase: `updates` is the effect of one atomic step on the shared
  // memory, `next` its effect on the thread's own variables. `work` is the number of steps.
  datatype Program<!L, !K, !V> = Program(
    updates: (nat, nat, L, map<K, V>) -> map<K, V>,
    next: (nat, nat, L, map<K, V>) -> L,
    done: (nat, nat, L) -> bool,
    work: (nat, nat, L, map<K, V>) -> nat,
    owner: (nat, map<K, V>, K) -> Owner)

  datatype Shared<L, !K, V> = Shared(locals: seq<L>, mem: map<K, V>)

  // ----- a thread on its own

  // Thread t after n steps of phase k, if nobody else moved since the phase started
  ghost function Alone<L, K, V>(p: Program<L, K, V>, t: nat, k: nat, l: L, m: map<K, V>, n: nat): (L, map<K, V>)
  {
    if n == 0 then (l, m)
    else
      var (l', m') := Alone(p, t, k, l, m, n - 1);
      (p.next(t, k, l', m'), m' + p.updates(t, k, l', m'))
  }

  // Memories that look the same to thread t: they may differ only where another thread owns.
  ghost predicate LooksSame<L, K, V>(p: Program<L, K, V>, t: nat, k: nat, start: map<K, V>, m: map<K, V>, m2: map<K,
      V>) {
    && m.Keys == m2.Keys
    && forall x :: x in m && (p.owner(k, start, x) == Free || p.owner(k, start, x) == By(t)) ==> m[x] == m2[x]
  }

  // One step of t alone stays on its own locations and depends on nobody else's.
  ghost predicate StepDisciplined<L, K(!new), V(!new)>(p: Program<L, K, V>, t: nat, k: nat, start: map<K, V>, l: L,
      m: map<K, V>) {
    && !p.done(t, k, l)
    && (forall x :: x in p.updates(t, k, l, m) ==> x in start && p.owner(k, start, x) == By(t))
    && (forall m2 :: LooksSame(p, t, k, start, m, m2) ==>
          p.updates(t, k, l, m2) == p.updates(t, k, l, m) && p.next(t, k, l, m2) == p.next(t, k, l, m))
  }

  ghost predicate PhaseDisciplined<L, K(!new), V(!new)>(p: Program<L, K, V>, t: nat, k: nat, l: L, start: map<K, V>) {
    && (forall n: nat :: n < p.work(t, k, l, start) ==>
          var a := Alone(p, t, k, l, start, n); StepDisciplined(p, t, k, start, a.0, a.1))
    && p.done(t, k, Alone(p, t, k, l, start, p.work(t, k, l, start)).0)
  }

  // ----- phases one after the other

  ghost function AloneAtEnd<L, K, V>(p: Program<L, K, V>, t: nat, k: nat, l: L, m: map<K, V>): (L, map<K, V>) {
    Alone(p, t, k, l, m, p.work(t, k, l, m))
  }

  // All threads have finished phase k: everyone's own locations as they left them.
  ghost function PhaseEnd<L, K, V>(p: Program<L, K, V>, k: nat, s: Shared<L, K, V>): (r: Shared<L, K, V>)
    ensures |r.locals| == |s.locals| && r.mem.Keys == s.mem.Keys
  {
    Shared(
      seq(|s.locals|, t requires 0 <= t < |s.locals| => AloneAtEnd(p, t, k, s.locals[t], s.mem).0),
      map x | x in s.mem :: Final(p, k, s, x))
  }

  ghost function Final<L, K, V>(p: Program<L, K, V>, k: nat, s: Shared<L, K, V>, x: K): V
    requires x in s.mem
  {
    var o := p.owner(k, s.mem, x);
    if o.By? && o.thread < |s.locals| then
      var m := AloneAtEnd(p, o.thread, k, s.locals[o.thread], s.mem).1;
      if x in m then m[x] else s.mem[x]
    else s.mem[x]
  }

  ghost function PhaseStart<L, K, V>(p: Program<L, K, V>, init: Shared<L, K, V>, k: nat): (r: Shared<L, K, V>)
    ensures |r.locals| == |init.locals| && r.mem.Keys == init.mem.Keys
  {
    if k == 0 then init else PhaseEnd(p, k - 1, PhaseStart(p, init, k - 1))
  }

  // The program keeps to its own in each of the phases 0 to R.
  ghost predicate Disciplined<L, K(!new), V(!new)>(p: Program<L, K, V>, init: Shared<L, K, V>, R: nat) {
    forall k: nat, t: nat :: k <= R && t < |init.locals| ==>
      PhaseDisciplined(p, t, k, PhaseStart(p, init, k).locals[t], PhaseStart(p, init, k).mem)
  }

  // ----- interleavings

  datatype System<L, !K, V> = System(b: State, locals: seq<L>, mem: map<K, V>)

  ghost predicate Sized<L, K, V>(s: System<L, K, V>, P: nat) {
    Shape(s.b, P) && |s.locals| == P
  }

  // Thread t still has work in its current phase.
  ghost predicate Busy<L, K, V>(p: Program<L, K, V>, s: System<L, K, V>, P: nat, t: nat)
    requires Sized(s, P) && t < P
  {
    s.b.pc[t] == Working && !p.done(t, s.b.passed[t], s.locals[t])
  }

  ghost predicate CanMove<L, K, V>(p: Program<L, K, V>, s: System<L, K, V>, P: nat, R: nat, t: nat)
    requires Sized(s, P) && t < P
  {
    Busy(p, s, P, t) || Enabled(s.b, P, R, t)
  }

  ghost function Move<L, K, V>(p: Program<L, K, V>, s: System<L, K, V>, P: nat, t: nat): System<L, K, V>
    requires Sized(s, P) && t < P
  {
    if Busy(p, s, P, t) then
      var k, l := s.b.passed[t], s.locals[t];
      System(s.b, s.locals[t := p.next(t, k, l, s.mem)], s.mem + p.updates(t, k, l, s.mem))
    else s.(b := Do(s.b, P, t))
  }

  ghost function Start<L, K, V>(init: Shared<L, K, V>): System<L, K, V> {
    System(Init(|init.locals|), init.locals, init.mem)
  }

  // The system after the threads in the schedule have each taken their next step, in that order
  ghost function Reached<L, K, V>(p: Program<L, K, V>, init: Shared<L, K, V>, schedule: seq<nat>): (s: System<L, K, V>)
    ensures Sized(s, |init.locals|)
    decreases |schedule|
  {
    var P := |init.locals|;
    if schedule == [] then Start(init)
    else
      var s, t := Reached(p, init, schedule[..|schedule| - 1]), schedule[|schedule| - 1];
      if t < P then Move(p, s, P, t) else s
  }

  // A schedule in which every step was possible when it was taken
  ghost predicate Interleaving<L, K, V>(p: Program<L, K, V>, init: Shared<L, K, V>, R: nat, schedule: seq<nat>)
    decreases |schedule|
  {
    schedule == [] ||
    (var rest, t, P := schedule[..|schedule| - 1], schedule[|schedule| - 1], |init.locals|;
     Interleaving(p, init, R, rest) && t < P && CanMove(p, Reached(p, init, rest), P, R, t))
  }

  ghost predicate Finished<L, K, V>(p: Program<L, K, V>, s: System<L, K, V>, P: nat, R: nat)
    requires Sized(s, P)
  {
    forall t: nat :: t < P ==> s.b.pc[t] == Working && s.b.passed[t] == R && !Busy(p, s, P, t)
  }

  // ----- the invariant of every interleaving

  // Progress n of thread t in the phase that the current generation is about
  ghost predicate At<L, K, V>(p: Program<L, K, V>, now: Shared<L, K, V>, s: System<L, K, V>, P: nat, t: nat, n: nat)
    requires Sized(s, P) && |now.locals| == P && t < P
  {
    var g, work := s.b.generation, p.work(t, s.b.generation, now.locals[t], now.mem);
    && n <= work
    && s.locals[t] == Alone(p, t, g, now.locals[t], now.mem, n).0
    && (if s.b.pc[t] == Working then true else if Leaving(s.b.pc[t]) then n == 0 else n == work)
  }

  // Each location holds what its owner has made of it so far.
  ghost predicate MemAt<L, K, V>(p: Program<L, K, V>, now: Shared<L, K, V>, mem: map<K, V>, g: nat, progress: seq<nat>)
    requires |progress| == |now.locals|
  {
    && mem.Keys == now.mem.Keys
    && forall x :: x in mem ==> LocationAt(p, now, mem, g, progress, x)
  }

  ghost predicate LocationAt<L, K, V>(p: Program<L, K, V>, now: Shared<L, K, V>, mem: map<K, V>, g: nat,
      progress: seq<nat>, x: K)
    requires |progress| == |now.locals| && x in mem && x in now.mem
  {
    var o := p.owner(g, now.mem, x);
    if o.By? && o.thread < |progress| then
      var m := Alone(p, o.thread, g, now.locals[o.thread], now.mem, progress[o.thread]).1;
      x in m && mem[x] == m[x]
    else mem[x] == now.mem[x]
  }

  ghost predicate SystemInv<L, K, V>(p: Program<L, K, V>, init: Shared<L, K, V>, R: nat, s: System<L, K, V>,
      progress: seq<nat>) {
    var P, now := |init.locals|, PhaseStart(p, init, s.b.generation);
    && Sized(s, P) && |progress| == P
    && Inv(s.b, P, R) && s.b.generation <= R
    && (forall t: nat :: t < P ==> At(p, now, s, P, t, progress[t]))
    && MemAt(p, now, s.mem, s.b.generation, progress)
  }

  lemma {:induction false} AloneKeys<L, K(!new), V(!new)>(p: Program<L, K, V>, t: nat, k: nat, l: L, m: map<K, V>,
      n: nat)
    requires PhaseDisciplined(p, t, k, l, m) && n <= p.work(t, k, l, m)
    ensures Alone(p, t, k, l, m, n).1.Keys == m.Keys
    ensures forall x :: x in m && p.owner(k, m, x) != By(t) ==> Alone(p, t, k, l, m, n).1[x] == m[x]
    decreases n
  {
    if n > 0 {
      AloneKeys(p, t, k, l, m, n - 1);
      var a := Alone(p, t, k, l, m, n - 1);
      assert StepDisciplined(p, t, k, m, a.0, a.1);
    }
  }

  lemma StartInv<L, K, V>(p: Program<L, K, V>, init: Shared<L, K, V>, R: nat)
    requires |init.locals| > 0
    ensures SystemInv(p, init, R, Start(init), seq(|init.locals|, _ => 0))
  {
    InitInv(|init.locals|, R);
  }

  // A thread that works sees, where it may look, what it would see alone.
  lemma SeesOwn<L, K(!new), V(!new)>(p: Program<L, K, V>, now: Shared<L, K, V>, mem: map<K, V>, g: nat,
      progress: seq<nat>, t: nat)
    requires |progress| == |now.locals| && t < |progress|
    requires MemAt(p, now, mem, g, progress)
    requires PhaseDisciplined(p, t, g, now.locals[t], now.mem) && progress[t] <= p.work(t, g, now.locals[t], now.mem)
    ensures LooksSame(p, t, g, now.mem, Alone(p, t, g, now.locals[t], now.mem, progress[t]).1, mem)
  {
    AloneKeys(p, t, g, now.locals[t], now.mem, progress[t]);
  }

  // A step of t in the crowd is the step that t would make alone.
  lemma WorkMem<L, K(!new), V(!new)>(p: Program<L, K, V>, now: Shared<L, K, V>, mem: map<K, V>, g: nat,
      progress: seq<nat>, t: nat)
    requires |progress| == |now.locals| && t < |progress|
    requires MemAt(p, now, mem, g, progress)
    requires PhaseDisciplined(p, t, g, now.locals[t], now.mem) && progress[t] < p.work(t, g, now.locals[t], now.mem)
    ensures var n, l := progress[t], Alone(p, t, g, now.locals[t], now.mem, progress[t]).0;
            && p.next(t, g, l, mem) == Alone(p, t, g, now.locals[t], now.mem, n + 1).0
            && MemAt(p, now, mem + p.updates(t, g, l, mem), g, progress[t := n + 1])
  {
    hide LooksSame, PhaseDisciplined, Alone, LocationAt;
    AloneNext(p, t, g, now.locals[t], now.mem, progress[t]);
    SeesOwn(p, now, mem, g, progress, t);
    var n, a := progress[t], Alone(p, t, g, now.locals[t], now.mem, progress[t]);
    StepOf(p, t, g, now.locals[t], now.mem, n);
    assert p.updates(t, g, a.0, mem) == p.updates(t, g, a.0, a.1);
    AloneKeys(p, t, g, now.locals[t], now.mem, n);
    var mem', progress' := mem + p.updates(t, g, a.0, mem), progress[t := n + 1];
    forall x | x in mem'
      ensures LocationAt(p, now, mem', g, progress', x)
    {
      LocationStep(p, now, mem, g, progress, t, p.updates(t, g, a.0, mem), x);
    }
  }

  lemma LocationStep<L, K, V>(p: Program<L, K, V>, now: Shared<L, K, V>, mem: map<K, V>, g: nat,
      progress: seq<nat>, t: nat, u: map<K, V>, x: K)
    requires |progress| == |now.locals| && t < |progress| && x in mem && x in now.mem
    requires LocationAt(p, now, mem, g, progress, x) && (x in u ==> p.owner(g, now.mem, x) == By(t))
    requires var n, l := progress[t], now.locals[t];
             Alone(p, t, g, l, now.mem, n + 1).1 == Alone(p, t, g, l, now.mem, n).1 + u
    ensures LocationAt(p, now, mem + u, g, progress[t := progress[t] + 1], x)
  {
    hide Alone;
  }

  lemma AloneNext<L, K, V>(p: Program<L, K, V>, t: nat, k: nat, l: L, m: map<K, V>, n: nat)
    ensures var (l', m') := Alone(p, t, k, l, m, n);
            Alone(p, t, k, l, m, n + 1) == (p.next(t, k, l', m'), m' + p.updates(t, k, l', m'))
  {
  }

  lemma StepOf<L, K(!new), V(!new)>(p: Program<L, K, V>, t: nat, k: nat, l: L, m: map<K, V>, n: nat)
    requires PhaseDisciplined(p, t, k, l, m) && n < p.work(t, k, l, m)
    ensures var a := Alone(p, t, k, l, m, n); StepDisciplined(p, t, k, m, a.0, a.1)
  {
  }

  lemma WorkingPhase(b: State, P: nat, R: nat, t: nat)
    requires Inv(b, P, R) && t < P && (b.pc[t] == Working || b.pc[t] == Resetted)
    ensures b.passed[t] == b.generation
  {
    assert ThreadOk(b, P, R, t);
  }

  lemma WorkInv<L, K(!new), V(!new)>(p: Program<L, K, V>, init: Shared<L, K, V>, R: nat, s: System<L, K, V>,
      progress: seq<nat>, t: nat)
    requires SystemInv(p, init, R, s, progress) && Disciplined(p, init, R)
    requires t < |init.locals| && Busy(p, s, |init.locals|, t)
    ensures SystemInv(p, init, R, Move(p, s, |init.locals|, t), progress[t := progress[t] + 1])
  {
    hide Inv, MemAt, Alone, PhaseDisciplined, PhaseStart;
    var P, g := |init.locals|, s.b.generation;
    var now := PhaseStart(p, init, g);
    var n, s' := progress[t], Move(p, s, P, t);
    WorkingPhase(s.b, P, R, t);
    assert At(p, now, s, P, t, n);
    assert PhaseDisciplined(p, t, g, now.locals[t], now.mem);
    StillWorking(p, t, g, now.locals[t], now.mem, n);
    WorkMem(p, now, s.mem, g, progress, t);
    var progress' := progress[t := n + 1];
    forall u: nat | u < P
      ensures At(p, now, s', P, u, progress'[u])
    {
      assert At(p, now, s, P, u, progress[u]);
    }
  }

  lemma StillWorking<L, K(!new), V(!new)>(p: Program<L, K, V>, t: nat, k: nat, l: L, m: map<K, V>, n: nat)
    requires PhaseDisciplined(p, t, k, l, m) && n <= p.work(t, k, l, m)
    requires !p.done(t, k, Alone(p, t, k, l, m, n).0)
    ensures n < p.work(t, k, l, m)
  {
  }

  lemma NotBusyMeansDone<L, K(!new), V(!new)>(p: Program<L, K, V>, t: nat, k: nat, l: L, m: map<K, V>, n: nat)
    requires PhaseDisciplined(p, t, k, l, m) && n <= p.work(t, k, l, m)
    ensures p.done(t, k, Alone(p, t, k, l, m, n).0) <==> n == p.work(t, k, l, m)
  {
    var a := Alone(p, t, k, l, m, n);
    assert n < p.work(t, k, l, m) ==> StepDisciplined(p, t, k, m, a.0, a.1);
  }

  lemma BarrierInv<L, K(!new), V(!new)>(p: Program<L, K, V>, init: Shared<L, K, V>, R: nat, s: System<L, K, V>,
      progress: seq<nat>, t: nat)
    requires SystemInv(p, init, R, s, progress) && Disciplined(p, init, R)
    requires t < |init.locals| && !Busy(p, s, |init.locals|, t) && Enabled(s.b, |init.locals|, R, t)
    requires s.b.pc[t] != Resetted
    ensures SystemInv(p, init, R, Move(p, s, |init.locals|, t), progress)
  {
    hide Inv, MemAt, Alone, PhaseDisciplined, PhaseStart;
    var P, g := |init.locals|, s.b.generation;
    var now := PhaseStart(p, init, g);
    var s' := Move(p, s, P, t);
    StepInv(s.b, P, R, t);
    assert At(p, now, s, P, t, progress[t]);
    assert PhaseDisciplined(p, t, g, now.locals[t], now.mem);
    if s.b.pc[t] == Working {
      WorkingPhase(s.b, P, R, t);
      NotBusyMeansDone(p, t, g, now.locals[t], now.mem, progress[t]);
    }
    forall u: nat | u < P
      ensures At(p, now, s', P, u, progress[u])
    {
      assert At(p, now, s, P, u, progress[u]);
    }
  }

  // While the last thread is about to broadcast, all others wait.
  lemma OthersWait(b: State, P: nat, R: nat, t: nat, u: nat)
    requires Inv(b, P, R) && t < P && u < P && b.pc[t] == Resetted
    ensures u != t ==> b.pc[u] == Waiting
    ensures b.generation < R
  {
    assert ThreadOk(b, P, R, t);
  }

  // At the broadcast everybody is done: the memory is that of the end of the phase.
  lemma ReleaseNextPhase<L, K(!new), V(!new)>(p: Program<L, K, V>, init: Shared<L, K, V>, R: nat, s: System<L, K, V>,
      progress: seq<nat>, t: nat)
    requires SystemInv(p, init, R, s, progress) && Disciplined(p, init, R)
    requires t < |init.locals| && s.b.pc[t] == Resetted
    ensures SystemInv(p, init, R, Move(p, s, |init.locals|, t), seq(|init.locals|, _ => 0))
  {
    hide Inv, MemAt, PhaseDisciplined, PhaseStart, PhaseEnd;
    var P, g := |init.locals|, s.b.generation;
    var now, zero := PhaseStart(p, init, g), seq(P, _ => 0);
    StepInv(s.b, P, R, t);
    OthersWait(s.b, P, R, t, t);
    forall u | 0 <= u < P
      ensures progress[u] == p.work(u, g, now.locals[u], now.mem) && At(p, now, s, P, u, progress[u])
    {
      OthersWait(s.b, P, R, t, u);
      assert At(p, now, s, P, u, progress[u]);
    }
    PhaseEndLocals(p, now, s, g, progress);
    PhaseEndMem(p, now, s.mem, g, progress);
    NextPhase(p, init, g);
    NothingDone(p, Shared(s.locals, s.mem), g + 1, zero);
    forall u: nat | u < P
      ensures At(p, Shared(s.locals, s.mem), Move(p, s, P, t), P, u, zero[u])
    {
      OthersLeave(s.b, P, R, t, u);
    }
  }

  lemma OthersLeave(b: State, P: nat, R: nat, t: nat, u: nat)
    requires Inv(b, P, R) && t < P && u < P && b.pc[t] == Resetted
    ensures Leaving(Do(b, P, t).pc[u]) && Do(b, P, t).generation == b.generation + 1
  {
    OthersWait(b, P, R, t, u);
  }

  lemma NextPhase<L, K, V>(p: Program<L, K, V>, init: Shared<L, K, V>, g: nat)
    ensures PhaseStart(p, init, g + 1) == PhaseEnd(p, g, PhaseStart(p, init, g))
  {
  }

  lemma NothingDone<L, K, V>(p: Program<L, K, V>, now: Shared<L, K, V>, g: nat, zero: seq<nat>)
    requires |zero| == |now.locals| && forall u :: 0 <= u < |zero| ==> zero[u] == 0
    ensures MemAt(p, now, now.mem, g, zero)
  {
  }

  lemma PhaseEndLocals<L, K, V>(p: Program<L, K, V>, now: Shared<L, K, V>, s: System<L, K, V>, g: nat,
      progress: seq<nat>)
    requires Sized(s, |now.locals|) && |progress| == |now.locals| && s.b.generation == g
    requires forall u :: 0 <= u < |progress| ==>
               progress[u] == p.work(u, g, now.locals[u], now.mem) && At(p, now, s, |now.locals|, u, progress[u])
    ensures s.locals == PhaseEnd(p, g, now).locals
  {
    forall u | 0 <= u < |progress|
      ensures s.locals[u] == PhaseEnd(p, g, now).locals[u]
    {
      assert At(p, now, s, |now.locals|, u, progress[u]);
    }
  }

  lemma PhaseEndMem<L, K, V>(p: Program<L, K, V>, now: Shared<L, K, V>, mem: map<K, V>, g: nat, progress: seq<nat>)
    requires |progress| == |now.locals| && MemAt(p, now, mem, g, progress)
    requires forall u :: 0 <= u < |progress| ==> progress[u] == p.work(u, g, now.locals[u], now.mem)
    ensures mem == PhaseEnd(p, g, now).mem
  {
    var m := PhaseEnd(p, g, now).mem;
    forall x | x in mem
      ensures mem[x] == m[x]
    {
      assert m[x] == Final(p, g, now, x);
    }
  }

  // ----- how many steps are left

  ghost function WorkOf<L, K, V>(p: Program<L, K, V>, init: Shared<L, K, V>, t: nat, k: nat): nat
    requires t < |init.locals|
  {
    p.work(t, k, PhaseStart(p, init, k).locals[t], PhaseStart(p, init, k).mem)
  }

  // Steps of thread t in phases g to R
  ghost function Ahead<L, K, V>(p: Program<L, K, V>, init: Shared<L, K, V>, R: nat, t: nat, g: nat): nat
    requires t < |init.locals|
    decreases R + 1 - g
  {
    if g > R then 0 else WorkOf(p, init, t, g) + Ahead(p, init, R, t, g + 1)
  }

  // Steps that threads below n have left, apart from those of the barrier
  ghost function Remaining<L, K, V>(p: Program<L, K, V>, init: Shared<L, K, V>, R: nat, g: nat, progress: seq<nat>,
      n: nat): int
    requires n <= |progress| == |init.locals|
  {
    if n == 0 then 0
    else Remaining(p, init, R, g, progress, n - 1) + Ahead(p, init, R, n - 1, g) - progress[n - 1]
  }

  lemma {:induction false} RemainingStep<L, K, V>(p: Program<L, K, V>, init: Shared<L, K, V>, R: nat, g: nat,
      progress: seq<nat>, t: nat, n: nat)
    requires n <= |progress| == |init.locals| && t < |progress|
    ensures Remaining(p, init, R, g, progress[t := progress[t] + 1], n)
            == Remaining(p, init, R, g, progress, n) - if t < n then 1 else 0
  {
    hide Ahead;
    if n > 0 {
      RemainingStep(p, init, R, g, progress, t, n - 1);
    }
  }

  lemma {:induction false} RemainingNext<L, K, V>(p: Program<L, K, V>, init: Shared<L, K, V>, R: nat, g: nat,
      progress: seq<nat>, zero: seq<nat>, n: nat)
    requires n <= |progress| == |zero| == |init.locals| && g <= R
    requires forall u :: 0 <= u < |progress| ==> progress[u] == WorkOf(p, init, u, g) && zero[u] == 0
    ensures Remaining(p, init, R, g + 1, zero, n) == Remaining(p, init, R, g, progress, n)
  {
    hide WorkOf;
    if n > 0 {
      RemainingNext(p, init, R, g, progress, zero, n - 1);
      assert Ahead(p, init, R, n - 1, g) == WorkOf(p, init, n - 1, g) + Ahead(p, init, R, n - 1, g + 1);
    }
  }

  lemma {:induction false} RemainingNonNegative<L, K, V>(p: Program<L, K, V>, init: Shared<L, K, V>, R: nat, g: nat,
      progress: seq<nat>, n: nat)
    requires n <= |progress| == |init.locals| && g <= R
    requires forall u :: 0 <= u < |progress| ==> progress[u] <= WorkOf(p, init, u, g)
    ensures Remaining(p, init, R, g, progress, n) >= 0
  {
    hide WorkOf;
    if n > 0 {
      RemainingNonNegative(p, init, R, g, progress, n - 1);
      assert Ahead(p, init, R, n - 1, g) == WorkOf(p, init, n - 1, g) + Ahead(p, init, R, n - 1, g + 1);
    }
  }

  ghost function Budget<L, K, V>(p: Program<L, K, V>, init: Shared<L, K, V>, R: nat, s: System<L, K, V>,
      progress: seq<nat>): int
    requires Sized(s, |init.locals|) && |progress| == |init.locals|
  {
    Left(s.b, |init.locals|, R, |init.locals|) + Remaining(p, init, R, s.b.generation, progress, |init.locals|)
  }

  lemma BudgetNonNegative<L, K, V>(p: Program<L, K, V>, init: Shared<L, K, V>, R: nat, s: System<L, K, V>,
      progress: seq<nat>)
    requires SystemInv(p, init, R, s, progress)
    ensures Sized(s, |init.locals|) && |progress| == |init.locals| && Budget(p, init, R, s, progress) >= 0
  {
    hide Inv, MemAt, Alone, PhaseStart, Left, Remaining;
    var P, g := |init.locals|, s.b.generation;
    LeftNonNegative(s.b, P, R, P);
    forall u | 0 <= u < P
      ensures progress[u] <= WorkOf(p, init, u, g)
    {
      assert At(p, PhaseStart(p, init, g), s, P, u, progress[u]);
    }
    RemainingNonNegative(p, init, R, g, progress, P);
  }

  lemma ReleaseSpends<L, K(!new), V(!new)>(p: Program<L, K, V>, init: Shared<L, K, V>, R: nat, s: System<L, K, V>,
      progress: seq<nat>, t: nat)
    requires SystemInv(p, init, R, s, progress) && Disciplined(p, init, R)
    requires t < |init.locals| && s.b.pc[t] == Resetted
    ensures Sized(Move(p, s, |init.locals|, t), |init.locals|)
    ensures Budget(p, init, R, Move(p, s, |init.locals|, t), seq(|init.locals|, _ => 0)) <
            Budget(p, init, R, s, progress)
  {
    hide Inv, MemAt, Alone, PhaseStart, Left, Remaining, Disciplined;
    var P, g := |init.locals|, s.b.generation;
    StepUsesUp(s.b, P, R, t);
    forall u | 0 <= u < P
      ensures progress[u] == WorkOf(p, init, u, g)
    {
      OthersWait(s.b, P, R, t, u);
      assert At(p, PhaseStart(p, init, g), s, P, u, progress[u]);
    }
    OthersLeave(s.b, P, R, t, t);
    RemainingNext(p, init, R, g, progress, seq(P, _ => 0), P);
  }

  lemma SameGeneration(b: State, P: nat, t: nat)
    requires Shape(b, P) && t < P && b.pc[t] != Resetted
    ensures Do(b, P, t).generation == b.generation
  {
  }

  // Every step keeps the invariant and costs something.
  lemma MoveSpends<L, K(!new), V(!new)>(p: Program<L, K, V>, init: Shared<L, K, V>, R: nat, s: System<L, K, V>,
      progress: seq<nat>, t: nat)
    returns (progress': seq<nat>)
    requires |init.locals| > 0 && SystemInv(p, init, R, s, progress) && Disciplined(p, init, R)
    requires t < |init.locals| && CanMove(p, s, |init.locals|, R, t)
    ensures SystemInv(p, init, R, Move(p, s, |init.locals|, t), progress')
    ensures Budget(p, init, R, Move(p, s, |init.locals|, t), progress') < Budget(p, init, R, s, progress)
  {
    hide Inv, MemAt, At, Left, Remaining, Disciplined, PhaseStart;
    var P, g := |init.locals|, s.b.generation;
    if Busy(p, s, P, t) {
      WorkInv(p, init, R, s, progress, t);
      RemainingStep(p, init, R, g, progress, t, P);
      progress' := progress[t := progress[t] + 1];
    } else if s.b.pc[t] == Resetted {
      ReleaseNextPhase(p, init, R, s, progress, t);
      ReleaseSpends(p, init, R, s, progress, t);
      progress' := seq(P, _ => 0);
    } else {
      BarrierInv(p, init, R, s, progress, t);
      StepUsesUp(s.b, P, R, t);
      SameGeneration(s.b, P, t);
      progress' := progress;
    }
  }

  // The steps of a whole run, at most
  ghost function Bound<L, K, V>(p: Program<L, K, V>, init: Shared<L, K, V>, R: nat): int {
    Budget(p, init, R, Start(init), seq(|init.locals|, _ => 0))
  }

  lemma {:induction false} InterleavingInv<L, K(!new), V(!new)>(p: Program<L, K, V>, init: Shared<L, K, V>, R: nat,
      schedule: seq<nat>)
    returns (progress: seq<nat>)
    requires |init.locals| > 0 && Disciplined(p, init, R) && Interleaving(p, init, R, schedule)
    ensures SystemInv(p, init, R, Reached(p, init, schedule), progress) && |progress| == |init.locals|
    ensures |schedule| + Budget(p, init, R, Reached(p, init, schedule), progress) <= Bound(p, init, R)
    decreases |schedule|
  {
    hide Budget, Disciplined, Inv, MemAt, At, PhaseStart;
    if schedule == [] {
      StartInv(p, init, R);
      progress := seq(|init.locals|, _ => 0);
    } else {
      var rest, t := schedule[..|schedule| - 1], schedule[|schedule| - 1];
      progress := InterleavingInv(p, init, R, rest);
      progress := MoveSpends(p, init, R, Reached(p, init, rest), progress, t);
    }
  }

  /** No interleaving goes on for ever: the bound depends on the program, not on the schedule. */
  lemma InterleavingsAreFinite<L, K(!new), V(!new)>(p: Program<L, K, V>, init: Shared<L, K, V>, R: nat,
      schedule: seq<nat>)
    requires |init.locals| > 0 && Disciplined(p, init, R) && Interleaving(p, init, R, schedule)
    ensures |schedule| <= Bound(p, init, R)
  {
    hide Budget, Bound, Disciplined, SystemInv;
    var progress := InterleavingInv(p, init, R, schedule);
    BudgetNonNegative(p, init, R, Reached(p, init, schedule), progress);
  }

  /** Whatever has happened so far, the threads can go on to the end. */
  lemma {:induction false} EveryInterleavingCanFinish<L, K(!new), V(!new)>(p: Program<L, K, V>, init: Shared<L, K,
      V>, R: nat, schedule: seq<nat>)
    returns (whole: seq<nat>)
    requires |init.locals| > 0 && Disciplined(p, init, R) && Interleaving(p, init, R, schedule)
    ensures schedule <= whole && Interleaving(p, init, R, whole)
    ensures Finished(p, Reached(p, init, whole), |init.locals|, R)
    decreases Bound(p, init, R) - |schedule|
  {
    hide Bound, Disciplined, Reached, CanMove, Finished;
    var P := |init.locals|;
    if t: nat :| t < P && CanMove(p, Reached(p, init, schedule), P, R, t) {
      var longer := schedule + [t];
      assert longer[..|schedule|] == schedule;
      InterleavingsAreFinite(p, init, R, longer);
      whole := EveryInterleavingCanFinish(p, init, R, longer);
    } else {
      StuckIsFinished(p, init, R, schedule);
      whole := schedule;
    }
  }

  /** Every interleaving that has come to its end has produced exactly the outcome of the phases
      run one after the other, whatever the order in which the threads took their steps. */
  lemma EveryInterleavingAgrees<L, K(!new), V(!new)>(p: Program<L, K, V>, init: Shared<L, K, V>, R: nat,
      schedule: seq<nat>)
    requires |init.locals| > 0 && Disciplined(p, init, R) && Interleaving(p, init, R, schedule)
    requires Finished(p, Reached(p, init, schedule), |init.locals|, R)
    ensures var s := Reached(p, init, schedule);
            s.locals == PhaseStart(p, init, R + 1).locals && s.mem == PhaseStart(p, init, R + 1).mem
  {
    hide Inv, MemAt, Alone, PhaseDisciplined, PhaseEnd;
    var s, P := Reached(p, init, schedule), |init.locals|;
    var progress := InterleavingInv(p, init, R, schedule);
    assert s.b.pc[0] == Working;
    WorkingPhase(s.b, P, R, 0);
    var now := PhaseStart(p, init, R);
    forall u | 0 <= u < P
      ensures progress[u] == p.work(u, R, now.locals[u], now.mem) && At(p, now, s, P, u, progress[u])
    {
      assert At(p, now, s, P, u, progress[u]) && !Busy(p, s, P, u);
      assert PhaseDisciplined(p, u, R, now.locals[u], now.mem);
      NotBusyMeansDone(p, u, R, now.locals[u], now.mem, progress[u]);
    }
    PhaseEndLocals(p, now, s, R, progress);
    PhaseEndMem(p, now, s.mem, R, progress);
    NextPhase(p, init, R);
  }

  /** A system in which no thread can move has finished: there is no deadlock on the way. */
  lemma StuckIsFinished<L, K(!new), V(!new)>(p: Program<L, K, V>, init: Shared<L, K, V>, R: nat, schedule: seq<nat>)
    requires |init.locals| > 0 && Disciplined(p, init, R) && Interleaving(p, init, R, schedule)
    requires forall t: nat :: t < |init.locals| ==> !CanMove(p, Reached(p, init, schedule), |init.locals|, R, t)
    ensures Finished(p, Reached(p, init, schedule), |init.locals|, R)
  {
    hide MemAt, Alone, PhaseDisciplined, PhaseStart;
    var s, P := Reached(p, init, schedule), |init.locals|;
    var progress := InterleavingInv(p, init, R, schedule);
    var mover := Mover(s.b, P, R);
    assert !CanMove(p, s, P, R, mover);
    forall t: nat | t < P
      ensures s.b.pc[t] == Working && s.b.passed[t] == R && !Busy(p, s, P, t)
    {
      assert ThreadOk(s.b, P, R, t);
      assert !CanMove(p, s, P, R, t);
    }
  }
}
