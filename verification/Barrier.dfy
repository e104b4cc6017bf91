/** The hand-written barrier of the parallel SUSAN (susan-parallel/susan.c) as a state machine.

    Threads interleave at every statement of actuateBarrier. Waiting on the condition variable
    releases the mutex atomically, and a waiting thread goes on only after a broadcast. The source
    has no loop around the wait, so this is assumed of pthread_cond_wait; the end of the module
    shows for which numbers of threads and rounds the assumption is needed. */
module Barrier {

  datatype Pc =
    | Working       // outside actuateBarrier
    | AtLock        // before pthread_mutex_lock
    | Locked        // before count++
    | Counted       // before the comparison with PROCESSORS
    | Waiting       // inside pthread_cond_wait
    | Last          // before count = 0
    | Resetted      // before pthread_cond_broadcast
    | Woken         // inside pthread_cond_wait, wanting the mutex back
    | Unlocking     // before pthread_mutex_unlock

  datatype Owner = Free | By(thread: nat)

  // arrived and passed count the barriers each thread has entered (count++) and left;
  // generation counts broadcasts. The three are history, the source does not store them.
  datatype State = State(owner: Owner, count: int, pc: seq<Pc>, arrived: seq<nat>, passed: seq<nat>, generation: nat)

  ghost predicate Shape(s: State, P: nat) {
    |s.pc| == P && |s.arrived| == P && |s.passed| == P
  }

  // startBarrier, and P threads that are about to work
  function Init(P: nat): State {
    State(Free, 0, seq(P, _ => Working), seq(P, _ => 0), seq(P, _ => 0), 0)
  }

  // Every thread crosses the barrier R times.
  predicate Enabled(s: State, P: nat, R: nat, t: nat)
    requires Shape(s, P) && t < P
  {
    match s.pc[t]
    case Working => s.passed[t] < R
    case AtLock => s.owner == Free
    case Woken => s.owner == Free
    case Waiting => false
    case _ => true
  }

  function WakeAll(pc: seq<Pc>): (r: seq<Pc>)
    ensures |r| == |pc|
  {
    seq(|pc|, u requires 0 <= u < |pc| => if pc[u] == Waiting then Woken else pc[u])
  }

  // The next statement of thread t
  function Do(s: State, P: nat, t: nat): State
    requires Shape(s, P) && t < P
  {
    match s.pc[t]
    case Working => s.(pc := s.pc[t := AtLock])
    case AtLock => s.(owner := By(t), pc := s.pc[t := Locked])
    case Locked => s.(count := s.count + 1, pc := s.pc[t := Counted], arrived := s.arrived[t := s.arrived[t] + 1])
    case Counted =>
      if s.count != P then s.(owner := Free, pc := s.pc[t := Waiting])
      else s.(pc := s.pc[t := Last])
    case Waiting => s
    case Last => s.(count := 0, pc := s.pc[t := Resetted])
    case Resetted => s.(pc := WakeAll(s.pc)[t := Unlocking], generation := s.generation + 1)
    case Woken => s.(owner := By(t), pc := s.pc[t := Unlocking])
    case Unlocking => s.(owner := Free, pc := s.pc[t := Working], passed := s.passed[t := s.passed[t] + 1])
  }

  // ----- runs: any interleaving is a list of threads, each taking its next statement

  ghost predicate Runs(P: nat, R: nat, schedule: seq<nat>) {
    schedule == [] ||
    (var rest, t := schedule[..|schedule| - 1], schedule[|schedule| - 1];
     Runs(P, R, rest) && t < P && Shape(After(P, rest), P) && Enabled(After(P, rest), P, R, t))
  }

  ghost function After(P: nat, schedule: seq<nat>): State
  {
    if schedule == [] then Init(P)
    else
      var s, t := After(P, schedule[..|schedule| - 1]), schedule[|schedule| - 1];
      if t < P && Shape(s, P) then Do(s, P, t) else s
  }

  // ----- the invariant

  // Threads that have counted themselves but not been released
  predicate In(c: Pc) {
    c == Counted || c == Waiting || c == Last
  }

  predicate Holds(c: Pc) {
    c == Locked || c == Counted || c == Last || c == Resetted || c == Unlocking
  }

  predicate Leaving(c: Pc) {
    c == Woken || c == Unlocking
  }

  function CountIn(pc: seq<Pc>): nat {
    if pc == [] then 0 else CountIn(pc[..|pc| - 1]) + if In(pc[|pc| - 1]) then 1 else 0
  }

  ghost predicate ThreadOk(s: State, P: nat, R: nat, t: nat)
    requires Shape(s, P) && t < P
  {
    && (Holds(s.pc[t]) <==> s.owner == By(t))
    && (if In(s.pc[t]) || s.pc[t] == Resetted then s.arrived[t] == s.generation + 1 && s.passed[t] == s.generation
        else if Leaving(s.pc[t]) then s.arrived[t] == s.generation == s.passed[t] + 1
        else s.arrived[t] == s.passed[t] == s.generation)
    && (s.pc[t] != Working ==> s.passed[t] < R)
    && s.passed[t] <= R
  }

  ghost predicate Inv(s: State, P: nat, R: nat) {
    && Shape(s, P)
    && (s.owner.By? ==> s.owner.thread < P)
    && (forall t: nat :: t < P ==> ThreadOk(s, P, R, t))
    && (if s.owner.By? && s.pc[s.owner.thread] == Resetted
        then s.count == 0 && forall u: nat :: u < P && u != s.owner.thread ==> s.pc[u] == Waiting
        else s.count == CountIn(s.pc))
    && (s.owner.By? && s.pc[s.owner.thread] == Last ==> s.count == P)
    && (s.count == P && P > 0 ==> s.owner.By? && In(s.pc[s.owner.thread]))
  }

  // ----- counting

  lemma {:induction false} CountUpdate(pc: seq<Pc>, t: nat, c: Pc)
    requires t < |pc|
    ensures CountIn(pc[t := c]) == CountIn(pc) - (if In(pc[t]) then 1 else 0) + (if In(c) then 1 else 0)
    decreases |pc|
  {
    var n := |pc| - 1;
    if t < n {
      CountUpdate(pc[..n], t, c);
      assert pc[t := c][..n] == pc[..n][t := c];
    } else {
      assert pc[t := c][..n] == pc[..n];
    }
  }

  lemma {:induction false} CountBound(pc: seq<Pc>)
    ensures CountIn(pc) <= |pc|
    ensures CountIn(pc) == |pc| ==> forall u :: 0 <= u < |pc| ==> In(pc[u])
  {
    if pc != [] {
      CountBound(pc[..|pc| - 1]);
    }
  }

  lemma {:induction false} CountNone(pc: seq<Pc>)
    requires forall u :: 0 <= u < |pc| ==> !In(pc[u])
    ensures CountIn(pc) == 0
  {
    if pc != [] {
      CountNone(pc[..|pc| - 1]);
    }
  }

  // ----- every statement keeps the invariant

  lemma InitInv(P: nat, R: nat)
    requires P > 0
    ensures Inv(Init(P), P, R)
  {
    CountNone(Init(P).pc);
  }

  lemma StepInv(s: State, P: nat, R: nat, t: nat)
    requires Inv(s, P, R) && P > 0 && t < P && Enabled(s, P, R, t)
    ensures Inv(Do(s, P, t), P, R)
  {
    hide CountIn;
    var s' := Do(s, P, t);
    assert ThreadOk(s, P, R, t);
    CountBound(s.pc);
    match s.pc[t] {
      case Resetted =>
        ReleaseInv(s, P, R, t);
      case Last =>
        LastInv(s, P, R, t);
      case _ =>
        SimpleInv(s, P, R, t);
    }
  }

  // Statements that change only the thread itself
  lemma SimpleInv(s: State, P: nat, R: nat, t: nat)
    requires Inv(s, P, R) && P > 0 && t < P && Enabled(s, P, R, t)
    requires s.pc[t] != Resetted && s.pc[t] != Last
    ensures Inv(Do(s, P, t), P, R)
  {
    hide CountIn;
    var s' := Do(s, P, t);
    assert ThreadOk(s, P, R, t);
    CountUpdate(s.pc, t, s'.pc[t]);
    CountBound(s'.pc);
    CountBound(s.pc);
    forall u: nat | u < P
      ensures ThreadOk(s', P, R, u)
    {
      assert ThreadOk(s, P, R, u);
    }
    if s.owner.By? {
      assert ThreadOk(s, P, R, s.owner.thread);
    }
  }

  // When the last thread has counted itself, everybody else waits.
  lemma LastInv(s: State, P: nat, R: nat, t: nat)
    requires Inv(s, P, R) && P > 0 && t < P && s.pc[t] == Last
    ensures Inv(Do(s, P, t), P, R)
  {
    hide CountIn;
    var s' := Do(s, P, t);
    assert ThreadOk(s, P, R, t);
    CountBound(s.pc);
    forall u: nat | u < P
      ensures ThreadOk(s', P, R, u) && (u != t ==> s.pc[u] == Waiting)
    {
      assert ThreadOk(s, P, R, u);
      assert In(s.pc[u]);
    }
  }

  // The broadcast opens the next generation.
  lemma ReleaseInv(s: State, P: nat, R: nat, t: nat)
    requires Inv(s, P, R) && P > 0 && t < P && s.pc[t] == Resetted
    ensures Inv(Do(s, P, t), P, R)
  {
    hide CountIn;
    var s' := Do(s, P, t);
    assert ThreadOk(s, P, R, t);
    forall u: nat | u < P
      ensures ThreadOk(s', P, R, u) && Leaving(s'.pc[u])
    {
      assert ThreadOk(s, P, R, u);
    }
    CountNone(s'.pc);
  }

  lemma {:induction false} RunInv(P: nat, R: nat, schedule: seq<nat>)
    requires P > 0 && Runs(P, R, schedule)
    ensures Inv(After(P, schedule), P, R)
    decreases |schedule|
  {
    hide Inv;
    if schedule == [] {
      InitInv(P, R);
    } else {
      RunInv(P, R, schedule[..|schedule| - 1]);
      StepInv(After(P, schedule[..|schedule| - 1]), P, R, schedule[|schedule| - 1]);
    }
  }

  /** Safety, in every state of every run: no thread has left a barrier that some thread has not
      entered yet, and no thread is more than one barrier ahead of another. */
  lemma NobodyLeavesEarly(P: nat, R: nat, schedule: seq<nat>, t: nat, u: nat)
    requires P > 0 && Runs(P, R, schedule) && t < P && u < P
    ensures Shape(After(P, schedule), P)
    ensures var s := After(P, schedule); s.passed[t] <= s.arrived[u] <= s.passed[t] + 2
    ensures var s := After(P, schedule); s.passed[t] <= s.passed[u] + 1
  {
    RunInv(P, R, schedule);
    assert ThreadOk(After(P, schedule), P, R, t) && ThreadOk(After(P, schedule), P, R, u);
  }

  // The thread that opens the barrier: it holds the mutex, so nothing can stop it.
  predicate Opening(c: Pc) {
    c == Counted || c == Last || c == Resetted
  }

  /** Release, in every state of every run: once all threads have entered the k-th barrier, each
      of them has left it or only needs the mutex to leave, or else the last one is at this moment
      on its way to the broadcast. */
  lemma EverybodyIsReleased(P: nat, R: nat, schedule: seq<nat>, k: nat)
    requires P > 0 && Runs(P, R, schedule) && Shape(After(P, schedule), P)
    requires forall t: nat :: t < P ==> After(P, schedule).arrived[t] >= k
    ensures var s := After(P, schedule);
            || (forall u: nat :: u < P ==> s.passed[u] >= k || (s.passed[u] == k - 1 && Leaving(s.pc[u])))
            || (s.owner.By? && s.owner.thread < P && Opening(s.pc[s.owner.thread]) &&
                (s.count == P || s.pc[s.owner.thread] == Resetted))
  {
    var s := After(P, schedule);
    RunInv(P, R, schedule);
    if s.generation >= k {
      forall u: nat | u < P
        ensures s.passed[u] >= k || (s.passed[u] == k - 1 && Leaving(s.pc[u]))
      {
        assert ThreadOk(s, P, R, u);
      }
    } else if !(s.owner.By? && s.pc[s.owner.thread] == Resetted) {
      assert forall u: nat :: u < P ==> ThreadOk(s, P, R, u) && s.arrived[u] >= k;
      AllIn(s, P, R, k);
      CountAll(s.pc);
      assert ThreadOk(s, P, R, s.owner.thread);
    }
  }

  lemma AllIn(s: State, P: nat, R: nat, k: nat)
    requires Shape(s, P) && s.generation < k
    requires forall u: nat :: u < P ==> ThreadOk(s, P, R, u) && s.arrived[u] >= k
    requires !(s.owner.By? && s.owner.thread < P && s.pc[s.owner.thread] == Resetted)
    ensures forall u :: 0 <= u < |s.pc| ==> In(s.pc[u])
  {
    forall u: nat | u < P
      ensures In(s.pc[u])
    {
      assert ThreadOk(s, P, R, u) && s.arrived[u] >= k;
    }
  }

  // ----- progress

  function Rank(c: Pc): nat {
    match c
    case Working => 8
    case AtLock => 7
    case Locked => 6
    case Counted => 5
    case Last => 4
    case Waiting => 3
    case Resetted => 3
    case Woken => 2
    case Unlocking => 1
  }

  // Statements that threads below n have left to execute, at most
  ghost function Left(s: State, P: nat, R: nat, n: nat): int
    requires Shape(s, P) && n <= P
  {
    if n == 0 then 0 else Left(s, P, R, n - 1) + 8 * (R - s.passed[n - 1]) + Rank(s.pc[n - 1])
  }

  lemma {:induction false} LeftDrops(s: State, s': State, P: nat, R: nat, t: nat, n: nat)
    requires Shape(s, P) && Shape(s', P) && t < P && n <= P
    requires forall u: nat :: u < P && u != t ==> s'.passed[u] == s.passed[u] && Rank(s'.pc[u]) <= Rank(s.pc[u])
    requires 8 * (R - s'.passed[t]) + Rank(s'.pc[t]) < 8 * (R - s.passed[t]) + Rank(s.pc[t])
    ensures Left(s', P, R, n) <= Left(s, P, R, n) - (if t < n then 1 else 0)
  {
    if n > 0 {
      LeftDrops(s, s', P, R, t, n - 1);
    }
  }

  lemma {:induction false} LeftNonNegative(s: State, P: nat, R: nat, n: nat)
    requires Inv(s, P, R) && n <= P
    ensures 0 <= Left(s, P, R, n) <= n * (8 * R + 8)
  {
    if n > 0 {
      LeftNonNegative(s, P, R, n - 1);
      assert ThreadOk(s, P, R, n - 1);
      assert (n - 1) * (8 * R + 8) + (8 * R + 8) == n * (8 * R + 8);
    }
  }

  lemma StepUsesUp(s: State, P: nat, R: nat, t: nat)
    requires Inv(s, P, R) && P > 0 && t < P && Enabled(s, P, R, t)
    ensures Shape(Do(s, P, t), P) && Left(Do(s, P, t), P, R, P) < Left(s, P, R, P)
  {
    LeftDrops(s, Do(s, P, t), P, R, t, P);
  }

  /** Every run is finite: P threads crossing R barriers execute at most P(8R+8) statements. */
  lemma {:induction false} RunsAreBounded(P: nat, R: nat, schedule: seq<nat>)
    requires P > 0 && Runs(P, R, schedule)
    ensures Shape(After(P, schedule), P)
    ensures |schedule| + Left(After(P, schedule), P, R, P) <= P * (8 * R + 8)
    ensures |schedule| <= P * (8 * R + 8)
    decreases |schedule|
  {
    hide Inv, Left;
    RunInv(P, R, schedule);
    InvShape(After(P, schedule), P, R);
    LeftNonNegative(After(P, schedule), P, R, P);
    if schedule != [] {
      var rest := schedule[..|schedule| - 1];
      RunsAreBounded(P, R, rest);
      RunInv(P, R, rest);
      StepUsesUp(After(P, rest), P, R, schedule[|schedule| - 1]);
    }
  }

  lemma InvShape(s: State, P: nat, R: nat)
    requires Inv(s, P, R)
    ensures Shape(s, P)
  {
  }

  /** No deadlock: as long as some thread has barriers to cross, some thread can move. */
  lemma SomeThreadCanMove(P: nat, R: nat, schedule: seq<nat>) returns (t: nat)
    requires P > 0 && Runs(P, R, schedule)
    ensures Shape(After(P, schedule), P) && t < P
    ensures (exists u: nat :: u < P && After(P, schedule).passed[u] < R) ==> Enabled(After(P, schedule), P, R, t)
  {
    RunInv(P, R, schedule);
    t := Mover(After(P, schedule), P, R);
  }

  /** A run that cannot go on has taken every thread through all its barriers. */
  lemma StuckMeansDone(P: nat, R: nat, schedule: seq<nat>)
    requires P > 0 && Runs(P, R, schedule) && Shape(After(P, schedule), P)
    requires forall t: nat :: t < P ==> !Enabled(After(P, schedule), P, R, t)
    ensures forall u: nat :: u < P ==> After(P, schedule).passed[u] == R
  {
    var s := After(P, schedule);
    RunInv(P, R, schedule);
    var t := SomeThreadCanMove(P, R, schedule);
    forall u: nat | u < P
      ensures s.passed[u] == R
    {
      assert ThreadOk(s, P, R, u);
    }
  }

  lemma Mover(s: State, P: nat, R: nat) returns (t: nat)
    requires Inv(s, P, R) && P > 0
    ensures t < P
    ensures (exists u: nat :: u < P && s.passed[u] < R) ==> Enabled(s, P, R, t)
  {
    if s.owner.By? {
      t := s.owner.thread;
      assert ThreadOk(s, P, R, t);
    } else if u: nat :| u < P && Enabled(s, P, R, u) {
      t := u;
    } else {
      // only waiting and finished threads, and no owner: then nobody waits
      t := 0;
      CountBound(s.pc);
      forall u: nat | u < P
        ensures ThreadOk(s, P, R, u) && (s.pc[u] == Waiting || (s.pc[u] == Working && s.passed[u] == R))
      {
        assert ThreadOk(s, P, R, u);
        assert !Enabled(s, P, R, u);
      }
      if forall u: nat :: u < P ==> s.pc[u] == Waiting {
        CountAll(s.pc);
      }
    }
  }

  lemma {:induction false} CountAll(pc: seq<Pc>)
    requires forall u :: 0 <= u < |pc| ==> In(pc[u])
    ensures CountIn(pc) == |pc|
  {
    if pc != [] {
      CountAll(pc[..|pc| - 1]);
    }
  }

  // ----- runs in which waiting threads may also wake up by themselves

  datatype Event = Step(thread: nat) | Wake(thread: nat)

  // pthread_cond_wait returns although nobody has signalled.
  function WakeUp(s: State, P: nat, t: nat): State
    requires Shape(s, P) && t < P
  {
    s.(pc := s.pc[t := Woken])
  }

  predicate Possible(s: State, P: nat, R: nat, e: Event)
    requires Shape(s, P)
  {
    && e.thread < P
    && match e
       case Step(t) => Enabled(s, P, R, t)
       case Wake(t) => s.pc[t] == Waiting
  }

  function Happen(s: State, P: nat, e: Event): State
    requires Shape(s, P) && e.thread < P
  {
    match e
    case Step(t) => Do(s, P, t)
    case Wake(t) => WakeUp(s, P, t)
  }

  // s is what these events lead to.
  ghost predicate Leads(P: nat, R: nat, events: seq<Event>, s: State)
    decreases |events|, 1
  {
    if events == [] then s == Init(P)
    else exists r :: Follows(P, R, events, r, s)
  }

  ghost predicate Follows(P: nat, R: nat, events: seq<Event>, r: State, s: State)
    requires events != []
    decreases |events|, 0
  {
    var e := events[|events| - 1];
    Leads(P, R, events[..|events| - 1], r) && Shape(r, P) && Possible(r, P, R, e) && s == Happen(r, P, e)
  }

  // What NobodyLeavesEarly states of a state
  ghost predicate InStep(s: State, P: nat) {
    && Shape(s, P)
    && forall t: nat, u: nat :: t < P && u < P ==>
         s.passed[t] <= s.arrived[u] <= s.passed[t] + 2 && s.passed[t] <= s.passed[u] + 1
  }

  lemma InvInStep(s: State, P: nat, R: nat)
    requires Inv(s, P, R)
    ensures InStep(s, P)
  {
    forall t: nat, u: nat | t < P && u < P
      ensures s.passed[t] <= s.arrived[u] <= s.passed[t] + 2 && s.passed[t] <= s.passed[u] + 1
    {
      assert ThreadOk(s, P, R, t) && ThreadOk(s, P, R, u);
    }
  }

  // Without wakeups these are the runs from before.
  lemma {:induction false} RunsLead(P: nat, R: nat, schedule: seq<nat>)
    requires Runs(P, R, schedule)
    ensures Leads(P, R, seq(|schedule|, i requires 0 <= i < |schedule| => Step(schedule[i])), After(P, schedule))
    decreases |schedule|
  {
    if schedule != [] {
      var n := |schedule| - 1;
      RunsLead(P, R, schedule[..n]);
      var before := seq(n, i requires 0 <= i < n => Step(schedule[..n][i]));
      var events := seq(n + 1, i requires 0 <= i < n + 1 => Step(schedule[i]));
      AndThen(P, R, before, After(P, schedule[..n]), Step(schedule[n]));
      assert events == before + [Step(schedule[n])];
    }
  }

  ghost predicate SafeWithWakeups(P: nat, R: nat) {
    forall events, s :: Leads(P, R, events, s) ==> InStep(s, P)
  }

  // A single thread never waits, and without rounds nobody does.
  lemma {:induction false} NobodyWaits(P: nat, R: nat, events: seq<Event>, s: State)
    requires P > 0 && (P == 1 || R == 0) && Leads(P, R, events, s)
    ensures Inv(s, P, R) && forall t: nat :: t < P ==> s.pc[t] != Waiting
    decreases |events|
  {
    if events == [] {
      InitInv(P, R);
    } else {
      var r :| Follows(P, R, events, r, s);
      NobodyWaits(P, R, events[..|events| - 1], r);
      StillNobodyWaits(r, P, R, events[|events| - 1]);
    }
  }

  lemma StillNobodyWaits(r: State, P: nat, R: nat, e: Event)
    requires P > 0 && (P == 1 || R == 0) && Inv(r, P, R) && Possible(r, P, R, e)
    requires forall t: nat :: t < P ==> r.pc[t] != Waiting
    ensures Inv(Happen(r, P, e), P, R) && forall t: nat :: t < P ==> Happen(r, P, e).pc[t] != Waiting
  {
    hide CountIn;
    assert ThreadOk(r, P, R, e.thread);
    StepInv(r, P, R, e.thread);
    if r.pc[e.thread] == Counted {
      CountAll(r.pc);
    }
  }

  // One more event
  lemma AndThen(P: nat, R: nat, events: seq<Event>, r: State, e: Event)
    requires Leads(P, R, events, r) && Shape(r, P) && Possible(r, P, R, e)
    ensures Leads(P, R, events + [e], Happen(r, P, e))
  {
    assert (events + [e])[..|events|] == events;
    assert Follows(P, R, events + [e], r, Happen(r, P, e));
  }

  /** With one spurious wakeup, a thread leaves a barrier that no other thread ever entered. */
  lemma SpuriousWakeupBreaksBarrier(P: nat, R: nat) returns (events: seq<Event>, s: State)
    requires P >= 2 && R >= 1
    ensures Leads(P, R, events, s) && Shape(s, P) && s.passed[0] == 1
    ensures forall u: nat :: 0 < u < P ==> s.arrived[u] == 0 && s.pc[u] == Working
    ensures |events| == 7 && forall i :: 0 <= i < 7 ==> (events[i].Wake? <==> i == 4)
  {
    hide Leads;
    events, s := [], Init(P);
    assert Leads(P, R, events, s) by { StartOfEvents(P, R); }
    var next := [Step(0), Step(0), Step(0), Step(0), Wake(0), Step(0), Step(0)];
    var pcs := [Working, AtLock, Locked, Counted, Waiting, Woken, Unlocking, Working];
    for i := 0 to 7
      invariant events == next[..i] && Leads(P, R, events, s) && Shape(s, P) && s.pc[0] == pcs[i]
      invariant s.owner == if i == 2 || i == 3 || i == 6 then By(0) else Free
      invariant s.count == if i >= 3 then 1 else 0
      invariant s.passed[0] == if i == 7 then 1 else 0
      invariant forall u: nat :: 0 < u < P ==> s.arrived[u] == 0 && s.pc[u] == Working
    {
      AndThen(P, R, events, s, next[i]);
      events, s := events + [next[i]], Happen(s, P, next[i]);
    }
  }

  lemma StartOfEvents(P: nat, R: nat)
    ensures Leads(P, R, [], Init(P))
  {
  }

  /** Exactly when the missing loop does no harm: the barrier is safe in all runs with spurious
      wakeups if and only if there is a single thread or no round at all. */
  lemma SafeWithWakeupsExactly(P: nat, R: nat)
    requires P > 0
    ensures SafeWithWakeups(P, R) <==> P == 1 || R == 0
  {
    hide Leads;
    if P == 1 || R == 0 {
      forall events, s | Leads(P, R, events, s)
        ensures InStep(s, P)
      {
        NobodyWaits(P, R, events, s);
        InvInStep(s, P, R);
      }
    } else {
      var events, s := SpuriousWakeupBreaksBarrier(P, R);
      assert s.arrived[1] == 0;
      assert !InStep(s, P);
    }
  }
}
