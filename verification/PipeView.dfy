/** The print queue of o3-pipeview.py: instructions arrive roughly in order and are printed in
    order of sequence number through a buffer of bounded size. */
module PipeView {
  import opened Division

  datatype Inst = Inst(sn: int, fetch: int, retire: int)

  // Thresholds and filters; zero switches a filter off.
  datatype Config = Config(maxThreshold: nat, minThreshold: nat, snStart: int, snStop: int,
                           tickStart: int, tickStop: int, onlyCommitted: bool)

  predicate Shown(c: Config, x: Inst) {
    && !(c.snStart > 0 && x.sn < c.snStart)
    && !(c.snStop > 0 && x.sn > c.snStop)
    && !(c.tickStart > 0 && x.fetch < c.tickStart)
    && !(c.tickStop > 0 && x.fetch > c.tickStop)
    && !(c.onlyCommitted && x.retire == 0)
  }

  function Filter(c: Config, s: seq<Inst>): seq<Inst> {
    if s == [] then [] else Filter(c, s[..|s| - 1]) + if Shown(c, s[|s| - 1]) then [s[|s| - 1]] else []
  }

  lemma FilterSnoc(c: Config, s: seq<Inst>, x: Inst)
    ensures Filter(c, s + [x]) == Filter(c, s) + if Shown(c, x) then [x] else []
  {
    assert (s + [x])[..|s|] == s;
  }

  // ----- the sort: stable, by sequence number

  // x goes behind everything that is not larger.
  function Insert(s: seq<Inst>, x: Inst): (r: seq<Inst>)
    ensures |r| == |s| + 1
  {
    if s == [] || s[|s| - 1].sn <= x.sn then s + [x]
    else Insert(s[..|s| - 1], x) + [s[|s| - 1]]
  }

  function Sort(s: seq<Inst>): (r: seq<Inst>)
    ensures |r| == |s|
  {
    if s == [] then [] else Insert(Sort(s[..|s| - 1]), s[|s| - 1])
  }

  ghost predicate Sorted(s: seq<Inst>) {
    forall i, j :: 0 <= i < j < |s| ==> s[i].sn <= s[j].sn
  }

  // The instructions with one sequence number, in order
  ghost function Same(s: seq<Inst>, sn: int): seq<Inst> {
    if s == [] then [] else Same(s[..|s| - 1], sn) + if s[|s| - 1].sn == sn then [s[|s| - 1]] else []
  }

  lemma {:induction false} InsertMembers(s: seq<Inst>, x: Inst)
    ensures multiset(Insert(s, x)) == multiset(s) + multiset{x}
  {
    if s != [] && s[|s| - 1].sn > x.sn {
      InsertMembers(s[..|s| - 1], x);
      assert s == s[..|s| - 1] + [s[|s| - 1]];
    }
  }

  // A bound on the members stays a bound.
  lemma {:induction false} InsertBelow(s: seq<Inst>, x: Inst, bound: int)
    requires x.sn <= bound && forall i :: 0 <= i < |s| ==> s[i].sn <= bound
    ensures forall i :: 0 <= i < |Insert(s, x)| ==> Insert(s, x)[i].sn <= bound
  {
    if s != [] && s[|s| - 1].sn > x.sn {
      InsertBelow(s[..|s| - 1], x, bound);
    }
  }

  lemma {:induction false} InsertSorted(s: seq<Inst>, x: Inst)
    requires Sorted(s)
    ensures Sorted(Insert(s, x))
  {
    if s != [] && s[|s| - 1].sn > x.sn {
      InsertSorted(s[..|s| - 1], x);
      InsertBelow(s[..|s| - 1], x, s[|s| - 1].sn);
    }
  }

  lemma {:induction false} InsertStable(s: seq<Inst>, x: Inst, sn: int)
    requires Sorted(s)
    ensures Same(Insert(s, x), sn) == Same(s, sn) + if x.sn == sn then [x] else []
  {
    var r := Insert(s, x);
    if s == [] || s[|s| - 1].sn <= x.sn {
      assert r[..|s|] == s;
    } else {
      var n := |s| - 1;
      InsertStable(s[..n], x, sn);
      assert r[..n + 1] == Insert(s[..n], x);
      if x.sn == sn {
        assert s[n].sn != sn;
      }
    }
  }

  /** Sorting orders by sequence number, loses and adds nothing, and keeps equal numbers in order
      of arrival. */
  lemma {:induction false} SortProps(s: seq<Inst>, sn: int)
    ensures Sorted(Sort(s)) && multiset(Sort(s)) == multiset(s) && Same(Sort(s), sn) == Same(s, sn)
  {
    hide Insert;
    if s != [] {
      var n := |s| - 1;
      SortProps(s[..n], sn);
      InsertSorted(Sort(s[..n]), s[n]);
      InsertMembers(Sort(s[..n]), s[n]);
      InsertStable(Sort(s[..n]), s[n], sn);
      assert s == s[..n] + [s[n]];
    }
  }

  lemma SortSnoc(s: seq<Inst>, x: Inst)
    ensures Sort(s + [x]) == Insert(Sort(s), x)
  {
    assert (s + [x])[..|s|] == s;
  }

  lemma {:induction false} SortSorted(s: seq<Inst>)
    requires Sorted(s)
    ensures Sort(s) == s
  {
    if s != [] {
      SortSorted(s[..|s| - 1]);
    }
  }

  // Something not smaller than all of a goes behind a.
  lemma {:induction false} InsertBehind(a: seq<Inst>, b: seq<Inst>, x: Inst)
    requires forall i :: 0 <= i < |a| ==> a[i].sn <= x.sn
    ensures Insert(a + b, x) == a + Insert(b, x)
  {
    if b == [] {
      assert a + b == a;
    } else {
      var n := |b| - 1;
      assert (a + b)[..|a| + n] == a + b[..n];
      InsertBehind(a, b[..n], x);
    }
  }

  // ----- the buffer

  // Everything taken from the queue so far, shown or not, and the queue
  datatype View = View(popped: seq<Inst>, queue: seq<Inst>)

  function Print(v: View, lower: nat): View {
    var s := Sort(v.queue);
    var k := if |s| > lower then |s| - lower else 0;
    View(v.popped + s[..k], s[k..])
  }

  function Enqueue(c: Config, v: View, x: Inst): View {
    var w := View(v.popped, v.queue + [x]);
    if |w.queue| > c.maxThreshold then Print(w, c.minThreshold) else w
  }

  function Fed(c: Config, trace: seq<Inst>): View {
    if trace == [] then View([], []) else Enqueue(c, Fed(c, trace[..|trace| - 1]), trace[|trace| - 1])
  }

  // After the flush at the end of the trace
  function Popped(c: Config, trace: seq<Inst>): seq<Inst> {
    Print(Fed(c, trace), 0).popped
  }

  function Larger(s: seq<Inst>, x: Inst): nat {
    if s == [] then 0 else Larger(s[..|s| - 1], x) + if s[|s| - 1].sn > x.sn then 1 else 0
  }

  // Nothing arrives behind more than `places` instructions with larger numbers.
  ghost predicate Disorder(trace: seq<Inst>, places: nat) {
    forall i :: 0 <= i < |trace| ==> Larger(trace[..i], trace[i]) <= places
  }

  lemma {:induction false} LargerInsert(s: seq<Inst>, y: Inst, x: Inst)
    ensures Larger(Insert(s, y), x) == Larger(s, x) + if y.sn > x.sn then 1 else 0
  {
    var r := Insert(s, y);
    if s == [] || s[|s| - 1].sn <= y.sn {
      assert r[..|s|] == s;
    } else {
      var n := |s| - 1;
      LargerInsert(s[..n], y, x);
      assert r[..n + 1] == Insert(s[..n], y);
    }
  }

  lemma {:induction false} LargerSort(s: seq<Inst>, x: Inst)
    ensures Larger(Sort(s), x) == Larger(s, x)
  {
    if s != [] {
      LargerSort(s[..|s| - 1], x);
      LargerInsert(Sort(s[..|s| - 1]), s[|s| - 1], x);
    }
  }

  lemma {:induction false} LargerTail(a: seq<Inst>, b: seq<Inst>, x: Inst)
    requires forall i :: 0 <= i < |b| ==> b[i].sn > x.sn
    ensures Larger(a + b, x) >= |b|
  {
    if b != [] {
      var n := |b| - 1;
      assert (a + b)[..|a| + n] == a + b[..n];
      LargerTail(a, b[..n], x);
    }
  }

  // What was taken out followed by what is left, sorted, is all that has arrived, sorted; and once
  // something has been taken out, the lower threshold stays in the queue.
  ghost predicate InOrder(c: Config, trace: seq<Inst>, v: View) {
    v.popped + Sort(v.queue) == Sort(trace) && (v.popped != [] ==> |v.queue| >= c.minThreshold)
  }

  // A late arrival does not belong before anything taken out.
  lemma ArrivesInTime(c: Config, trace: seq<Inst>, v: View, x: Inst)
    requires InOrder(c, trace, v) && Larger(trace, x) <= c.minThreshold
    ensures forall i :: 0 <= i < |v.popped| ==> v.popped[i].sn <= x.sn
  {
    hide Sort, Insert, Larger, Same;
    SortProps(trace, 0);
    var all, n := Sort(trace), |v.popped|;
    assert all == v.popped + Sort(v.queue);
    if n > 0 {
      LastIsSmall(c, trace, v, x);
      forall i | 0 <= i < n
        ensures v.popped[i].sn <= x.sn
      {
        assert all[i] == v.popped[i] && all[n - 1] == v.popped[n - 1];
      }
    }
  }

  // Otherwise the last one taken out and the whole queue would all be larger.
  lemma LastIsSmall(c: Config, trace: seq<Inst>, v: View, x: Inst)
    requires InOrder(c, trace, v) && Larger(trace, x) <= c.minThreshold && v.popped != []
    ensures v.popped[|v.popped| - 1].sn <= x.sn
  {
    hide Sort, Insert, Larger, Same;
    var all, n := Sort(trace), |v.popped|;
    SortProps(trace, 0);
    LargerSort(trace, x);
    var tail := all[n - 1..];
    assert all == all[..n - 1] + tail && all[n - 1] == v.popped[n - 1];
    if v.popped[n - 1].sn > x.sn {
      assert forall i :: 0 <= i < |tail| ==> tail[i] == all[n - 1 + i];
      LargerTail(all[..n - 1], tail, x);
    }
  }

  lemma PrintKeepsOrder(v: View, lower: nat)
    ensures Print(v, lower).popped + Sort(Print(v, lower).queue) == v.popped + Sort(v.queue)
  {
    hide Sort, Insert, Same;
    var s, w := Sort(v.queue), Print(v, lower);
    SortProps(v.queue, 0);
    SortSorted(w.queue);
  }

  lemma EnqueueInOrder(c: Config, trace: seq<Inst>, v: View, x: Inst)
    requires InOrder(c, trace, v) && forall i :: 0 <= i < |v.popped| ==> v.popped[i].sn <= x.sn
    ensures InOrder(c, trace + [x], Enqueue(c, v, x))
  {
    hide Sort, Insert, Larger;
    SortSnoc(trace, x);
    SortSnoc(v.queue, x);
    InsertBehind(v.popped, Sort(v.queue), x);
    PrintKeepsOrder(View(v.popped, v.queue + [x]), c.minThreshold);
  }

  lemma FedSnoc(c: Config, trace: seq<Inst>, x: Inst)
    ensures Fed(c, trace + [x]) == Enqueue(c, Fed(c, trace), x)
  {
    assert (trace + [x])[..|trace|] == trace;
  }

  // ----- when the buffer takes something out

  // The queue never shrinks below the lower threshold, so a smaller upper one makes no difference.
  function Upper(c: Config): nat {
    if c.minThreshold <= c.maxThreshold then c.maxThreshold else c.minThreshold
  }

  // How many of the first i instructions had arrived when something was last taken out
  function LastPrint(c: Config, i: nat): (p: nat)
    requires i > Upper(c)
    ensures Upper(c) < p <= i <= p + Upper(c) - c.minThreshold
  {
    RemainderAtMost(i - (Upper(c) + 1), Upper(c) - c.minThreshold + 1);
    i - (i - (Upper(c) + 1)) % (Upper(c) - c.minThreshold + 1)
  }

  lemma RemainderAtMost(a: nat, s: nat)
    requires s > 0
    ensures 0 <= a % s <= a && a % s < s
  {
    assert a == s * (a / s) + a % s;
  }

  lemma NextRemainder(a: nat, s: nat)
    requires s > 0
    ensures (a + 1) % s == if a % s + 1 == s then 0 else a % s + 1
  {
    var q, r := a / s, a % s;
    assert a == s * q + r;
    if r + 1 == s {
      assert s * (q + 1) == s * q + s;
      QuotientIs(s, q + 1, 0);
    } else {
      QuotientIs(s, q, r + 1);
    }
  }

  // A print happens each time the queue has filled up again from the lower threshold.
  lemma LastPrintStep(c: Config, i: nat)
    requires i > Upper(c)
    ensures LastPrint(c, Upper(c) + 1) == Upper(c) + 1
    ensures LastPrint(c, i + 1) ==
            if i + 1 - LastPrint(c, i) == Upper(c) - c.minThreshold + 1 then i + 1 else LastPrint(c, i)
  {
    var s := Upper(c) - c.minThreshold + 1;
    QuotientIs(s, 0, 0);
    NextRemainder(i - (Upper(c) + 1), s);
  }

  // What the queue holds and what has been taken out
  ghost predicate Filled(c: Config, trace: seq<Inst>) {
    var n, v := |trace|, Fed(c, trace);
    if n <= Upper(c) then v.popped == [] && |v.queue| == n
    else
      var p := LastPrint(c, n);
      && |v.queue| == c.minThreshold + n - p
      && v.popped == Fed(c, trace[..p]).popped
      && |Fed(c, trace[..p]).queue| == c.minThreshold
  }

  lemma {:induction false} AlwaysFilled(c: Config, trace: seq<Inst>)
    ensures Filled(c, trace)
  {
    hide Fed, LastPrint, Sort, Insert;
    if trace == [] {
      FedEmpty(c);
    } else {
      var n := |trace| - 1;
      var before := trace[..n];
      AlwaysFilled(c, before);
      FedSnoc(c, before, trace[n]);
      assert before + [trace[n]] == trace && trace[..n + 1] == trace;
      if n > Upper(c) {
        LastPrintStep(c, n);
        assert before[..LastPrint(c, n)] == trace[..LastPrint(c, n)];
      } else {
        LastPrintStep(c, Upper(c) + 1);
      }
    }
  }

  lemma FedEmpty(c: Config)
    ensures Fed(c, []) == View([], [])
  {
  }

  // ----- exactly when the printout is in order

  // At the last print before it arrives, at most min_threshold of what was there was larger.
  ghost predicate InTime(c: Config, trace: seq<Inst>, i: nat)
    requires i < |trace|
  {
    i > Upper(c) ==> Larger(trace[..LastPrint(c, i)], trace[i]) <= c.minThreshold
  }

  ghost predicate AllInTime(c: Config, trace: seq<Inst>, n: nat)
    requires n <= |trace|
  {
    forall i: nat :: i < n ==> InTime(c, trace, i)
  }

  // What has been taken out is no larger than an instruction that is in time, and larger somewhere
  // than one that is late.
  lemma TakenOutBefore(c: Config, trace: seq<Inst>, x: Inst)
    requires |trace| > Upper(c) && InOrder(c, trace[..LastPrint(c, |trace|)], Fed(c, trace[..LastPrint(c, |trace|)]))
    ensures var popped, late := Fed(c, trace).popped, Larger(trace[..LastPrint(c, |trace|)], x) > c.minThreshold;
            && (!late ==> forall h :: 0 <= h < |popped| ==> popped[h].sn <= x.sn)
            && (late ==> exists h :: 0 <= h < |popped| && popped[h].sn > x.sn)
  {
    hide Fed, LastPrint, Larger, Sort, Insert;
    AlwaysFilled(c, trace);
    var first := trace[..LastPrint(c, |trace|)];
    var v := Fed(c, first);
    if Larger(first, x) <= c.minThreshold {
      ArrivesInTime(c, first, v, x);
    } else if forall h :: 0 <= h < |v.popped| ==> v.popped[h].sn <= x.sn {
      LargerSort(first, x);
      LargerFront(v.popped, Sort(v.queue), x);
    }
  }

  lemma {:induction false} LargerFront(a: seq<Inst>, b: seq<Inst>, x: Inst)
    requires forall i :: 0 <= i < |a| ==> a[i].sn <= x.sn
    ensures Larger(a + b, x) <= |b|
  {
    if b == [] {
      assert a + b == a;
      LargerNone(a, x);
    } else {
      var n := |b| - 1;
      assert (a + b)[..|a| + n] == a + b[..n];
      LargerFront(a, b[..n], x);
    }
  }

  lemma PrefixInTime(c: Config, trace: seq<Inst>, m: nat, n: nat)
    requires m <= n <= |trace| && AllInTime(c, trace, n)
    ensures AllInTime(c, trace[..m], m)
  {
    hide LastPrint, Larger;
    forall i: nat | i < m
      ensures InTime(c, trace[..m], i)
    {
      assert InTime(c, trace, i);
      if i > Upper(c) {
        assert trace[..m][..LastPrint(c, i)] == trace[..LastPrint(c, i)];
      }
    }
  }

  lemma {:induction false} FedInOrder(c: Config, trace: seq<Inst>)
    requires AllInTime(c, trace, |trace|)
    ensures InOrder(c, trace, Fed(c, trace))
    decreases |trace|
  {
    hide Sort, Insert, Larger, InOrder, Enqueue, AllInTime, Fed;
    if trace == [] {
      StartInOrder(c);
    } else {
      var n := |trace| - 1;
      var before, x := trace[..n], trace[n];
      PrefixInTime(c, trace, n, |trace|);
      FedInOrder(c, before);
      NothingBehind(c, trace);
      EnqueueInOrder(c, before, Fed(c, before), x);
      FedSnoc(c, before, x);
      assert before + [x] == trace;
    }
  }

  // The last instruction of a trace that is in time belongs before nothing taken out.
  lemma NothingBehind(c: Config, trace: seq<Inst>)
    requires trace != [] && AllInTime(c, trace, |trace|)
    ensures var n := |trace| - 1;
            forall h :: 0 <= h < |Fed(c, trace[..n]).popped| ==> Fed(c, trace[..n]).popped[h].sn <= trace[n].sn
    decreases |trace|, 0
  {
    hide Sort, Insert, Larger, InOrder, Fed, LastPrint;
    var n := |trace| - 1;
    var before := trace[..n];
    assert InTime(c, trace, n);
    AlwaysFilled(c, before);
    if n > Upper(c) {
      var p := LastPrint(c, n);
      assert before[..p] == trace[..p];
      PrefixInTime(c, trace, p, |trace|);
      FedInOrder(c, trace[..p]);
      TakenOutBefore(c, before, trace[n]);
    }
  }

  lemma StartInOrder(c: Config)
    ensures InOrder(c, [], Fed(c, []))
  {
  }

  lemma SortNothing()
    ensures Sort([]) == []
  {
  }

  lemma InTimeSorts(c: Config, trace: seq<Inst>)
    requires AllInTime(c, trace, |trace|)
    ensures Popped(c, trace) == Sort(trace) && Sorted(Sort(trace))
  {
    hide Sort, Insert, Same, AllInTime, Fed;
    FedInOrder(c, trace);
    PrintKeepsOrder(Fed(c, trace), 0);
    SortNothing();
    var v := Print(Fed(c, trace), 0);
    assert v.queue == [] && Sort(v.queue) == [];
    SortProps(trace, 0);
  }

  lemma {:induction false} PoppedGrows(c: Config, trace: seq<Inst>, n: nat)
    requires n <= |trace|
    ensures Fed(c, trace[..n]).popped <= Fed(c, trace).popped <= Popped(c, trace)
  {
    hide Sort, Insert, Fed;
    if n == |trace| {
      assert trace[..n] == trace;
    } else {
      var k := |trace| - 1;
      PoppedGrows(c, trace[..k], n);
      assert trace[..k][..n] == trace[..n] && trace[..k] + [trace[k]] == trace;
      FedSnoc(c, trace[..k], trace[k]);
    }
  }

  // What arrives after the first n is not among what they have had taken out.
  lemma StillToCome(c: Config, trace: seq<Inst>, n: nat) returns (h: nat)
    requires n < |trace|
    ensures Fed(c, trace[..n]).popped <= Popped(c, trace)
    ensures |Fed(c, trace[..n]).popped| <= h < |Popped(c, trace)| && Popped(c, trace)[h] == trace[n]
  {
    hide Sort, Insert, Fed, Popped;
    var first, all, x := Fed(c, trace[..n]).popped, Popped(c, trace), trace[n];
    PoppedGrows(c, trace, n);
    NothingLost(c, trace);
    NothingLost(c, trace[..n]);
    var rest := all[|first|..];
    assert all == first + rest;
    assert trace == trace[..n] + [x] + trace[n + 1..];
    assert multiset(trace) == multiset(trace[..n]) + multiset{x} + multiset(trace[n + 1..]);
    assert multiset(all) == multiset(first) + multiset(rest);
    assert multiset(first)[x] <= multiset(trace[..n])[x];
    assert multiset(all)[x] == multiset(first)[x] + multiset(rest)[x];
    assert multiset(trace)[x] == multiset(trace[..n])[x] + multiset{x}[x] + multiset(trace[n + 1..])[x];
    assert multiset{x}[x] == 1;
    assert x in rest;
    var k :| 0 <= k < |rest| && rest[k] == x;
    h := |first| + k;
  }

  // The first instruction that is late shows.
  lemma LateShows(c: Config, trace: seq<Inst>, i: nat)
    requires i < |trace| && AllInTime(c, trace, i) && !InTime(c, trace, i)
    ensures !Sorted(Popped(c, trace))
  {
    hide Sort, Insert, Larger, InOrder, Fed, Popped, LastPrint, AllInTime;
    var before, p := trace[..i], LastPrint(c, i);
    assert before[..p] == trace[..p];
    PrefixInTime(c, trace, p, i);
    FedInOrder(c, trace[..p]);
    TakenOutBefore(c, before, trace[i]);
    var g :| 0 <= g < |Fed(c, before).popped| && Fed(c, before).popped[g].sn > trace[i].sn;
    var h := StillToCome(c, trace, i);
    Misplaced(Popped(c, trace), g, h);
  }

  /** Exactly when the bounded buffer prints in order: every instruction that arrives after the
      first print must have had, at the last print before it, at most min_threshold larger ones
      before it. The printout is then the stable sort of the whole trace. */
  lemma PrintsInOrderExactly(c: Config, trace: seq<Inst>)
    ensures Sorted(Popped(c, trace)) <==> AllInTime(c, trace, |trace|)
    ensures Popped(c, trace) == Sort(trace) <==> AllInTime(c, trace, |trace|)
  {
    hide *;
    SortProps(trace, 0);
    if AllInTime(c, trace, |trace|) {
      InTimeSorts(c, trace);
    } else {
      var i := FirstLate(c, trace, |trace|);
      LateShows(c, trace, i);
    }
  }

  lemma {:induction false} FirstLate(c: Config, trace: seq<Inst>, n: nat) returns (i: nat)
    requires n <= |trace| && !AllInTime(c, trace, n)
    ensures i < n && AllInTime(c, trace, i) && !InTime(c, trace, i)
  {
    hide InTime;
    if AllInTime(c, trace, n - 1) {
      i := n - 1;
    } else {
      i := FirstLate(c, trace, n - 1);
    }
  }

  lemma {:induction false} LargerPrefix(s: seq<Inst>, n: nat, x: Inst)
    requires n <= |s|
    ensures Larger(s[..n], x) <= Larger(s, x)
  {
    if n < |s| {
      var k := |s| - 1;
      LargerPrefix(s[..k], n, x);
      assert s[..k][..n] == s[..n];
    } else {
      assert s[..n] == s;
    }
  }

  /** If no instruction arrives behind more than min_threshold larger ones, the bounded buffer
      prints what sorting the whole trace would: everything once, in order of sequence number,
      equal numbers in order of arrival. */
  lemma BufferSortsGlobally(c: Config, trace: seq<Inst>)
    requires Disorder(trace, c.minThreshold)
    ensures Popped(c, trace) == Sort(trace)
    ensures Sorted(Filter(c, Popped(c, trace)))
  {
    hide Sort, Insert, Larger, Popped, LastPrint;
    forall i: nat | i < |trace|
      ensures InTime(c, trace, i)
    {
      if i > Upper(c) {
        LargerPrefix(trace[..i], LastPrint(c, i), trace[i]);
        assert trace[..i][..LastPrint(c, i)] == trace[..LastPrint(c, i)];
      }
    }
    InTimeSorts(c, trace);
    FilterSorted(c, Sort(trace));
  }

  lemma {:induction false} FilterSorted(c: Config, s: seq<Inst>)
    requires Sorted(s)
    ensures Sorted(Filter(c, s)) && forall x :: x in Filter(c, s) ==> x in s
  {
    if s != [] {
      var n := |s| - 1;
      FilterSorted(c, s[..n]);
      assert s == s[..n] + [s[n]];
      var f := Filter(c, s[..n]);
      forall h | 0 <= h < |f|
        ensures f[h].sn <= s[n].sn
      {
        assert f[h] in s[..n];
      }
    }
  }

  // Inside every bound that is set, and committed if only committed instructions are wanted
  ghost predicate Wanted(c: Config, x: Inst) {
    && (c.snStart <= 0 || c.snStart <= x.sn) && (c.snStop <= 0 || x.sn <= c.snStop)
    && (c.tickStart <= 0 || c.tickStart <= x.fetch) && (c.tickStop <= 0 || x.fetch <= c.tickStop)
    && (c.onlyCommitted ==> x.retire != 0)
  }

  lemma {:induction false} FilterKeeps(c: Config, s: seq<Inst>, x: Inst)
    ensures multiset(Filter(c, s))[x] == if Wanted(c, x) then multiset(s)[x] else 0
  {
    if s != [] {
      var n := |s| - 1;
      FilterKeeps(c, s[..n], x);
      assert s == s[..n] + [s[n]];
      assert multiset(s)[x] == multiset(s[..n])[x] + multiset{s[n]}[x];
      var rest: seq<Inst> := if Shown(c, s[n]) then [s[n]] else [];
      assert multiset(Filter(c, s))[x] == multiset(Filter(c, s[..n]))[x] + multiset(rest)[x];
    }
  }

  /** An instruction is printed as often as it is in the trace if it is inside the bounds, and
      never otherwise. */
  lemma PrintedExactly(c: Config, trace: seq<Inst>, x: Inst)
    ensures multiset(Filter(c, Popped(c, trace)))[x] == if Wanted(c, x) then multiset(trace)[x] else 0
  {
    hide Filter, Popped, Wanted;
    NothingLost(c, trace);
    FilterKeeps(c, Popped(c, trace), x);
  }

  /** Whatever the order of arrival, every instruction is taken out exactly once. */
  lemma {:induction false} NothingLost(c: Config, trace: seq<Inst>)
    ensures multiset(Fed(c, trace).popped) + multiset(Fed(c, trace).queue) == multiset(trace)
    ensures multiset(Popped(c, trace)) == multiset(trace)
  {
    hide Sort, Insert, Enqueue, Print;
    if trace != [] {
      var n := |trace| - 1;
      NothingLost(c, trace[..n]);
      assert trace == trace[..n] + [trace[n]];
      EnqueueLosesNothing(c, Fed(c, trace[..n]), trace[n]);
    }
    PrintLosesNothing(Fed(c, trace), 0);
    assert Print(Fed(c, trace), 0).queue == [];
  }

  lemma EnqueueLosesNothing(c: Config, v: View, x: Inst)
    ensures var w := Enqueue(c, v, x);
            multiset(w.popped) + multiset(w.queue) == multiset(v.popped) + multiset(v.queue) + multiset{x}
  {
    hide Print;
    PrintLosesNothing(View(v.popped, v.queue + [x]), c.minThreshold);
  }

  lemma PrintLosesNothing(v: View, lower: nat)
    ensures multiset(Print(v, lower).popped) + multiset(Print(v, lower).queue) == multiset(v.popped) + multiset(v.queue)
    ensures lower == 0 ==> Print(v, lower).queue == []
  {
    hide Sort, Insert, Same;
    var s, w := Sort(v.queue), Print(v, lower);
    SortProps(v.queue, 0);
    var k := |s| - |w.queue|;
    assert s == s[..k] + s[k..];
  }

  // ----- the bound cannot be relaxed

  // n instructions in order, with even numbers
  function Rising(n: nat): (s: seq<Inst>)
    ensures |s| == n
  {
    seq(n, i => Inst(2 * i, 0, 1))
  }

  lemma RisingIsSorted(n: nat)
    ensures Sorted(Rising(n))
  {
  }

  lemma {:induction false} LargerRising(n: nat, x: Inst, k: nat)
    requires k <= n && 2 * k - 2 <= x.sn < 2 * k
    ensures Larger(Rising(n), x) == n - k
  {
    if n > 0 {
      assert Rising(n)[..n - 1] == Rising(n - 1);
      if k < n {
        LargerRising(n - 1, x, k);
      } else {
        LargerNone(Rising(n), x);
      }
    }
  }

  lemma {:induction false} LargerNone(s: seq<Inst>, x: Inst)
    requires forall i :: 0 <= i < |s| ==> s[i].sn <= x.sn
    ensures Larger(s, x) == 0
  {
    if s != [] {
      LargerNone(s[..|s| - 1], x);
    }
  }

  /** For all thresholds there is a trace in which the last instruction arrives behind min + 1 larger
      ones, the others arrive in order, and the printout is out of order. */
  lemma BoundIsTight(c: Config) returns (trace: seq<Inst>)
    ensures Disorder(trace, c.minThreshold + 1)
    ensures |trace| > 0 && Sorted(trace[..|trace| - 1])
    ensures !Sorted(Popped(c, trace))
  {
    hide Popped, Larger, Rising, Sorted, LastPrint;
    var n, d := Upper(c) + 1, Upper(c) - c.minThreshold;
    var x := Inst(2 * d - 1, 0, 1);
    trace := Rising(n) + [x];
    assert trace[..n] == Rising(n);
    RisingIsSorted(n);
    LargerRising(n, x, d);
    OneOutOfPlace(Rising(n), x, c.minThreshold + 1);
    LastPrintStep(c, n);
    assert !InTime(c, trace, n);
    PrintsInOrderExactly(c, trace);
  }

  lemma OneOutOfPlace(s: seq<Inst>, x: Inst, places: nat)
    requires Sorted(s) && Larger(s, x) <= places
    ensures Disorder(s + [x], places)
  {
    hide Larger;
    var trace := s + [x];
    forall i | 0 <= i < |trace|
      ensures Larger(trace[..i], trace[i]) <= places
    {
      if i < |s| {
        assert trace[..i] == s[..i];
        LargerNone(s[..i], s[i]);
      } else {
        assert trace[..i] == s;
      }
    }
  }

  lemma Misplaced(s: seq<Inst>, i: nat, j: nat)
    requires i < j < |s| && s[i].sn > s[j].sn
    ensures !Sorted(s)
  {
  }

  // ----- the program

  /** Taking out from `before` until at most `lower` are left: what is taken and what is left is
      `before` in order of sequence number, equal numbers in order of arrival. */
  ghost predicate TakesOut(before: seq<Inst>, taken: seq<Inst>, left: seq<Inst>, lower: nat) {
    && |left| == (if |before| > lower then lower else |before|)
    && Sorted(taken + left) && multiset(taken + left) == multiset(before)
    && forall sn :: Same(taken + left, sn) == Same(before, sn)
  }

  lemma PrintTakesOut(v: View, lower: nat)
    ensures var w := Print(v, lower);
            exists taken :: w.popped == v.popped + taken && TakesOut(v.queue, taken, w.queue, lower)
  {
    hide Sort, Sorted, Same;
    var s := Sort(v.queue);
    var k := if |s| > lower then |s| - lower else 0;
    assert s[..k] + s[k..] == s;
    forall sn
      ensures Sorted(s) && multiset(s) == multiset(v.queue) && Same(s, sn) == Same(v.queue, sn)
    {
      SortProps(v.queue, sn);
    }
    SortProps(v.queue, 0);
    var w := Print(v, lower);
    assert w.popped == v.popped + s[..k] && w.queue == s[k..];
    assert TakesOut(v.queue, s[..k], w.queue, lower);
  }

  class Viewer {
    const config: Config
    var queue: seq<Inst>
    var printed: seq<Inst>
    ghost var popped: seq<Inst>

    constructor (c: Config)
      ensures config == c && queue == [] && Valid() && popped == []
    {
      config := c;
      queue, printed, popped := [], [], [];
    }

    ghost predicate Valid()
      reads this
    {
      printed == Filter(config, popped)
    }

    method PrintInsts(lowerThreshold: nat)
      requires Valid()
      modifies this
      ensures Valid() && View(popped, queue) == Print(View(old(popped), old(queue)), lowerThreshold)
      ensures exists taken :: popped == old(popped) + taken && TakesOut(old(queue), taken, queue, lowerThreshold)
    {
      hide Sort, Insert, Filter, TakesOut;
      PrintTakesOut(View(popped, queue), lowerThreshold);
      queue := Sort(queue);
      ghost var sorted, before := queue, popped;
      ghost var k := 0;
      while |queue| > lowerThreshold
        invariant Valid() && k <= |sorted| && queue == sorted[k..] && popped == before + sorted[..k]
        invariant k > 0 ==> |queue| >= lowerThreshold
      {
        var item := queue[0];
        queue := queue[1..];
        FilterSnoc(config, popped, item);
        popped := popped + [item];
        k := k + 1;
        if Shown(config, item) {
          printed := printed + [item];
        }
      }
    }

    method QueueInst(inst: Inst)
      requires Valid()
      modifies this
      ensures Valid() && View(popped, queue) == Enqueue(config, View(old(popped), old(queue)), inst)
      ensures |old(queue)| < config.maxThreshold ==> popped == old(popped) && queue == old(queue) + [inst]
      ensures |old(queue)| >= config.maxThreshold ==>
                exists taken :: popped == old(popped) + taken &&
                                TakesOut(old(queue) + [inst], taken, queue, config.minThreshold)
    {
      hide TakesOut, Sort;
      queue := queue + [inst];
      if |queue| > config.maxThreshold {
        PrintInsts(config.minThreshold);
      }
    }

    // The retired instructions of a trace, then the flush
    method ProcessTrace(trace: seq<Inst>)
      requires Valid() && queue == [] && popped == []
      modifies this
      ensures queue == [] && printed == Filter(config, Popped(config, trace))
      ensures forall x :: multiset(printed)[x] == if Wanted(config, x) then multiset(trace)[x] else 0
    {
      hide Wanted, TakesOut;
      for i := 0 to |trace|
        invariant Valid() && View(popped, queue) == Fed(config, trace[..i])
      {
        assert trace[..i + 1][..i] == trace[..i];
        QueueInst(trace[i]);
      }
      assert trace[..|trace|] == trace;
      PrintInsts(0);
      forall x: Inst
        ensures multiset(printed)[x] == if Wanted(config, x) then multiset(trace)[x] else 0
      {
        PrintedExactly(config, trace, x);
      }
    }
  }
}
