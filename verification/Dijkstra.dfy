/** The search of dijkstra.c: a FIFO label-correcting loop over the shared work queue.

    Node count, matrix and pool size are parameters; the globals of the source are fields. */
module Dijkstra {
  import opened Graph
  import opened PoolQueue
  import opened Labels

  // Everything the loops keep; u, d, i describe the scan in progress (u = -1 between scans).
  ghost predicate SearchInv(adj: Matrix, start: nat, L: seq<Node>, q: seq<Entry>, u: int, d: int, i: int) {
    && WellFormed(adj) && NoCollision(adj) && |L| == |adj| && start < |L| && i <= |L|
    && LinksOk(adj, start, L)
    && Acyclic(L, start)
    && LabelsOk(adj, start, L)
    && QueueOk(adj, start, L, q)
    && WorkOk(adj, L, q, u, d, i)
    && (u >= 0 ==> u < |L| && Grounded(adj, start, L, u, d))
  }

  lemma InitialInv(adj: Matrix, start: nat, L: seq<Node>)
    requires WellFormed(adj) && NoCollision(adj) && |L| == |adj| && start < |L|
    requires forall v :: 0 <= v < |L| ==> L[v] == if v == start then Node(0, NONE) else Node(NONE, NONE)
    ensures SearchInv(adj, start, L, [Entry(start, 0, NONE)], -1, 0, 0)
  {
    var e := Entry(start, 0, NONE);
    assert Witness(adj, start, L, [start], start, 0);
    assert e in [e];
    assert Chain(L, start, start, 0);
  }

  lemma DequeueInv(adj: Matrix, start: nat, L: seq<Node>, q: seq<Entry>)
    requires SearchInv(adj, start, L, q, -1, 0, 0) && |q| > 0
    ensures SearchInv(adj, start, L, q[1..], q[0].iNode, q[0].iDist, 0) && q[0].iNode >= 0
  {
    assert q[0] in q;
    StartWork(adj, L, q);
    GroundedNode(adj, start, L, q[0].iNode, q[0].iDist);
  }

  // A grounded distance belongs to a labelled node and is no smaller than its label.
  lemma GroundedNode(adj: Matrix, start: nat, L: seq<Node>, u: int, d: int)
    requires WellFormed(adj) && |L| == |adj| && Grounded(adj, start, L, u, d)
    ensures 0 <= u < |L| && Labelled(L, u) && L[u].iDist <= d
  {
    var p :| Witness(adj, start, L, p, u, d);
    SupportsAt(adj, L, p, |p| - 1);
  }

  // d is the weight of a path from start to v without repeated nodes.
  ghost predicate SimpleWeight(adj: Matrix, start: nat, v: int, d: int)
    requires WellFormed(adj)
  {
    exists p :: IsWalk(adj, p) && p[0] == start && p[|p| - 1] == v && Simple(p) && Weight(adj, p) == d
  }

  // One write: it lowers the label of its node to the weight of a simple path.
  ghost predicate GoodWrite(adj: Matrix, start: nat, L: seq<Node>, e: Entry)
    requires WellFormed(adj)
  {
    && 0 <= e.iNode < |L| && Better(L, e.iNode, e.iDist)
    && 0 <= e.iDist < NONE && SimpleWeight(adj, start, e.iNode, e.iDist)
  }

  // What relaxing writes is good.
  lemma RelaxWrites(adj: Matrix, start: nat, L: seq<Node>, i: nat, e: Node)
    requires WellFormed(adj) && |L| == |adj| && i < |L| && Better(L, i, e.iDist) && 0 <= e.iDist < NONE
    requires LabelsOk(adj, start, L[i := e])
    ensures GoodWrite(adj, start, L, Entry(i, e.iDist, e.iPrev))
  {
    assert Labelled(L[i := e], i);
    var p :| Witness(adj, start, L[i := e], p, i, e.iDist);
  }

  lemma RelaxInv(adj: Matrix, start: nat, L: seq<Node>, q: seq<Entry>, u: int, d: int, i: nat)
    requires SearchInv(adj, start, L, q, u, d, i) && u >= 0 && i < |L|
    requires adj[u][i] != NONE && Better(L, i, d + adj[u][i])
    ensures var e := Node(d + adj[u][i], u);
            && SearchInv(adj, start, L[i := e], q + [Entry(i, e.iDist, u)], u, d, i + 1)
            && Improves(L, L[i := e]) && i != start
            && 0 <= Sum(L[i := e]) < Sum(L)
            && 0 <= e.iDist < NONE && GoodWrite(adj, start, L, Entry(i, e.iDist, u))
  {
    hide LinksOk, Acyclic, LabelsOk, QueueOk, WorkOk, NoCollision, Grounded, Sum, GoodWrite;
    var e := Node(d + adj[u][i], u);
    var M := L[i := e];
    GroundedNode(adj, start, L, u, d);
    RelaxExtends(adj, start, L, u, d, i);
    RelaxLinks(adj, start, L, i, e);
    RelaxAcyclic(adj, start, L, i, e);
    RelaxWork(adj, L, q, u, d, i);
    GroundedImproved(adj, start, L, M, u, d);
    RelaxGrounds(adj, start, L, q, i, e);
    RelaxWrites(adj, start, L, i, e);
    SumUpdate(L, i, e);
    LabelsSumUp(adj, start, M);
  }

  lemma RelaxGrounds(adj: Matrix, start: nat, L: seq<Node>, q: seq<Entry>, i: nat, e: Node)
    requires WellFormed(adj) && |L| == |adj| && i < |L|
    requires LabelsOk(adj, start, L) && QueueOk(adj, start, L, q)
    requires Improves(L, L[i := e]) && Grounded(adj, start, L[i := e], i, e.iDist)
    ensures LabelsOk(adj, start, L[i := e])
    ensures QueueOk(adj, start, L[i := e], q + [Entry(i, e.iDist, e.iPrev)])
  {
    var M := L[i := e];
    forall v | 0 <= v < |M| && Labelled(M, v)
      ensures Grounded(adj, start, M, v, M[v].iDist)
    {
      if v != i {
        assert Labelled(L, v);
        GroundedImproved(adj, start, L, M, v, L[v].iDist);
      }
    }
    forall f | f in q
      ensures Grounded(adj, start, M, f.iNode, f.iDist)
    {
      GroundedImproved(adj, start, L, M, f.iNode, f.iDist);
    }
  }

  // ----- print_path

  // From v there are exactly `depth` links before one that is NONE.
  ghost predicate PathEnds(L: seq<Node>, v: int, depth: nat)
    decreases depth
  {
    && 0 <= v < |L|
    && if depth == 0 then L[v].iPrev == NONE
       else L[v].iPrev != NONE && PathEnds(L, L[v].iPrev, depth - 1)
  }

  /** The nodes visited by print_path, in the order in which the recursion returns from them. */
  function PrintPath(L: seq<Node>, chNode: nat, ghost depth: nat): (path: seq<nat>)
    requires PathEnds(L, chNode, depth)
    ensures |path| == depth + 1
    decreases depth
  {
    if L[chNode].iPrev != NONE then
      assert PathEnds(L, L[chNode].iPrev, depth - 1);
      PrintPath(L, L[chNode].iPrev, depth - 1) + [chNode]
    else [chNode]
  }

  // print_path ends; on a labelled node it has walked a path as long as the label says.
  ghost predicate PathPrinted(adj: Matrix, start: nat, L: seq<Node>, v: nat, depth: nat)
    requires WellFormed(adj) && |L| == |adj| && v < |L|
  {
    && PathEnds(L, v, depth)
    && var path := PrintPath(L, v, depth);
    if Labelled(L, v) then WalkBetween(adj, path, start, v) && Weight(adj, path) == L[v].iDist
    else path == [v]
  }

  ghost predicate Printable(adj: Matrix, start: nat, L: seq<Node>, v: nat)
    requires WellFormed(adj) && |L| == |adj| && v < |L|
  {
    exists depth: nat :: PathPrinted(adj, start, L, v, depth)
  }

  lemma TreeRoot(adj: Matrix, start: nat, L: seq<Node>)
    requires WellFormed(adj) && |L| == |adj| && start < |L| && LinksOk(adj, start, L)
    ensures L[start] == Node(0, NONE)
  {
  }

  lemma {:induction false} PrintedPathIsShortest(adj: Matrix, start: nat, L: seq<Node>, v: nat, depth: nat)
    requires WellFormed(adj) && |L| == |adj| && start < |L| <= NONE
    requires LinksOk(adj, start, L) && WorkOk(adj, L, [], -1, 0, 0)
    requires Chain(L, start, v, depth) && Labelled(L, v)
    ensures PathPrinted(adj, start, L, v, depth)
    decreases depth
  {
    hide WorkOk, LinksOk;
    TreeRoot(adj, start, L);
    if v != start {
      NoWorkMeansTight(adj, start, L, v);
      var u := L[v].iPrev;
      PrintedPathIsShortest(adj, start, L, u, depth - 1);
      WeightSnoc(adj, PrintPath(L, u, depth - 1), v);
    }
  }

  // What a completed search from start leaves behind
  ghost predicate Solved(adj: Matrix, start: nat, L: seq<Node>) {
    && WellFormed(adj) && |L| == |adj| && start < |L|
    && ShortestDistances(adj, start, L)
    && (forall v: nat :: v < |L| ==> Printable(adj, start, L, v))
  }

  lemma EmptyQueueSolves(adj: Matrix, start: nat, L: seq<Node>)
    requires SearchInv(adj, start, L, [], -1, 0, 0) && |L| <= NONE
    ensures Solved(adj, start, L)
  {
    NoWorkMeansShortest(adj, start, L);
    forall v: nat | v < |L|
      ensures Printable(adj, start, L, v)
    {
      if Labelled(L, v) {
        assert Rooted(L, start, v);
        var depth: nat :| Chain(L, start, v, depth);
        PrintedPathIsShortest(adj, start, L, v, depth);
      } else {
        assert PathPrinted(adj, start, L, v, 0);
      }
    }
  }

  // The labels of n nodes once these entries have been written, each as it was enqueued
  ghost function Replay(n: nat, writes: seq<Entry>): (L: seq<Node>)
    ensures |L| == n
  {
    if writes == [] then seq(n, _ => Node(NONE, NONE))
    else
      var L, e := Replay(n, writes[..|writes| - 1]), writes[|writes| - 1];
      if 0 <= e.iNode < n then L[e.iNode := Node(e.iDist, e.iPrev)] else L
  }

  /** The labels L have come about from blank ones by exactly these writes; at every moment the
      links were acyclic, and every write was a good one. */
  ghost predicate RunTo(adj: Matrix, start: nat, writes: seq<Entry>, L: seq<Node>)
    requires WellFormed(adj)
  {
    && L == Replay(|adj|, writes)
    && (forall s :: 0 <= s <= |writes| ==> Acyclic(Replay(|adj|, writes[..s]), start))
    && (forall s :: 0 <= s < |writes| ==> GoodWrite(adj, start, Replay(|adj|, writes[..s]), writes[s]))
  }

  lemma StartRun(adj: Matrix, start: nat, L: seq<Node>)
    requires WellFormed(adj) && |L| == |adj|
    requires forall v :: 0 <= v < |L| ==> L[v] == Node(NONE, NONE)
    ensures RunTo(adj, start, [], L)
  {
  }

  lemma ReplaySnoc(n: nat, writes: seq<Entry>, e: Entry)
    requires 0 <= e.iNode < n
    ensures Replay(n, writes + [e]) == Replay(n, writes)[e.iNode := Node(e.iDist, e.iPrev)]
  {
    assert (writes + [e])[..|writes|] == writes;
  }

  lemma ExtendRun(adj: Matrix, start: nat, writes: seq<Entry>, L: seq<Node>, e: Entry, M: seq<Node>)
    requires WellFormed(adj) && RunTo(adj, start, writes, L) && GoodWrite(adj, start, L, e)
    requires M == L[e.iNode := Node(e.iDist, e.iPrev)] && Acyclic(M, start)
    ensures RunTo(adj, start, writes + [e], M)
  {
    hide Acyclic, GoodWrite, Replay;
    var more := writes + [e];
    assert |L| == |adj| && 0 <= e.iNode < |L| by { GoodWriteNode(adj, start, L, e); }
    ReplaySnoc(|adj|, writes, e);
    forall s | 0 <= s <= |more|
      ensures Acyclic(Replay(|adj|, more[..s]), start)
      ensures s < |more| ==> GoodWrite(adj, start, Replay(|adj|, more[..s]), more[s])
    {
      if s <= |writes| {
        assert more[..s] == writes[..s];
        assert writes[..|writes|] == writes;
      } else {
        assert more[..s] == more;
      }
    }
  }

  lemma GoodWriteNode(adj: Matrix, start: nat, L: seq<Node>, e: Entry)
    requires WellFormed(adj) && GoodWrite(adj, start, L, e)
    ensures 0 <= e.iNode < |L|
  {
  }

  class Search {
    const queue: Queue
    const rgnNodes: array<Node>

    constructor (q: Queue, n: nat)
      ensures queue == q && fresh(rgnNodes) && rgnNodes.Length == n
    {
      queue := q;
      rgnNodes := new Node[n](_ => Node(NONE, NONE));
    }

    ghost predicate Ready(adj: Matrix)
      reads this, queue, queue.pool, rgnNodes
    {
      && WellFormed(adj) && rgnNodes.Length == |adj| <= NONE
      && queue.Valid()
    }

    // What the call that began with `mark` cells taken has enqueued so far is how the labels arose.
    ghost predicate Explains(adj: Matrix, start: nat, mark: nat)
      requires WellFormed(adj) && queue.Valid()
      reads this, queue, queue.pool, rgnNodes
    {
      mark <= queue.notAll && RunTo(adj, start, queue.Log()[mark..], rgnNodes[..])
    }

    // The for loop over the neighbours of the dequeued node
    method ScanNode(adj: Matrix, ghost start: nat, iNode: int, iDist: int, ghost mark: nat)
      requires Ready(adj)
      requires SearchInv(adj, start, rgnNodes[..], queue.Contents(), iNode, iDist, 0) && iNode >= 0
      requires queue.notAll + Sum(rgnNodes[..]) <= queue.pool.Length
      requires Explains(adj, start, mark)
      modifies queue, queue.pool, rgnNodes
      ensures Ready(adj) && SearchInv(adj, start, rgnNodes[..], queue.Contents(), iNode, iDist, |adj|)
      ensures queue.notAll + Sum(rgnNodes[..]) <= old(queue.notAll + Sum(rgnNodes[..]))
      ensures Sum(rgnNodes[..]) < old(Sum(rgnNodes[..])) ||
              (rgnNodes[..] == old(rgnNodes[..]) && queue.Contents() == old(queue.Contents()))
      ensures old(queue.Log()) <= queue.Log() && Explains(adj, start, mark)
    {
      hide LinksOk, Acyclic, LabelsOk, QueueOk, WorkOk, NoCollision, Grounded, Sum, Improves, RunTo, GoodWrite;
      hide Queue.Contents, Queue.Log, Queue.Valid;
      for i := 0 to rgnNodes.Length
        invariant Ready(adj) && SearchInv(adj, start, rgnNodes[..], queue.Contents(), iNode, iDist, i)
        invariant queue.notAll + Sum(rgnNodes[..]) <= old(queue.notAll + Sum(rgnNodes[..]))
        invariant Sum(rgnNodes[..]) < old(Sum(rgnNodes[..])) ||
                  (rgnNodes[..] == old(rgnNodes[..]) && queue.Contents() == old(queue.Contents()))
        invariant old(queue.Log()) <= queue.Log() && Explains(adj, start, mark)
      {
        var iCost := adj[iNode][i];
        ghost var L, q, log := rgnNodes[..], queue.Contents(), queue.Log();
        if iCost != NONE && (NONE == rgnNodes[i].iDist || rgnNodes[i].iDist > iCost + iDist) {
          RelaxInv(adj, start, L, q, iNode, iDist, i);
          rgnNodes[i] := Node(iDist + iCost, iNode);
          assert rgnNodes[..] == L[i := Node(iDist + iCost, iNode)];
          queue.Enqueue(i, iDist + iCost, iNode);
          ExtendRun(adj, start, log[mark..], L, Entry(i, iDist + iCost, iNode), rgnNodes[..]);
          assert queue.Log()[mark..] == log[mark..] + [Entry(i, iDist + iCost, iNode)];
        } else {
          SkipWork(adj, L, q, iNode, iDist, i);
        }
      }
    }

    /** One call. The queue must be empty, as the previous call leaves it, and the pool must still
        hold one cell for the start and one for every unit by which labels can shrink. The cells
        taken by the call are the history of the labels. */
    method Dijkstra(adj: Matrix, chStart: nat, chEnd: nat)
      requires Ready(adj) && queue.Contents() == []
      requires NoCollision(adj) && chStart < |adj|
      requires chStart != chEnd ==> queue.notAll + 1 + (|adj| - 1) * NONE <= queue.pool.Length
      modifies queue, queue.pool, rgnNodes
      ensures Ready(adj) && queue.Contents() == []
      ensures chStart == chEnd ==> queue.notAll == old(queue.notAll)
      ensures chStart == chEnd ==> forall v :: 0 <= v < |adj| ==> rgnNodes[v] == Node(NONE, NONE)
      ensures chStart != chEnd ==> Solved(adj, chStart, rgnNodes[..])
      ensures chStart != chEnd ==> queue.notAll <= old(queue.notAll) + 1 + (|adj| - 1) * NONE
      ensures old(queue.Log()) <= queue.Log()
      ensures RunTo(adj, chStart, queue.Log()[old(queue.notAll)..], rgnNodes[..])
    {
      hide LinksOk, Acyclic, LabelsOk, QueueOk, WorkOk, NoCollision, Grounded, Sum, Improves, RunTo, Solved, GoodWrite;
      hide Queue.Contents, Queue.Log, Queue.Valid;
      ghost var mark := queue.notAll;
      Blank();
      StartRun(adj, chStart, rgnNodes[..]);
      assert queue.Log()[mark..] == [];
      if chStart != chEnd {
        Begin(adj, chStart);
        ghost var log := queue.Log();
        ghost var bound := queue.notAll + Sum(rgnNodes[..]);
        var n := queue.QCount();
        while n > 0
          invariant Ready(adj) && SearchInv(adj, chStart, rgnNodes[..], queue.Contents(), -1, 0, 0)
          invariant n == |queue.Contents()|
          invariant queue.notAll + Sum(rgnNodes[..]) <= bound
          invariant log <= queue.Log() && Explains(adj, chStart, mark)
          decreases Sum(rgnNodes[..]), n
        {
          LabelsSumUp(adj, chStart, rgnNodes[..]);
          ghost var q := queue.Contents();
          DequeueInv(adj, chStart, rgnNodes[..], q);
          var e := queue.Dequeue();
          ScanNode(adj, chStart, e.value.iNode, e.value.iDist, mark);
          EndWork(adj, rgnNodes[..], queue.Contents(), e.value.iNode, e.value.iDist);
          n := queue.QCount();
        }
        LabelsSumUp(adj, chStart, rgnNodes[..]);
        EmptyQueueSolves(adj, chStart, rgnNodes[..]);
      }
    }

    // The first loop
    method Blank()
      modifies rgnNodes
      ensures forall v :: 0 <= v < rgnNodes.Length ==> rgnNodes[v] == Node(NONE, NONE)
    {
      for ch := 0 to rgnNodes.Length
        invariant forall v :: 0 <= v < ch ==> rgnNodes[v] == Node(NONE, NONE)
      {
        rgnNodes[ch] := Node(NONE, NONE);
      }
    }

    // Labels the start and enqueues it.
    method Begin(adj: Matrix, chStart: nat)
      requires Ready(adj) && queue.Contents() == [] && NoCollision(adj) && chStart < |adj|
      requires queue.notAll < queue.pool.Length
      requires forall v :: 0 <= v < rgnNodes.Length ==> rgnNodes[v] == Node(NONE, NONE)
      modifies queue, queue.pool, rgnNodes
      ensures Ready(adj) && SearchInv(adj, chStart, rgnNodes[..], queue.Contents(), -1, 0, 0)
      ensures queue.notAll == old(queue.notAll) + 1 && Sum(rgnNodes[..]) == (|adj| - 1) * NONE
      ensures old(queue.Log()) <= queue.Log() && Explains(adj, chStart, old(queue.notAll))
    {
      hide LinksOk, Acyclic, LabelsOk, QueueOk, WorkOk, NoCollision, Grounded, Sum, Improves, RunTo, GoodWrite;
      ghost var blank := rgnNodes[..];
      SumUnlabelled(blank);
      SumUpdate(blank, chStart, Node(0, NONE));
      StartRun(adj, chStart, blank);
      rgnNodes[chStart] := Node(0, NONE);
      assert rgnNodes[..] == blank[chStart := Node(0, NONE)];
      InitialInv(adj, chStart, rgnNodes[..]);
      RelaxWrites(adj, chStart, blank, chStart, Node(0, NONE));
      ExtendRun(adj, chStart, [], blank, Entry(chStart, 0, NONE), rgnNodes[..]);
      queue.Enqueue(chStart, 0, NONE);
      assert queue.Log()[old(queue.notAll)..] == [] + [Entry(chStart, 0, NONE)];
      assert queue.Contents() == [Entry(chStart, 0, NONE)];
    }
  }

  lemma LabelsSumUp(adj: Matrix, start: nat, L: seq<Node>)
    requires WellFormed(adj) && |L| == |adj| && start < |L| && LinksOk(adj, start, L)
    ensures Sum(L) >= 0
  {
    forall v | 0 <= v < |L|
      ensures L[v].iDist >= 0
    {
      if !Labelled(L, v) {
        assert L[v].iDist == NONE;
      }
    }
    SumNonNegative(L);
  }
}
