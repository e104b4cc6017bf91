/** The work queue of dijkstra.c: list cells taken one after the other from a fixed pool that is
    never given back, linked by pointers into the pool. */
module PoolQueue {
  import opened Options

  datatype Ptr = Null | At(slot: nat)

  datatype QItem = QItem(iNode: int, iDist: int, iPrev: int, qNext: Ptr)

  datatype Entry = Entry(iNode: int, iDist: int, iPrev: int)

  function EntryOf(q: QItem): Entry {
    Entry(q.iNode, q.iDist, q.iPrev)
  }

  // The entries met when following at most `count` links from p
  ghost function Follow(pool: seq<QItem>, p: Ptr, count: nat): seq<Entry>
    decreases count
  {
    if count == 0 || p.Null? || p.slot >= |pool| then []
    else [EntryOf(pool[p.slot])] + Follow(pool, pool[p.slot].qNext, count - 1)
  }

  ghost predicate Chained(pool: seq<QItem>, head: nat, end: nat) {
    && head <= end <= |pool|
    && forall k :: head <= k < end ==> pool[k].qNext == (if k + 1 < end then At(k + 1) else Null)
  }

  // Following a chain of neighbouring slots lists them in order and then ends.
  lemma {:induction false} FollowChain(pool: seq<QItem>, head: nat, end: nat, count: nat)
    requires Chained(pool, head, end) && head < end && count >= end - head
    ensures Follow(pool, At(head), count) == seq(end - head, i requires 0 <= i < end - head => EntryOf(pool[head + i]))
    decreases end - head
  {
    if head + 1 < end {
      FollowChain(pool, head + 1, end, count - 1);
    } else {
      assert Follow(pool, Null, count - 1) == [];
    }
  }

  class Queue {
    const pool: array<QItem>
    var qHead: Ptr
    var qCount: int
    var notAll: nat

    constructor (capacity: nat)
      ensures fresh(pool) && pool.Length == capacity
      ensures Valid() && Contents() == [] && notAll == 0
    {
      pool := new QItem[capacity](_ => QItem(0, 0, 0, Null));
      qHead := Null;
      qCount := 0;
      notAll := 0;
    }

    // The cells in use are the last ones taken from the pool; the newest is the tail.
    ghost predicate Valid()
      reads this, pool
    {
      && notAll <= pool.Length
      && match qHead
         case Null => qCount == 0
         case At(h) => h < notAll && qCount == notAll - h && Chained(pool[..], h, notAll)
    }

    // The list as the links give it, however long one keeps following them
    ghost function Contents(): (s: seq<Entry>)
      requires Valid()
      reads this, pool
    {
      Follow(pool[..], qHead, pool.Length)
    }

    // Everything ever enqueued; cells are not given back.
    ghost function Log(): (s: seq<Entry>)
      requires Valid()
      reads this, pool
      ensures |s| == notAll
    {
      seq(notAll, i requires 0 <= i < notAll && Valid() reads this, pool => EntryOf(pool[i]))
    }

    lemma ContentsAreSlots()
      requires Valid()
      ensures |Contents()| == qCount
      ensures qHead.Null? <==> Contents() == []
      ensures qHead.At? ==> forall i :: 0 <= i < qCount ==> Contents()[i] == EntryOf(pool[qHead.slot + i])
      ensures qHead.At? ==> Contents()[qCount - 1] == EntryOf(pool[notAll - 1]) && pool[notAll - 1].qNext == Null
    {
      if qHead.At? {
        FollowChain(pool[..], qHead.slot, notAll, pool.Length);
      }
    }

    method Enqueue(iNode: int, iDist: int, iPrev: int)
      requires Valid() && notAll < pool.Length
      modifies this, pool
      ensures Valid()
      ensures Contents() == old(Contents()) + [Entry(iNode, iDist, iPrev)]
      ensures notAll == old(notAll) + 1 && Log() == old(Log()) + [Entry(iNode, iDist, iPrev)]
    {
      ContentsAreSlots();
      ghost var before := Contents();
      var qNew := notAll;
      notAll := notAll + 1;
      pool[qNew] := QItem(iNode, iDist, iPrev, Null);
      if qHead.Null? {
        qHead := At(qNew);
      } else {
        pool[notAll - 2] := pool[notAll - 2].(qNext := At(qNew));
      }
      qCount := qCount + 1;
      ContentsAreSlots();
      assert Contents() == before + [Entry(iNode, iDist, iPrev)];
    }

    // The source leaves its results alone when the queue is empty.
    method Dequeue() returns (e: Option<Entry>)
      requires Valid()
      modifies this
      ensures Valid() && notAll == old(notAll) && Log() == old(Log())
      ensures old(Contents()) == [] ==> e == None && Contents() == []
      ensures old(Contents()) != [] ==> e == Some(old(Contents())[0]) && Contents() == old(Contents())[1..]
    {
      ContentsAreSlots();
      ghost var before := Contents();
      e := None;
      if qHead.At? {
        var cell := pool[qHead.slot];
        e := Some(EntryOf(cell));
        qHead := cell.qNext;
        qCount := qCount - 1;
        ContentsAreSlots();
        assert Contents() == before[1..];
      }
    }

    method QCount() returns (n: int)
      requires Valid()
      ensures n == |Contents()|
    {
      ContentsAreSlots();
      n := qCount;
    }
  }
}
