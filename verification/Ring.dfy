/** The request ring between an asynchronous submitter and its polling thread: one producer, one
    consumer, 32-bit heads and tails that wrap around.

    Each method of Ring is one atomic step; the two threads interleave them freely, so what every
    method keeps holds of every interleaving. */
module Ring {
  import opened Arithmetic
  import opened Bytes
  import opened Wrappers

  const WRAP := 0x1_0000_0000

  // ---- arithmetic ----

  /** Where the element with running number k lives: the head is a wrapped 32-bit counter. */
  function Cell(k: nat, capacity: nat): (r: nat)
    requires capacity > 0
    ensures r < capacity
  {
    k % WRAP % capacity
  }

  predicate Divides(capacity: nat)
    requires capacity > 0
  {
    WRAP % capacity == 0
  }

  lemma CellIsMod(k: nat, capacity: nat)
    requires capacity > 0 && Divides(capacity)
    ensures Cell(k, capacity) == k % capacity
  {
    var p, r := WRAP / capacity, k % WRAP;
    var q := p * (k / WRAP) + r / capacity;
    assert k == capacity * q + r % capacity by {
      assert WRAP == capacity * p && r == capacity * (r / capacity) + r % capacity;
      assert capacity * (p * (k / WRAP)) == WRAP * (k / WRAP);
      assert capacity * q == capacity * (p * (k / WRAP)) + capacity * (r / capacity);
    }
    DivModUnique(k, capacity, q, r % capacity);
  }

  /** No two elements of a full ring share a cell. */
  ghost predicate CellsDistinct(capacity: nat)
    requires capacity > 0
  {
    forall i: nat, j: nat :: i < j < i + capacity ==> Cell(i, capacity) != Cell(j, capacity)
  }

  lemma CellsDistinctAt(i: nat, j: nat, capacity: nat)
    requires capacity > 0 && Divides(capacity) && i < j < i + capacity
    ensures Cell(i, capacity) != Cell(j, capacity)
  {
    CellIsMod(i, capacity);
    CellIsMod(j, capacity);
    if i % capacity == j % capacity { SameModApart(i, j, capacity); }
  }

  /** Reuse: one lap later the same cell comes up. */
  lemma CellLap(k: nat, capacity: nat)
    requires capacity > 0 && Divides(capacity)
    ensures Cell(k + capacity, capacity) == Cell(k, capacity)
  {
    CellIsMod(k, capacity);
    CellIsMod(k + capacity, capacity);
    assert k + capacity == capacity * (k / capacity + 1) + k % capacity;
    DivModUnique(k + capacity, capacity, k / capacity + 1, k % capacity);
  }

  /** The ring is safe exactly for the capacities that divide 2^32: for any other one, the element
      enqueued just after the wrap-around lands on one enqueued just before it. */
  lemma DistinctIffDivides(capacity: nat)
    requires 0 < capacity < WRAP
    ensures CellsDistinct(capacity) <==> Divides(capacity)
  {
    if Divides(capacity) {
      forall i: nat, j: nat | i < j < i + capacity ensures Cell(i, capacity) != Cell(j, capacity) {
        CellsDistinctAt(i, j, capacity);
      }
    } else {
      var r, p := WRAP % capacity, WRAP / capacity;
      var i, j := WRAP - 1, WRAP - 1 + r;
      assert Cell(i, capacity) == r - 1 by { DivModUnique(i, capacity, p, r - 1); }
      assert j % WRAP == r - 1;
      assert Cell(j, capacity) == r - 1 by { DivModUnique(r - 1, capacity, 0, r - 1); }
    }
  }

  function Wrapped(n: nat): u32 { n % WRAP }

  lemma WrappedNext(n: nat)
    ensures (Wrapped(n) + 1) % WRAP == Wrapped(n + 1)
  {
  }

  /** 32-bit differences are exact as long as the true difference is a 32-bit number. */
  lemma WrappedDifference(offset: nat, a: nat, b: nat)
    requires 0 <= offset + a - b < WRAP
    ensures (offset + Wrapped(a) - Wrapped(b)) % WRAP == offset + a - b
  {
    var q := a / WRAP - b / WRAP;
    assert offset + Wrapped(a) - Wrapped(b) == WRAP * (-q) + (offset + a - b);
    DivModUnique(offset + Wrapped(a) - Wrapped(b), WRAP, -q, offset + a - b);
  }

  // ---- the ring ----

  datatype ProducerPc<T> = Idle | HeadMoved(obj: T) | Stored
  datatype ConsumerPc<T> = Ready | Claimed | Taken(obj: T)

  class Queue<T(0)> {
    const capacity: nat
    const elems: array<Option<T>>
    var prodHead: u32
    var prodTail: u32
    var consHead: u32
    var consTail: u32
    // the same counters without wrap-around, the history of both ends, and the program counters
    ghost var ph: nat
    ghost var pt: nat
    ghost var ch: nat
    ghost var ct: nat
    ghost var pushed: seq<T>
    ghost var popped: seq<T>
    ghost var ppc: ProducerPc<T>
    ghost var cpc: ConsumerPc<T>

    /** What cell k of the current lap holds: the undelivered object, or NULL. */
    ghost predicate Holds(k: nat)
      requires capacity == elems.Length > 0
      reads this`pushed, this`popped, elems
    {
      elems[Cell(k, capacity)] == if |popped| <= k < |pushed| then Some(pushed[k]) else None
    }

    ghost predicate Valid()
      reads this, elems
    {
      && 0 < capacity == elems.Length < 0x8000_0000 && Divides(capacity)
      && prodHead == Wrapped(ph) && prodTail == Wrapped(pt) && consHead == Wrapped(ch) && consTail == Wrapped(ct)
      && ct <= ch <= pt <= ph <= ct + capacity
      && ph == pt + (if ppc.Idle? then 0 else 1) && |pushed| == pt + (if ppc.Stored? then 1 else 0)
      && ch == ct + (if cpc.Ready? then 0 else 1) && |popped| == ct + (if cpc.Taken? then 1 else 0)
      && popped <= pushed
      && (forall k: nat :: ct <= k < ct + capacity ==> Holds(k))
      && (cpc.Taken? ==> cpc.obj == popped[|popped| - 1])
    }

    /** The abstract queue: published, not yet claimed. */
    ghost function Contents(): seq<T>
      requires Valid()
      reads this, elems
    {
      pushed[ch..pt]
    }

    constructor (size: nat)
      requires 1 <= size < 0x8000_0000 && Divides(size)
      ensures Valid() && fresh(elems) && capacity == size && Contents() == [] && ppc.Idle? && cpc.Ready?
    {
      capacity := size;
      elems := new Option<T>[size](_ => None);
      prodHead, prodTail, consHead, consTail := 0, 0, 0, 0;
      ph, pt, ch, ct, pushed, popped, ppc, cpc := 0, 0, 0, 0, [], [], Idle, Ready;
    }

    /** QzRingMoveProdHead for the single producer: refuses exactly when every cell is taken. */
    method MoveProdHead(obj: T) returns (ok: bool, oldHead: u32)
      requires Valid() && ppc.Idle?
      modifies this`prodHead, this`ph, this`ppc
      ensures Valid() && oldHead == old(prodHead)
      ensures ok <==> old(ph) < ct + capacity
      ensures ok ==> ppc == HeadMoved(obj)
      ensures !ok ==> ppc.Idle?
      ensures Contents() == old(Contents())
    {
      hide Cell, Divides, Wrapped;
      oldHead := prodHead;
      var free := (capacity + consTail - oldHead) % WRAP;
      WrappedDifference(capacity, ct, ph);
      WrappedNext(ph);
      ok := free >= 1;
      if ok {
        prodHead := (oldHead + 1) % WRAP;
        ph, ppc := ph + 1, HeadMoved(obj);
      }
    }

    /** QzRingEnqueueElem: the cell was NULL, so nothing undelivered is overwritten. */
    method EnqueueElem(oldHead: u32, obj: T)
      requires Valid() && ppc == HeadMoved(obj) && oldHead == Wrapped(pt)
      modifies elems, this`pushed, this`ppc
      ensures Valid() && ppc.Stored? && pushed == old(pushed) + [obj]
      ensures old(elems[Cell(pt, capacity)]) == None
      ensures Contents() == old(Contents())
    {
      ghost var n := pt;
      assert Holds(n);
      elems[oldHead % capacity] := Some(obj);
      pushed, ppc := pushed + [obj], Stored;
      forall k: nat | ct <= k < ct + capacity ensures Holds(k) {
        if k < n { assert old(Holds(k)); CellsDistinctAt(k, n, capacity); }
        if k > n { assert old(Holds(k)); CellsDistinctAt(n, k, capacity); }
      }
    }

    /** QzRingUpdatTail on the producer side publishes the object. */
    method PublishTail(newTail: u32)
      requires Valid() && ppc.Stored? && newTail == Wrapped(ph)
      modifies this`prodTail, this`pt, this`ppc
      ensures Valid() && ppc.Idle?
      ensures Contents() == old(Contents()) + [pushed[|pushed| - 1]]
    {
      hide Cell, Divides, Wrapped;
      prodTail := newTail;
      pt, ppc := pt + 1, Idle;
    }

    /** QzRingMoveConsHead for the single consumer: refuses exactly when the queue is empty. */
    method MoveConsHead() returns (ok: bool, oldHead: u32)
      requires Valid() && cpc.Ready?
      modifies this`consHead, this`ch, this`cpc
      ensures Valid() && oldHead == old(consHead)
      ensures ok <==> old(Contents()) != []
      ensures ok ==> cpc.Claimed? && Contents() == old(Contents())[1..]
      ensures !ok ==> cpc.Ready? && Contents() == old(Contents())
    {
      hide Cell, Divides, Wrapped;
      oldHead := consHead;
      var entries := (prodTail - oldHead) % WRAP;
      var signed := if entries >= 0x8000_0000 then entries - WRAP else entries;
      WrappedDifference(0, pt, ch);
      WrappedNext(ch);
      ok := signed >= 1;
      if ok {
        consHead := (oldHead + 1) % WRAP;
        ch, cpc := ch + 1, Claimed;
      }
    }

    /** QzRingDequeueElem returns the oldest undelivered object and clears its cell. */
    method DequeueElem(oldHead: u32) returns (obj: T)
      requires Valid() && cpc.Claimed? && oldHead == Wrapped(ct)
      modifies elems, this`popped, this`cpc
      ensures Valid() && cpc == Taken(obj)
      ensures popped == old(popped) + [obj] && obj == pushed[|old(popped)|]
      ensures Contents() == old(Contents())
    {
      ghost var n := ct;
      assert Holds(n);
      var cell := elems[oldHead % capacity];
      obj := cell.value;
      elems[oldHead % capacity] := None;
      popped, cpc := popped + [obj], Taken(obj);
      forall k: nat | ct <= k < ct + capacity ensures Holds(k) {
        if k > n { assert old(Holds(k)); CellsDistinctAt(n, k, capacity); }
      }
    }

    /** QzRingUpdatTail on the consumer side gives the cell back. */
    method ReleaseTail(newTail: u32)
      requires Valid() && cpc.Taken? && newTail == Wrapped(ch)
      modifies this`consTail, this`ct, this`cpc
      ensures Valid() && cpc.Ready?
      ensures Contents() == old(Contents())
    {
      ghost var n := ct;
      assert Holds(n);
      consTail := newTail;
      ct, cpc := ct + 1, Ready;
      forall k: nat | ct <= k < ct + capacity ensures Holds(k) {
        if k < n + capacity { assert old(Holds(k)); } else { CellLap(n, capacity); }
      }
    }

    /** QzRingProduceEnQueue. */
    method Enqueue(obj: T) returns (ok: bool)
      requires Valid() && ppc.Idle?
      modifies this, elems
      ensures Valid() && ppc.Idle? && popped == old(popped) && (ok <==> old(ph) < old(ct) + capacity)
      ensures Contents() == old(Contents()) + if ok then [obj] else []
    {
      var head;
      ok, head := MoveProdHead(obj);
      if ok {
        WrappedNext(pt);
        EnqueueElem(head, obj);
        PublishTail((head + 1) % WRAP);
      }
    }

    /** QzRingConsumeDequeue: NULL when nothing is published. */
    method Dequeue() returns (r: Option<T>)
      requires Valid() && cpc.Ready?
      modifies this, elems
      ensures Valid() && cpc.Ready? && pushed == old(pushed)
      ensures r.None? <==> old(Contents()) == []
      ensures r.Some? ==> old(Contents()) == [r.value] + Contents()
    {
      var ok, head := MoveConsHead();
      if !ok { return None; }
      WrappedNext(ct);
      var obj := DequeueElem(head);
      ReleaseTail((head + 1) % WRAP);
      r := Some(obj);
    }
  }

  // ---- a capacity that does not divide 2^32 ----

  /** The ring as it is, without history. */
  datatype Cells<T> = Cells(elems: seq<Option<T>>, prodHead: u32, prodTail: u32, consHead: u32, consTail: u32)

  /** An undisturbed enqueue. */
  function Put<T>(r: Cells<T>, obj: T): Option<Cells<T>>
    requires |r.elems| > 0
  {
    if (|r.elems| + r.consTail - r.prodHead) % WRAP < 1 then None
    else
      var next := (r.prodHead + 1) % WRAP;
      Some(r.(elems := r.elems[r.prodHead % |r.elems| := Some(obj)], prodHead := next, prodTail := next))
  }

  /** An undisturbed dequeue: the cell's object, and the ring after it. */
  function Get<T>(r: Cells<T>): Option<(Option<T>, Cells<T>)>
    requires |r.elems| > 0
  {
    var entries := (r.prodTail - r.consHead) % WRAP;
    if entries < 1 || entries >= 0x8000_0000 then None
    else
      var c, next := r.consHead % |r.elems|, (r.consHead + 1) % WRAP;
      Some((r.elems[c], r.(elems := r.elems[c := None], consHead := next, consTail := next)))
  }

  /** An empty ring through which k objects have passed. */
  function Passed<T>(capacity: nat, k: nat): (r: Cells<T>)
    ensures |r.elems| == capacity
  {
    Cells(seq(capacity, _ => None), Wrapped(k), Wrapped(k), Wrapped(k), Wrapped(k))
  }

  /** One object in and out again moves an empty ring on by one. */
  lemma PassOne<T>(capacity: nat, k: nat, obj: T)
    requires 0 < capacity < 0x8000_0000
    ensures var p := Put(Passed<T>(capacity, k), obj);
      p.Some? && Get(p.value) == Some((Some(obj), Passed<T>(capacity, k + 1)))
  {
    WrappedDifference(capacity, k, k);
    WrappedNext(k);
    WrappedDifference(0, k + 1, k);
    var r: Cells<T> := Passed(capacity, k);
    var c := r.prodHead % capacity;
    assert r.elems[c := Some(obj)][c := None] == r.elems;
  }

  datatype Op<T> = In(obj: T) | Out

  /** Operations one after the other; refused ones change nothing. */
  function Play<T>(r: Cells<T>, ops: seq<Op<T>>): (t: Cells<T>)
    requires |r.elems| > 0
    ensures |t.elems| == |r.elems|
    decreases |ops|
  {
    if |ops| == 0 then r
    else
      var s := Play(r, ops[..|ops| - 1]);
      match ops[|ops| - 1]
      case In(obj) => (match Put(s, obj) case None => s case Some(t) => t)
      case Out => (match Get(s) case None => s case Some((_, t)) => t)
  }

  lemma PlayOne<T>(r: Cells<T>, ops: seq<Op<T>>, op: Op<T>)
    requires |r.elems| > 0
    ensures Play(r, ops + [op]) == Play(Play(r, ops), [op])
  {
    assert (ops + [op])[..|ops|] == ops && [op][..0] == [];
  }

  lemma {:induction false} Passing<T>(capacity: nat, k: nat, obj: T) returns (ops: seq<Op<T>>)
    requires 0 < capacity < 0x8000_0000
    ensures Play(Passed<T>(capacity, 0), ops) == Passed(capacity, k)
  {
    ops := [];
    if k > 0 {
      ops := Passing(capacity, k - 1, obj);
      PassOne(capacity, k - 1, obj);
      PlayOne(Passed<T>(capacity, 0), ops, In(obj));
      PlayOne(Passed<T>(capacity, 0), ops + [In(obj)], Out);
      ops := ops + [In(obj)] + [Out];
    }
  }

  /** n objects enqueued in a ring that was empty; the last of them is in its cell. */
  ghost predicate HoldsLast<T>(r: Cells<T>, k: nat, objs: seq<T>) {
    && |objs| <= |r.elems| && |r.elems| > 0
    && r.prodHead == r.prodTail == Wrapped(k + |objs|) && r.consHead == r.consTail == Wrapped(k)
    && (|objs| > 0 ==> r.elems[Cell(k + |objs| - 1, |r.elems|)] == Some(objs[|objs| - 1]))
  }

  lemma {:induction false} Filling<T>(capacity: nat, k: nat, obj: T, objs: seq<T>) returns (ops: seq<Op<T>>)
    requires 0 < capacity < 0x8000_0000 && |objs| <= capacity
    ensures HoldsLast(Play(Passed<T>(capacity, 0), ops), k, objs)
    decreases |objs|
  {
    if |objs| == 0 {
      ops := Passing(capacity, k, obj);
    } else {
      hide HoldsLast, Put, Get, Passed;
      var n := |objs| - 1;
      ops := Filling(capacity, k, obj, objs[..n]);
      PlayOne(Passed<T>(capacity, 0), ops, In(objs[n]));
      assert objs[..n] + [objs[n]] == objs;
      PutFits(Play(Passed<T>(capacity, 0), ops), k, objs[..n], objs[n]);
      ops := ops + [In(objs[n])];
    }
  }

  lemma PutFits<T>(r: Cells<T>, k: nat, objs: seq<T>, obj: T)
    requires |r.elems| < 0x8000_0000 && |objs| < |r.elems| && HoldsLast(r, k, objs)
    ensures Put(r, obj).Some? && HoldsLast(Put(r, obj).value, k, objs + [obj])
  {
    WrappedDifference(|r.elems|, k, k + |objs|);
    WrappedNext(k + |objs|);
  }

  /** With such a capacity a new ring can be used so that it then accepts objs and delivers the last of
      them first: it has overwritten the first one, which nobody has seen. */
  lemma Overwritten<T>(capacity: nat, objs: seq<T>) returns (ops: seq<Op<T>>)
    requires 0 < capacity < 0x8000_0000 && !Divides(capacity) && |objs| == WRAP % capacity + 1
    ensures |objs| > 1
    ensures var r := Play(Passed<T>(capacity, 0), ops);
      && (r.prodTail - r.consHead) % WRAP == |objs|
      && Get(r).Some? && Get(r).value.0 == Some(objs[|objs| - 1])
  {
    hide Cell, Divides, Put, Passed;
    var k := WRAP - 1;
    WrapCell(capacity);
    ops := Filling(capacity, k, objs[0], objs);
    LastComesFirst(Play(Passed<T>(capacity, 0), ops), k, objs);
  }

  /** The last cell before the counters wrap around comes up again before a full lap. */
  lemma WrapCell(capacity: nat)
    requires 0 < capacity < 0x8000_0000 && !Divides(capacity)
    ensures 0 < WRAP % capacity < capacity
    ensures Cell(WRAP - 1, capacity) == Cell(WRAP - 1 + WRAP % capacity, capacity)
  {
    var m, i := WRAP % capacity, WRAP - 1;
    DivModUnique(i, capacity, WRAP / capacity, m - 1);
    DivModUnique(m - 1, capacity, 0, m - 1);
    assert (i + m) % WRAP == m - 1;
  }

  lemma LastComesFirst<T>(r: Cells<T>, k: nat, objs: seq<T>)
    requires HoldsLast(r, k, objs) && |objs| > 1 && |r.elems| < 0x8000_0000
    requires Cell(k, |r.elems|) == Cell(k + |objs| - 1, |r.elems|)
    ensures (r.prodTail - r.consHead) % WRAP == |objs|
    ensures Get(r).Some? && Get(r).value.0 == Some(objs[|objs| - 1])
  {
    WrappedDifference(0, k + |objs|, k);
  }
}
