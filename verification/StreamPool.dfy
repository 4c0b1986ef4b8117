/** The pool of stream buffers: two doubly linked lists of nodes, one of free buffers and one of
    buffers in use. */
module StreamPool {
  const STREAM_BUFF_LIST_SZ: nat := 8

  class Buffer {
    constructor () {}
  }

  class Node {
    const buffer: Buffer
    const size: nat
    const pinned: bool
    var next: Node?
    var prev: Node?

    constructor (b: Buffer, sz: nat, pin: bool)
      ensures buffer == b && size == sz && pinned == pin
    {
      buffer, size, pinned, next, prev := b, sz, pin, null, null;
    }
  }

  function Without<T>(s: seq<T>, i: nat): (r: seq<T>)
    requires i < |s|
    ensures |r| == |s| - 1
  {
    s[..i] + s[i + 1..]
  }

  class List {
    var head: Node?
    var tail: Node?
    var size: nat
    ghost var nodes: seq<Node>

    /** Well linked in both directions, with the right ends and the right size. */
    ghost predicate Valid()
      reads this, nodes
    {
      && size == |nodes|
      && (forall i, j :: 0 <= i < j < |nodes| ==> nodes[i] != nodes[j])
      && head == (if |nodes| == 0 then null else nodes[0])
      && tail == (if |nodes| == 0 then null else nodes[|nodes| - 1])
      && (|nodes| > 0 ==> nodes[0].prev == null && nodes[|nodes| - 1].next == null)
      && (forall i, j :: 0 <= i && j == i + 1 < |nodes| ==> nodes[i].next == nodes[j] && nodes[j].prev == nodes[i])
    }

    constructor ()
      ensures Valid() && nodes == []
    {
      head, tail, size, nodes := null, null, 0, [];
    }

    /** addNodeToList appends. */
    method Add(node: Node)
      requires Valid() && node !in nodes
      modifies this, nodes, node
      ensures Valid() && nodes == old(nodes) + [node]
    {
      assert tail != null ==> nodes[|nodes| - 1] in nodes;
      size := size + 1;
      node.next := null;
      if tail == null {
        head := node;
        node.prev := null;
      } else {
        node.prev := tail;
        tail.next := node;
      }
      tail := node;
      nodes := nodes + [node];
      assert forall k :: 0 <= k < |nodes| - 1 ==> nodes[k] == old(nodes)[k];
    }

    /** removeNodeFromList: the node's own links are left as they are. */
    method Remove(node: Node, ghost i: nat)
      requires Valid() && i < |nodes| && nodes[i] == node
      modifies this, nodes
      ensures Valid() && nodes == old(Without(nodes, i)) && node.next == old(node.next)
    {
      ghost var was := nodes;
      assert i > 0 ==> was[i - 1] in nodes && was[i - 1] != node;
      assert i + 1 < |was| ==> was[i + 1] in nodes && was[i + 1] != node;
      assert node in nodes;
      size := size - 1;
      if node.prev != null {
        node.prev.next := node.next;
        if node.next != null {
          node.next.prev := node.prev;
        } else {
          tail := node.prev;
        }
      } else {
        if node.next != null {
          node.next.prev := null;
          head := node.next;
        } else {
          head, tail := null, null;
        }
      }
      nodes := Without(was, i);
      assert forall k :: 0 <= k < |nodes| ==> nodes[k] == was[if k < i then k else k + 1];
    }
  }

  /** Both lists. A node is in one of them at most, and no two nodes share a buffer. */
  class Pool {
    const free: List
    const used: List

    ghost predicate Valid()
      reads this, free, used, free.nodes, used.nodes
    {
      && free != used && free.Valid() && used.Valid()
      && (forall x :: x in free.nodes ==> x !in used.nodes)
      && (forall x, y ::
            x in free.nodes + used.nodes && y in free.nodes + used.nodes && x != y ==> x.buffer != y.buffer)
    }

    /** The buffers handed out and not yet given back. */
    ghost function Lent(): set<Buffer>
      reads this, used
    {
      set x | x in used.nodes :: x.buffer
    }

    constructor ()
      ensures Valid() && fresh(free) && fresh(used) && Lent() == {} && free.nodes == []
    {
      free := new List();
      used := new List();
    }

    /** Unlinks a node from the free list. */
    method TakeFree(node: Node, ghost i: nat)
      requires Valid() && i < |free.nodes| && free.nodes[i] == node
      modifies free, free.nodes
      ensures Valid() && free.nodes == old(Without(free.nodes, i)) && used.nodes == old(used.nodes)
      ensures node !in free.nodes && node !in used.nodes
      ensures forall x :: x in free.nodes + used.nodes ==> x.buffer != node.buffer
    {
      ghost var f, u := free.nodes, used.nodes;
      WithoutIn(f, i);
      assert node in f;
      assert forall k :: 0 <= k < |u| ==> u[k] in u && u[k] !in f;
      free.Remove(node, i);
      assert forall k :: 0 <= k < |u| ==> u[k].next == old(u[k].next);
      assert used.Valid();
    }

    /** Puts a node that is in neither list on the used list. */
    method AddUsed(node: Node)
      requires Valid() && node !in free.nodes && node !in used.nodes
      requires forall x :: x in free.nodes + used.nodes ==> x.buffer != node.buffer
      modifies used, used.nodes, node
      ensures Valid() && used.nodes == old(used.nodes) + [node] && free.nodes == old(free.nodes)
    {
      ghost var f := free.nodes;
      assert forall k :: 0 <= k < |f| ==> f[k] in f && f[k] !in used.nodes;
      used.Add(node);
      assert forall k :: 0 <= k < |f| ==> f[k].next == old(f[k].next);
      assert free.Valid();
    }

    /** Moves one node from the free to the used list. */
    method Lend(node: Node, ghost i: nat)
      requires Valid() && i < |free.nodes| && free.nodes[i] == node
      modifies free, used, free.nodes, used.nodes
      ensures Valid() && free.nodes == old(Without(free.nodes, i)) && used.nodes == old(used.nodes) + [node]
    {
      hide Valid, Without;
      assert node in free.nodes;
      TakeFree(node, i);
      AddUsed(node);
    }

    /** getNodeBuffFromFreeList: the first free buffer that is large enough and of the wanted kind. */
    method GetNode(sz: nat, pinned: bool) returns (b: Buffer?, ghost node: Node?)
      requires Valid()
      modifies free, used, free.nodes, used.nodes
      ensures Valid()
      ensures b == null ==> free.nodes == old(free.nodes) && used.nodes == old(used.nodes)
      ensures b == null <==> forall x :: x in old(free.nodes) ==> x.pinned != pinned || x.size < sz
      ensures b != null ==> node != null && node in old(free.nodes) && node.buffer == b
      ensures b != null ==> node.pinned == pinned && sz <= node.size && used.nodes == old(used.nodes) + [node]
      ensures b != null ==> forall x :: x in free.nodes ==> x in old(free.nodes)
    {
      var cur := free.head;
      ghost var i: nat := 0;
      while cur != null
        invariant i <= |free.nodes| && cur == if i < |free.nodes| then free.nodes[i] else null
        invariant Valid() && free.nodes == old(free.nodes) && used.nodes == old(used.nodes)
        invariant forall k :: 0 <= k < i ==> free.nodes[k].pinned != pinned || free.nodes[k].size < sz
        decreases |free.nodes| - i
      {
        if cur.pinned == pinned && sz <= cur.size {
          WithoutIn(free.nodes, i);
          Lend(cur, i);
          return cur.buffer, cur;
        }
        assert i + 1 < |free.nodes| ==> free.nodes[i].next == free.nodes[i + 1];
        cur, i := cur.next, i + 1;
      }
      return null, null;
    }

    /** Puts a node that is in neither list on the free list. */
    method AddFree(node: Node)
      requires Valid() && node !in free.nodes && node !in used.nodes
      requires forall x :: x in free.nodes + used.nodes ==> x.buffer != node.buffer
      modifies free, free.nodes, node
      ensures Valid() && free.nodes == old(free.nodes) + [node] && used.nodes == old(used.nodes)
    {
      ghost var f, u := free.nodes, used.nodes;
      assert forall k :: 0 <= k < |u| ==> u[k] in u && u[k] !in f;
      free.Add(node);
      assert forall k :: 0 <= k < |u| ==> u[k].next == old(u[k].next);
      assert used.Valid();
    }

    /** allocSomeNodesForFreeList: up to eight new buffers; memory is enough for the first avail. */
    method AddSome(sz: nat, pinned: bool, avail: nat)
      requires Valid()
      modifies free, free.nodes
      ensures Valid() && used.nodes == old(used.nodes) && old(free.nodes) <= free.nodes
      ensures |free.nodes| == |old(free.nodes)| + if avail < STREAM_BUFF_LIST_SZ then avail else STREAM_BUFF_LIST_SZ
      ensures forall k :: |old(free.nodes)| <= k < |free.nodes| ==>
                free.nodes[k].size == sz && free.nodes[k].pinned == pinned && fresh(free.nodes[k])
                    && fresh(free.nodes[k].buffer)
    {
      for i := 0 to STREAM_BUFF_LIST_SZ
        invariant Valid() && used.nodes == old(used.nodes) && old(free.nodes) <= free.nodes && i <= avail
        invariant |free.nodes| == |old(free.nodes)| + i
        invariant forall k :: |old(free.nodes)| <= k < |free.nodes| ==>
                    free.nodes[k].size == sz && free.nodes[k].pinned == pinned && fresh(free.nodes[k])
                        && fresh(free.nodes[k].buffer)
      {
        if i >= avail { break; }
        var buffer := new Buffer();
        var node := new Node(buffer, sz, pinned);
        AddFree(node);
      }
    }

    /** streamBufferAlloc: a buffer nobody else holds, of the wanted kind and at least the wanted size;
        none only when no free one fits and there is no memory for more. */
    method Alloc(sz: nat, pinned: bool, avail: nat) returns (b: Buffer?, ghost node: Node?)
      requires Valid()
      modifies free, used, free.nodes, used.nodes
      ensures Valid()
      ensures b == null ==> avail == 0 && Lent() == old(Lent())
      ensures b != null ==> b !in old(Lent()) && Lent() == old(Lent()) + {b}
      ensures b != null ==> node != null && node in used.nodes && node.buffer == b
      ensures b != null ==> node.pinned == pinned && sz <= node.size
    {
      b, node := GetNode(sz, pinned);
      if b == null {
        AddSome(sz, pinned, avail);
        assert avail > 0 ==> free.nodes[|old(free.nodes)|] in free.nodes;
        b, node := GetNode(sz, pinned);
      }
      if b != null { assert node in old(free.nodes) || fresh(b); }
    }

    /** The walk of streamBufferFree along the used list. */
    method FindUsed(b: Buffer) returns (node: Node?, ghost i: nat)
      requires Valid()
      ensures node != null <==> b in Lent()
      ensures node != null ==> i < |used.nodes| && used.nodes[i] == node && node.buffer == b
    {
      node, i := used.head, 0;
      while node != null
        invariant i <= |used.nodes| && node == if i < |used.nodes| then used.nodes[i] else null
        invariant forall k :: 0 <= k < i ==> used.nodes[k].buffer != b
        decreases |used.nodes| - i
      {
        if node.buffer == b { return; }
        assert i + 1 < |used.nodes| ==> used.nodes[i].next == used.nodes[i + 1];
        node, i := node.next, i + 1;
      }
    }

    /** streamBufferFree: takes the buffer back, or releases it for good when eight are free already;
        an address that was not handed out is ignored. */
    method Free(b: Buffer)
      requires Valid()
      modifies free, used, free.nodes, used.nodes
      ensures Valid() && Lent() == old(Lent()) - {b}
      ensures |free.nodes| == |old(free.nodes)| +
              (if b in old(Lent()) && |old(free.nodes)| < STREAM_BUFF_LIST_SZ then 1 else 0)
      ensures forall x :: x in old(free.nodes) ==> x in free.nodes
    {
      var node, i := FindUsed(b);
      if node != null {
        TakeBack(node, i);
        if STREAM_BUFF_LIST_SZ > free.size { AddFree(node); }
      }
    }

    method TakeBack(node: Node, ghost i: nat)
      requires Valid() && i < |used.nodes| && used.nodes[i] == node
      modifies used, used.nodes
      ensures Valid() && used.nodes == old(Without(used.nodes, i)) && free.nodes == old(free.nodes)
      ensures node !in free.nodes && node !in used.nodes && Lent() == old(Lent()) - {node.buffer}
      ensures forall x :: x in free.nodes + used.nodes ==> x.buffer != node.buffer
    {
      ghost var f, u := free.nodes, used.nodes;
      WithoutIn(u, i);
      assert node in u;
      assert forall k :: 0 <= k < |f| ==> f[k] in f && f[k] !in u;
      used.Remove(node, i);
      assert forall k :: 0 <= k < |f| ==> f[k].next == old(f[k].next);
      assert free.Valid();
    }
  }

  lemma WithoutIn<T>(s: seq<T>, i: nat)
    requires i < |s| && forall j, k :: 0 <= j < k < |s| ==> s[j] != s[k]
    ensures forall x :: x in Without(s, i) <==> x in s && x != s[i]
  {
    var r := Without(s, i);
    forall x | x in s && x != s[i] ensures x in r {
      var k :| 0 <= k < |s| && s[k] == x;
      assert r[if k < i then k else k - 1] == x;
    }
    forall x | x in r ensures x in s && x != s[i] {
      var k :| 0 <= k < |r| && r[k] == x;
      assert x == s[if k < i then k else k + 1];
    }
  }
}
