/** The four-level table of registered pages: 48-bit addresses, 4 KB pages, nine bits per level. */
module PageTable {
  import opened Bytes

  const PAGE: nat := 0x1000
  const LEVEL_SIZE: nat := 512
  const ADDRESSES: nat := 0x1_0000_0000_0000
  const PAGES: nat := 0x10_0000_0000
  const PINNED: u64 := 0xFFFF_FFFF_FFFF_FFFF
  const LEAF: nat := 3

  /** The page number: the bits of a 48-bit address above the offset. */
  function Page(addr: nat): (r: nat)
    ensures r < PAGES
  {
    addr / PAGE % PAGES
  }

  /** Pages have 4 KB, and no two pages of the 48-bit address space share a number. */
  lemma PageOfAddress(addr: nat)
    requires addr < 0x1_0000_0000_0000
    ensures Page(addr) == addr / 4096
  {
  }

  /** idxl3 at the root, then idxl2, idxl1, idxl0. */
  function Index(page: nat, depth: nat): (r: nat)
    requires depth <= LEAF
    ensures r < LEVEL_SIZE
  {
    (match depth
     case 0 => page / 0x800_0000
     case 1 => page / 0x4_0000
     case 2 => page / 0x200
     case _ => page) % LEVEL_SIZE
  }

  /** The four indices name the page. */
  lemma IndicesName(p: nat, q: nat)
    requires p < PAGES && q < PAGES && forall d :: 0 <= d <= LEAF ==> Index(p, d) == Index(q, d)
    ensures p == q
  {
    assert Index(p, 0) == Index(q, 0) && Index(p, 1) == Index(q, 1) && Index(p, 2) == Index(q, 2)
        && Index(p, 3) == Index(q, 3);
    PageParts(p);
    PageParts(q);
  }

  lemma PageParts(p: nat)
    requires p < PAGES
    ensures p == 0x800_0000 * Index(p, 0) + 0x4_0000 * Index(p, 1) + 0x200 * Index(p, 2) + Index(p, 3)
  {
    assert p / 0x200 / 0x200 == p / 0x4_0000;
    assert p / 0x4_0000 / 0x200 == p / 0x800_0000;
  }

  type Table = t: seq<u64> | |t| == LEVEL_SIZE witness seq(LEVEL_SIZE, _ => 0)

  /** Tables are numbered as they are mapped; the root is table 0, so 0 serves as NULL. An entry is
      a table number in the upper three levels and a type in the lowest. */
  ghost predicate Tree(mem: seq<Table>, depth: seq<nat>) {
    && 0 < |mem| == |depth| && depth[0] == 0 && |mem| < 0x1_0000_0000_0000_0000
    && (forall t :: 0 <= t < |mem| ==> depth[t] <= LEAF)
    && (forall t, i :: 0 <= t < |mem| && 0 <= i < LEVEL_SIZE && depth[t] < LEAF && mem[t][i] != 0 ==>
          mem[t][i] < |mem| && depth[mem[t][i]] == depth[t] + 1)
    && (forall t, i, u, j ::
          (0 <= t < |mem| && 0 <= i < LEVEL_SIZE && 0 <= u < |mem| && 0 <= j < LEVEL_SIZE
           && depth[t] < LEAF && depth[u] < LEAF && mem[t][i] != 0 && mem[t][i] == mem[u][j]) ==> t == u && i == j)
  }

  /** The table of the given depth on the way to a page; 0 below the root when there is none. */
  function Reach(mem: seq<Table>, page: nat, d: nat): (r: nat)
    requires |mem| > 0 && d <= LEAF
    ensures r < |mem|
    decreases d
  {
    if d == 0 then 0
    else
      var t := Reach(mem, page, d - 1);
      if d > 1 && t == 0 then 0
      else if mem[t][Index(page, d - 1)] < |mem| then mem[t][Index(page, d - 1)]
      else 0
  }

  /** What loadAddr finds for a page. */
  function Entry(mem: seq<Table>, page: nat): u64
    requires |mem| > 0
  {
    var t := Reach(mem, page, LEAF);
    if t == 0 then 0 else mem[t][Index(page, LEAF)]
  }

  lemma {:induction false} ReachDepth(mem: seq<Table>, depth: seq<nat>, page: nat, d: nat)
    requires Tree(mem, depth) && d <= LEAF
    ensures var t := Reach(mem, page, d); d == 0 || t == 0 || depth[t] == d
    decreases d
  {
    if d > 0 { ReachDepth(mem, depth, page, d - 1); }
  }

  lemma OneParent(mem: seq<Table>, depth: seq<nat>, t: nat, i: nat, u: nat, j: nat)
    requires Tree(mem, depth) && t < |mem| && u < |mem| && i < LEVEL_SIZE && j < LEVEL_SIZE
    requires depth[t] < LEAF && depth[u] < LEAF && mem[t][i] == mem[u][j] != 0
    ensures t == u && i == j
  {
  }

  /** Pages that share a table share all the indices above it. */
  lemma {:induction false} SharedPath(mem: seq<Table>, depth: seq<nat>, p: nat, q: nat, d: nat)
    requires Tree(mem, depth) && d <= LEAF && (d == 0 || Reach(mem, p, d) != 0) && Reach(mem, p, d) == Reach(mem, q, d)
    ensures forall e :: 0 <= e < d ==> Index(p, e) == Index(q, e)
    decreases d
  {
    hide Index;
    if d > 0 {
      hide Tree;
      ReachDepth(mem, depth, p, d - 1);
      ReachDepth(mem, depth, q, d - 1);
      OneParent(mem, depth, Reach(mem, p, d - 1), Index(p, d - 1), Reach(mem, q, d - 1), Index(q, d - 1));
      SharedPath(mem, depth, p, q, d - 1);
    }
  }

  /** Mapping a blank table under a NULL entry. */
  function Grown(mem: seq<Table>, t: nat, i: nat): seq<Table>
    requires t < |mem| && i < LEVEL_SIZE && |mem| < 0x1_0000_0000_0000_0000
  {
    mem[t := mem[t][i := |mem|]] + [seq(LEVEL_SIZE, _ => 0)]
  }

  lemma GrownCell(mem: seq<Table>, t: nat, i: nat, u: nat, j: nat)
    requires t < |mem| && i < LEVEL_SIZE && |mem| < 0x1_0000_0000_0000_0000 && u <= |mem| && j < LEVEL_SIZE
    ensures var m := Grown(mem, t, i);
      |m| == |mem| + 1 && m[u][j] == if u == |mem| then 0 else if u == t && j == i then |mem| else mem[u][j]
  {
  }

  lemma GrownTree(mem: seq<Table>, depth: seq<nat>, t: nat, i: nat)
    requires Tree(mem, depth) && t < |mem| && i < LEVEL_SIZE && depth[t] < LEAF && mem[t][i] == 0
             && |mem| + 1 < 0x1_0000_0000_0000_0000
    ensures Tree(Grown(mem, t, i), depth + [depth[t] + 1])
  {
  }

  /** Nothing that was reached is lost, and what was not there still loads as 0. */
  lemma {:induction false} GrownReach(mem: seq<Table>, depth: seq<nat>, t: nat, i: nat, page: nat, d: nat)
    requires Tree(mem, depth) && t < |mem| && i < LEVEL_SIZE && depth[t] < LEAF && mem[t][i] == 0
    requires |mem| + 1 < 0x1_0000_0000_0000_0000 && d <= LEAF
    ensures var m := Grown(mem, t, i);
      Reach(m, page, d) == Reach(mem, page, d) || (Reach(mem, page, d) == 0 && Reach(m, page, d) == |mem|)
    decreases d
  {
    hide Index, Grown;
    GrownCell(mem, t, i, 0, 0);
    if d > 0 {
      GrownReach(mem, depth, t, i, page, d - 1);
      ReachDepth(mem, depth, page, d - 1);
      GrownCell(mem, t, i, Reach(mem, page, d - 1), Index(page, d - 1));
      GrownCell(mem, t, i, |mem|, Index(page, d - 1));
    }
  }

  lemma GrownEntry(mem: seq<Table>, depth: seq<nat>, t: nat, i: nat, page: nat)
    requires Tree(mem, depth) && t < |mem| && i < LEVEL_SIZE && depth[t] < LEAF && mem[t][i] == 0
    requires |mem| + 1 < 0x1_0000_0000_0000_0000
    ensures Entry(Grown(mem, t, i), page) == Entry(mem, page)
  {
    hide Index;
    GrownReach(mem, depth, t, i, page, LEAF);
    ReachDepth(mem, depth, page, LEAF);
  }

  /** Writing an entry of a leaf changes what its own page loads, and nothing else. */
  lemma {:induction false} LeafReach(mem: seq<Table>, depth: seq<nat>, t: nat, i: nat, v: u64, page: nat, d: nat)
    requires Tree(mem, depth) && t < |mem| && i < LEVEL_SIZE && depth[t] == LEAF && d <= LEAF
    ensures Reach(mem[t := mem[t][i := v]], page, d) == Reach(mem, page, d)
    decreases d
  {
    hide Index;
    if d > 0 {
      LeafReach(mem, depth, t, i, v, page, d - 1);
      ReachDepth(mem, depth, page, d - 1);
    }
  }

  lemma LeafTree(mem: seq<Table>, depth: seq<nat>, t: nat, i: nat, v: u64)
    requires Tree(mem, depth) && t < |mem| && i < LEVEL_SIZE && depth[t] == LEAF
    ensures Tree(mem[t := mem[t][i := v]], depth)
  {
  }

  lemma LeafEntry(mem: seq<Table>, depth: seq<nat>, p: nat, v: u64, q: nat)
    requires Tree(mem, depth) && p < PAGES && q < PAGES && Reach(mem, p, LEAF) != 0
    ensures var t := Reach(mem, p, LEAF);
      Entry(mem[t := mem[t][Index(p, LEAF) := v]], q) == if q == p then v else Entry(mem, q)
  {
    hide Index;
    var t := Reach(mem, p, LEAF);
    ReachDepth(mem, depth, p, LEAF);
    LeafReach(mem, depth, t, Index(p, LEAF), v, q, LEAF);
    if q != p && Reach(mem, q, LEAF) == t && Index(q, LEAF) == Index(p, LEAF) {
      SharedPath(mem, depth, p, q, LEAF);
      IndicesName(p, q);
    }
  }

  // ---- ranges of pages ----

  /** How many pages a loop in steps of one page visits for size bytes. */
  function Visits(size: nat): nat {
    (size + PAGE - 1) / PAGE
  }

  /** The page of some byte of the range. */
  predicate OnPage(virt: nat, size: nat, q: nat) {
    size > 0 && virt / PAGE <= q <= (virt + size - 1) / PAGE
  }

  lemma BytePages(virt: nat, size: nat, q: nat)
    requires virt + size <= ADDRESSES
    ensures OnPage(virt, size, q) <==> exists b :: virt <= b < virt + size && Page(b) == q
  {
    if OnPage(virt, size, q) {
      var b := if q * PAGE < virt then virt else q * PAGE;
      assert virt <= b < virt + size && Page(b) == q;
    }
  }

  /** Visiting every PAGE bytes from virt on meets exactly the pages of the range when virt is the
      start of a page, and in general exactly when the last byte lies no page further than size - 1. */
  lemma VisitsAreExact(virt: nat, size: nat)
    requires virt + size <= ADDRESSES
    ensures (forall q: nat :: OnPage(virt, size, q) <==> virt / PAGE <= q < virt / PAGE + Visits(size))
            <==> size == 0 || (virt % PAGE + size - 1) / PAGE == (size - 1) / PAGE
    ensures virt % PAGE == 0 && size > 0 ==> (virt % PAGE + size - 1) / PAGE == (size - 1) / PAGE
  {
    if size > 0 {
      var last := (virt + size - 1) / PAGE;
      assert last == virt / PAGE + (virt % PAGE + size - 1) / PAGE;
      assert Visits(size) == (size - 1) / PAGE + 1;
      assert OnPage(virt, size, last);
    }
  }

  /** Rounding the start down to its page and the size up by as much visits the pages of all bytes. */
  lemma RoundedRange(a: nat, sz: nat)
    requires sz > 0 && a + sz <= ADDRESSES
    ensures forall q: nat :: OnPage(a, sz, q) <==>
              (a - a % PAGE) / PAGE <= q < (a - a % PAGE) / PAGE + Visits(sz + a % PAGE)
    ensures forall b :: a <= b < a + sz ==> OnPage(a, sz, Page(b))
  {
    VisitsAreExact(a - a % PAGE, sz + a % PAGE);
    assert forall q: nat :: OnPage(a - a % PAGE, sz + a % PAGE, q) <==> OnPage(a, sz, q);
  }

  // ---- the table in memory ----

  class PageMap {
    var mem: seq<Table>
    ghost var depth: seq<nat>

    ghost predicate Valid()
      reads this
    {
      Tree(mem, depth)
    }

    /** The abstract map from pages to types; 0 for pages never registered. */
    ghost function Load(page: nat): u64
      requires Valid()
      reads this
    {
      Entry(mem, page)
    }

    constructor ()
      ensures Valid() && forall page :: 0 <= page < PAGES ==> Load(page) == 0
    {
      mem, depth := [seq(LEVEL_SIZE, _ => 0)], [0];
    }

    /** nextLevel: maps a blank table under a NULL entry; NULL (0) when mmap fails. */
    method NextLevel(t: nat, i: nat, mmapFails: bool, ghost page: nat, ghost d: nat) returns (next: nat)
      requires Valid() && t < |mem| && i < LEVEL_SIZE && |mem| + 1 < 0x1_0000_0000_0000_0000
      requires d < LEAF && t == Reach(mem, page, d) && i == Index(page, d) && (d == 0 || t != 0)
      modifies this
      ensures Valid() && |old(mem)| <= |mem| <= |old(mem)| + 1
      ensures next == 0 <==> old(mem[t][i]) == 0 && mmapFails
      ensures next != 0 ==> next == Reach(mem, page, d + 1)
      ensures forall q :: 0 <= q < PAGES ==> Load(q) == old(Load(q))
    {
      hide Index, Grown;
      ReachDepth(mem, depth, page, d);
      if mem[t][i] != 0 { return mem[t][i]; }
      if mmapFails { return 0; }
      GrownCell(mem, t, i, t, i);
      forall q | 0 <= q < PAGES ensures Entry(Grown(mem, t, i), q) == Entry(mem, q) {
        GrownEntry(mem, depth, t, i, q);
      }
      GrownTree(mem, depth, t, i);
      GrownReach(mem, depth, t, i, page, d);
      next := |mem|;
      mem, depth := Grown(mem, t, i), depth + [depth[t] + 1];
    }

    /** storeAddr: on success exactly the page of virt loads the new type; on failure nothing changes. */
    method StoreAddr(virt: nat, kind: u64, fails: (nat, nat) -> bool) returns (rc: int)
      requires Valid() && |mem| + 3 < 0x1_0000_0000_0000_0000
      modifies this
      ensures Valid() && |mem| <= |old(mem)| + 3 && (rc == 0 || rc == -1)
      ensures forall q :: 0 <= q < PAGES ==> Load(q) == if rc == 0 && q == Page(virt) then kind else old(Load(q))
    {
      hide Index, Page, Entry;
      var page := Page(virt);
      var level := NextLevel(0, Index(page, 0), fails(page, 0), page, 0);
      if level == 0 { return -1; }
      level := NextLevel(level, Index(page, 1), fails(page, 1), page, 1);
      if level == 0 { return -1; }
      level := NextLevel(level, Index(page, 2), fails(page, 2), page, 2);
      if level == 0 { return -1; }
      SetLeaf(level, page, kind);
      rc := 0;
    }

    method SetLeaf(level: nat, page: nat, kind: u64)
      requires Valid() && page < PAGES && level == Reach(mem, page, LEAF) != 0
      modifies this`mem
      ensures Valid() && |mem| == |old(mem)|
      ensures forall q :: 0 <= q < PAGES ==> Load(q) == if q == page then kind else old(Load(q))
    {
      hide Index, Entry;
      ReachDepth(mem, depth, page, LEAF);
      LeafTree(mem, depth, level, Index(page, LEAF), kind);
      var leaf: Table := mem[level][Index(page, LEAF) := kind];
      var m: seq<Table> := mem[level := leaf];
      forall q | 0 <= q < PAGES ensures Entry(m, q) == if q == page then kind else Entry(mem, q) {
        LeafEntry(mem, depth, page, kind, q);
      }
      mem := m;
    }

    /** loadAddr. */
    method LoadAddr(virt: nat) returns (r: u64)
      requires Valid()
      ensures r == Load(Page(virt))
    {
      var page := Page(virt);
      ReachDepth(mem, depth, page, 1);
      ReachDepth(mem, depth, page, 2);
      var level := mem[0][Index(page, 0)];
      if level == 0 { return 0; }
      level := mem[level][Index(page, 1)];
      if level == 0 { return 0; }
      level := mem[level][Index(page, 2)];
      if level == 0 { return 0; }
      r := mem[level][Index(page, LEAF)];
    }

    /** storeMmapRange: on success exactly the visited pages change. */
    method StoreMmapRange(virt: nat, kind: u64, size: nat, fails: (nat, nat) -> bool) returns (rc: int)
      requires Valid() && virt + size <= ADDRESSES && |mem| + 3 * Visits(size) + 3 < 0x1_0000_0000_0000_0000
      modifies this
      ensures Valid() && (rc == 0 || rc == -1)
      ensures rc == 0 ==> forall q :: 0 <= q < PAGES ==>
                Load(q) == if virt / PAGE <= q < virt / PAGE + Visits(size) then kind else old(Load(q))
      ensures forall q :: 0 <= q < PAGES ==>
                Load(q) == old(Load(q)) || (virt / PAGE <= q < virt / PAGE + Visits(size) && Load(q) == kind)
    {
      hide Entry, Tree;
      var offset: nat, n: nat := 0, 0;
      while offset < size
        invariant Valid() && offset == n * PAGE && n <= Visits(size) && |mem| <= |old(mem)| + 3 * n
        invariant forall q :: 0 <= q < PAGES ==>
                    Load(q) == if virt / PAGE <= q < virt / PAGE + n then kind else old(Load(q))
        decreases size - offset
      {
        assert Page(virt + offset) == virt / PAGE + n;
        var r := StoreAddr(virt + offset, kind, fails);
        if r != 0 { return -1; }
        offset, n := offset + PAGE, n + 1;
      }
      rc := 0;
    }

    /** qzMemFindAddr: is the page of this address registered? */
    method MemFindAddr(a: nat) returns (pinned: bool)
      requires Valid()
      ensures pinned <==> Load(Page(a)) == PINNED
    {
      hide Entry, Tree;
      assert Page(a - a % PAGE) == Page(a);
      var r := LoadAddr(a - a % PAGE);
      pinned := r == PINNED;
    }

    /** qzMemRegAddr: rounds down to the page and registers the page of every byte; when the first and
        the last page are registered already it trusts the rest and stores nothing. */
    method MemRegAddr(a: nat, sz: nat, fails: (nat, nat) -> bool) returns (rc: int, ghost stored: bool)
      requires Valid() && 1 <= sz && a + sz <= ADDRESSES
               && |mem| + 3 * Visits(a % PAGE + sz) + 3 < 0x1_0000_0000_0000_0000
      modifies this
      ensures Valid() && (rc == 0 || rc == -1)
      ensures !stored <==> old(Load(Page(a))) == PINNED && old(Load(Page(a + sz - 1))) == PINNED
      ensures !stored ==> rc == 0 && forall q :: 0 <= q < PAGES ==> Load(q) == old(Load(q))
      ensures stored && rc == 0 ==>
                forall q :: 0 <= q < PAGES ==> Load(q) == if OnPage(a, sz, q) then PINNED else old(Load(q))
      ensures stored && rc == 0 ==> forall b :: a <= b < a + sz ==> Load(Page(b)) == PINNED
    {
      hide Entry, Tree;
      var first := MemFindAddr(a);
      var last := MemFindAddr(a + sz - 1);
      if first && last { return 0, false; }
      var start := a - a % PAGE;
      var size := sz + (a - start);
      rc := StoreMmapRange(start, PINNED, size, fails);
      stored := true;
      RoundedRange(a, sz);
      hide OnPage, Page, Visits;
    }
  }
}
