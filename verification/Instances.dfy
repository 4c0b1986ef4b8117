/** Discovering the hardware instances and shuffling them round-robin over the devices. */
module Instances {
  import opened Arithmetic
  import opened Wrappers

  const QAT_MAX_DEVICES: nat := 1024

  /** What discovery records about an instance, and the handle it was found under. */
  datatype Instance = Instance(info: nat, handle: nat)

  function Bag(lists: seq<seq<Instance>>): multiset<Instance> {
    if |lists| == 0 then multiset{} else Bag(lists[..|lists| - 1]) + multiset(lists[|lists| - 1])
  }

  /** Number of devices that have an instance. */
  function NonEmpty(lists: seq<seq<Instance>>): nat {
    if |lists| == 0 then 0 else NonEmpty(lists[..|lists| - 1]) + if lists[|lists| - 1] == [] then 0 else 1
  }

  lemma AddBoth(a: multiset<Instance>, b: multiset<Instance>, x: multiset<Instance>, y: multiset<Instance>,
      c: multiset<Instance>)
    requires a + b == x + y
    ensures (a + c) + b == (x + c) + y
  {
    assert (a + c) + b == (a + b) + c && (x + c) + y == (x + y) + c;
  }

  lemma {:induction false} BagUpdate(lists: seq<seq<Instance>>, d: nat, l: seq<Instance>)
    requires d < |lists|
    ensures Bag(lists[d := l]) + multiset(lists[d]) == Bag(lists) + multiset(l)
    decreases |lists|
  {
    var n := |lists| - 1;
    var front := lists[..n];
    if d < n {
      assert lists[d := l][..n] == front[d := l] && front[d] == lists[d];
      BagUpdate(front, d, l);
      var c := multiset(lists[n]);
      assert Bag(lists[d := l]) == Bag(front[d := l]) + c && Bag(lists) == Bag(front) + c;
      AddBoth(Bag(front[d := l]), multiset(lists[d]), Bag(front), multiset(l), c);
    } else {
      assert lists[d := l][..n] == front && lists[d := l][n] == l;
    }
  }

  lemma {:induction false} NonEmptyUpdate(lists: seq<seq<Instance>>, d: nat, l: seq<Instance>)
    requires d < |lists|
    ensures NonEmpty(lists[d := l]) + (if lists[d] == [] then 0 else 1) == NonEmpty(lists) + if l == [] then 0 else 1
    decreases |lists|
  {
    var n := |lists| - 1;
    var front := lists[..n];
    if d < n {
      assert lists[d := l][..n] == front[d := l];
      NonEmptyUpdate(front, d, l);
    } else {
      assert lists[d := l][..n] == front;
    }
  }

  lemma {:induction false} EmptyBag(lists: seq<seq<Instance>>)
    requires forall d :: 0 <= d < |lists| ==> lists[d] == []
    ensures Bag(lists) == multiset{}
    decreases |lists|
  {
    if |lists| > 0 { EmptyBag(lists[..|lists| - 1]); }
  }

  lemma AppendToBag(lists: seq<seq<Instance>>, d: nat, x: Instance)
    requires d < |lists|
    ensures Bag(lists[d := lists[d] + [x]]) == Bag(lists) + multiset{x}
  {
    hide Bag;
    BagUpdate(lists, d, lists[d] + [x]);
    assert multiset(lists[d] + [x]) == multiset(lists[d]) + multiset{x};
    Cancel(Bag(lists[d := lists[d] + [x]]), multiset(lists[d]), Bag(lists), multiset{x});
  }

  lemma RemoveFromBag(lists: seq<seq<Instance>>, d: nat)
    requires d < |lists| && lists[d] != []
    ensures Bag(lists[d := lists[d][1..]]) + multiset{lists[d][0]} == Bag(lists)
  {
    hide Bag;
    BagUpdate(lists, d, lists[d][1..]);
    assert lists[d] == [lists[d][0]] + lists[d][1..];
    Cancel(Bag(lists), multiset(lists[d][1..]), Bag(lists[d := lists[d][1..]]), multiset{lists[d][0]});
  }

  lemma Cancel(a: multiset<Instance>, b: multiset<Instance>, c: multiset<Instance>, x: multiset<Instance>)
    requires a + b == c + (b + x)
    ensures a == c + x
  {
    forall i ensures a[i] == (c + x)[i] { assert (a + b)[i] == (c + (b + x))[i]; }
  }

  /** The highest device below n that has an instance, or keep. */
  function TopBelow(lists: seq<seq<Instance>>, n: nat, keep: nat): nat
    requires n <= |lists|
  {
    if n == 0 then keep else if lists[n - 1] != [] then n - 1 else TopBelow(lists, n - 1, keep)
  }

  /** The largest id after an instance of dev has been taken. */
  function MaxAfter(lists: seq<seq<Instance>>, dev: nat, maxDevId: nat): nat
    requires dev < |lists| && maxDevId < |lists|
  {
    if lists[dev] == [] && dev == maxDevId then TopBelow(lists, maxDevId, maxDevId) else maxDevId
  }

  /** QzHardware_T: a list of instances per device, and the largest device id in use. */
  class Hardware {
    const devices: array<seq<Instance>>
    var devNum: nat
    var maxDevId: nat

    ghost predicate Valid()
      reads this, devices
    {
      && devices.Length == QAT_MAX_DEVICES && maxDevId < QAT_MAX_DEVICES
      && devNum == NonEmpty(devices[..])
      && forall d :: 0 <= d < devices.Length && devices[d] != [] ==> d <= maxDevId
    }

    ghost function All(): multiset<Instance>
      reads this, devices
    {
      Bag(devices[..])
    }

    constructor ()
      ensures Valid() && fresh(devices) && All() == multiset{} && maxDevId == 0
    {
      devices := new seq<Instance>[QAT_MAX_DEVICES](_ => []);
      devNum, maxDevId := 0, 0;
      new;
      EmptyBag(devices[..]);
      NothingNonEmpty(devices[..]);
    }

    /** setInstance appends to the device's list; false for a device id out of range. */
    method SetInstance(dev: nat, x: Instance) returns (ok: bool)
      requires Valid()
      modifies this, devices
      ensures Valid() && ok == (dev < QAT_MAX_DEVICES)
      ensures ok ==> devices[..] == old(devices[..])[dev := old(devices[..])[dev] + [x]]
      ensures ok ==> All() == old(All()) + multiset{x}
      ensures ok ==> maxDevId == if dev > old(maxDevId) then dev else old(maxDevId)
      ensures !ok ==> devices[..] == old(devices[..]) && maxDevId == old(maxDevId)
    {
      if dev >= QAT_MAX_DEVICES { return false; }
      hide Bag;
      AppendToBag(devices[..], dev, x);
      NonEmptyUpdate(devices[..], dev, devices[dev] + [x]);
      if devices[dev] == [] { devNum := devNum + 1; }
      devices[dev] := devices[dev] + [x];
      assert devices[..] == old(devices[..])[dev := old(devices[..])[dev] + [x]];
      if dev > maxDevId { maxDevId := dev; }
      ok := true;
    }

    /** getInstance takes the first instance of a device off its list. When the last device in use
        runs empty, the largest id moves down to the next device in use. */
    method GetInstance(dev: nat) returns (r: Option<Instance>)
      requires Valid()
      modifies this, devices
      ensures Valid() && maxDevId <= old(maxDevId)
      ensures r.None? <==> dev >= QAT_MAX_DEVICES || old(devices[..])[dev] == []
      ensures r.None? ==> devices[..] == old(devices[..]) && maxDevId == old(maxDevId)
      ensures r.Some? ==> old(devices[dev]) == [r.value] + devices[dev]
      ensures r.Some? ==> devices[..] == old(devices[..])[dev := devices[dev]]
      ensures r.Some? ==> old(maxDevId) < devices.Length && maxDevId == MaxAfter(devices[..], dev, old(maxDevId))
      ensures r.Some? ==> All() + multiset{r.value} == old(All())
    {
      if dev >= QAT_MAX_DEVICES || devices[dev] == [] { return None; }
      var first, rest := devices[dev][0], devices[dev][1..];
      hide Bag, NonEmpty;
      assert devices[dev] == [first] + rest;
      RemoveFromBag(devices[..], dev);
      NonEmptyUpdate(devices[..], dev, rest);
      NonEmptyPositive(devices[..], dev);
      devices[dev] := rest;
      assert devices[..] == old(devices[..])[dev := rest];
      if rest == [] && devNum > 0 {
        devNum := devNum - 1;
        if maxDevId > 0 && dev == maxDevId { LowerMax(); }
      }
      r := Some(first);
    }

    /** The downward search; when every device is empty the id stays. */
    method LowerMax()
      requires devices.Length == QAT_MAX_DEVICES && 0 < maxDevId < QAT_MAX_DEVICES && devices[maxDevId] == []
      requires forall d :: 0 <= d < devices.Length && devices[d] != [] ==> d <= maxDevId
      modifies this`maxDevId
      ensures maxDevId <= old(maxDevId)
      ensures forall d :: 0 <= d < devices.Length && devices[d] != [] ==> d <= maxDevId
      ensures maxDevId == TopBelow(devices[..], old(maxDevId), old(maxDevId))
    {
      var i := maxDevId - 1;
      while i >= 0
        invariant -1 <= i < maxDevId && maxDevId == old(maxDevId)
        invariant forall d :: i < d < devices.Length ==> devices[d] == []
        invariant TopBelow(devices[..], maxDevId, maxDevId) == TopBelow(devices[..], i + 1, maxDevId)
      {
        if devices[i] != [] {
          maxDevId := i;
          return;
        }
        i := i - 1;
      }
    }
  }

  lemma {:induction false} NothingNonEmpty(lists: seq<seq<Instance>>)
    requires forall d :: 0 <= d < |lists| ==> lists[d] == []
    ensures NonEmpty(lists) == 0
    decreases |lists|
  {
    if |lists| > 0 { NothingNonEmpty(lists[..|lists| - 1]); }
  }

  lemma {:induction false} NonEmptyPositive(lists: seq<seq<Instance>>, d: nat)
    requires d < |lists| && lists[d] != []
    ensures NonEmpty(lists) > 0
    decreases |lists|
  {
    if d < |lists| - 1 { NonEmptyPositive(lists[..|lists| - 1], d); }
  }

  // ---- the shuffle ----

  lemma {:induction false} SomeNonEmpty(lists: seq<seq<Instance>>)
    requires |Bag(lists)| > 0
    ensures exists d :: 0 <= d < |lists| && lists[d] != []
    decreases |lists|
  {
    var n := |lists| - 1;
    if lists[n] == [] {
      SomeNonEmpty(lists[..n]);
      var d :| 0 <= d < n && lists[..n][d] != [];
      assert lists[d] != [];
    }
  }

  /** Every window of modulus iterations visits every device. */
  lemma WindowVisits(start: nat, modulus: nat, d: nat) returns (k: nat)
    requires d < modulus
    ensures start <= k < start + modulus && k % modulus == d
  {
    var r, q := start % modulus, start / modulus;
    assert start == modulus * q + r;
    if r <= d {
      k := start + (d - r);
      DivModUnique(k, modulus, q, d);
    } else {
      k := start + (modulus - r + d);
      Distribute(modulus, q, 1);
      DivModUnique(k, modulus, q + 1, d);
    }
  }

  /** Iteration k looks at a device without instances. */
  ghost predicate Misses(lists: seq<seq<Instance>>, maxDevId: nat, k: nat) {
    maxDevId < |lists| && lists[k % (maxDevId + 1)] == []
  }

  /** What the loop deals from: the lists of all devices and the largest id. */
  datatype Deck = Deck(lists: seq<seq<Instance>>, maxDevId: nat)

  /** The instance that iteration i finds. */
  ghost function Drawn(k: Deck, i: nat): Instance
    requires k.maxDevId < |k.lists| && !Misses(k.lists, k.maxDevId, i)
  {
    k.lists[i % (k.maxDevId + 1)][0]
  }

  /** What is left after that. */
  ghost function Draw(k: Deck, i: nat): (r: Deck)
    requires k.maxDevId < |k.lists| && !Misses(k.lists, k.maxDevId, i)
    ensures |r.lists| == |k.lists|
  {
    var dev := i % (k.maxDevId + 1);
    var lists := k.lists[dev := k.lists[dev][1..]];
    Deck(lists, MaxAfter(lists, dev, k.maxDevId))
  }

  /** The instances found in the iterations turns, and what is left: each time the first instance of the
      device whose turn it is, when every iteration in between has missed. None: not so. */
  ghost function Deal(k: Deck, turns: seq<nat>): Option<(Deck, seq<Instance>)> {
    if |turns| == 0 then Some((k, []))
    else
      var n := |turns| - 1;
      var r :- Deal(k, turns[..n]);
      var start := if n == 0 then 0 else turns[n - 1] + 1;
      if r.0.maxDevId >= |r.0.lists| || turns[n] < start || Misses(r.0.lists, r.0.maxDevId, turns[n])
         || exists m :: start <= m < turns[n] && !Misses(r.0.lists, r.0.maxDevId, m)
      then None
      else Some((Draw(r.0, turns[n]), r.1 + [Drawn(r.0, turns[n])]))
  }

  /** As long as an instance is left, not every iteration of a window misses. */
  lemma WindowHits(hw: Hardware, start: nat, i: nat)
    requires hw.Valid() && |hw.All()| > 0 && start <= i
    requires forall k :: start <= k < i ==> Misses(hw.devices[..], hw.maxDevId, k)
    ensures i - start <= hw.maxDevId
  {
    SomeNonEmpty(hw.devices[..]);
    var d :| 0 <= d < QAT_MAX_DEVICES && hw.devices[..][d] != [];
    var k := WindowVisits(start, hw.maxDevId + 1, d);
    assert !Misses(hw.devices[..], hw.maxDevId, k);
  }

  /** One iteration's look at the device whose turn it is. */
  method TakeTurn(hw: Hardware, i: nat) returns (x: Option<Instance>)
    requires hw.Valid()
    modifies hw, hw.devices
    ensures hw.Valid() && hw.maxDevId <= old(hw.maxDevId)
    ensures x.None? ==> hw.devices[..] == old(hw.devices[..]) && hw.maxDevId == old(hw.maxDevId)
    ensures x.None? ==> Misses(hw.devices[..], hw.maxDevId, i) && hw.All() == old(hw.All())
    ensures x.Some? ==> hw.All() + multiset{x.value} == old(hw.All())
    ensures x.Some? ==> !Misses(old(hw.devices[..]), old(hw.maxDevId), i) && old(hw.maxDevId) < hw.devices.Length
                        && Deck(hw.devices[..], hw.maxDevId) == Draw(old(Deck(hw.devices[..], hw.maxDevId)), i)
                        && x.value == Drawn(old(Deck(hw.devices[..], hw.maxDevId)), i)
  {
    hide Bag, NonEmpty, TopBelow;
    x := hw.GetInstance(i % (hw.maxDevId + 1));
  }

  /** found devices' worth of windows. */
  ghost function Budget(found: nat, window: nat): nat { found * window }

  lemma BudgetNext(found: nat, window: nat)
    ensures Budget(found + 1, window) == Budget(found, window) + window && Budget(0, window) == 0
  {
    Distribute(window, found, 1);
  }

  lemma OneMore(order: seq<Instance>, x: Instance, left: multiset<Instance>, all: multiset<Instance>)
    requires multiset(order) + (left + multiset{x}) == all
    ensures multiset(order + [x]) + left == all
  {
    assert multiset(order + [x]) == multiset(order) + multiset{x};
  }

  lemma LeftOver(order: seq<Instance>, left: multiset<Instance>, all: multiset<Instance>)
    requires multiset(order) + left == all
    ensures |order| + |left| == |all| && (|left| == 0 ==> left == multiset{} && multiset(order) == all)
  {
    assert |multiset(order)| == |order|;
  }

  lemma NothingDealt(k: Deck)
    ensures Deal(k, []) == Some((k, []))
  {
  }

  lemma OneMoreDealt(k: Deck, turns: seq<nat>, r: Deck, order: seq<Instance>, i: nat)
    requires Deal(k, turns) == Some((r, order)) && r.maxDevId < |r.lists|
    requires var start := if |turns| == 0 then 0 else turns[|turns| - 1] + 1;
      && start <= i && !Misses(r.lists, r.maxDevId, i)
      && forall m :: start <= m < i ==> Misses(r.lists, r.maxDevId, m)
    ensures Deal(k, turns + [i]) == Some((Draw(r, i), order + [Drawn(r, i)]))
  {
    hide Misses, Draw, Drawn;
    assert (turns + [i])[..|turns|] == turns;
  }

  /** The shuffling loop: it ends after at most n * (max_dev_id + 1) iterations although the modulus
      shrinks under it, and lists every instance once, next to its own handle, in the order in which the turns of the
      devices come. */
  method Shuffle(hw: Hardware, n: nat, qzInst: array<nat>, handles: array<nat>)
    returns (ghost order: seq<Instance>, iterations: nat, ghost turns: seq<nat>)
    requires hw.Valid() && |hw.All()| == n && qzInst.Length == handles.Length == n && qzInst != handles
    modifies hw, hw.devices, qzInst, handles
    ensures hw.Valid() && hw.All() == multiset{}
    ensures |order| == n && multiset(order) == old(hw.All())
    ensures forall k :: 0 <= k < n ==> qzInst[k] == order[k].info && handles[k] == order[k].handle
    ensures iterations <= Budget(n, old(hw.maxDevId) + 1)
    ensures Deal(old(Deck(hw.devices[..], hw.maxDevId)), turns) == Some((Deck(hw.devices[..], hw.maxDevId), order))
  {
    hide Deal, Draw, Drawn;
    hide Bag, NonEmpty, Misses, Hardware.Valid, Hardware.All, Budget;
    order, turns := [], [];
    ghost var deck := Deck(hw.devices[..], hw.maxDevId);
    NothingDealt(deck);
    var i: nat, found: nat := 0, 0;
    ghost var start: nat, m0 := 0, hw.maxDevId + 1;
    BudgetNext(0, m0);
    while found < n
      invariant hw.Valid() && hw.maxDevId + 1 <= m0 && found == |order| <= n
      invariant multiset(order) + hw.All() == old(hw.All()) && |turns| == found
      invariant Deal(deck, turns) == Some((Deck(hw.devices[..], hw.maxDevId), order))
      invariant start == if found == 0 then 0 else turns[found - 1] + 1
      invariant forall k :: 0 <= k < found ==> qzInst[k] == order[k].info && handles[k] == order[k].handle
      invariant start <= i && start <= Budget(found, m0) && (found == n ==> i == start)
      invariant forall k :: start <= k < i ==> Misses(hw.devices[..], hw.maxDevId, k)
      decreases n - found, hw.maxDevId + 1 - (i - start)
    {
      LeftOver(order, hw.All(), old(hw.All()));
      WindowHits(hw, start, i);
      BudgetNext(found, m0);
      ghost var k := Deck(hw.devices[..], hw.maxDevId);
      var x := TakeTurn(hw, i);
      if x.Some? { OneMoreDealt(deck, turns, k, order, i); }
      i := i + 1;
      if x.Some? {
        qzInst[found] := x.value.info;
        handles[found] := x.value.handle;
        OneMore(order, x.value, hw.All(), old(hw.All()));
        order, turns, start, found := order + [x.value], turns + [i - 1], i, found + 1;
      }
    }
    LeftOver(order, hw.All(), old(hw.All()));
    iterations := i;
  }

  // ---- equal devices ----

  /** devs devices with size instances each, and none behind them. */
  ghost predicate Even(lists: seq<seq<Instance>>, devs: nat, size: nat) {
    && 0 < devs <= |lists| && (forall d :: 0 <= d < devs ==> |lists[d]| == size)
    && (forall d :: devs <= d < |lists| ==> lists[d] == [])
  }

  /** How many instances of device d are gone after k turns. */
  function GoneOf(k: nat, d: nat, devs: nat): nat
    requires devs > 0
  {
    k / devs + if d < k % devs then 1 else 0
  }

  lemma GoneNext(k: nat, d: nat, devs: nat)
    requires d < devs
    ensures GoneOf(k + 1, d, devs) == GoneOf(k, d, devs) + if d == k % devs then 1 else 0
    ensures GoneOf(0, d, devs) == 0 && (d == k % devs ==> GoneOf(k, d, devs) == k / devs)
  {
    var q, r := k / devs, k % devs;
    if r + 1 < devs { DivModUnique(k + 1, devs, q, r + 1); }
    else {
      Distribute(devs, q, 1);
      DivModUnique(k + 1, devs, q + 1, 0);
    }
    DivModUnique(0, devs, 0, 0);
  }

  /** x is instance n / devs of device n % devs. */
  ghost predicate InTurn(lists: seq<seq<Instance>>, devs: nat, n: nat, x: Instance)
    requires devs > 0
  {
    n % devs < |lists| && n / devs < |lists[n % devs]| && x == lists[n % devs][n / devs]
  }

  /** The decks of equal devices after k turns. */
  ghost predicate DealtEvenly(k: Deck, lists: seq<seq<Instance>>, devs: nat, n: nat)
    requires devs > 0
  {
    && |k.lists| == |lists| && k.maxDevId == devs - 1
    && forall d :: 0 <= d < |lists| ==>
         if d < devs then GoneOf(n, d, devs) <= |lists[d]| && k.lists[d] == lists[d][GoneOf(n, d, devs)..]
         else k.lists[d] == []
  }

  lemma EvenTurn(k: Deck, lists: seq<seq<Instance>>, devs: nat, size: nat, n: nat)
    requires Even(lists, devs, size) && n < devs * size && DealtEvenly(k, lists, devs, n)
    ensures k.maxDevId < |k.lists| && !Misses(k.lists, k.maxDevId, n) && InTurn(lists, devs, n, Drawn(k, n))
    ensures n + 1 < devs * size ==> DealtEvenly(Draw(k, n), lists, devs, n + 1)
  {
    var d := n % devs;
    RowInside(n, devs, size);
    GoneNext(n, d, devs);
    var t := Draw(k, n);
    assert t.lists == k.lists[d := k.lists[d][1..]];
    if n + 1 < devs * size {
      forall e | 0 <= e < |lists|
        ensures if e < devs
                then GoneOf(n + 1, e, devs) <= |lists[e]| && t.lists[e] == lists[e][GoneOf(n + 1, e, devs)..]
                else t.lists[e] == []
      {
        if e < devs { GoneNext(n, e, devs); }
      }
      if t.lists[d] == [] && d == devs - 1 {
        GoneNext(n, devs - 1, devs);
        LastTurn(n, devs, size);
        assert false;
      }
    }
  }

  lemma RowInside(n: nat, devs: nat, size: nat)
    requires devs > 0 && n < devs * size
    ensures n / devs < size
  {
    assert n == devs * (n / devs) + n % devs;
    if n / devs >= size { Ordered(devs, size, n / devs); }
  }

  /** The last device gives its last instance in the last turn of all. */
  lemma LastTurn(n: nat, devs: nat, size: nat)
    requires devs > 0 && n % devs == devs - 1 && n / devs + 1 == size
    ensures n + 1 == devs * size
  {
    Distribute(devs, n / devs, 1);
    assert n == devs * (n / devs) + n % devs;
  }

  lemma FirstTurnIs(k: Deck, n: nat, i: nat)
    requires k.maxDevId < |k.lists| && !Misses(k.lists, k.maxDevId, n) && n <= i
    requires forall m :: n <= m < i ==> Misses(k.lists, k.maxDevId, m)
    ensures i == n
  {
  }

  /** Over devices with equally many instances the shuffle is a true round-robin: turn n finds instance
      n / devs of device n % devs. */
  lemma {:induction false} EvenDeal(lists: seq<seq<Instance>>, devs: nat, size: nat, turns: seq<nat>)
    requires devs > 0 && Even(lists, devs, size) && |turns| <= devs * size
    requires Deal(Deck(lists, devs - 1), turns).Some?
    ensures var r := Deal(Deck(lists, devs - 1), turns).value;
      && |r.1| == |turns| && (|turns| < devs * size ==> DealtEvenly(r.0, lists, devs, |turns|))
      && forall n :: 0 <= n < |turns| ==>
           turns[n] == n && InTurn(lists, devs, n, r.1[n])
    decreases |turns|
  {
    hide Misses, Draw, Drawn, Even, DealtEvenly, InTurn;
    var deck := Deck(lists, devs - 1);
    if |turns| == 0 {
      EvenStart(lists, devs, size);
    } else {
      var n := |turns| - 1;
      EvenDeal(lists, devs, size, turns[..n]);
      var r := Deal(deck, turns[..n]).value;
      EvenTurn(r.0, lists, devs, size, n);
      FirstTurnIs(r.0, n, turns[n]);
      forall m | 0 <= m < n ensures turns[m] == m { assert turns[..n][m] == m; }
    }
  }

  lemma EvenStart(lists: seq<seq<Instance>>, devs: nat, size: nat)
    requires Even(lists, devs, size)
    ensures devs > 0 && DealtEvenly(Deck(lists, devs - 1), lists, devs, 0)
  {
    forall d | 0 <= d < devs ensures GoneOf(0, d, devs) == 0 { GoneNext(0, d, devs); }
  }
}
