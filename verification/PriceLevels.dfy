/** One price level: a fixed array of order slots threaded by an intrusive doubly linked
    list in arrival order, with a cached total quantity and order count. */
module PriceLevels {
  import opened Finite

  const MAX_QTY: int := 1_000_000_000
  const MAX_I64: int := 0x7FFF_FFFF_FFFF_FFFF

  datatype OrderSlot = OrderSlot(id: nat, qty: int, active: bool, bid: bool, next: int, prev: int)
  const VACANT := OrderSlot(0, 0, false, false, -1, -1)

  datatype PriceLevel = PriceLevel(orders: seq<OrderSlot>, price: int, totalQty: int, orderCount: int, head: int)

  /** A level straight after `reset`, at a given price. */
  function Fresh(slots: nat, price: int): PriceLevel {
    PriceLevel(seq(slots, _ => VACANT), price, 0, 0, -1)
  }

  // ----- the linked list -----

  function At(ch: seq<nat>, i: int): int {
    if 0 <= i < |ch| then ch[i] else -1
  }

  /** The list that starts at `head` visits exactly the slots `ch`, in both directions. */
  ghost predicate Linked(orders: seq<OrderSlot>, head: int, ch: seq<nat>) {
    && Distinct(ch) && Within(orders, ch)
    && head == At(ch, 0)
    && forall i {:trigger LinkedAt(orders, ch, i)} :: 0 <= i < |ch| ==> LinkedAt(orders, ch, i)
  }

  ghost predicate Within(orders: seq<OrderSlot>, ch: seq<nat>) {
    forall i :: 0 <= i < |ch| ==> ch[i] < |orders|
  }

  /** The slot at list position `i` points to its neighbours in the list. */
  ghost predicate LinkedAt(orders: seq<OrderSlot>, ch: seq<nat>, i: nat)
    requires Within(orders, ch) && i < |ch|
  {
    orders[ch[i]].next == At(ch, i + 1) && orders[ch[i]].prev == At(ch, i - 1)
  }

  /** The slots met by following `next` from `cur`, at most `fuel` of them. */
  ghost function Walk(orders: seq<OrderSlot>, cur: int, fuel: nat): seq<nat>
    decreases fuel
  {
    if fuel == 0 || !(0 <= cur < |orders|) then [] else [cur] + Walk(orders, orders[cur].next, fuel - 1)
  }

  /** The list of a level; it cannot be longer than the slot array. */
  ghost function Chain(lvl: PriceLevel): seq<nat> {
    Walk(lvl.orders, lvl.head, |lvl.orders|)
  }

  lemma {:induction false} WalkFollows(orders: seq<OrderSlot>, head: int, ch: seq<nat>, i: nat, fuel: nat)
    requires Linked(orders, head, ch) && i <= |ch| && |ch| - i <= fuel
    ensures Walk(orders, At(ch, i), fuel) == ch[i..]
    decreases |ch| - i
  {
    if i < |ch| {
      var cur := ch[i];
      assert LinkedAt(orders, ch, i);
      WalkFollows(orders, head, ch, i + 1, fuel - 1);
      assert ch[i..] == [cur] + ch[i + 1..];
    }
  }

  /** A level has only one list. */
  lemma ChainIs(lvl: PriceLevel, ch: seq<nat>)
    requires Linked(lvl.orders, lvl.head, ch)
    ensures Chain(lvl) == ch && |ch| <= |lvl.orders|
  {
    DistinctBound(ch, |lvl.orders|);
    WalkFollows(lvl.orders, lvl.head, ch, 0, |lvl.orders|);
  }

  // ----- the level invariant -----

  ghost function SumQty(orders: seq<OrderSlot>, ch: seq<nat>): int
    requires Within(orders, ch)
  {
    if ch == [] then 0 else SumQty(orders, ch[..|ch| - 1]) + orders[ch[|ch| - 1]].qty
  }

  /** Slots off the list are vacant, slots on it hold an order. */
  ghost predicate Filled(orders: seq<OrderSlot>, ch: seq<nat>) {
    forall k {:trigger FilledAt(orders, ch, k)} :: 0 <= k < |orders| ==> FilledAt(orders, ch, k)
  }

  ghost predicate FilledAt(orders: seq<OrderSlot>, ch: seq<nat>, k: nat)
    requires k < |orders|
  {
    if k in ch then orders[k].active && 0 < orders[k].qty <= MAX_QTY else orders[k] == VACANT
  }

  /** List, slots, cached total and cached count agree on the list `ch`. */
  ghost predicate Holds(lvl: PriceLevel, ch: seq<nat>) {
    && Linked(lvl.orders, lvl.head, ch)
    && Filled(lvl.orders, ch)
    && lvl.totalQty == SumQty(lvl.orders, ch)
    && lvl.orderCount == |ch|
  }

  ghost predicate WellFormed(lvl: PriceLevel) {
    Holds(lvl, Chain(lvl))
  }

  /** The order references in the slots `ch`. */
  ghost function Ids(orders: seq<OrderSlot>, ch: seq<nat>): (r: seq<nat>)
    requires Within(orders, ch)
    ensures |r| == |ch| && forall i :: 0 <= i < |ch| ==> r[i] == orders[ch[i]].id
  {
    seq(|ch|, i requires 0 <= i < |ch| => orders[ch[i]].id)
  }

  /** The orders of a level, oldest first. */
  ghost function Refs(lvl: PriceLevel): (r: seq<nat>)
    requires WellFormed(lvl)
  {
    Ids(lvl.orders, Chain(lvl))
  }

  lemma FreshHolds(slots: nat, price: int)
    ensures WellFormed(Fresh(slots, price)) && Chain(Fresh(slots, price)) == []
  {}

  lemma {:induction false} SumSame(orders: seq<OrderSlot>, orders': seq<OrderSlot>, ch: seq<nat>)
    requires |orders| == |orders'|
    requires forall i :: 0 <= i < |ch| ==> ch[i] < |orders| && orders[ch[i]].qty == orders'[ch[i]].qty
    ensures SumQty(orders, ch) == SumQty(orders', ch)
  {
    if ch != [] { SumSame(orders, orders', ch[..|ch| - 1]); }
  }

  lemma {:induction false} SumBound(orders: seq<OrderSlot>, ch: seq<nat>)
    requires forall i :: 0 <= i < |ch| ==> ch[i] < |orders| && 0 < orders[ch[i]].qty <= MAX_QTY
    ensures |ch| <= SumQty(orders, ch) <= |ch| * MAX_QTY
  {
    if ch != [] { SumBound(orders, ch[..|ch| - 1]); }
  }

  /** Changing the quantity of the order at list position `p` changes the total by as much. */
  lemma {:induction false} SumChange(orders: seq<OrderSlot>, orders': seq<OrderSlot>, ch: seq<nat>, p: nat)
    requires |orders| == |orders'| && p < |ch| && Distinct(ch)
    requires forall i :: 0 <= i < |ch| ==> ch[i] < |orders| && (i != p ==> orders[ch[i]].qty == orders'[ch[i]].qty)
    ensures SumQty(orders', ch) == SumQty(orders, ch) - orders[ch[p]].qty + orders'[ch[p]].qty
  {
    var front := ch[..|ch| - 1];
    if p == |front| {
      SumSame(orders, orders', front);
    } else {
      SumChange(orders, orders', front, p);
    }
  }

  function Cut(ch: seq<nat>, p: nat): seq<nat>
    requires p < |ch|
  {
    ch[..p] + ch[p + 1..]
  }

  lemma {:induction false} SumCut(orders: seq<OrderSlot>, ch: seq<nat>, p: nat)
    requires p < |ch| && forall i :: 0 <= i < |ch| ==> ch[i] < |orders|
    ensures SumQty(orders, Cut(ch, p)) == SumQty(orders, ch) - orders[ch[p]].qty
  {
    var front := ch[..|ch| - 1];
    if p == |front| {
      assert Cut(ch, p) == front;
    } else {
      SumCut(orders, front, p);
      assert Cut(ch, p)[..|ch| - 2] == Cut(front, p);
    }
  }

  // ----- slot operations -----

  /** The first vacant slot, or -1 when the level is full. */
  method AllocSlot(lvl: PriceLevel) returns (k: int)
    requires WellFormed(lvl)
    ensures -1 <= k < |lvl.orders|
    ensures k >= 0 ==> k !in Chain(lvl) && lvl.orders[k] == VACANT
    ensures k >= 0 <==> |Chain(lvl)| < |lvl.orders|
  {
    ghost var ch := Chain(lvl);
    DistinctBound(ch, |lvl.orders|);
    k := 0;
    while k < |lvl.orders|
      invariant 0 <= k <= |lvl.orders| && forall j: nat :: j < k ==> j in ch
    {
      assert FilledAt(lvl.orders, ch, k);
      if !lvl.orders[k].active { return; }
      k := k + 1;
    }
    SubsetSize(Range(|lvl.orders|), Elems(ch));
    DistinctSize(ch);
    k := -1;
  }

  /** Slot `j` after slot `k` has been appended behind `tail`. */
  function Attach(orders: seq<OrderSlot>, tail: int, k: nat, j: nat): OrderSlot
    requires k < |orders| && j < |orders|
  {
    if j == k then orders[k].(next := -1, prev := tail)
    else if j == tail then orders[j].(next := k)
    else orders[j]
  }

  /** Appends slot `k` at the tail, walking there from the head. */
  method LinkSlot(lvl: PriceLevel, k: nat, ghost ch: seq<nat>) returns (r: PriceLevel)
    requires Linked(lvl.orders, lvl.head, ch) && k < |lvl.orders| && k !in ch
    ensures r == lvl.(orders := r.orders, head := r.head) && |r.orders| == |lvl.orders|
    ensures forall j :: 0 <= j < |lvl.orders| ==> r.orders[j] == Attach(lvl.orders, At(ch, |ch| - 1), k, j)
    ensures Linked(r.orders, r.head, ch + [k])
  {
    var orders := lvl.orders[k := lvl.orders[k].(next := -1)];
    if lvl.head == -1 {
      r := lvl.(orders := orders[k := orders[k].(prev := -1)], head := k);
    } else {
      var cur := lvl.head;
      ghost var i := 0;
      assert LinkedAt(lvl.orders, ch, 0);
      while orders[cur].next != -1
        invariant 0 <= i < |ch| && cur == ch[i] && LinkedAt(lvl.orders, ch, i)
        decreases |ch| - i
      {
        cur, i := orders[cur].next, i + 1;
        assert LinkedAt(lvl.orders, ch, i);
      }
      orders := orders[cur := orders[cur].(next := k)];
      r := lvl.(orders := orders[k := orders[k].(prev := cur)]);
    }
    AttachLinked(lvl.orders, lvl.head, r.orders, ch, k);
  }

  lemma AttachLinked(orders: seq<OrderSlot>, head: int, orders': seq<OrderSlot>, ch: seq<nat>, k: nat)
    requires Linked(orders, head, ch) && k < |orders| == |orders'| && k !in ch
    requires forall j :: 0 <= j < |orders| ==> orders'[j] == Attach(orders, At(ch, |ch| - 1), k, j)
    ensures Linked(orders', if ch == [] then k else head, ch + [k])
  {
    forall i | 0 <= i < |ch| + 1 ensures LinkedAt(orders', ch + [k], i) {
      if i < |ch| { assert LinkedAt(orders, ch, i); }
    }
  }

  /** Slot `j` after slot `k` has been taken out of its list. */
  function Bypass(orders: seq<OrderSlot>, k: nat, j: nat): OrderSlot
    requires k < |orders| && j < |orders|
  {
    if j == k then orders[k].(prev := -1, next := -1)
    else orders[j].(next := if j == orders[k].prev then orders[k].next else orders[j].next,
                    prev := if j == orders[k].next then orders[k].prev else orders[j].prev)
  }

  lemma CutAt(ch: seq<nat>, p: nat)
    requires p < |ch| && Distinct(ch)
    ensures forall i :: 0 <= i < |ch| - 1 ==> Cut(ch, p)[i] == ch[if i < p then i else i + 1]
    ensures ch[p] !in Cut(ch, p) && Distinct(Cut(ch, p))
  {}

  lemma BypassAt(orders: seq<OrderSlot>, head: int, ch: seq<nat>, p: nat, i: nat)
    requires Linked(orders, head, ch) && p < |ch| && i < |ch| - 1
    ensures var k, cut := ch[p], Cut(ch, p);
            && cut[i] < |orders|
            && Bypass(orders, k, cut[i]).next == At(cut, i + 1)
            && Bypass(orders, k, cut[i]).prev == At(cut, i - 1)
  {
    var k := ch[p];
    var q := if i < p then i else i + 1;
    assert Cut(ch, p)[i] == ch[q] != k;
    assert LinkedAt(orders, ch, p) && LinkedAt(orders, ch, q);
  }

  lemma BypassLinked(orders: seq<OrderSlot>, head: int, orders': seq<OrderSlot>, ch: seq<nat>, p: nat)
    requires Linked(orders, head, ch) && p < |ch| && |orders'| == |orders|
    requires forall j :: 0 <= j < |orders| ==> orders'[j] == Bypass(orders, ch[p], j)
    ensures Linked(orders', if p == 0 then orders[ch[p]].next else head, Cut(ch, p))
  {
    var cut := Cut(ch, p);
    CutAt(ch, p);
    assert LinkedAt(orders, ch, p);
    forall i | 0 <= i < |cut| ensures LinkedAt(orders', cut, i) {
      BypassAt(orders, head, ch, p, i);
    }
  }

  /** Takes slot `k`, at list position `p`, out of the list. */
  method UnlinkSlot(lvl: PriceLevel, k: nat, ghost ch: seq<nat>, ghost p: nat) returns (r: PriceLevel)
    requires Linked(lvl.orders, lvl.head, ch) && p < |ch| && ch[p] == k
    ensures r == lvl.(orders := r.orders, head := r.head) && |r.orders| == |lvl.orders|
    ensures forall j :: 0 <= j < |lvl.orders| ==> r.orders[j] == Bypass(lvl.orders, k, j)
    ensures Linked(r.orders, r.head, Cut(ch, p))
  {
    var slot := lvl.orders[k];
    assert LinkedAt(lvl.orders, ch, p);
    var orders, head := lvl.orders, lvl.head;
    if slot.prev != -1 {
      orders := orders[slot.prev := orders[slot.prev].(next := slot.next)];
    } else {
      head := slot.next;
    }
    if slot.next != -1 {
      orders := orders[slot.next := orders[slot.next].(prev := slot.prev)];
    }
    orders := orders[k := orders[k].(prev := -1, next := -1)];
    BypassLinked(lvl.orders, lvl.head, orders, ch, p);
    r := lvl.(orders := orders, head := head);
  }

  // ----- whole-order operations on a level -----

  function ClampedQty(requested: int, available: int): int {
    if requested <= 0 || available <= 0 then 0 else if requested < available then requested else available
  }

  /** Outside slot `k` the two levels hold the same orders. */
  ghost predicate SameBut(lvl: PriceLevel, r: PriceLevel, k: nat) {
    && r.price == lvl.price && |r.orders| == |lvl.orders|
    && forall j {:trigger r.orders[j]} {:trigger lvl.orders[j]} :: 0 <= j < |lvl.orders| && j != k ==>
         && r.orders[j].active == lvl.orders[j].active && r.orders[j].bid == lvl.orders[j].bid
         && r.orders[j].id == lvl.orders[j].id && r.orders[j].qty == lvl.orders[j].qty
  }

  lemma RelinkSame(orders: seq<OrderSlot>, orders': seq<OrderSlot>, head: int, ch: seq<nat>)
    requires Linked(orders, head, ch) && |orders'| == |orders|
    requires forall i :: 0 <= i < |ch| ==> orders'[ch[i]].next == orders[ch[i]].next && orders'[ch[i]].prev == orders[ch[i]].prev
    ensures Linked(orders', head, ch)
  {
    forall i | 0 <= i < |ch| ensures LinkedAt(orders', ch, i) {
      assert LinkedAt(orders, ch, i);
    }
  }

  lemma FilledSum(orders: seq<OrderSlot>, ch: seq<nat>)
    requires Within(orders, ch) && Filled(orders, ch)
    ensures |ch| <= SumQty(orders, ch) <= |ch| * MAX_QTY
  {
    forall i | 0 <= i < |ch| ensures 0 < orders[ch[i]].qty <= MAX_QTY {
      assert FilledAt(orders, ch, ch[i]);
    }
    SumBound(orders, ch);
  }

  /** `r` is `lvl` with an order appended in vacant slot `k`. */
  ghost predicate Pushed(lvl: PriceLevel, r: PriceLevel, k: nat, id: nat, qty: int) {
    && WellFormed(lvl) && WellFormed(r)
    && k < |lvl.orders| && k !in Chain(lvl) && lvl.orders[k] == VACANT
    && Chain(r) == Chain(lvl) + [k] && SameBut(lvl, r, k)
    && r.orders[k].active && r.orders[k].id == id && r.orders[k].qty == qty
  }

  /** Appends an order in vacant slot `k`: the youngest of its level. The running total
      stays far inside 64 bits, so the checked addition cannot fail. */
  method Push(lvl: PriceLevel, k: nat, id: nat, qty: int, bid: bool) returns (r: PriceLevel)
    requires WellFormed(lvl) && k < |lvl.orders| && k !in Chain(lvl) && 0 < qty <= MAX_QTY
    requires |lvl.orders| * MAX_QTY <= MAX_I64
    ensures Pushed(lvl, r, k, id, qty) && r.orders[k].bid == bid && lvl.totalQty + qty <= MAX_I64
  {
    ghost var ch := Chain(lvl);
    assert FilledAt(lvl.orders, ch, k);
    var filled := lvl.(orders := lvl.orders[k := lvl.orders[k].(id := id, qty := qty, active := true, bid := bid)]);
    RelinkSame(lvl.orders, filled.orders, lvl.head, ch);
    r := LinkSlot(filled, k, ch);
    r := r.(totalQty := r.totalQty + qty, orderCount := r.orderCount + 1);
    assert forall j :: 0 <= j < |lvl.orders| && j != k ==> r.orders[j] == Attach(lvl.orders, At(ch, |ch| - 1), k, j);
    PushHolds(lvl, r, k, ch);
    PushFits(lvl, k, qty);
  }

  lemma PushFits(lvl: PriceLevel, k: nat, qty: int)
    requires WellFormed(lvl) && k < |lvl.orders| && k !in Chain(lvl) && 0 < qty <= MAX_QTY
    requires |lvl.orders| * MAX_QTY <= MAX_I64
    ensures 0 <= lvl.totalQty && lvl.totalQty + qty <= MAX_I64
  {
    var ch := Chain(lvl);
    FilledSum(lvl.orders, ch);
    DistinctBound(ch + [k], |lvl.orders|);
    assert (|ch| + 1) * MAX_QTY <= |lvl.orders| * MAX_QTY;
  }

  lemma PushHolds(lvl: PriceLevel, r: PriceLevel, k: nat, ch: seq<nat>)
    requires Holds(lvl, ch) && k < |lvl.orders| && k !in ch && |r.orders| == |lvl.orders|
    requires Linked(r.orders, r.head, ch + [k])
    requires r.orders[k].active && 0 < r.orders[k].qty <= MAX_QTY
    requires forall j :: 0 <= j < |lvl.orders| && j != k ==> r.orders[j] == Attach(lvl.orders, At(ch, |ch| - 1), k, j)
    requires r.totalQty == lvl.totalQty + r.orders[k].qty && r.orderCount == lvl.orderCount + 1
    ensures WellFormed(r) && Chain(r) == ch + [k]
  {
    ChainIs(r, ch + [k]);
    assert (ch + [k])[..|ch|] == ch;
    assert SumQty(lvl.orders, ch) == SumQty(r.orders, ch) by {
      SumSame(lvl.orders, r.orders, ch);
    }
    assert Filled(r.orders, ch + [k]) by {
      PushFilled(lvl.orders, r.orders, At(ch, |ch| - 1), k, ch);
    }
  }

  lemma PushFilled(orders: seq<OrderSlot>, orders': seq<OrderSlot>, tail: int, k: nat, ch: seq<nat>)
    requires Filled(orders, ch) && k < |orders| == |orders'| && (tail == -1 || tail in ch)
    requires orders'[k].active && 0 < orders'[k].qty <= MAX_QTY
    requires forall j :: 0 <= j < |orders| && j != k ==> orders'[j] == Attach(orders, tail, k, j)
    ensures Filled(orders', ch + [k])
  {
    forall j | 0 <= j < |orders'| ensures FilledAt(orders', ch + [k], j) {
      assert FilledAt(orders, ch, j);
    }
  }

  /** Lowers the quantity of the order in slot `k`, which stays where it is in the queue. */
  method Reduce(lvl: PriceLevel, k: nat, delta: int) returns (r: PriceLevel)
    requires WellFormed(lvl) && k < |lvl.orders| && k in Chain(lvl) && 0 < delta < lvl.orders[k].qty
    ensures WellFormed(r) && Chain(r) == Chain(lvl) && SameBut(lvl, r, k)
    ensures r.orders[k].active && r.orders[k].id == lvl.orders[k].id && r.orders[k].qty == lvl.orders[k].qty - delta
  {
    ghost var ch := Chain(lvl);
    assert FilledAt(lvl.orders, ch, k);
    r := lvl.(orders := lvl.orders[k := lvl.orders[k].(qty := lvl.orders[k].qty - delta)],
              totalQty := lvl.totalQty - delta);
    RelinkSame(lvl.orders, r.orders, lvl.head, ch);
    ChainIs(r, ch);
    forall j | 0 <= j < |r.orders| ensures FilledAt(r.orders, ch, j) {
      assert FilledAt(lvl.orders, ch, j);
    }
    ghost var p :| 0 <= p < |ch| && ch[p] == k;
    SumChange(lvl.orders, r.orders, ch, p);
  }

  /** Takes the order in slot `k`, at list position `p`, off the level. */
  method Take(lvl: PriceLevel, k: nat, ghost p: nat) returns (r: PriceLevel)
    requires WellFormed(lvl) && k < |lvl.orders| && p < |Chain(lvl)| && Chain(lvl)[p] == k
    ensures WellFormed(r) && Chain(r) == Cut(Chain(lvl), p) && SameBut(lvl, r, k)
    ensures r.orders[k] == VACANT
  {
    ghost var ch := Chain(lvl);
    var total := lvl.totalQty - ClampedQty(lvl.orders[k].qty, lvl.totalQty);
    var unlinked := UnlinkSlot(lvl, k, ch, p);
    r := unlinked.(orders := unlinked.orders[k := unlinked.orders[k].(active := false, bid := false, id := 0, qty := 0)],
            totalQty := total, orderCount := unlinked.orderCount - 1);
    CutAt(ch, p);
    RelinkSame(unlinked.orders, r.orders, r.head, Cut(ch, p));
    TakeHolds(lvl, r, k, ch, p);
  }

  lemma TakeHolds(lvl: PriceLevel, r: PriceLevel, k: nat, ch: seq<nat>, p: nat)
    requires Holds(lvl, ch) && k < |lvl.orders| && p < |ch| && ch[p] == k && |r.orders| == |lvl.orders|
    requires Linked(r.orders, r.head, Cut(ch, p)) && r.orders[k] == VACANT
    requires forall j :: 0 <= j < |lvl.orders| && j != k ==> r.orders[j] == Bypass(lvl.orders, k, j)
    requires r.totalQty == lvl.totalQty - ClampedQty(lvl.orders[k].qty, lvl.totalQty)
    requires r.orderCount == lvl.orderCount - 1
    ensures WellFormed(r) && Chain(r) == Cut(ch, p)
  {
    var cut := Cut(ch, p);
    CutAt(ch, p);
    ChainIs(r, cut);
    TakeTotal(lvl, r, k, ch, p);
    TakeFilled(lvl, r, k, ch, p);
  }

  lemma TakeTotal(lvl: PriceLevel, r: PriceLevel, k: nat, ch: seq<nat>, p: nat)
    requires Holds(lvl, ch) && k < |lvl.orders| && p < |ch| && ch[p] == k && |r.orders| == |lvl.orders|
    requires forall j :: 0 <= j < |lvl.orders| && j != k ==> r.orders[j].qty == lvl.orders[j].qty
    ensures forall i :: 0 <= i < |Cut(ch, p)| ==> Cut(ch, p)[i] < |r.orders|
    ensures SumQty(r.orders, Cut(ch, p)) == lvl.totalQty - ClampedQty(lvl.orders[k].qty, lvl.totalQty)
  {
    CutAt(ch, p);
    SumCut(lvl.orders, ch, p);
    assert FilledAt(lvl.orders, ch, k);
    forall i | 0 <= i < |ch| ensures 0 < lvl.orders[ch[i]].qty <= MAX_QTY {
      assert FilledAt(lvl.orders, ch, ch[i]);
    }
    SumBound(lvl.orders, Cut(ch, p));
    SumSame(lvl.orders, r.orders, Cut(ch, p));
  }

  lemma TakeFilled(lvl: PriceLevel, r: PriceLevel, k: nat, ch: seq<nat>, p: nat)
    requires Holds(lvl, ch) && k < |lvl.orders| && p < |ch| && ch[p] == k && |r.orders| == |lvl.orders|
    requires r.orders[k] == VACANT
    requires forall j :: 0 <= j < |lvl.orders| && j != k ==> r.orders[j] == Bypass(lvl.orders, k, j)
    ensures Filled(r.orders, Cut(ch, p))
  {
    CutAt(ch, p);
    assert LinkedAt(lvl.orders, ch, p);
    forall j | 0 <= j < |r.orders| ensures FilledAt(r.orders, Cut(ch, p), j) {
      if j != k {
        CutIn(ch, p, j);
        assert FilledAt(lvl.orders, ch, j);
      }
    }
  }

  lemma CutIn(ch: seq<nat>, p: nat, j: nat)
    requires p < |ch| && j != ch[p]
    ensures j in Cut(ch, p) <==> j in ch
  {}

  /** A level is determined by its price, its list and the orders in its slots; so taking
      off the order just pushed restores the level bit for bit. */
  lemma LevelUnique(lvl: PriceLevel, r: PriceLevel, ch: seq<nat>)
    requires Holds(lvl, ch) && Holds(r, ch) && lvl.price == r.price && |lvl.orders| == |r.orders|
    requires forall j {:trigger lvl.orders[j]} :: 0 <= j < |lvl.orders| ==>
               r.orders[j] == lvl.orders[j].(next := r.orders[j].next, prev := r.orders[j].prev)
    ensures lvl == r
  {
    forall j | 0 <= j < |lvl.orders| ensures lvl.orders[j] == r.orders[j] {
      assert FilledAt(lvl.orders, ch, j) && FilledAt(r.orders, ch, j);
      if j in ch {
        var i :| 0 <= i < |ch| && ch[i] == j;
        assert LinkedAt(lvl.orders, ch, i) && LinkedAt(r.orders, ch, i);
      }
    }
    SumSame(lvl.orders, r.orders, ch);
  }

  lemma PushThenTake(lvl: PriceLevel, r: PriceLevel, back: PriceLevel, k: nat)
    requires WellFormed(lvl) && WellFormed(r) && WellFormed(back) && k < |lvl.orders| && lvl.orders[k] == VACANT
    requires Chain(r) == Chain(lvl) + [k] && SameBut(lvl, r, k)
    requires Chain(back) == Cut(Chain(r), |Chain(lvl)|) && SameBut(r, back, k) && back.orders[k] == VACANT
    ensures back == lvl
  {
    assert Cut(Chain(lvl) + [k], |Chain(lvl)|) == Chain(lvl);
    LevelUnique(lvl, back, Chain(lvl));
  }
}
