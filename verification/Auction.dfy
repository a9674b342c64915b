/** The auction cross: the indicative price that pairs the most volume. */
module Auction {
  import opened Finite

  const MAX_I64: int := 0x7FFF_FFFF_FFFF_FFFF

  datatype AuctionOrder = AuctionOrder(id: nat, symbol: nat, buy: bool, price: int, qty: int, market: bool, active: bool)

  datatype Side = NoImbalance | BuyImbalance | SellImbalance

  datatype Noii = Noii(price: int, paired: int, imbalance: int, side: Side)

  // ----- what a price would pair -----

  function BuyQty(o: AuctionOrder, symbol: nat, p: int): int {
    if o.active && o.symbol == symbol && o.buy && (o.market || o.price >= p) then o.qty else 0
  }

  function SellQty(o: AuctionOrder, symbol: nat, p: int): int {
    if o.active && o.symbol == symbol && !o.buy && (o.market || o.price <= p) then o.qty else 0
  }

  ghost function Buys(os: seq<AuctionOrder>, symbol: nat, p: int): int {
    if os == [] then 0 else Buys(os[..|os| - 1], symbol, p) + BuyQty(os[|os| - 1], symbol, p)
  }

  ghost function Sells(os: seq<AuctionOrder>, symbol: nat, p: int): int {
    if os == [] then 0 else Sells(os[..|os| - 1], symbol, p) + SellQty(os[|os| - 1], symbol, p)
  }

  function Min(a: int, b: int): int { if a < b then a else b }
  function Abs(x: int): int { if x < 0 then -x else x }

  ghost function Paired(os: seq<AuctionOrder>, symbol: nat, p: int): int {
    Min(Buys(os, symbol, p), Sells(os, symbol, p))
  }

  ghost function Imbalance(os: seq<AuctionOrder>, symbol: nat, p: int): int {
    Abs(Buys(os, symbol, p) - Sells(os, symbol, p))
  }

  predicate IsLimit(o: AuctionOrder, symbol: nat) {
    o.active && o.symbol == symbol && !o.market
  }

  /** The limit prices of a symbol. */
  ghost function LimitPrices(os: seq<AuctionOrder>, symbol: nat): set<int> {
    set o | o in os && IsLimit(o, symbol) :: o.price
  }

  ghost predicate PositiveQty(os: seq<AuctionOrder>) {
    forall o :: o in os && o.active ==> o.qty > 0
  }

  lemma OneMore(os: seq<AuctionOrder>, o: AuctionOrder, symbol: nat)
    ensures LimitPrices(os + [o], symbol) == LimitPrices(os, symbol) + if IsLimit(o, symbol) then {o.price} else {}
  {}

  // ----- volumes are step functions that move at limit prices only -----

  /** Raising the price never adds buyers or removes sellers, and changes nothing on a side
      while no limit price is crossed. */
  lemma {:induction false} Steps(os: seq<AuctionOrder>, symbol: nat, p: int, q: int)
    requires PositiveQty(os) && p <= q
    ensures 0 <= Buys(os, symbol, q) <= Buys(os, symbol, p)
    ensures 0 <= Sells(os, symbol, p) <= Sells(os, symbol, q)
    ensures (forall x :: x in LimitPrices(os, symbol) ==> !(p <= x < q)) ==> Buys(os, symbol, q) == Buys(os, symbol, p)
    ensures (forall x :: x in LimitPrices(os, symbol) ==> !(p < x <= q)) ==> Sells(os, symbol, q) == Sells(os, symbol, p)
  {
    if os != [] {
      var front, last := os[..|os| - 1], os[|os| - 1];
      assert last in os && forall o :: o in front ==> o in os;
      Steps(front, symbol, p, q);
      assert LimitPrices(front, symbol) <= LimitPrices(os, symbol);
      assert IsLimit(last, symbol) ==> last.price in LimitPrices(os, symbol);
    }
  }

  ghost predicate Ascending(ps: seq<int>) {
    forall i, j :: 0 <= i < j < |ps| ==> ps[i] < ps[j]
  }

  /** Whatever the price, some limit price pairs at least as much: the one just above, or
      the highest of all. */
  lemma LimitPairsMost(os: seq<AuctionOrder>, symbol: nat, ps: seq<int>, q: int)
    requires PositiveQty(os) && Ascending(ps) && ps != [] && Elems(ps) == LimitPrices(os, symbol)
    ensures exists x :: x in LimitPrices(os, symbol) && Paired(os, symbol, x) >= Paired(os, symbol, q)
  {
    var i := 0;
    while i < |ps| && ps[i] < q
      invariant 0 <= i <= |ps| && forall j :: 0 <= j < i ==> ps[j] < q
    {
      i := i + 1;
    }
    if i < |ps| {
      assert ps[i] in Elems(ps);
      forall x | x in LimitPrices(os, symbol) ensures !(q <= x < ps[i]) {
        assert x in Elems(ps);
        var j :| 0 <= j < |ps| && ps[j] == x;
      }
      Steps(os, symbol, q, ps[i]);
    } else {
      var top := ps[|ps| - 1];
      assert top in Elems(ps);
      forall x | x in LimitPrices(os, symbol) ensures !(top < x <= q) {
        assert x in Elems(ps);
        var j :| 0 <= j < |ps| && ps[j] == x;
      }
      Steps(os, symbol, top, q);
    }
  }

  // ----- the choice -----

  /** More volume wins, then less imbalance, then the lower price. */
  ghost predicate Beats(os: seq<AuctionOrder>, symbol: nat, p: int, q: int) {
    || Paired(os, symbol, p) > Paired(os, symbol, q)
    || (Paired(os, symbol, p) == Paired(os, symbol, q) &&
        (Imbalance(os, symbol, p) < Imbalance(os, symbol, q) ||
         (Imbalance(os, symbol, p) == Imbalance(os, symbol, q) && p <= q)))
  }

  /** A price that the scan can take up at all: its starting point is no volume and an
      imbalance of the largest 64-bit number. */
  ghost predicate Eligible(os: seq<AuctionOrder>, symbol: nat, p: int) {
    Paired(os, symbol, p) > 0 || Imbalance(os, symbol, p) < MAX_I64
  }

  /** The running best over the prices seen so far. */
  ghost predicate BestOf(os: seq<AuctionOrder>, symbol: nat, ps: seq<int>, reference: int,
                         best: int, paired: int, imbalance: int) {
    if exists x :: x in ps && Eligible(os, symbol, x) then
      && best in ps && Eligible(os, symbol, best)
      && paired == Paired(os, symbol, best) && imbalance == Imbalance(os, symbol, best)
      && forall x :: x in ps ==> Beats(os, symbol, best, x)
    else best == reference && paired == 0 && imbalance == MAX_I64
  }

  lemma BestStep(os: seq<AuctionOrder>, symbol: nat, ps: seq<int>, reference: int,
                 best: int, paired: int, imbalance: int, p: int)
    requires BestOf(os, symbol, ps, reference, best, paired, imbalance) && PositiveQty(os)
    requires forall x :: x in ps ==> x < p
    ensures var np, ni := Paired(os, symbol, p), Imbalance(os, symbol, p);
            if np > paired || (np == paired && ni < imbalance)
            then BestOf(os, symbol, ps + [p], reference, p, np, ni)
            else BestOf(os, symbol, ps + [p], reference, best, paired, imbalance)
  {
    Steps(os, symbol, p, p);
    var ps' := ps + [p];
    forall x | x in ps ensures x in ps' && 0 <= Paired(os, symbol, x) { Steps(os, symbol, x, x); }
    assert p in ps';
    if exists x :: x in ps && Eligible(os, symbol, x) {
      var x :| x in ps && Eligible(os, symbol, x);
      assert x in ps';
    } else if Eligible(os, symbol, p) {
      assert p in ps' && Eligible(os, symbol, p);
    }
  }

  /** What the indicator promises about the orders it was computed from. */
  ghost predicate IsNoii(os: seq<AuctionOrder>, symbol: nat, reference: int, n: Noii) {
    if LimitPrices(os, symbol) == {} then n == Noii(reference, 0, 0, NoImbalance)
    else
      && n.paired == Paired(os, symbol, n.price) && n.imbalance == Imbalance(os, symbol, n.price)
      && n.side == (if Buys(os, symbol, n.price) > Sells(os, symbol, n.price) then BuyImbalance
                    else if Buys(os, symbol, n.price) < Sells(os, symbol, n.price) then SellImbalance else NoImbalance)
      && (forall q :: Paired(os, symbol, q) <= n.paired)
      && if exists x :: x in LimitPrices(os, symbol) && Eligible(os, symbol, x)
         then n.price in LimitPrices(os, symbol) && forall x :: x in LimitPrices(os, symbol) ==> Beats(os, symbol, n.price, x)
         else n.price == reference
  }

  /** The best of the limit prices is best among all integers. */
  lemma BestIsOptimal(os: seq<AuctionOrder>, symbol: nat, ps: seq<int>, reference: int, best: int, paired: int, imbalance: int)
    requires PositiveQty(os) && Ascending(ps) && ps != [] && Elems(ps) == LimitPrices(os, symbol)
    requires BestOf(os, symbol, ps, reference, best, paired, imbalance)
    ensures forall q :: Paired(os, symbol, q) <= Paired(os, symbol, best)
    ensures if exists x :: x in LimitPrices(os, symbol) && Eligible(os, symbol, x)
            then best in LimitPrices(os, symbol) && forall x :: x in LimitPrices(os, symbol) ==> Beats(os, symbol, best, x)
            else best == reference
  {
    assert forall x :: x in LimitPrices(os, symbol) <==> x in ps by {
      assert forall x :: x in Elems(ps) <==> x in ps;
    }
    forall q ensures Paired(os, symbol, q) <= Paired(os, symbol, best) {
      LimitPairsMost(os, symbol, ps, q);
      var x :| x in LimitPrices(os, symbol) && Paired(os, symbol, x) >= Paired(os, symbol, q);
      Steps(os, symbol, best, best);
      Steps(os, symbol, x, x);
    }
  }

  // ----- the indicator in plain volumes -----

  /** The quantity of the orders at these places. */
  ghost function QtyAt(os: seq<AuctionOrder>, at: set<nat>): int
    requires forall i :: i in at ==> i < |os|
  {
    if at == {} then 0
    else
      var i :| i in at;
      os[i].qty + QtyAt(os, at - {i})
  }

  lemma {:induction false} QtyAtDrop(os: seq<AuctionOrder>, at: set<nat>, i: nat)
    requires (forall j :: j in at ==> j < |os|) && i in at
    ensures QtyAt(os, at) == os[i].qty + QtyAt(os, at - {i})
    decreases |at|
  {
    var k :| k in at && QtyAt(os, at) == os[k].qty + QtyAt(os, at - {k});
    if k != i {
      QtyAtDrop(os, at - {k}, i);
      QtyAtDrop(os, at - {i}, k);
      assert at - {k} - {i} == at - {i} - {k};
    }
  }

  lemma {:induction false} QtyAtFront(os: seq<AuctionOrder>, front: seq<AuctionOrder>, at: set<nat>)
    requires front <= os && forall j :: j in at ==> j < |front|
    ensures QtyAt(os, at) == QtyAt(front, at)
    decreases |at|
  {
    if at != {} {
      var k :| k in at;
      QtyAtDrop(os, at, k);
      QtyAtDrop(front, at, k);
      QtyAtFront(os, front, at - {k});
    }
  }

  ghost function BuyersAt(os: seq<AuctionOrder>, symbol: nat, p: int): set<nat> {
    set i: nat | i < |os| && os[i].active && os[i].symbol == symbol && os[i].buy && (os[i].market || p <= os[i].price)
  }

  ghost function SellersAt(os: seq<AuctionOrder>, symbol: nat, p: int): set<nat> {
    set i: nat | i < |os| && os[i].active && os[i].symbol == symbol && !os[i].buy && (os[i].market || os[i].price <= p)
  }

  /** The volume at a price is that of the orders willing to trade there: market orders, buyers at
      that price or higher, sellers at that price or lower. */
  lemma {:induction false} VolumesAre(os: seq<AuctionOrder>, symbol: nat, p: int)
    ensures Buys(os, symbol, p) == QtyAt(os, BuyersAt(os, symbol, p))
    ensures Sells(os, symbol, p) == QtyAt(os, SellersAt(os, symbol, p))
  {
    if os != [] {
      var n := |os| - 1;
      var front := os[..n];
      VolumesAre(front, symbol, p);
      QtyAtFront(os, front, BuyersAt(front, symbol, p));
      QtyAtFront(os, front, SellersAt(front, symbol, p));
      assert BuyersAt(os, symbol, p) - {n} == BuyersAt(front, symbol, p);
      assert SellersAt(os, symbol, p) - {n} == SellersAt(front, symbol, p);
      if n in BuyersAt(os, symbol, p) {
        QtyAtDrop(os, BuyersAt(os, symbol, p), n);
      } else {
        assert BuyersAt(os, symbol, p) == BuyersAt(front, symbol, p);
      }
      if n in SellersAt(os, symbol, p) {
        QtyAtDrop(os, SellersAt(os, symbol, p), n);
      } else {
        assert SellersAt(os, symbol, p) == SellersAt(front, symbol, p);
      }
    }
  }

  /** With limit orders there: the paired quantity is the smaller side at the reported price and the
      imbalance what the larger side has more; at no integer price do both sides exceed the paired
      quantity; and of the limit prices that pair as much the reported one has the least imbalance,
      and is the lowest of those. */
  ghost predicate Clears(os: seq<AuctionOrder>, symbol: nat, n: Noii) {
    var b, s := Buys(os, symbol, n.price), Sells(os, symbol, n.price);
    && n.paired <= b && n.paired <= s && (n.paired == b || n.paired == s)
    && (b > s ==> n.side == BuyImbalance && n.imbalance == b - s)
    && (s > b ==> n.side == SellImbalance && n.imbalance == s - b)
    && (b == s ==> n.side == NoImbalance && n.imbalance == 0)
    && (forall q :: Buys(os, symbol, q) <= n.paired || Sells(os, symbol, q) <= n.paired)
    && ((exists x :: x in LimitPrices(os, symbol) && InReach(os, symbol, x)) ==>
          && n.price in LimitPrices(os, symbol)
          && forall x :: x in LimitPrices(os, symbol) ==> NoBetter(os, symbol, x, n))
  }

  /** The scan, which starts from no volume and the largest 64-bit imbalance, can take the price up. */
  ghost predicate InReach(os: seq<AuctionOrder>, symbol: nat, x: int) {
    var d := Buys(os, symbol, x) - Sells(os, symbol, x);
    (0 < Buys(os, symbol, x) && 0 < Sells(os, symbol, x)) || (d < 0x7FFF_FFFF_FFFF_FFFF && -d < 0x7FFF_FFFF_FFFF_FFFF)
  }

  /** A limit price that pairs as much has no less imbalance, and is no lower if it has the same. */
  ghost predicate NoBetter(os: seq<AuctionOrder>, symbol: nat, x: int, n: Noii) {
    var d := Buys(os, symbol, x) - Sells(os, symbol, x);
    n.paired <= Buys(os, symbol, x) && n.paired <= Sells(os, symbol, x) ==>
      (n.imbalance <= d || n.imbalance <= -d) && (n.imbalance == d || n.imbalance == -d ==> n.price <= x)
  }

  lemma NoiiClears(os: seq<AuctionOrder>, symbol: nat, reference: int, n: Noii)
    requires IsNoii(os, symbol, reference, n) && LimitPrices(os, symbol) != {} && PositiveQty(os)
    ensures Clears(os, symbol, n)
  {
    forall q ensures Buys(os, symbol, q) <= n.paired || Sells(os, symbol, q) <= n.paired {
      assert Paired(os, symbol, q) <= n.paired;
    }
    if x :| x in LimitPrices(os, symbol) && InReach(os, symbol, x) { assert Eligible(os, symbol, x); }
  }

  /** Inserts `p` into an ascending sequence that does not contain it. */
  method InsertSorted(ps: seq<int>, p: int) returns (r: seq<int>)
    requires Ascending(ps) && p !in ps
    ensures Ascending(r) && Elems(r) == Elems(ps) + {p} && |r| == |ps| + 1
  {
    var i := 0;
    while i < |ps| && ps[i] < p
      invariant 0 <= i <= |ps| && forall j :: 0 <= j < i ==> ps[j] < p
    {
      i := i + 1;
    }
    r := ps[..i] + [p] + ps[i..];
    InsertElems(ps, i, p);
  }

  /** Sorts distinct prices. */
  method Sort(ps: seq<int>) returns (r: seq<int>)
    requires Distinct(ps)
    ensures Ascending(r) && Elems(r) == Elems(ps) && |r| == |ps|
  {
    r := [];
    var i := 0;
    while i < |ps|
      invariant 0 <= i <= |ps| && Ascending(r) && Elems(r) == Elems(ps[..i]) && |r| == i
    {
      assert ps[i] !in r by { assert ps[i] !in Elems(ps[..i]); }
      r := InsertSorted(r, ps[i]);
      assert ps[..i + 1] == ps[..i] + [ps[i]];
      i := i + 1;
    }
    assert ps[..i] == ps;
  }

  class AuctionCrossEngine {
    const orders: array<AuctionOrder>
    var count: nat

    ghost function Active(): set<nat>
      reads orders
    {
      set i: nat | i < orders.Length && orders[i].active
    }

    ghost predicate Valid()
      reads this, orders
    {
      PositiveQty(orders[..]) && count == |Active()|
    }

    constructor (capacity: nat)
      ensures Valid() && count == 0 && orders.Length == capacity && fresh(orders)
    {
      orders := new AuctionOrder[capacity](_ => AuctionOrder(0, 0, true, 0, 0, false, false));
      count := 0;
      new;
      assert Active() == {};
    }

    /** Takes the first inactive slot; a market order carries no price. */
    method Add(id: nat, symbol: nat, buy: bool, price: int, qty: int, market: bool) returns (ok: bool)
      requires Valid()
      modifies this, orders
      ensures Valid()
      ensures ok <==> old(count) < orders.Length && qty > 0
      ensures !ok ==> orders[..] == old(orders[..])
      ensures ok ==> count == old(count) + 1 &&
                     exists i :: 0 <= i < orders.Length && !old(orders[..])[i].active &&
                       orders[..] == old(orders[..])[i := AuctionOrder(id, symbol, buy, if market then 0 else price, qty, market, true)]
    {
      if count >= orders.Length || qty <= 0 { return false; }
      ghost var os, active := orders[..], Active();
      var i := 0;
      while i < orders.Length && orders[i].active
        invariant 0 <= i <= orders.Length && forall j :: 0 <= j < i ==> j in active
      {
        i := i + 1;
      }
      assert i < orders.Length by { SubsetSize(Range(i), active); }
      orders[i] := AuctionOrder(id, symbol, buy, if market then 0 else price, qty, market, true);
      count := count + 1;
      assert orders[..] == os[i := orders[i]];
      assert Active() == active + {i};
      return true;
    }

    /** The distinct limit prices of a symbol, in order of first appearance. */
    method CollectPrices(symbol: nat) returns (ps: seq<int>)
      ensures Distinct(ps) && Elems(ps) == LimitPrices(orders[..], symbol)
    {
      ghost var os := orders[..];
      ps := [];
      var i := 0;
      while i < orders.Length
        invariant 0 <= i <= orders.Length && Distinct(ps) && Elems(ps) == LimitPrices(os[..i], symbol)
      {
        assert os[..i + 1] == os[..i] + [os[i]];
        OneMore(os[..i], os[i], symbol);
        if orders[i].active && orders[i].symbol == symbol && !orders[i].market && orders[i].price !in ps {
          assert Elems(ps + [orders[i].price]) == Elems(ps) + {orders[i].price};
          ps := ps + [orders[i].price];
        }
        i := i + 1;
      }
      assert os[..i] == os;
    }

    method Volumes(symbol: nat, p: int) returns (buys: int, sells: int)
      ensures buys == Buys(orders[..], symbol, p) && sells == Sells(orders[..], symbol, p)
    {
      ghost var os := orders[..];
      buys, sells := 0, 0;
      var i := 0;
      while i < orders.Length
        invariant 0 <= i <= orders.Length && buys == Buys(os[..i], symbol, p) && sells == Sells(os[..i], symbol, p)
      {
        assert os[..i + 1][..i] == os[..i];
        var o := orders[i];
        if o.active && o.symbol == symbol {
          if o.buy {
            if o.market || o.price >= p { buys := buys + o.qty; }
          } else {
            if o.market || o.price <= p { sells := sells + o.qty; }
          }
        }
        i := i + 1;
      }
      assert os[..i] == os;
    }

    /** The indicator: its price pairs the most volume over all prices, not only the limit
        prices scanned, and the reported quantities are those at that price. */
    method ComputeNoii(symbol: nat, reference: int) returns (n: Noii)
      requires Valid()
      ensures IsNoii(orders[..], symbol, reference, n)
      ensures LimitPrices(orders[..], symbol) == {} ==> n == Noii(reference, 0, 0, NoImbalance)
      ensures LimitPrices(orders[..], symbol) != {} ==> Clears(orders[..], symbol, n)
    {
      n := Indicate(symbol, reference);
      if LimitPrices(orders[..], symbol) != {} { NoiiClears(orders[..], symbol, reference, n); }
    }

    method Indicate(symbol: nat, reference: int) returns (n: Noii)
      requires Valid()
      ensures IsNoii(orders[..], symbol, reference, n)
    {
      var collected := CollectPrices(symbol);
      if |collected| == 0 { return Noii(reference, 0, 0, NoImbalance); }
      var ps := Sort(collected);
      var best, paired, imbalance := Search(symbol, reference, ps);
      BestIsOptimal(orders[..], symbol, ps, reference, best, paired, imbalance);
      var buys, sells := Volumes(symbol, best);
      var side := if buys > sells then BuyImbalance else if sells > buys then SellImbalance else NoImbalance;
      assert ps[0] in Elems(ps);
      return Noii(best, Min(buys, sells), Abs(buys - sells), side);
    }

    /** The best of the sorted prices. */
    method Search(symbol: nat, reference: int, ps: seq<int>) returns (best: int, paired: int, imbalance: int)
      requires Valid() && Ascending(ps)
      ensures BestOf(orders[..], symbol, ps, reference, best, paired, imbalance)
    {
      ghost var os := orders[..];
      best, paired, imbalance := reference, 0, MAX_I64;
      var k := 0;
      while k < |ps|
        invariant 0 <= k <= |ps| && BestOf(os, symbol, ps[..k], reference, best, paired, imbalance)
      {
        var p := ps[k];
        var buys, sells := Volumes(symbol, p);
        BestStep(os, symbol, ps[..k], reference, best, paired, imbalance, p);
        assert ps[..k + 1] == ps[..k] + [p];
        if Min(buys, sells) > paired || (Min(buys, sells) == paired && Abs(buys - sells) < imbalance) {
          best, paired, imbalance := p, Min(buys, sells), Abs(buys - sells);
        }
        k := k + 1;
      }
      assert ps[..k] == ps;
    }
  }
}
