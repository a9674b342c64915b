/** The execution state of all symbols as values: order slots and risk figures per symbol,
    the map of the reconciliation ledger, and what ties them together. */
module OpenOrders {
  import opened Risk
  import R = Recovery

  datatype Status = Vacant | Live | Partial | Done

  datatype ActiveOrder = ActiveOrder(id: nat, price: int, qty: int, filled: int, sell: bool, status: Status)
  const BLANK := ActiveOrder(0, 0, 0, 0, false, Vacant)

  datatype SymbolState = SymbolState(orders: seq<ActiveOrder>, risk: RiskState)

  datatype Place = Place(symbol: nat, slot: nat)

  /** A reported execution. */
  datatype FillEvent = FillEvent(symbol: nat, sell: bool, qty: int, price: int)

  predicate IsOpen(o: ActiveOrder) {
    o.status == Live || o.status == Partial
  }

  function View(o: ActiveOrder): R.Open {
    R.Open(o.qty, o.price, if o.sell then 1 else 0)
  }

  // ----- slots, ledger and index -----

  ghost predicate InRange(ss: seq<SymbolState>, p: Place) {
    p.symbol < |ss| && p.slot < |ss[p.symbol].orders|
  }

  ghost function SlotAt(ss: seq<SymbolState>, p: Place): ActiveOrder
    requires InRange(ss, p)
  {
    ss[p.symbol].orders[p.slot]
  }

  /** A used slot is the one place of its id; an open one is in `open` with what is left of it. */
  ghost predicate SlotOk(ss: seq<SymbolState>, at: map<nat, Place>, open: map<nat, R.Open>, p: Place)
    requires InRange(ss, p)
  {
    var o := SlotAt(ss, p);
    if o.status == Vacant then o == BLANK
    else
      && o.id != 0 && o.id in at && at[o.id] == p
      && if IsOpen(o) then o.qty > 0 && o.id in open && open[o.id] == View(o) else o.id !in open
  }

  ghost predicate IdOk(ss: seq<SymbolState>, at: map<nat, Place>, open: map<nat, R.Open>, id: nat)
    requires id in at
  {
    InRange(ss, at[id]) && SlotAt(ss, at[id]).id == id && SlotAt(ss, at[id]).status != Vacant
  }

  /** Every used slot has its own id, and the open orders are exactly `open`. */
  ghost predicate Books(ss: seq<SymbolState>, at: map<nat, Place>, open: map<nat, R.Open>) {
    && open.Keys <= at.Keys
    && (forall p {:trigger SlotOk(ss, at, open, p)} :: InRange(ss, p) ==> SlotOk(ss, at, open, p))
    && (forall id {:trigger IdOk(ss, at, open, id)} :: id in at ==> IdOk(ss, at, open, id))
  }

  /** The reconciliation ledger maps exactly the open orders to their remaining quantity. */
  ghost predicate LedgerIs(ledger: map<nat, int>, open: map<nat, R.Open>) {
    ledger.Keys == open.Keys && forall id :: id in open ==> ledger[id] == open[id].remaining
  }

  ghost function SetSlot(ss: seq<SymbolState>, p: Place, o: ActiveOrder, risk: RiskState): seq<SymbolState>
    requires InRange(ss, p)
  {
    ss[p.symbol := SymbolState(ss[p.symbol].orders[p.slot := o], risk)]
  }

  /** The id of a used slot, as a set. */
  function IdSet(o: ActiveOrder): set<nat> {
    if o.status == Vacant then {} else {o.id}
  }

  /** A new order takes over a slot that is vacant or done. */
  lemma OpenKeeps(ss: seq<SymbolState>, at: map<nat, Place>, open: map<nat, R.Open>, p: Place, o: ActiveOrder, risk: RiskState)
    requires Books(ss, at, open) && InRange(ss, p) && !IsOpen(SlotAt(ss, p))
    requires IsOpen(o) && o.id != 0 && o.qty > 0 && o.id !in at
    ensures Books(SetSlot(ss, p, o, risk), (at - IdSet(SlotAt(ss, p)))[o.id := p], open[o.id := View(o)])
  {
    var before := SlotAt(ss, p);
    var ss', at', open' := SetSlot(ss, p, o, risk), (at - IdSet(before))[o.id := p], open[o.id := View(o)];
    assert SlotOk(ss, at, open, p);
    forall q | InRange(ss', q) ensures SlotOk(ss', at', open', q) {
      if q != p { assert SlotOk(ss, at, open, q); }
    }
    forall id | id in at' ensures IdOk(ss', at', open', id) {
      if id != o.id { assert IdOk(ss, at, open, id); }
    }
  }

  /** An open order ends: its slot is blanked, or kept as done. */
  lemma CloseKeeps(ss: seq<SymbolState>, at: map<nat, Place>, open: map<nat, R.Open>, p: Place, o: ActiveOrder, risk: RiskState)
    requires Books(ss, at, open) && InRange(ss, p) && IsOpen(SlotAt(ss, p))
    requires o == BLANK || (o.status == Done && o.id == SlotAt(ss, p).id)
    ensures SlotAt(ss, p).id in open && SlotAt(ss, p).id in at
    ensures Books(SetSlot(ss, p, o, risk), if o == BLANK then at - {SlotAt(ss, p).id} else at, open - {SlotAt(ss, p).id})
  {
    var gone := SlotAt(ss, p).id;
    var ss', at', open' := SetSlot(ss, p, o, risk), if o == BLANK then at - {gone} else at, open - {gone};
    assert SlotOk(ss, at, open, p);
    forall q | InRange(ss', q) ensures SlotOk(ss', at', open', q) {
      if q != p { assert SlotOk(ss, at, open, q); }
    }
    forall id | id in at' ensures IdOk(ss', at', open', id) {
      assert IdOk(ss, at, open, id);
    }
  }

  /** An open order changes quantity or price and stays open. */
  lemma ChangeKeeps(ss: seq<SymbolState>, at: map<nat, Place>, open: map<nat, R.Open>, p: Place, o: ActiveOrder, risk: RiskState)
    requires Books(ss, at, open) && InRange(ss, p) && IsOpen(SlotAt(ss, p))
    requires IsOpen(o) && o.id == SlotAt(ss, p).id && o.qty > 0
    ensures o.id in open && o.id in at && Books(SetSlot(ss, p, o, risk), at, open[o.id := View(o)])
  {
    var ss', open' := SetSlot(ss, p, o, risk), open[o.id := View(o)];
    assert SlotOk(ss, at, open, p);
    forall q | InRange(ss', q) ensures SlotOk(ss', at, open', q) {
      if q != p { assert SlotOk(ss, at, open, q); }
    }
    forall id | id in at ensures IdOk(ss', at, open', id) {
      assert IdOk(ss, at, open, id);
    }
  }

  // ----- money -----

  function OpenNet(o: ActiveOrder): int { if IsOpen(o) then Signed(o.sell, o.qty) else 0 }
  function OpenGross(o: ActiveOrder): int { if IsOpen(o) then o.price * o.qty else 0 }
  function OpenOne(o: ActiveOrder): int { if IsOpen(o) then 1 else 0 }

  ghost function Total(orders: seq<ActiveOrder>, f: ActiveOrder -> int): int {
    if orders == [] then 0 else Total(orders[..|orders| - 1], f) + f(orders[|orders| - 1])
  }

  lemma {:induction false} TotalSet(orders: seq<ActiveOrder>, i: nat, o: ActiveOrder, f: ActiveOrder -> int)
    requires i < |orders|
    ensures Total(orders[i := o], f) == Total(orders, f) - f(orders[i]) + f(o)
  {
    var n := |orders| - 1;
    if i == n {
      assert orders[i := o][..n] == orders[..n];
    } else {
      assert orders[i := o][..n] == orders[..n][i := o];
      TotalSet(orders[..n], i, o, f);
    }
  }

  lemma {:induction false} CountBound(orders: seq<ActiveOrder>)
    ensures 0 <= Total(orders, OpenOne) <= |orders|
    ensures Total(orders, OpenOne) == |orders| ==> forall i :: 0 <= i < |orders| ==> IsOpen(orders[i])
  {
    if orders != [] { CountBound(orders[..|orders| - 1]); }
  }

  /** Signed quantity filled so far for a symbol, and its value at the fill prices. */
  ghost function FilledNet(fills: seq<FillEvent>, symbol: nat): int {
    if fills == [] then 0
    else
      var e := fills[|fills| - 1];
      FilledNet(fills[..|fills| - 1], symbol) + if e.symbol == symbol then Signed(e.sell, e.qty) else 0
  }

  ghost function FilledGross(fills: seq<FillEvent>, symbol: nat): int {
    if fills == [] then 0
    else
      var e := fills[|fills| - 1];
      FilledGross(fills[..|fills| - 1], symbol) + if e.symbol == symbol then e.price * e.qty else 0
  }

  /** The risk figures are fills plus open reservations; the counter counts the open orders. */
  ghost predicate MoneyOk(s: SymbolState, fills: seq<FillEvent>, symbol: nat) {
    && s.risk.net == FilledNet(fills, symbol) + Total(s.orders, OpenNet)
    && s.risk.gross == FilledGross(fills, symbol) + Total(s.orders, OpenGross)
    && s.risk.orderCount == Total(s.orders, OpenOne)
  }

  ghost predicate Conserved(ss: seq<SymbolState>, fills: seq<FillEvent>) {
    forall t {:trigger MoneyOk(ss[t], fills, t)} :: 0 <= t < |ss| ==> MoneyOk(ss[t], fills, t)
  }

  /** Replacing one slot moves the figures by the difference of the two reservations, and a
      fill event by its own amount. */
  lemma MoneyStep(s: SymbolState, fills: seq<FillEvent>, symbol: nat, i: nat, o: ActiveOrder, risk: RiskState,
                  more: seq<FillEvent>, net: int, gross: int)
    requires MoneyOk(s, fills, symbol) && i < |s.orders|
    requires FilledNet(more, symbol) == FilledNet(fills, symbol) + net
    requires FilledGross(more, symbol) == FilledGross(fills, symbol) + gross
    requires risk.net == s.risk.net - OpenNet(s.orders[i]) + OpenNet(o) + net
    requires risk.gross == s.risk.gross - OpenGross(s.orders[i]) + OpenGross(o) + gross
    requires risk.orderCount == s.risk.orderCount - OpenOne(s.orders[i]) + OpenOne(o)
    ensures MoneyOk(SymbolState(s.orders[i := o], risk), more, symbol)
  {
    TotalSet(s.orders, i, o, OpenNet);
    TotalSet(s.orders, i, o, OpenGross);
    TotalSet(s.orders, i, o, OpenOne);
  }

  lemma FillStep(fills: seq<FillEvent>, e: FillEvent, symbol: nat)
    ensures FilledNet(fills + [e], symbol) == FilledNet(fills, symbol) + if e.symbol == symbol then Signed(e.sell, e.qty) else 0
    ensures FilledGross(fills + [e], symbol) == FilledGross(fills, symbol) + if e.symbol == symbol then e.price * e.qty else 0
  {}

  // ----- the position, buys and sells apart -----

  ghost function Bought(fills: seq<FillEvent>, symbol: nat): int {
    if fills == [] then 0
    else
      var e := fills[|fills| - 1];
      Bought(fills[..|fills| - 1], symbol) + if e.symbol == symbol && !e.sell then e.qty else 0
  }

  ghost function Sold(fills: seq<FillEvent>, symbol: nat): int {
    if fills == [] then 0
    else
      var e := fills[|fills| - 1];
      Sold(fills[..|fills| - 1], symbol) + if e.symbol == symbol && e.sell then e.qty else 0
  }

  /** The open quantity on one side. */
  ghost function Resting(orders: seq<ActiveOrder>, sell: bool): int {
    if orders == [] then 0
    else
      var o := orders[|orders| - 1];
      Resting(orders[..|orders| - 1], sell) + if (o.status == Live || o.status == Partial) && o.sell == sell then o.qty else 0
  }

  /** What the open orders are worth at their prices. */
  ghost function Worth(orders: seq<ActiveOrder>): int {
    if orders == [] then 0
    else
      var o := orders[|orders| - 1];
      Worth(orders[..|orders| - 1]) + if o.status == Live || o.status == Partial then o.price * o.qty else 0
  }

  /** The open orders as a set of slots. */
  ghost function OpenSlots(orders: seq<ActiveOrder>): set<nat> {
    set i: nat | i < |orders| && (orders[i].status == Live || orders[i].status == Partial)
  }

  lemma {:induction false} FilledIs(fills: seq<FillEvent>, symbol: nat)
    ensures FilledNet(fills, symbol) == Bought(fills, symbol) - Sold(fills, symbol)
  {
    if fills != [] { FilledIs(fills[..|fills| - 1], symbol); }
  }

  lemma {:induction false} RestingIs(orders: seq<ActiveOrder>)
    ensures Total(orders, OpenNet) == Resting(orders, false) - Resting(orders, true)
    ensures Total(orders, OpenOne) == |OpenSlots(orders)| && Total(orders, OpenGross) == Worth(orders)
  {
    if orders != [] {
      var n := |orders| - 1;
      RestingIs(orders[..n]);
      var open := orders[n].status == Live || orders[n].status == Partial;
      assert OpenSlots(orders) == if open then OpenSlots(orders[..n]) + {n} else OpenSlots(orders[..n]);
    }
  }

  /** The position is what was bought and is being bought, less what was sold and is being sold;
      exposure is what was traded and what is open, at their prices; the order counter counts the open
      slots. */
  lemma PositionIs(s: SymbolState, fills: seq<FillEvent>, symbol: nat)
    requires MoneyOk(s, fills, symbol)
    ensures s.risk.net == Bought(fills, symbol) + Resting(s.orders, false) - Sold(fills, symbol) - Resting(s.orders, true)
    ensures s.risk.gross == FilledGross(fills, symbol) + Worth(s.orders)
    ensures s.risk.orderCount == |OpenSlots(s.orders)|
  {
    FilledIs(fills, symbol);
    RestingIs(s.orders);
  }

  /** The open orders over all symbols. */
  ghost function TotalOpen(ss: seq<SymbolState>): int {
    if ss == [] then 0 else TotalOpen(ss[..|ss| - 1]) + ss[|ss| - 1].risk.orderCount
  }

  lemma {:induction false} TotalOpenSet(ss: seq<SymbolState>, t: nat, s: SymbolState)
    requires t < |ss|
    ensures TotalOpen(ss[t := s]) == TotalOpen(ss) - ss[t].risk.orderCount + s.risk.orderCount
  {
    var n := |ss| - 1;
    if t == n {
      assert ss[t := s][..n] == ss[..n];
    } else {
      assert ss[t := s][..n] == ss[..n][t := s];
      TotalOpenSet(ss[..n], t, s);
    }
  }
}
