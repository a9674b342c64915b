/** The gateway's bookkeeping as one value, the changes each accepted report makes to it,
    and the invariant they all keep. */
module GatewayState {
  import opened Risk
  import opened OpenOrders
  import R = Recovery

  /** Slots and risk per symbol, ledger, rate-limiter count; and for the specification the
      place of every id, the open orders, the fills so far, the ids ever accepted and the
      orders the venue rejected, as they then were. */
  datatype Snapshot = Snapshot(ss: seq<SymbolState>, ledger: map<nat, int>, pending: nat,
                               at: map<nat, Place>, open: map<nat, R.Open>, fills: seq<FillEvent>, used: set<nat>,
                               rejected: map<nat, R.Open>)

  ghost predicate Slots(ss: seq<SymbolState>, slots: nat) {
    forall t {:trigger ss[t]} :: 0 <= t < |ss| ==> |ss[t].orders| == slots
  }

  /** Slots, ledger, limiter, counters and money agree; `extra` permits are held by an order
      still being admitted. */
  ghost predicate Agree(g: Snapshot, slots: nat, extra: nat) {
    && Slots(g.ss, slots)
    && Books(g.ss, g.at, g.open) && LedgerIs(g.ledger, g.open) && Conserved(g.ss, g.fills)
    && |g.open| == TotalOpen(g.ss) && g.pending == |g.open| + extra
    && g.at.Keys <= g.used && Barred(g.rejected, g.open, g.used)
  }

  /** Rejected orders are no longer open and their ids are not taken again. */
  ghost predicate Barred(rejected: map<nat, R.Open>, open: map<nat, R.Open>, used: set<nat>) {
    forall id {:trigger IsBarred(open, used, id)} :: id in rejected ==> IsBarred(open, used, id)
  }

  ghost predicate IsBarred(open: map<nat, R.Open>, used: set<nat>, id: nat) {
    id in used && id !in open
  }

  lemma BarredKept(rejected: map<nat, R.Open>, open: map<nat, R.Open>, used: set<nat>,
                   open': map<nat, R.Open>, used': set<nat>)
    requires Barred(rejected, open, used) && used <= used' && forall id :: id in open' ==> id in open || id !in used
    ensures Barred(rejected, open', used')
  {
    forall id | id in rejected ensures IsBarred(open', used', id) { assert IsBarred(open, used, id); }
  }

  /** The same, in a form that a proof unfolds only where it mentions `Agree`. */
  ghost predicate Core(g: Snapshot, slots: nat, extra: nat) {
    forall n: nat {:trigger Agree(g, slots, n)} :: n == extra ==> Agree(g, slots, n)
  }

  // ----- the changes -----

  function NewOrder(i: Intent): ActiveOrder {
    ActiveOrder(i.id, i.price, i.qty, 0, i.sell, Live)
  }

  function Reserved(r: RiskState, o: ActiveOrder): RiskState {
    r.(net := r.net + Signed(o.sell, o.qty), gross := r.gross + o.price * o.qty, orderCount := r.orderCount + 1)
  }

  /** Giving back the still-open part of an order. */
  function Released(r: RiskState, sell: bool, price: int, qty: int): RiskState {
    r.(net := r.net - Signed(sell, qty), gross := r.gross - price * qty,
       orderCount := if r.orderCount > 0 then r.orderCount - 1 else 0)
  }

  ghost function Accept(g: Snapshot, p: Place, i: Intent): Snapshot
    requires InRange(g.ss, p)
  {
    var o := NewOrder(i);
    g.(ss := SetSlot(g.ss, p, o, Reserved(g.ss[p.symbol].risk, o)), ledger := g.ledger[i.id := i.qty],
       at := (g.at - IdSet(SlotAt(g.ss, p)))[i.id := p], open := g.open[i.id := View(o)], used := g.used + {i.id})
  }

  /** Undoing an admission, or a cancel or reject by the venue: the slot is blanked. */
  ghost function Close(g: Snapshot, p: Place): Snapshot
    requires InRange(g.ss, p)
  {
    var o := SlotAt(g.ss, p);
    g.(ss := SetSlot(g.ss, p, BLANK, Released(g.ss[p.symbol].risk, o.sell, o.price, o.qty)),
       ledger := g.ledger - {o.id}, at := g.at - {o.id}, open := g.open - {o.id})
  }

  function FillOf(symbol: nat, o: ActiveOrder, qty: int): FillEvent {
    FillEvent(symbol, o.sell, qty, o.price)
  }

  ghost function PartFill(g: Snapshot, p: Place, qty: int): Snapshot
    requires InRange(g.ss, p)
  {
    var o := SlotAt(g.ss, p);
    var o' := o.(qty := o.qty - qty, filled := o.filled + qty, status := Partial);
    g.(ss := SetSlot(g.ss, p, o', g.ss[p.symbol].risk), ledger := g.ledger[o.id := o.qty - qty],
       open := g.open[o.id := View(o')], fills := g.fills + [FillOf(p.symbol, o, qty)])
  }

  /** A completing or terminal fill: the rest of the reservation goes, the slot stays as history. */
  ghost function LastFill(g: Snapshot, p: Place, qty: int): Snapshot
    requires InRange(g.ss, p)
  {
    var o := SlotAt(g.ss, p);
    var o' := o.(qty := o.qty - qty, filled := o.filled + qty, status := Done);
    g.(ss := SetSlot(g.ss, p, o', Released(g.ss[p.symbol].risk, o.sell, o.price, o.qty - qty)),
       ledger := g.ledger - {o.id}, open := g.open - {o.id}, fills := g.fills + [FillOf(p.symbol, o, qty)])
  }

  ghost function Amend(g: Snapshot, p: Place, qty: int, price: int): Snapshot
    requires InRange(g.ss, p)
  {
    var o, risk := SlotAt(g.ss, p), g.ss[p.symbol].risk;
    var o' := o.(qty := qty, price := price);
    var risk' := risk.(net := risk.net + (Signed(o.sell, qty) - Signed(o.sell, o.qty)),
                       gross := risk.gross + (price * qty - o.price * o.qty));
    g.(ss := SetSlot(g.ss, p, o', risk'), ledger := g.ledger[o.id := qty], open := g.open[o.id := View(o')])
  }

  /** Halting, resuming, counting a rejection: nothing that the books depend on. */
  ghost function Note(g: Snapshot, symbol: nat, halted: bool, rejectCount: nat): Snapshot
    requires symbol < |g.ss|
  {
    var s := g.ss[symbol];
    g.(ss := g.ss[symbol := s.(risk := s.risk.(halted := halted, rejectCount := rejectCount))])
  }

  // ----- they keep the invariant -----

  lemma ConservedStep(ss: seq<SymbolState>, fills: seq<FillEvent>, p: Place, o: ActiveOrder, risk: RiskState)
    requires Conserved(ss, fills) && InRange(ss, p)
    requires risk.net == ss[p.symbol].risk.net - OpenNet(SlotAt(ss, p)) + OpenNet(o)
    requires risk.gross == ss[p.symbol].risk.gross - OpenGross(SlotAt(ss, p)) + OpenGross(o)
    requires risk.orderCount == ss[p.symbol].risk.orderCount - OpenOne(SlotAt(ss, p)) + OpenOne(o)
    ensures Conserved(SetSlot(ss, p, o, risk), fills)
    ensures TotalOpen(SetSlot(ss, p, o, risk)) == TotalOpen(ss) - OpenOne(SlotAt(ss, p)) + OpenOne(o)
  {
    var ss' := SetSlot(ss, p, o, risk);
    forall t | 0 <= t < |ss'| ensures MoneyOk(ss'[t], fills, t) {
      assert MoneyOk(ss[t], fills, t);
      if t == p.symbol { MoneyStep(ss[t], fills, t, p.slot, o, risk, fills, 0, 0); }
    }
    TotalOpenSet(ss, p.symbol, ss'[p.symbol]);
  }

  /** A fill moves quantity from the open side of the sum to the filled side. */
  lemma ConservedFill(ss: seq<SymbolState>, fills: seq<FillEvent>, p: Place, qty: int, o: ActiveOrder, risk: RiskState)
    requires Conserved(ss, fills) && InRange(ss, p)
    requires var e := FillOf(p.symbol, SlotAt(ss, p), qty);
             && risk.net == ss[p.symbol].risk.net - OpenNet(SlotAt(ss, p)) + OpenNet(o) + Signed(e.sell, e.qty)
             && risk.gross == ss[p.symbol].risk.gross - OpenGross(SlotAt(ss, p)) + OpenGross(o) + e.price * e.qty
    requires risk.orderCount == ss[p.symbol].risk.orderCount - OpenOne(SlotAt(ss, p)) + OpenOne(o)
    ensures Conserved(SetSlot(ss, p, o, risk), fills + [FillOf(p.symbol, SlotAt(ss, p), qty)])
    ensures TotalOpen(SetSlot(ss, p, o, risk)) == TotalOpen(ss) - OpenOne(SlotAt(ss, p)) + OpenOne(o)
  {
    var ss', e := SetSlot(ss, p, o, risk), FillOf(p.symbol, SlotAt(ss, p), qty);
    forall t | 0 <= t < |ss'| ensures MoneyOk(ss'[t], fills + [e], t) {
      assert MoneyOk(ss[t], fills, t);
      FillStep(fills, e, t);
      if t == p.symbol {
        MoneyStep(ss[t], fills, t, p.slot, o, risk, fills + [e], Signed(e.sell, e.qty), e.price * e.qty);
      }
    }
    TotalOpenSet(ss, p.symbol, ss'[p.symbol]);
  }

  lemma SlotFacts(g: Snapshot, slots: nat, extra: nat, p: Place)
    requires Core(g, slots, extra) && InRange(g.ss, p) && IsOpen(SlotAt(g.ss, p))
    ensures var o := SlotAt(g.ss, p);
            && o.id != 0 && o.qty > 0 && o.id in g.at && g.at[o.id] == p
            && o.id in g.open && g.open[o.id] == View(o) && o.id in g.ledger && g.ledger[o.id] == o.qty
    ensures g.ss[p.symbol].risk.orderCount > 0 && g.pending > 0
  {
    assert Agree(g, slots, extra);
    assert SlotOk(g.ss, g.at, g.open, p) && MoneyOk(g.ss[p.symbol], g.fills, p.symbol);
    CountPositive(g.ss[p.symbol].orders, p.slot);
  }

  /** What is known of an id. */
  lemma IdFacts(g: Snapshot, slots: nat, extra: nat, id: nat)
    requires Core(g, slots, extra)
    ensures id in g.ledger <==> id in g.open
    ensures id in g.open ==> id in g.at && id !in g.rejected
    ensures id in g.at || id in g.rejected ==> id in g.used
    ensures g.pending == |g.open| + extra && g.pending >= extra
  {
    assert Agree(g, slots, extra);
    if id in g.rejected { assert IsBarred(g.open, g.used, id); }
  }

  /** The slot of an id, and the id of a slot. */
  lemma PlaceFacts(g: Snapshot, slots: nat, extra: nat, id: nat, symbol: nat)
    requires Core(g, slots, extra) && symbol < |g.ss|
    ensures |g.ss[symbol].orders| == slots && (id in g.at ==> IdOk(g.ss, g.at, g.open, id))
    ensures forall i :: 0 <= i < slots && g.ss[symbol].orders[i].id == id ==> SlotOk(g.ss, g.at, g.open, Place(symbol, i))
  {
    assert Agree(g, slots, extra);
  }

  /** A permit of the rate limiter taken for an order being admitted, and given back. */
  lemma TakePermit(g: Snapshot, g': Snapshot, slots: nat)
    requires Core(g, slots, 0) && g' == g.(pending := g'.pending) && g'.pending == g.pending + 1
    ensures Core(g', slots, 1)
  {
    assert Agree(g, slots, 0);
  }

  lemma GivePermit(g: Snapshot, g': Snapshot, slots: nat)
    requires Core(g, slots, 1) && g' == g.(pending := g'.pending) && g'.pending == g.pending - 1
    ensures Core(g', slots, 0)
  {
    assert Agree(g, slots, 1);
  }

  /** Taking an id off the record of accepted ones, or putting an order on that of rejected ones. */
  lemma ForgetKeeps(g: Snapshot, g': Snapshot, slots: nat, extra: nat, id: nat)
    requires Core(g, slots, extra) && id !in g.at && id !in g.rejected && g' == g.(used := g.used - {id})
    ensures Core(g', slots, extra)
  {
    assert Agree(g, slots, extra);
    forall k | k in g.rejected ensures IsBarred(g.open, g.used - {id}, k) { assert IsBarred(g.open, g.used, k); }
  }

  lemma RejectKeeps(g: Snapshot, g': Snapshot, slots: nat, extra: nat, id: nat, was: R.Open)
    requires Core(g, slots, extra) && id in g.used && id !in g.open && g' == g.(rejected := g.rejected[id := was])
    ensures Core(g', slots, extra)
  {
    assert Agree(g, slots, extra);
    forall k | k in g.rejected[id := was] ensures IsBarred(g.open, g.used, k) {
      if k != id { assert IsBarred(g.open, g.used, k); }
    }
  }

  lemma {:induction false} CountPositive(orders: seq<ActiveOrder>, i: nat)
    requires i < |orders| && IsOpen(orders[i])
    ensures Total(orders, OpenOne) > 0
  {
    CountBound(orders[..|orders| - 1]);
    if i < |orders| - 1 { CountPositive(orders[..|orders| - 1], i); }
  }

  lemma LedgerPut(ledger: map<nat, int>, open: map<nat, R.Open>, id: nat, o: R.Open)
    requires LedgerIs(ledger, open)
    ensures LedgerIs(ledger[id := o.remaining], open[id := o])
  {}

  lemma LedgerDrop(ledger: map<nat, int>, open: map<nat, R.Open>, id: nat)
    requires LedgerIs(ledger, open) && id in open
    ensures LedgerIs(ledger - {id}, open - {id}) && |open - {id}| == |open| - 1
  {
    assert (open - {id}).Keys == open.Keys - {id};
  }

  lemma AcceptKeeps(g: Snapshot, slots: nat, p: Place, i: Intent)
    requires Core(g, slots, 1) && InRange(g.ss, p) && !IsOpen(SlotAt(g.ss, p))
    requires i.id != 0 && i.qty > 0 && i.id !in g.used
    ensures Core(Accept(g, p, i), slots, 0)
  {
    assert Agree(g, slots, 1);
    BarredKept(g.rejected, g.open, g.used, g.open[i.id := View(NewOrder(i))], g.used + {i.id});
    var o := NewOrder(i);
    LedgerPut(g.ledger, g.open, i.id, View(o));
    OpenKeeps(g.ss, g.at, g.open, p, o, Reserved(g.ss[p.symbol].risk, o));
    ConservedStep(g.ss, g.fills, p, o, Reserved(g.ss[p.symbol].risk, o));
  }

  lemma SlotsSet(ss: seq<SymbolState>, slots: nat, p: Place, o: ActiveOrder, risk: RiskState)
    requires Slots(ss, slots) && InRange(ss, p)
    ensures Slots(SetSlot(ss, p, o, risk), slots)
  {}

  /** An order closes, its slot blanked or marked done, and the money agrees. */
  lemma Closed(g: Snapshot, g': Snapshot, slots: nat, p: Place, o: ActiveOrder, risk: RiskState, id: nat)
    requires Core(g, slots, 0) && InRange(g.ss, p) && IsOpen(SlotAt(g.ss, p)) && id == SlotAt(g.ss, p).id
    requires if o == BLANK then g'.at == g.at - {id} else o.status == Done && o.id == id && g'.at == g.at
    requires g'.ss == SetSlot(g.ss, p, o, risk) && Conserved(g'.ss, g'.fills) && TotalOpen(g'.ss) == TotalOpen(g.ss) - 1
    requires g'.open == g.open - {id} && g'.ledger == g.ledger - {id}
    requires g'.pending == g.pending && g'.used == g.used && g'.rejected == g.rejected
    ensures Core(g', slots, 1)
  {
    assert Agree(g, slots, 0);
    SlotsSet(g.ss, slots, p, o, risk);
    assert Books(g'.ss, g'.at, g'.open) && id in g.open by { OpenOrders.CloseKeeps(g.ss, g.at, g.open, p, o, risk); }
    LedgerDrop(g.ledger, g.open, id);
    assert Barred(g'.rejected, g'.open, g'.used) by { BarredKept(g.rejected, g.open, g.used, g'.open, g.used); }
  }

  /** An order stays open with other figures, and the money agrees. */
  lemma Changed(g: Snapshot, g': Snapshot, slots: nat, p: Place, o: ActiveOrder, risk: RiskState)
    requires Core(g, slots, 0) && InRange(g.ss, p) && IsOpen(SlotAt(g.ss, p))
    requires IsOpen(o) && o.id == SlotAt(g.ss, p).id && o.qty > 0
    requires g'.ss == SetSlot(g.ss, p, o, risk) && Conserved(g'.ss, g'.fills) && TotalOpen(g'.ss) == TotalOpen(g.ss)
    requires g'.open == g.open[o.id := View(o)] && g'.ledger == g.ledger[o.id := View(o).remaining]
    requires g'.at == g.at && g'.pending == g.pending && g'.used == g.used && g'.rejected == g.rejected
    ensures Core(g', slots, 0)
  {
    assert Agree(g, slots, 0);
    ChangeKeeps(g.ss, g.at, g.open, p, o, risk);
    BarredKept(g.rejected, g.open, g.used, g'.open, g.used);
    LedgerPut(g.ledger, g.open, o.id, View(o));
    assert g'.open.Keys == g.open.Keys;
  }

  lemma MoneyAgrees(g: Snapshot, slots: nat, p: Place)
    requires Core(g, slots, 0) && InRange(g.ss, p) && IsOpen(SlotAt(g.ss, p))
    ensures Conserved(g.ss, g.fills) && g.ss[p.symbol].risk.orderCount > 0
  {
    assert Agree(g, slots, 0);
    SlotFacts(g, slots, 0, p);
  }

  lemma CloseKeepsCore(g: Snapshot, slots: nat, p: Place)
    requires Core(g, slots, 0) && InRange(g.ss, p) && IsOpen(SlotAt(g.ss, p))
    ensures Core(Close(g, p), slots, 1)
  {
    var o, g' := SlotAt(g.ss, p), Close(g, p);
    var risk := Released(g.ss[p.symbol].risk, o.sell, o.price, o.qty);
    MoneyAgrees(g, slots, p);
    ConservedStep(g.ss, g.fills, p, BLANK, risk);
    Closed(g, g', slots, p, BLANK, risk, o.id);
  }

  lemma PartFillKeeps(g: Snapshot, slots: nat, p: Place, qty: int)
    requires Core(g, slots, 0) && InRange(g.ss, p) && IsOpen(SlotAt(g.ss, p)) && 0 < qty < SlotAt(g.ss, p).qty
    ensures Core(PartFill(g, p, qty), slots, 0)
  {
    var o, g' := SlotAt(g.ss, p), PartFill(g, p, qty);
    var o' := o.(qty := o.qty - qty, filled := o.filled + qty, status := Partial);
    MoneyAgrees(g, slots, p);
    Distribute(o.price, o.qty, qty);
    ConservedFill(g.ss, g.fills, p, qty, o', g.ss[p.symbol].risk);
    Changed(g, g', slots, p, o', g.ss[p.symbol].risk);
  }

  lemma Distribute(price: int, total: int, part: int)
    ensures price * (total - part) == price * total - price * part
  {}

  /** What a final fill leaves unfilled is released. */
  lemma LastFillKeeps(g: Snapshot, slots: nat, p: Place, qty: int)
    requires Core(g, slots, 0) && InRange(g.ss, p) && IsOpen(SlotAt(g.ss, p)) && 0 < qty <= SlotAt(g.ss, p).qty
    ensures Core(LastFill(g, p, qty), slots, 1)
  {
    var o, g' := SlotAt(g.ss, p), LastFill(g, p, qty);
    var o' := o.(qty := o.qty - qty, filled := o.filled + qty, status := Done);
    var risk := Released(g.ss[p.symbol].risk, o.sell, o.price, o.qty - qty);
    MoneyAgrees(g, slots, p);
    Distribute(o.price, o.qty, qty);
    ConservedFill(g.ss, g.fills, p, qty, o', risk);
    Closed(g, g', slots, p, o', risk, o.id);
  }

  lemma AmendKeeps(g: Snapshot, slots: nat, p: Place, qty: int, price: int)
    requires Core(g, slots, 0) && InRange(g.ss, p) && IsOpen(SlotAt(g.ss, p)) && qty > 0
    ensures Core(Amend(g, p, qty, price), slots, 0)
  {
    var o, risk, g' := SlotAt(g.ss, p), g.ss[p.symbol].risk, Amend(g, p, qty, price);
    var o' := o.(qty := qty, price := price);
    var risk' := risk.(net := risk.net + (Signed(o.sell, qty) - Signed(o.sell, o.qty)),
                       gross := risk.gross + (price * qty - o.price * o.qty));
    MoneyAgrees(g, slots, p);
    ConservedStep(g.ss, g.fills, p, o', risk');
    Changed(g, g', slots, p, o', risk');
  }

  lemma NoteBooks(ss: seq<SymbolState>, at: map<nat, Place>, open: map<nat, R.Open>, symbol: nat, risk: RiskState)
    requires Books(ss, at, open) && symbol < |ss|
    ensures Books(ss[symbol := ss[symbol].(risk := risk)], at, open)
  {
    var ss' := ss[symbol := ss[symbol].(risk := risk)];
    forall p | InRange(ss', p) ensures SlotOk(ss', at, open, p) { assert SlotOk(ss, at, open, p); }
    forall id | id in at ensures IdOk(ss', at, open, id) { assert IdOk(ss, at, open, id); }
  }

  lemma NoteMoney(ss: seq<SymbolState>, fills: seq<FillEvent>, symbol: nat, risk: RiskState)
    requires Conserved(ss, fills) && symbol < |ss|
    requires risk == ss[symbol].risk.(halted := risk.halted, rejectCount := risk.rejectCount)
    ensures var ss' := ss[symbol := ss[symbol].(risk := risk)]; Conserved(ss', fills) && TotalOpen(ss') == TotalOpen(ss)
  {
    var ss' := ss[symbol := ss[symbol].(risk := risk)];
    forall t | 0 <= t < |ss'| ensures MoneyOk(ss'[t], fills, t) { assert MoneyOk(ss[t], fills, t); }
    TotalOpenSet(ss, symbol, ss'[symbol]);
  }

  lemma NoteKeeps(g: Snapshot, g': Snapshot, slots: nat, extra: nat, symbol: nat, halted: bool, rejectCount: nat)
    requires Core(g, slots, extra) && symbol < |g.ss| && g' == Note(g, symbol, halted, rejectCount)
    ensures Core(g', slots, extra)
  {
    assert Agree(g, slots, extra);
    var risk := g.ss[symbol].risk.(halted := halted, rejectCount := rejectCount);
    NoteBooks(g.ss, g.at, g.open, symbol, risk);
    NoteMoney(g.ss, g.fills, symbol, risk);
  }

  /** A symbol below its order limit always has a slot to offer. */
  lemma FreeSlotExists(g: Snapshot, slots: nat, extra: nat, symbol: nat)
    requires Core(g, slots, extra) && symbol < |g.ss| && g.ss[symbol].risk.orderCount < slots
    ensures |g.ss[symbol].orders| == slots && exists i :: 0 <= i < slots && !IsOpen(g.ss[symbol].orders[i])
  {
    assert Agree(g, slots, extra);
    assert MoneyOk(g.ss[symbol], g.fills, symbol);
    AllOpenCount(g.ss[symbol].orders);
  }

  lemma {:induction false} AllOpenCount(orders: seq<ActiveOrder>)
    ensures (forall i :: 0 <= i < |orders| ==> IsOpen(orders[i])) ==> Total(orders, OpenOne) == |orders|
  {
    if orders != [] { AllOpenCount(orders[..|orders| - 1]); }
  }

  // ----- records -----

  /** The record about order `id` turns one map of orders into the other. */
  ghost predicate Turns(m: map<nat, R.Open>, e: R.Event, m': map<nat, R.Open>, id: nat) {
    e.id == id && R.MapEvent(m, e) == R.Some(m')
  }

  /** The same, in a form that a proof unfolds only where it mentions `Turns`. */
  ghost predicate Becomes(m: map<nat, R.Open>, e: R.Event, m': map<nat, R.Open>) {
    forall id {:trigger Turns(m, e, m', id)} :: id == e.id ==> Turns(m, e, m', id)
  }

  lemma AddBecomes(m: map<nat, R.Open>, e: R.Event)
    requires e.kind == R.Add && e.id !in m
    ensures Becomes(m, e, m[e.id := R.Open(e.qty, e.price, e.side)]) && |m[e.id := R.Open(e.qty, e.price, e.side)]| == |m| + 1
  {}

  lemma CancelBecomes(m: map<nat, R.Open>, e: R.Event)
    requires e.kind == R.Cancel && e.id in m
    ensures Becomes(m, e, m - {e.id}) && |m - {e.id}| < |m|
  {
    assert (m - {e.id}).Keys == m.Keys - {e.id};
  }

  lemma ReplaceBecomes(m: map<nat, R.Open>, e: R.Event)
    requires e.kind == R.Replace && e.id in m && e.qty > 0 && e.price > 0
    ensures var m' := m[e.id := m[e.id].(remaining := e.qty, price := e.price)]; Becomes(m, e, m') && |m'| == |m|
  {
    assert m[e.id := m[e.id].(remaining := e.qty, price := e.price)].Keys == m.Keys;
  }

  /** A fill is recorded as terminal exactly when it ends the order early. */
  function FillKind(terminal: bool, remaining: int): R.EventType {
    if terminal && remaining > 0 then R.TerminalFill else R.Fill
  }

  lemma FillBecomes(m: map<nat, R.Open>, e: R.Event, terminal: bool, left: int, m': map<nat, R.Open>)
    requires e.id in m && 0 < e.qty <= m[e.id].remaining && left == m[e.id].remaining - e.qty
    requires e.kind == FillKind(terminal, left)
    requires terminal || left == 0 ==> m' == m - {e.id}
    requires !terminal && left != 0 ==> m' == m[e.id := m[e.id].(remaining := left)]
    ensures Becomes(m, e, m') && |m'| <= |m|
  {
    assert (m - {e.id}).Keys == m.Keys - {e.id};
    assert m[e.id := m[e.id].(remaining := left)].Keys == m.Keys;
  }

  // ----- the log -----

  /** The first `n` records replay to these orders, never holding more than the capacity. */
  ghost predicate ReplaysTo(log: seq<R.Record>, n: nat, orders: map<nat, R.Open>, capacity: nat) {
    n <= |log| && R.ReplayMap(log, n) == R.Some(orders) && R.PeakWithin(log, n, capacity)
  }

  /** So does the whole log; a proof unfolds it only where it mentions `ReplaysTo`. */
  ghost predicate Logged(log: seq<R.Record>, orders: map<nat, R.Open>, capacity: nat) {
    forall n: nat {:trigger ReplaysTo(log, n, orders, capacity)} :: n == |log| ==> ReplaysTo(log, n, orders, capacity)
  }

  lemma ReplayGrows(log: seq<R.Record>, more: seq<R.Record>, open: map<nat, R.Open>, e: R.Event, open': map<nat, R.Open>)
    requires more == log + [R.Record(|log|, e, true)] && R.ReplayMap(log, |log|) == R.Some(open)
    requires R.MapEvent(open, e) == R.Some(open')
    ensures R.ReplayMap(more, |more|) == R.Some(open')
  {
    assert more[..|log|] == log && more[|log|] == R.Record(|log|, e, true);
    R.ReplayPrefix(log, more, |log|);
  }

  lemma PeakGrows(log: seq<R.Record>, more: seq<R.Record>, open': map<nat, R.Open>, capacity: nat)
    requires |more| == |log| + 1 && more[..|log|] == log && R.PeakWithin(log, |log|, capacity)
    requires R.ReplayMap(more, |more|) == R.Some(open') && |open'| <= capacity
    ensures R.PeakWithin(more, |more|, capacity)
  {
    PrefixPeak(log, more, capacity);
    R.PeakStep(more, |more|, capacity);
  }

  lemma LogStep(log: seq<R.Record>, open: map<nat, R.Open>, e: R.Event, open': map<nat, R.Open>, capacity: nat)
    requires Logged(log, open, capacity) && Becomes(open, e, open') && |open'| <= capacity
    ensures Logged(log + [R.Record(|log|, e, true)], open', capacity)
  {
    var more := log + [R.Record(|log|, e, true)];
    assert ReplaysTo(log, |log|, open, capacity) && Turns(open, e, open', e.id);
    ReplayGrows(log, more, open, e, open');
    PeakGrows(log, more, open', capacity);
  }

  lemma PrefixPeak(log: seq<R.Record>, more: seq<R.Record>, capacity: nat)
    requires |log| <= |more| && more[..|log|] == log && R.PeakWithin(log, |log|, capacity)
    ensures R.PeakWithin(more, |log|, capacity)
  {
    forall i | 0 <= i <= |log| ensures R.FitsAt(more, i, capacity) {
      assert R.FitsAt(log, i, capacity);
      R.ReplayPrefix(log, more, i);
    }
  }

  lemma EmptyLog(capacity: nat)
    ensures Logged([], map[], capacity)
  {
    assert R.FitsAt([], 0, capacity);
  }

  /** Enough capacity: recovery succeeds and lists exactly the orders the log replays to. */
  lemma RecoveryListsOpenOrders(log: seq<R.Record>, orders: map<nat, R.Open>, capacity: nat, size: nat)
    requires Logged(log, orders, capacity) && capacity <= size
    ensures R.ReplayArray(log, |log|, size).Some?
    ensures R.Lists(R.ReplayArray(log, |log|, size).value, orders)
  {
    MoreCapacity(log, orders, capacity, size);
    assert ReplaysTo(log, |log|, orders, size);
    R.ReplayRefines(log, |log|, size);
  }

  // ----- orders the venue rejected -----

  /** What the log replays to: a venue reject removes an order without a record, so the log
      still holds the order as it was when rejected, beside the open ones. */
  ghost predicate Shadow(logged: map<nat, R.Open>, rejected: map<nat, R.Open>, open: map<nat, R.Open>) {
    && |logged| == |rejected| + |open|
    && forall id {:trigger Shadows(logged, rejected, open, id)} :: Shadows(logged, rejected, open, id)
  }

  ghost predicate Shadows(logged: map<nat, R.Open>, rejected: map<nat, R.Open>, open: map<nat, R.Open>, id: nat) {
    && (id in logged <==> id in rejected || id in open) && !(id in rejected && id in open)
    && (id in rejected ==> logged[id] == rejected[id]) && (id in open ==> logged[id] == open[id])
  }

  ghost predicate Backs(log: seq<R.Record>, logged: map<nat, R.Open>, rejected: map<nat, R.Open>, open: map<nat, R.Open>,
                        limit: nat, peak: nat) {
    Logged(log, logged, peak) && peak == limit + |rejected| && Shadow(logged, rejected, open)
  }

  /** The log replays to the open orders beside the rejected ones, within `limit` open orders; a
      proof unfolds it only where it mentions `Backs`. */
  ghost predicate Backed(log: seq<R.Record>, logged: map<nat, R.Open>, rejected: map<nat, R.Open>, open: map<nat, R.Open>,
                         limit: nat, peak: nat) {
    forall n: nat {:trigger Backs(log, logged, rejected, open, limit, n)} :: n == peak ==> Backs(log, logged, rejected, open, limit, n)
  }

  /** A record about an order that was not rejected acts on the open ones alone. */
  lemma EventBeside(logged: map<nat, R.Open>, rejected: map<nat, R.Open>, open: map<nat, R.Open>,
                    e: R.Event, open': map<nat, R.Open>) returns (logged': map<nat, R.Open>)
    requires Shadow(logged, rejected, open) && e.id !in rejected && Becomes(open, e, open')
    ensures Becomes(logged, e, logged') && Shadow(logged', rejected, open')
  {
    assert Turns(open, e, open', e.id);
    assert Shadows(logged, rejected, open, e.id);
    logged' := R.MapEvent(logged, e).value;
    forall id ensures Shadows(logged', rejected, open', id) { assert Shadows(logged, rejected, open, id); }
    EventSize(logged, e);
    EventSize(open, e);
  }

  /** A record changes the number of orders alike in both. */
  lemma EventSize(m: map<nat, R.Open>, e: R.Event)
    requires R.MapEvent(m, e).Some?
    ensures |R.MapEvent(m, e).value| == |m| + Growth(m, e)
  {
    if e.id in m { assert (m - {e.id}).Keys == m.Keys - {e.id}; }
  }

  function Growth(m: map<nat, R.Open>, e: R.Event): int {
    if e.id !in m then 1
    else if e.kind == R.TerminalFill || e.kind == R.Cancel || (e.kind == R.Fill && e.qty == m[e.id].remaining) then -1
    else 0
  }

  lemma LogStepBeside(log: seq<R.Record>, logged: map<nat, R.Open>, rejected: map<nat, R.Open>, open: map<nat, R.Open>,
                      e: R.Event, open': map<nat, R.Open>, capacity: nat) returns (logged': map<nat, R.Open>)
    requires Logged(log, logged, capacity) && Shadow(logged, rejected, open) && e.id !in rejected
    requires Becomes(open, e, open') && |open'| + |rejected| <= capacity
    ensures Logged(log + [R.Record(|log|, e, true)], logged', capacity) && Shadow(logged', rejected, open')
  {
    logged' := EventBeside(logged, rejected, open, e, open');
    LogStep(log, logged, e, logged', capacity);
  }

  /** A reject changes what is open and not what the log holds. */
  lemma RejectBeside(logged: map<nat, R.Open>, rejected: map<nat, R.Open>, open: map<nat, R.Open>, id: nat)
    requires Shadow(logged, rejected, open) && id in open
    ensures Shadow(logged, rejected[id := open[id]], open - {id}) && |rejected[id := open[id]]| == |rejected| + 1
  {
    var rejected' := rejected[id := open[id]];
    forall k ensures Shadows(logged, rejected', open - {id}, k) { assert Shadows(logged, rejected, open, k); }
    assert Shadows(logged, rejected, open, id);
    assert (open - {id}).Keys == open.Keys - {id} && rejected'.Keys == rejected.Keys + {id};
  }

  lemma MoreCapacity(log: seq<R.Record>, orders: map<nat, R.Open>, capacity: nat, more: nat)
    requires Logged(log, orders, capacity) && capacity <= more
    ensures Logged(log, orders, more)
  {
    assert ReplaysTo(log, |log|, orders, capacity);
    forall i | 0 <= i <= |log| ensures R.FitsAt(log, i, more) { assert R.FitsAt(log, i, capacity); }
  }

  /** Replay lists the open orders and, beside them, every order the venue rejected: it lists
      exactly the open ones if and only if there was no such order. */
  lemma ReplayBringsBackRejects(log: seq<R.Record>, logged: map<nat, R.Open>, rejected: map<nat, R.Open>,
                                open: map<nat, R.Open>, capacity: nat, size: nat)
    requires Logged(log, logged, capacity) && Shadow(logged, rejected, open) && capacity <= size
    ensures R.ReplayArray(log, |log|, size).Some?
    ensures var out := R.ReplayArray(log, |log|, size).value;
            && R.Lists(out, logged) && (R.Lists(out, open) <==> rejected == map[])
            && forall id :: id in rejected ==> R.Find(out, id, 0) < |out| && out[R.Find(out, id, 0)].id == id
  {
    RecoveryListsOpenOrders(log, logged, capacity, size);
    var out := R.ReplayArray(log, |log|, size).value;
    if rejected == map[] { ShadowIsOpen(logged, open); }
    forall id | id in rejected ensures R.Find(out, id, 0) < |out| && out[R.Find(out, id, 0)].id == id {
      assert Shadows(logged, rejected, open, id);
      R.FindDecides(out, logged, id);
    }
  }

  lemma ShadowIsOpen(logged: map<nat, R.Open>, open: map<nat, R.Open>)
    requires Shadow(logged, map[], open)
    ensures logged == open
  {
    forall id ensures id in logged <==> id in open { assert Shadows(logged, map[], open, id); }
    forall id | id in open ensures logged[id] == open[id] { assert Shadows(logged, map[], open, id); }
  }
}
