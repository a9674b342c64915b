/** The gateway as a function of what it is asked and told: books, breaker and the operations its
    reconciliation ledger has seen, over whole runs. */
module GatewayRuns {
  import opened Risk
  import opened OpenOrders
  import opened GatewayState
  import Ledger
  import L = LedgerRuns
  import R = Recovery
  import B = Breaker

  datatype Setup = Setup(limits: seq<Limits>, slots: nat, maxPending: nat, ledgerCap: nat, breaker: B.Config, attached: bool)

  /** Outcomes that lie outside the gateway: the audit log and the disk. */
  datatype Env = Env(auditOk: bool, written: bool)

  datatype Op =
    | Submit(i: Intent, env: Env)
    | Execution(symbol: nat, report: Ledger.Report, written: bool)
    | Cancel(symbol: nat, id: nat, written: bool)
    | Replace(symbol: nat, id: nat, qty: int, price: int, written: bool)
    | Reject(symbol: nat, id: nat, now: nat)

  datatype World = World(g: Snapshot, breaker: B.State, ops: seq<L.Op>)

  // ----- one call -----

  /** A slot of this symbol holds the id, open or done. */
  ghost predicate Knows(g: Snapshot, symbol: nat, id: nat) {
    id in g.at && g.at[id].symbol == symbol && InRange(g.ss, g.at[id])
  }

  /** The symbol halts and the breaker trips: the answer to a report that does not reconcile. */
  ghost function Distrusted(w: World, symbol: nat): World
    requires symbol < |w.g.ss|
  {
    w.(g := Note(w.g, symbol, true, w.g.ss[symbol].risk.rejectCount), breaker := B.Trip(w.breaker, 0))
  }

  /** A rejection is counted and, if so asked, the symbol halts. */
  ghost function Counted(g: Snapshot, symbol: nat, halt: bool): Snapshot
    requires symbol < |g.ss|
  {
    Note(g, symbol, g.ss[symbol].risk.halted || halt, g.ss[symbol].risk.rejectCount + 1)
  }

  /** The first slot that is vacant or done, or the number of slots. */
  function FirstFree(orders: seq<ActiveOrder>): (k: nat)
    ensures k <= |orders| && (forall j :: 0 <= j < k ==> IsOpen(orders[j])) && (k < |orders| ==> !IsOpen(orders[k]))
  {
    if orders == [] || !IsOpen(orders[0]) then 0 else 1 + FirstFree(orders[1..])
  }

  /** Rate limiter, risk limits and order limit let the order pass. */
  ghost predicate Passes(c: Setup, g: Snapshot, i: Intent)
    requires i.symbol < |g.ss| == |c.limits|
  {
    && g.pending < c.maxPending && Evaluate(c.limits[i.symbol], g.ss[i.symbol].risk, i).pass
    && g.ss[i.symbol].risk.orderCount < c.slots
  }

  /** The ledger refuses the order. */
  ghost function Unregistered(c: Setup, w: World, i: Intent): World
    requires i.symbol < |w.g.ss|
  {
    World(Counted(w.g, i.symbol, false), B.RecordFailure(c.breaker, w.breaker, i.now), w.ops + [L.RegisterOp(i.id, i.qty)])
  }

  /** The order takes slot `p` and keeps its permit. */
  ghost function Booked(w: World, p: Place, i: Intent): World
    requires InRange(w.g.ss, p)
  {
    World(Accept(w.g, p, i).(pending := w.g.pending + 1), w.breaker, w.ops + [L.RegisterOp(i.id, i.qty)])
  }

  /** It is taken back when a log fails; a slot that held a finished order stays blank. */
  ghost function TakenBack(c: Setup, w: World, p: Place, i: Intent): World
    requires InRange(w.g.ss, p)
  {
    World(Counted(Close(Accept(w.g, p, i), p).(used := w.g.used), p.symbol, false),
          B.RecordFailure(c.breaker, w.breaker, i.now), w.ops + [L.RegisterOp(i.id, i.qty), L.CancelOp(i.id)])
  }

  /** An order that has passed: ledger, audit log and write-ahead log all take it, or none does. */
  ghost function Admitted(c: Setup, w: World, i: Intent, env: Env): (World, bool)
    requires i.symbol < |w.g.ss|
  {
    var p := Place(i.symbol, FirstFree(w.g.ss[i.symbol].orders));
    if !L.DoMap(w.g.ledger, L.RegisterOp(i.id, i.qty), c.ledgerCap).1 || !InRange(w.g.ss, p) then (Unregistered(c, w, i), false)
    else if env.auditOk && (c.attached ==> env.written) then (Booked(w, p, i), true)
    else (TakenBack(c, w, p, i), false)
  }

  ghost function Submitted(c: Setup, w: World, i: Intent, env: Env): (World, bool)
    requires |w.g.ss| == |c.limits|
  {
    if i.symbol >= |w.g.ss| then (w, false)
    else
      var (allowed, breaker) := B.Allow(c.breaker, w.breaker, i.now);
      var w := w.(breaker := breaker);
      if allowed && Passes(c, w.g, i) then Admitted(c, w, i, env)
      else
        var halt := !allowed || w.g.pending >= c.maxPending || Evaluate(c.limits[i.symbol], w.g.ss[i.symbol].risk, i).pass;
        (w.(g := Counted(w.g, i.symbol, halt)), false)
  }

  /** A fill of the order at `p`, which ends it if complete or terminal. */
  ghost function Filled(w: World, p: Place, report: Ledger.Report): World
    requires InRange(w.g.ss, p)
  {
    var ends := report.terminal || report.filled == SlotAt(w.g.ss, p).qty;
    World(if ends then Freed(LastFill(w.g, p, report.filled)) else PartFill(w.g, p, report.filled),
          w.breaker, w.ops + [L.ApplyOp(report)])
  }

  /** A permit of the rate limiter goes back. */
  ghost function Freed(g: Snapshot): Snapshot {
    g.(pending := if g.pending > 0 then g.pending - 1 else 0)
  }

  ghost function Executed(c: Setup, w: World, symbol: nat, report: Ledger.Report, written: bool): (World, bool) {
    if symbol >= |w.g.ss| then (w.(breaker := B.Trip(w.breaker, 0)), false)
    else if !Knows(w.g, symbol, report.id) then (Distrusted(w, symbol), false)
    else
      var p := w.g.at[report.id];
      if !(0 < report.filled <= SlotAt(w.g.ss, p).qty) || report.id !in w.g.ledger || (c.attached && !written)
      then (Distrusted(w, symbol), false)
      else (Filled(w, p, report), true)
  }

  ghost function Cancelled(c: Setup, w: World, symbol: nat, id: nat, written: bool): (World, bool) {
    if symbol >= |w.g.ss| then (w.(breaker := B.Trip(w.breaker, 0)), false)
    else if !Knows(w.g, symbol, id) then (Distrusted(w, symbol), false)
    else if id !in w.g.open then (w, false)
    else if c.attached && !written then (Distrusted(w, symbol), false)
    else (World(Freed(Close(w.g, w.g.at[id])), w.breaker, w.ops + [L.CancelOp(id)]), true)
  }

  ghost function Replaced(c: Setup, w: World, symbol: nat, id: nat, qty: int, price: int, written: bool): (World, bool) {
    if symbol >= |w.g.ss| then (w.(breaker := B.Trip(w.breaker, 0)), false)
    else if !Knows(w.g, symbol, id) || id !in w.g.open || qty <= 0 || price <= 0 || (c.attached && !written)
    then (Distrusted(w, symbol), false)
    else (World(Amend(w.g, w.g.at[id], qty, price), w.breaker, w.ops + [L.ReplaceOp(id, qty)]), true)
  }

  ghost function Rejected(c: Setup, w: World, symbol: nat, id: nat, now: nat): (World, bool)
    requires |w.g.ss| == |c.limits|
  {
    if symbol >= |w.g.ss| then (w.(breaker := B.RecordFailure(c.breaker, w.breaker, now)), false)
    else if Knows(w.g, symbol, id) && id !in w.g.open then (w, false)
    else
      var g := Counted(w.g, symbol, w.g.ss[symbol].risk.rejectCount + 1 >= c.limits[symbol].maxRejections);
      var breaker := B.RecordRejection(c.breaker, w.breaker, now);
      if !Knows(w.g, symbol, id) then (World(g, breaker, w.ops), false)
      else
        assert InRange(g.ss, g.at[id]);
        (World(Freed(Close(g, g.at[id])).(rejected := g.rejected[id := g.open[id]]), breaker, w.ops + [L.CancelOp(id)]), true)
  }

  /** What a call makes of the gateway, and its answer. */
  ghost function Do(c: Setup, w: World, op: Op): (World, bool)
    requires |w.g.ss| == |c.limits|
  {
    match op
    case Submit(i, env) => Submitted(c, w, i, env)
    case Execution(symbol, report, written) => Executed(c, w, symbol, report, written)
    case Cancel(symbol, id, written) => Cancelled(c, w, symbol, id, written)
    case Replace(symbol, id, qty, price, written) => Replaced(c, w, symbol, id, qty, price, written)
    case Reject(symbol, id, now) => Rejected(c, w, symbol, id, now)
  }

  ghost predicate DoesTo(c: Setup, w: World, op: Op, w': World, ok: bool, n: nat) {
    n == |w.g.ss| == |c.limits| && (w', ok) == Do(c, w, op)
  }

  /** The call does that; a proof unfolds it only where it mentions `DoesTo`. */
  ghost predicate Does(c: Setup, w: World, op: Op, w': World, ok: bool) {
    forall n: nat {:trigger DoesTo(c, w, op, w', ok, n)} :: n == |w.g.ss| ==> DoesTo(c, w, op, w', ok, n)
  }

  // ----- what every call keeps -----

  /** Books, limiter and ledger agree; the ledger is what its operations make of a map. */
  ghost predicate Good(c: Setup, w: World) {
    && |w.g.ss| == |c.limits| && Core(w.g, c.slots, 0) && w.g.pending <= c.maxPending
    && w.g.ledger == L.MapRun(w.ops, c.ledgerCap)
  }

  /** A submitted id is not that of an order accepted before. */
  ghost predicate Fresh(w: World, op: Op) {
    op.Submit? ==> op.i.id !in w.g.used
  }

  lemma MapRunPush(ops: seq<L.Op>, op: L.Op, cap: nat)
    ensures L.MapRun(ops + [op], cap) == L.DoMap(L.MapRun(ops, cap), op, cap).0
  {
    assert (ops + [op])[..|ops|] == ops;
  }

  /** The slot that an id is known in. */
  lemma KnownFacts(g: Snapshot, slots: nat, extra: nat, symbol: nat, id: nat)
    requires Core(g, slots, extra) && Knows(g, symbol, id)
    ensures SlotAt(g.ss, g.at[id]).id == id && SlotAt(g.ss, g.at[id]).status != Vacant
    ensures IsOpen(SlotAt(g.ss, g.at[id])) <==> id in g.open
    ensures id in g.ledger <==> id in g.open
    ensures id in g.open ==> g.ledger[id] == SlotAt(g.ss, g.at[id]).qty > 0 && id != 0 && 0 < g.pending
    ensures id in g.open ==> g.open[id] == View(SlotAt(g.ss, g.at[id])) && g.ss[symbol].risk.orderCount > 0
  {
    PlaceFacts(g, slots, extra, id, symbol);
    IdFacts(g, slots, extra, id);
    assert SlotOk(g.ss, g.at, g.open, g.at[id]);
    if id in g.open { SlotFacts(g, slots, extra, g.at[id]); }
  }

  lemma DistrustKeeps(c: Setup, w: World, symbol: nat)
    requires Good(c, w) && symbol < |w.g.ss|
    ensures Good(c, Distrusted(w, symbol))
  {
    NoteKeeps(w.g, Distrusted(w, symbol).g, c.slots, 0, symbol, true, w.g.ss[symbol].risk.rejectCount);
  }

  lemma CountKeeps(g: Snapshot, slots: nat, extra: nat, symbol: nat, halt: bool)
    requires Core(g, slots, extra) && symbol < |g.ss|
    ensures Core(Counted(g, symbol, halt), slots, extra)
  {
    var risk := g.ss[symbol].risk;
    NoteKeeps(g, Counted(g, symbol, halt), slots, extra, symbol, risk.halted || halt, risk.rejectCount + 1);
  }

  /** Closing an open order and giving its permit back. */
  lemma RetireKeeps(g: Snapshot, slots: nat, symbol: nat, id: nat)
    requires Core(g, slots, 0) && Knows(g, symbol, id) && id in g.open
    ensures Core(Freed(Close(g, g.at[id])), slots, 0)
  {
    KnownFacts(g, slots, 0, symbol, id);
    CloseKeepsCore(g, slots, g.at[id]);
    GivePermit(Close(g, g.at[id]), Freed(Close(g, g.at[id])), slots);
  }

  lemma CancelKeeps(c: Setup, w: World, symbol: nat, id: nat, written: bool)
    requires Good(c, w)
    ensures Good(c, Cancelled(c, w, symbol, id, written).0)
  {
    if symbol < |w.g.ss| {
      DistrustKeeps(c, w, symbol);
      if Cancelled(c, w, symbol, id, written).1 {
        KnownFacts(w.g, c.slots, 0, symbol, id);
        RetireKeeps(w.g, c.slots, symbol, id);
        MapRunPush(w.ops, L.CancelOp(id), c.ledgerCap);
      }
    }
  }

  lemma ReplaceKeeps(c: Setup, w: World, symbol: nat, id: nat, qty: int, price: int, written: bool)
    requires Good(c, w)
    ensures Good(c, Replaced(c, w, symbol, id, qty, price, written).0)
  {
    if symbol < |w.g.ss| {
      DistrustKeeps(c, w, symbol);
      if Replaced(c, w, symbol, id, qty, price, written).1 {
        KnownFacts(w.g, c.slots, 0, symbol, id);
        AmendKeeps(w.g, c.slots, w.g.at[id], qty, price);
        MapRunPush(w.ops, L.ReplaceOp(id, qty), c.ledgerCap);
      }
    }
  }

  lemma FillKeeps(c: Setup, w: World, symbol: nat, report: Ledger.Report)
    requires Good(c, w) && Knows(w.g, symbol, report.id) && report.id in w.g.open
    requires 0 < report.filled <= SlotAt(w.g.ss, w.g.at[report.id]).qty
    ensures Good(c, Filled(w, w.g.at[report.id], report))
  {
    KnownFacts(w.g, c.slots, 0, symbol, report.id);
    FilledCore(w.g, c.slots, w.g.at[report.id], report);
    MapRunPush(w.ops, L.ApplyOp(report), c.ledgerCap);
  }

  lemma FilledCore(g: Snapshot, slots: nat, p: Place, report: Ledger.Report)
    requires Core(g, slots, 0) && InRange(g.ss, p) && IsOpen(SlotAt(g.ss, p)) && 0 < report.filled <= SlotAt(g.ss, p).qty
    ensures report.terminal || report.filled == SlotAt(g.ss, p).qty ==> Core(Freed(LastFill(g, p, report.filled)), slots, 0)
    ensures !report.terminal && report.filled < SlotAt(g.ss, p).qty ==> Core(PartFill(g, p, report.filled), slots, 0)
  {
    SlotFacts(g, slots, 0, p);
    if report.terminal || report.filled == SlotAt(g.ss, p).qty {
      var g' := LastFill(g, p, report.filled);
      LastFillKeeps(g, slots, p, report.filled);
      GivePermit(g', Freed(g'), slots);
    } else {
      PartFillKeeps(g, slots, p, report.filled);
    }
  }

  lemma ExecutionKeeps(c: Setup, w: World, symbol: nat, report: Ledger.Report, written: bool)
    requires Good(c, w)
    ensures Good(c, Executed(c, w, symbol, report, written).0)
  {
    if symbol < |w.g.ss| {
      DistrustKeeps(c, w, symbol);
      if Executed(c, w, symbol, report, written).1 {
        KnownFacts(w.g, c.slots, 0, symbol, report.id);
        FillKeeps(c, w, symbol, report);
      }
    }
  }

  lemma RejectionKeeps(c: Setup, w: World, symbol: nat, id: nat, now: nat)
    requires Good(c, w)
    ensures Good(c, Rejected(c, w, symbol, id, now).0)
  {
    if symbol < |w.g.ss| {
      var g := Counted(w.g, symbol, w.g.ss[symbol].risk.rejectCount + 1 >= c.limits[symbol].maxRejections);
      CountKeeps(w.g, c.slots, 0, symbol, w.g.ss[symbol].risk.rejectCount + 1 >= c.limits[symbol].maxRejections);
      if Rejected(c, w, symbol, id, now).1 {
        KnownFacts(g, c.slots, 0, symbol, id);
        RetireKeeps(g, c.slots, symbol, id);
        IdFacts(g, c.slots, 0, id);
        var closed := Freed(Close(g, g.at[id]));
        RejectKeeps(closed, closed.(rejected := g.rejected[id := g.open[id]]), c.slots, 0, id, g.open[id]);
        MapRunPush(w.ops, L.CancelOp(id), c.ledgerCap);
      }
    }
  }

  /** An order taken back after it had its slot. */
  lemma UndoKeeps(g: Snapshot, slots: nat, p: Place, i: Intent)
    requires Core(g, slots, 0) && InRange(g.ss, p) && !IsOpen(SlotAt(g.ss, p))
    requires i.id != 0 && i.qty > 0 && i.id !in g.used
    ensures Core(Close(Accept(g, p, i), p).(used := g.used), slots, 0)
  {
    var permit := g.(pending := g.pending + 1);
    TakePermit(g, permit, slots);
    AcceptKeeps(permit, slots, p, i);
    var held := Accept(permit, p, i);
    assert SlotAt(held.ss, p) == NewOrder(i);
    CloseKeepsCore(held, slots, p);
    var closed := Close(held, p);
    IdFacts(g, slots, 0, i.id);
    ForgetKeeps(closed, closed.(used := g.used), slots, 1, i.id);
    GivePermit(closed.(used := g.used), Close(Accept(g, p, i), p).(used := g.used), slots);
  }

  lemma UnregisteredKeeps(c: Setup, w: World, i: Intent)
    requires Good(c, w) && i.symbol < |w.g.ss|
    requires !L.DoMap(w.g.ledger, L.RegisterOp(i.id, i.qty), c.ledgerCap).1
    ensures Good(c, Unregistered(c, w, i))
  {
    CountKeeps(w.g, c.slots, 0, i.symbol, false);
    MapRunPush(w.ops, L.RegisterOp(i.id, i.qty), c.ledgerCap);
  }

  /** A free slot and an id and quantity that the ledger takes. */
  ghost predicate CanBook(c: Setup, w: World, p: Place, i: Intent) {
    && InRange(w.g.ss, p) && !IsOpen(SlotAt(w.g.ss, p)) && i.id !in w.g.used
    && L.DoMap(w.g.ledger, L.RegisterOp(i.id, i.qty), c.ledgerCap).1
  }

  lemma BookedKeeps(c: Setup, w: World, p: Place, i: Intent)
    requires Good(c, w) && CanBook(c, w, p, i) && w.g.pending < c.maxPending
    ensures Good(c, Booked(w, p, i))
  {
    var permit := w.g.(pending := w.g.pending + 1);
    TakePermit(w.g, permit, c.slots);
    AcceptKeeps(permit, c.slots, p, i);
    assert Accept(permit, p, i) == Booked(w, p, i).g;
    MapRunPush(w.ops, L.RegisterOp(i.id, i.qty), c.ledgerCap);
  }

  lemma TakenBackKeeps(c: Setup, w: World, p: Place, i: Intent)
    requires Good(c, w) && CanBook(c, w, p, i)
    ensures Good(c, TakenBack(c, w, p, i))
  {
    UndoKeeps(w.g, c.slots, p, i);
    var undone := Close(Accept(w.g, p, i), p).(used := w.g.used);
    CountKeeps(undone, c.slots, 0, p.symbol, false);
    RegisterThenCancel(w.ops, i.id, i.qty, c.ledgerCap);
  }

  lemma RegisterThenCancel(ops: seq<L.Op>, id: nat, qty: int, cap: nat)
    requires L.DoMap(L.MapRun(ops, cap), L.RegisterOp(id, qty), cap).1
    ensures L.MapRun(ops + [L.RegisterOp(id, qty), L.CancelOp(id)], cap) == L.MapRun(ops, cap)[id := qty] - {id}
    ensures L.MapRun(ops, cap)[id := qty] - {id} == L.MapRun(ops, cap)
  {
    MapRunPush(ops, L.RegisterOp(id, qty), cap);
    MapRunPush(ops + [L.RegisterOp(id, qty)], L.CancelOp(id), cap);
    assert ops + [L.RegisterOp(id, qty)] + [L.CancelOp(id)] == ops + [L.RegisterOp(id, qty), L.CancelOp(id)];
  }

  /** The gateway books in steps: permit and ledger first, then the slot. */
  lemma BookedInSteps(w: World, p: Place, i: Intent, g: Snapshot, g': Snapshot)
    requires InRange(w.g.ss, p) && g == w.g.(pending := w.g.pending + 1, ledger := w.g.ledger[i.id := i.qty])
    requires g' == Accept(g, p, i).(ledger := g.ledger)
    ensures g' == Booked(w, p, i).g
  {}

  /** And it takes back in steps. */
  lemma TakenBackInSteps(w: World, p: Place, i: Intent, g: Snapshot, g': Snapshot)
    requires InRange(w.g.ss, p) && i.id !in w.g.used && g == Booked(w, p, i).g
    requires g' == Close(g, p).(used := g.used - {i.id})
    ensures Freed(g') == Close(Accept(w.g, p, i), p).(used := w.g.used)
  {
    assert SlotAt(g.ss, p) == NewOrder(i);
    assert g.used - {i.id} == w.g.used;
  }

  /** Below the order limit there is a slot to take. */
  lemma FreeSlotFound(g: Snapshot, slots: nat, extra: nat, symbol: nat)
    requires Core(g, slots, extra) && symbol < |g.ss| && g.ss[symbol].risk.orderCount < slots
    ensures FirstFree(g.ss[symbol].orders) < |g.ss[symbol].orders|
  {
    FreeSlotExists(g, slots, extra, symbol);
  }

  lemma AdmissionKeeps(c: Setup, w: World, i: Intent, env: Env)
    requires Good(c, w) && i.symbol < |w.g.ss| && Passes(c, w.g, i) && i.id !in w.g.used
    ensures Good(c, Admitted(c, w, i, env).0)
  {
    FreeSlotFound(w.g, c.slots, 0, i.symbol);
    var p := Place(i.symbol, FirstFree(w.g.ss[i.symbol].orders));
    if !L.DoMap(w.g.ledger, L.RegisterOp(i.id, i.qty), c.ledgerCap).1 {
      UnregisteredKeeps(c, w, i);
    } else {
      BookedKeeps(c, w, p, i);
      TakenBackKeeps(c, w, p, i);
    }
  }

  lemma SubmissionKeeps(c: Setup, w: World, i: Intent, env: Env)
    requires Good(c, w) && i.id !in w.g.used
    ensures Good(c, Submitted(c, w, i, env).0)
  {
    if i.symbol < |w.g.ss| {
      var (allowed, breaker) := B.Allow(c.breaker, w.breaker, i.now);
      var w' := w.(breaker := breaker);
      if allowed && Passes(c, w.g, i) {
        AdmissionKeeps(c, w', i, env);
      } else {
        CountKeeps(w.g, c.slots, 0, i.symbol, true);
        CountKeeps(w.g, c.slots, 0, i.symbol, false);
      }
    }
  }

  /** Every call keeps books, limiter and ledger in agreement. */
  lemma DoesKeeps(c: Setup, w: World, op: Op, w': World, ok: bool)
    requires Good(c, w) && Fresh(w, op) && Does(c, w, op, w', ok)
    ensures Good(c, w')
  {
    assert DoesTo(c, w, op, w', ok, |w.g.ss|);
    match op
    case Submit(i, env) => SubmissionKeeps(c, w, i, env);
    case Execution(symbol, report, written) => ExecutionKeeps(c, w, symbol, report, written);
    case Cancel(symbol, id, written) => CancelKeeps(c, w, symbol, id, written);
    case Replace(symbol, id, qty, price, written) => ReplaceKeeps(c, w, symbol, id, qty, price, written);
    case Reject(symbol, id, now) => RejectionKeeps(c, w, symbol, id, now);
  }

  // ----- what the calls mean -----

  /** The order is open, under this symbol. */
  ghost predicate HasOrder(g: Snapshot, symbol: nat, id: nat) {
    symbol < |g.ss| && id in g.open && id in g.at && g.at[id].symbol == symbol
  }

  /** The symbol's slots hold it as finished. */
  ghost predicate HasDone(g: Snapshot, symbol: nat, id: nat) {
    symbol < |g.ss| && id !in g.open && id in g.at && g.at[id].symbol == symbol
  }

  lemma KnowsIff(g: Snapshot, slots: nat, extra: nat, symbol: nat, id: nat)
    requires Core(g, slots, extra) && symbol < |g.ss|
    ensures Knows(g, symbol, id) <==> HasOrder(g, symbol, id) || HasDone(g, symbol, id)
  {
    PlaceFacts(g, slots, extra, id, symbol);
  }

  /** Orders other than `id` stay under their symbols, and `id` under its own while it is open. */
  ghost predicate Stands(g: Snapshot, g': Snapshot, id: nat) {
    forall symbol, k {:trigger HasOrder(g', symbol, k)} ::
      HasOrder(g', symbol, k) <==> if k == id && id !in g.open then HasOrder(g', symbol, k) else k in g'.open && HasOrder(g, symbol, k)
  }

  /** Slots and risk of every other symbol are untouched. */
  ghost predicate Apart(g: Snapshot, g': Snapshot, symbol: nat) {
    |g'.ss| == |g.ss| && forall t {:trigger g'.ss[t]} :: 0 <= t < |g.ss| && t != symbol ==> g'.ss[t] == g.ss[t]
  }

  /** The symbol's risk figures once an open order has ended with `left` of it unfilled. */
  ghost function RiskWithout(g: Snapshot, symbol: nat, id: nat, left: int): RiskState
    requires HasOrder(g, symbol, id)
  {
    var o := g.open[id];
    Released(g.ss[symbol].risk, o.side == 1, o.price, left)
  }

  /** The slot holds this now; the symbol's other slots are as before. */
  ghost predicate Holds(g: Snapshot, g': Snapshot, p: Place, o: ActiveOrder) {
    InRange(g.ss, p) && |g'.ss| == |g.ss| && g'.ss[p.symbol].orders == g.ss[p.symbol].orders[p.slot := o]
  }

  /** The slot is empty now. */
  ghost predicate Empties(g: Snapshot, g': Snapshot, p: Place) {
    Holds(g, g', p, ActiveOrder(0, 0, 0, 0, false, Vacant))
  }

  /** What is left and what is filled of the order in the slot once `qty` more is filled. */
  ghost predicate Fills(g: Snapshot, g': Snapshot, p: Place, qty: int, ends: bool) {
    InRange(g.ss, p) &&
    var o := SlotAt(g.ss, p);
    Holds(g, g', p, ActiveOrder(o.id, o.price, o.qty - qty, o.filled + qty, o.sell, if ends then Done else Partial))
  }

  /** The figures lose the part `left` of the order, counted up for a buy and down for a sell. */
  ghost predicate GivesBack(r: RiskState, r': RiskState, o: R.Open, left: int) {
    && r'.net == (if o.side == 1 then r.net + left else r.net - left)
    && r'.gross == r.gross - o.price * left && r'.orderCount == r.orderCount - 1
  }

  /** Nothing of the symbol changes but, possibly, that it halts. */
  ghost predicate OnlyHalts(g: Snapshot, g': Snapshot, symbol: nat, halt: bool) {
    && g'.open == g.open && g'.fills == g.fills && g'.used == g.used && g'.rejected == g.rejected
    && Apart(g, g', symbol)
    && (symbol < |g.ss| ==> g'.ss[symbol] == g.ss[symbol].(risk := g.ss[symbol].risk.(halted := g.ss[symbol].risk.halted || halt)))
  }

  /** A cancel ends exactly an open order of the symbol. One that does not reconcile halts the
      symbol and trips the breaker; one for a finished order does nothing. */
  ghost predicate CancelEffect(c: Setup, w: World, symbol: nat, id: nat, written: bool, w': World, ok: bool) {
    && (ok <==> HasOrder(w.g, symbol, id) && (c.attached ==> written))
    && Stands(w.g, w'.g, id) && Apart(w.g, w'.g, symbol)
    && w'.breaker == (if ok || HasDone(w.g, symbol, id) then w.breaker else B.Trip(w.breaker, 0))
    && (!ok ==> OnlyHalts(w.g, w'.g, symbol, !HasDone(w.g, symbol, id)))
    && (ok ==>
          && w'.g.open == w.g.open - {id} && w'.g.ss[symbol].risk == RiskWithout(w.g, symbol, id, w.g.open[id].remaining)
          && GivesBack(w.g.ss[symbol].risk, w'.g.ss[symbol].risk, w.g.open[id], w.g.open[id].remaining)
          && Empties(w.g, w'.g, w.g.at[id])
          && w'.g.fills == w.g.fills && w'.g.used == w.g.used && w'.g.rejected == w.g.rejected)
  }

  lemma CancelledIs(c: Setup, w: World, symbol: nat, id: nat, written: bool, w': World)
    requires Good(c, w) && HasOrder(w.g, symbol, id) && (c.attached ==> written) && InRange(w.g.ss, w.g.at[id])
    requires w'.g == Freed(Close(w.g, w.g.at[id])) && w'.breaker == w.breaker
    ensures CancelEffect(c, w, symbol, id, written, w', true)
  {
    ClosedIs(w.g, c.slots, symbol, id);
  }

  lemma CancelMeans(c: Setup, w: World, symbol: nat, id: nat, written: bool)
    requires Good(c, w)
    ensures var r := Cancelled(c, w, symbol, id, written); CancelEffect(c, w, symbol, id, written, r.0, r.1)
  {
    var r := Cancelled(c, w, symbol, id, written);
    if symbol < |w.g.ss| { KnowsIff(w.g, c.slots, 0, symbol, id); }
    if r.1 { CancelledIs(c, w, symbol, id, written, r.0); }
  }

  /** A replace gives exactly an open order of the symbol a new remaining quantity and price. */
  ghost predicate ReplaceEffect(c: Setup, w: World, symbol: nat, id: nat, qty: int, price: int, written: bool, w': World, ok: bool) {
    && (ok <==> HasOrder(w.g, symbol, id) && qty > 0 && price > 0 && (c.attached ==> written))
    && Stands(w.g, w'.g, id) && Apart(w.g, w'.g, symbol)
    && w'.breaker == (if ok then w.breaker else B.Trip(w.breaker, 0))
    && (!ok ==> OnlyHalts(w.g, w'.g, symbol, true))
    && (ok ==>
          var o, risk := w.g.open[id], w.g.ss[symbol].risk;
          && w'.g.open == w.g.open[id := o.(remaining := qty, price := price)]
          && w'.g.ss[symbol].risk == risk.(net := risk.net + (if o.side == 1 then o.remaining - qty else qty - o.remaining),
                                           gross := risk.gross + (price * qty - o.price * o.remaining))
          && InRange(w.g.ss, w.g.at[id])
          && Holds(w.g, w'.g, w.g.at[id], SlotAt(w.g.ss, w.g.at[id]).(qty := qty, price := price))
          && w'.g.fills == w.g.fills && w'.g.used == w.g.used && w'.g.rejected == w.g.rejected)
  }

  lemma ReplaceMeans(c: Setup, w: World, symbol: nat, id: nat, qty: int, price: int, written: bool)
    requires Good(c, w)
    ensures var r := Replaced(c, w, symbol, id, qty, price, written);
            ReplaceEffect(c, w, symbol, id, qty, price, written, r.0, r.1)
  {
    if symbol < |w.g.ss| {
      KnowsIff(w.g, c.slots, 0, symbol, id);
      if Knows(w.g, symbol, id) { KnownFacts(w.g, c.slots, 0, symbol, id); }
    }
  }

  /** An execution books exactly a positive quantity within what is left of an open order of the
      symbol; a complete or terminal one ends the order and releases what stays unfilled. */
  ghost predicate ExecutionEffect(c: Setup, w: World, symbol: nat, report: Ledger.Report, written: bool, w': World, ok: bool) {
    && (ok <==> HasOrder(w.g, symbol, report.id) && 0 < report.filled <= w.g.open[report.id].remaining && (c.attached ==> written))
    && Stands(w.g, w'.g, report.id) && Apart(w.g, w'.g, symbol)
    && w'.breaker == (if ok then w.breaker else B.Trip(w.breaker, 0))
    && (!ok ==> OnlyHalts(w.g, w'.g, symbol, true))
    && (ok ==>
          var o := w.g.open[report.id];
          var left := o.remaining - report.filled;
          var ends := report.terminal || left == 0;
          && w'.g.open == (if ends then w.g.open - {report.id} else w.g.open[report.id := o.(remaining := left)])
          && w'.g.fills == w.g.fills + [FillEvent(symbol, o.side == 1, report.filled, o.price)]
          && w'.g.ss[symbol].risk == (if ends then RiskWithout(w.g, symbol, report.id, left) else w.g.ss[symbol].risk)
          && (ends ==> GivesBack(w.g.ss[symbol].risk, w'.g.ss[symbol].risk, o, left))
          && Fills(w.g, w'.g, w.g.at[report.id], report.filled, ends)
          && w'.g.used == w.g.used && w'.g.rejected == w.g.rejected)
  }

  lemma LastFillIs(g: Snapshot, slots: nat, symbol: nat, id: nat, qty: int)
    requires Core(g, slots, 0) && HasOrder(g, symbol, id)
    ensures InRange(g.ss, g.at[id])
    ensures var g', o := Freed(LastFill(g, g.at[id], qty)), g.open[id];
            && Stands(g, g', id) && Apart(g, g', symbol) && g'.used == g.used && g'.rejected == g.rejected
            && g'.open == g.open - {id} && g'.ss[symbol].risk == RiskWithout(g, symbol, id, o.remaining - qty)
            && GivesBack(g.ss[symbol].risk, g'.ss[symbol].risk, o, o.remaining - qty) && Fills(g, g', g.at[id], qty, true)
            && g'.fills == g.fills + [FillEvent(symbol, o.side == 1, qty, o.price)]
  {
    KnowsIff(g, slots, 0, symbol, id);
    KnownFacts(g, slots, 0, symbol, id);
  }

  lemma PartFillIs(g: Snapshot, slots: nat, symbol: nat, id: nat, qty: int)
    requires Core(g, slots, 0) && HasOrder(g, symbol, id)
    ensures InRange(g.ss, g.at[id])
    ensures var g', o := PartFill(g, g.at[id], qty), g.open[id];
            && Stands(g, g', id) && Apart(g, g', symbol) && g'.used == g.used && g'.rejected == g.rejected
            && g'.open == g.open[id := o.(remaining := o.remaining - qty)] && g'.ss[symbol].risk == g.ss[symbol].risk
            && Fills(g, g', g.at[id], qty, false)
            && g'.fills == g.fills + [FillEvent(symbol, o.side == 1, qty, o.price)]
  {
    KnowsIff(g, slots, 0, symbol, id);
    KnownFacts(g, slots, 0, symbol, id);
  }

  lemma LastFillMeans(c: Setup, w: World, symbol: nat, report: Ledger.Report, written: bool, w': World)
    requires Good(c, w) && HasOrder(w.g, symbol, report.id) && InRange(w.g.ss, w.g.at[report.id])
    requires 0 < report.filled <= w.g.open[report.id].remaining && (c.attached ==> written)
    requires report.terminal || report.filled == w.g.open[report.id].remaining
    requires w'.g == Freed(LastFill(w.g, w.g.at[report.id], report.filled)) && w'.breaker == w.breaker
    ensures ExecutionEffect(c, w, symbol, report, written, w', true)
  {
    LastFillIs(w.g, c.slots, symbol, report.id, report.filled);
  }

  lemma PartFillMeans(c: Setup, w: World, symbol: nat, report: Ledger.Report, written: bool, w': World)
    requires Good(c, w) && HasOrder(w.g, symbol, report.id) && InRange(w.g.ss, w.g.at[report.id])
    requires 0 < report.filled < w.g.open[report.id].remaining && (c.attached ==> written) && !report.terminal
    requires w'.g == PartFill(w.g, w.g.at[report.id], report.filled) && w'.breaker == w.breaker
    ensures ExecutionEffect(c, w, symbol, report, written, w', true)
  {
    PartFillIs(w.g, c.slots, symbol, report.id, report.filled);
  }

  lemma ExecutionMeans(c: Setup, w: World, symbol: nat, report: Ledger.Report, written: bool)
    requires Good(c, w)
    ensures var r := Executed(c, w, symbol, report, written); ExecutionEffect(c, w, symbol, report, written, r.0, r.1)
  {
    var r := Executed(c, w, symbol, report, written);
    if symbol < |w.g.ss| {
      KnowsIff(w.g, c.slots, 0, symbol, report.id);
      if Knows(w.g, symbol, report.id) { KnownFacts(w.g, c.slots, 0, symbol, report.id); }
    }
    if r.1 {
      if report.terminal || report.filled == w.g.open[report.id].remaining {
        LastFillMeans(c, w, symbol, report, written, r.0);
      } else {
        PartFillMeans(c, w, symbol, report, written, r.0);
      }
    }
  }

  /** A reject is counted by symbol and breaker unless it is for a finished order, and it ends
      exactly an open order of the symbol, which counts as rejected from then on. */
  ghost predicate RejectEffect(c: Setup, w: World, symbol: nat, id: nat, now: nat, w': World, ok: bool)
    requires |w.g.ss| == |c.limits|
  {
    && (ok <==> HasOrder(w.g, symbol, id))
    && Stands(w.g, w'.g, id) && Apart(w.g, w'.g, symbol) && w'.g.fills == w.g.fills && w'.g.used == w.g.used
    && w'.g.open == (if ok then w.g.open - {id} else w.g.open)
    && w'.g.rejected == (if ok then w.g.rejected[id := w.g.open[id]] else w.g.rejected)
    && (symbol >= |w.g.ss| ==> w'.breaker == B.RecordFailure(c.breaker, w.breaker, now))
    && (HasDone(w.g, symbol, id) ==> w' == w)
    && (symbol < |w.g.ss| && !HasDone(w.g, symbol, id) ==>
          var risk := if ok then RiskWithout(w.g, symbol, id, w.g.open[id].remaining) else w.g.ss[symbol].risk;
          && w'.breaker == B.RecordRejection(c.breaker, w.breaker, now)
          && (ok ==> GivesBack(w.g.ss[symbol].risk, w'.g.ss[symbol].risk, w.g.open[id], w.g.open[id].remaining))
          && (if ok then Empties(w.g, w'.g, w.g.at[id]) else w'.g.ss[symbol].orders == w.g.ss[symbol].orders)
          && w'.g.ss[symbol].risk == risk.(rejectCount := risk.rejectCount + 1,
                                           halted := risk.halted || risk.rejectCount + 1 >= c.limits[symbol].maxRejections))
  }

  /** Counting a rejection leaves the orders alone. */
  lemma CountedIs(g: Snapshot, symbol: nat, halt: bool)
    requires symbol < |g.ss|
    ensures var g', risk := Counted(g, symbol, halt), g.ss[symbol].risk;
            && g' == g.(ss := g'.ss) && Apart(g, g', symbol) && g'.ss[symbol].orders == g.ss[symbol].orders
            && g'.ss[symbol].risk == risk.(rejectCount := risk.rejectCount + 1, halted := risk.halted || halt)
  {}

  /** Nor does it matter whether an order is closed before or after. */
  lemma ClosedIs(g: Snapshot, slots: nat, symbol: nat, id: nat)
    requires Core(g, slots, 0) && HasOrder(g, symbol, id)
    ensures InRange(g.ss, g.at[id])
    ensures var g' := Freed(Close(g, g.at[id]));
            && Stands(g, g', id) && Apart(g, g', symbol) && g'.fills == g.fills && g'.used == g.used && g'.rejected == g.rejected
            && g'.open == g.open - {id} && g'.ss[symbol].risk == RiskWithout(g, symbol, id, g.open[id].remaining)
            && GivesBack(g.ss[symbol].risk, g'.ss[symbol].risk, g.open[id], g.open[id].remaining) && Empties(g, g', g.at[id])
  {
    KnowsIff(g, slots, 0, symbol, id);
    KnownFacts(g, slots, 0, symbol, id);
  }

  /** What the reject of an open order does to the books. */
  lemma DroppedIs(g: Snapshot, slots: nat, symbol: nat, id: nat, halt: bool)
    requires Core(g, slots, 0) && HasOrder(g, symbol, id)
    ensures InRange(Counted(g, symbol, halt).ss, g.at[id])
    ensures var g1 := Counted(g, symbol, halt);
            var g' := Freed(Close(g1, g1.at[id])).(rejected := g1.rejected[id := g1.open[id]]);
            var risk := RiskWithout(g, symbol, id, g.open[id].remaining);
            && Stands(g, g', id) && Apart(g, g', symbol) && g'.fills == g.fills && g'.used == g.used
            && g'.open == g.open - {id} && g'.rejected == g.rejected[id := g.open[id]]
            && g'.ss[symbol].risk == risk.(rejectCount := risk.rejectCount + 1, halted := risk.halted || halt)
            && GivesBack(g.ss[symbol].risk, g'.ss[symbol].risk, g.open[id], g.open[id].remaining) && Empties(g, g', g.at[id])
  {
    var g1 := Counted(g, symbol, halt);
    CountedIs(g, symbol, halt);
    CountKeeps(g, slots, 0, symbol, halt);
    ClosedIs(g1, slots, symbol, id);
  }

  lemma RejectMeans(c: Setup, w: World, symbol: nat, id: nat, now: nat)
    requires Good(c, w)
    ensures var r := Rejected(c, w, symbol, id, now); RejectEffect(c, w, symbol, id, now, r.0, r.1)
  {
    if symbol < |w.g.ss| {
      var halt := w.g.ss[symbol].risk.rejectCount + 1 >= c.limits[symbol].maxRejections;
      KnowsIff(w.g, c.slots, 0, symbol, id);
      if HasOrder(w.g, symbol, id) {
        DroppedIs(w.g, c.slots, symbol, id, halt);
      } else {
        CountedIs(w.g, symbol, halt);
      }
    }
  }

  /** A submission is accepted exactly if breaker, rate limiter, limits and order limit let it pass,
      the id is not 0, the ledger has room, and both logs take it. An accepted order is open under
      its symbol; a refused one leaves all orders and all reservations as they were. */
  ghost predicate SubmitEffect(c: Setup, w: World, i: Intent, env: Env, w': World, ok: bool)
    requires |w.g.ss| == |c.limits|
  {
    var allowed := B.Allow(c.breaker, w.breaker, i.now);
    var passes := i.symbol < |w.g.ss| && allowed.0 && Passes(c, w.g, i);
    && (ok <==> passes && i.id != 0 && |w.g.open| < c.ledgerCap && env.auditOk && (c.attached ==> env.written))
    && Stands(w.g, w'.g, i.id) && Apart(w.g, w'.g, i.symbol) && w'.g.fills == w.g.fills && w'.g.rejected == w.g.rejected
    && w'.breaker == (if i.symbol >= |w.g.ss| then w.breaker
                      else if passes && !ok then B.RecordFailure(c.breaker, allowed.1, i.now) else allowed.1)
    && (ok ==>
          && HasOrder(w'.g, i.symbol, i.id) && w'.g.open == w.g.open[i.id := R.Open(i.qty, i.price, if i.sell then 1 else 0)]
          && w'.g.used == w.g.used + {i.id} && w'.g.pending == w.g.pending + 1
          && w'.g.ss[i.symbol].risk == Reserved(w.g.ss[i.symbol].risk, NewOrder(i))
          && w'.g.ss[i.symbol].risk.net == w.g.ss[i.symbol].risk.net + (if i.sell then -i.qty else i.qty)
          && w'.g.ss[i.symbol].risk.gross == w.g.ss[i.symbol].risk.gross + i.price * i.qty
          && w'.g.ss[i.symbol].risk.orderCount == w.g.ss[i.symbol].risk.orderCount + 1
          && Holds(w.g, w'.g, Place(i.symbol, FirstFree(w.g.ss[i.symbol].orders)), ActiveOrder(i.id, i.price, i.qty, 0, i.sell, Live)))
    && (!ok ==> w'.g.open == w.g.open && w'.g.used == w.g.used && w'.g.pending == w.g.pending)
    && (!ok && i.symbol < |w.g.ss| ==>
          var risk := w.g.ss[i.symbol].risk;
          var halt := !allowed.0 || w.g.pending >= c.maxPending ||
                      (Evaluate(c.limits[i.symbol], risk, i).pass && risk.orderCount >= c.slots);
          && w'.g.ss[i.symbol].risk == risk.(rejectCount := risk.rejectCount + 1, halted := risk.halted || halt)
          && (|| w'.g.ss[i.symbol].orders == w.g.ss[i.symbol].orders
              || Empties(w.g, w'.g, Place(i.symbol, FirstFree(w.g.ss[i.symbol].orders)))))
  }

  lemma LedgerTakes(c: Setup, g: Snapshot, i: Intent)
    requires Core(g, c.slots, 0) && i.id !in g.used && i.qty > 0
    ensures L.DoMap(g.ledger, L.RegisterOp(i.id, i.qty), c.ledgerCap).1 <==> i.id != 0 && |g.open| < c.ledgerCap
  {
    IdFacts(g, c.slots, 0, i.id);
    SameKeys(g, c.slots, 0);
  }

  lemma SameKeys(g: Snapshot, slots: nat, extra: nat)
    requires Core(g, slots, extra)
    ensures g.ledger.Keys == g.open.Keys && |g.ledger| == |g.open|
  {
    assert Agree(g, slots, extra);
    assert |g.ledger.Keys| == |g.open.Keys|;
  }

  /** A rate limiter no larger than the table leaves it room for every order it lets through. */
  lemma LedgerHasRoom(c: Setup, g: Snapshot)
    requires Core(g, c.slots, 0) && g.pending < c.maxPending <= c.ledgerCap
    ensures |g.open| < c.ledgerCap
  {
    IdFacts(g, c.slots, 0, 0);
  }

  lemma BookedIs(c: Setup, w: World, p: Place, i: Intent)
    requires Good(c, w) && CanBook(c, w, p, i) && p.symbol == i.symbol
    ensures var g' := Booked(w, p, i).g;
            && Stands(w.g, g', i.id) && Apart(w.g, g', i.symbol) && g'.fills == w.g.fills && g'.rejected == w.g.rejected
            && HasOrder(g', i.symbol, i.id) && g'.ss[i.symbol].risk == Reserved(w.g.ss[i.symbol].risk, NewOrder(i))
            && Holds(w.g, g', p, ActiveOrder(i.id, i.price, i.qty, 0, i.sell, Live))
  {
    FreePlace(w.g, c.slots, p, i.id);
  }

  lemma TakenBackIs(c: Setup, w: World, p: Place, i: Intent)
    requires Good(c, w) && CanBook(c, w, p, i) && p.symbol == i.symbol
    ensures var g', risk := TakenBack(c, w, p, i).g, w.g.ss[i.symbol].risk;
            && Stands(w.g, g', i.id) && Apart(w.g, g', i.symbol) && g'.fills == w.g.fills && g'.rejected == w.g.rejected
            && g'.open == w.g.open && g'.used == w.g.used && g'.pending == w.g.pending
            && g'.ss[i.symbol].risk == risk.(rejectCount := risk.rejectCount + 1) && Empties(w.g, g', p)
  {
    var undone := Close(Accept(w.g, p, i), p).(used := w.g.used);
    UndoneIs(w.g, c.slots, p, i, undone);
    CountedIs(undone, p.symbol, false);
    StillStands(w.g, undone, TakenBack(c, w, p, i).g, i.id);
  }

  lemma StillStands(g: Snapshot, g': Snapshot, g'': Snapshot, id: nat)
    requires Stands(g, g', id) && g'' == g'.(ss := g''.ss) && |g''.ss| == |g'.ss|
    ensures Stands(g, g'', id)
  {
    forall symbol, k {:trigger HasOrder(g'', symbol, k)} ensures HasOrder(g'', symbol, k) <==> HasOrder(g', symbol, k) {}
  }

  lemma UndoneIs(g: Snapshot, slots: nat, p: Place, i: Intent, g': Snapshot)
    requires Core(g, slots, 0) && InRange(g.ss, p) && !IsOpen(SlotAt(g.ss, p)) && i.id !in g.used
    requires g' == Close(Accept(g, p, i), p).(used := g.used)
    ensures Stands(g, g', i.id) && Apart(g, g', p.symbol) && g'.ss[p.symbol].risk == g.ss[p.symbol].risk && Empties(g, g', p)
    ensures g'.open == g.open && g'.fills == g.fills && g'.rejected == g.rejected && g'.used == g.used && g'.pending == g.pending
  {
    FreePlace(g, slots, p, i.id);
    var held := Accept(g, p, i);
    assert SlotAt(held.ss, p) == NewOrder(i);
    assert held.open - {i.id} == g.open;
  }

  /** A slot without an open order holds none of the open ids, and a new id is not open. */
  lemma FreePlace(g: Snapshot, slots: nat, p: Place, id: nat)
    requires Core(g, slots, 0) && InRange(g.ss, p) && !IsOpen(SlotAt(g.ss, p)) && id !in g.used
    ensures id !in g.open && id !in g.at && forall k :: k in IdSet(SlotAt(g.ss, p)) ==> k !in g.open
  {
    IdFacts(g, slots, 0, id);
    PlaceFacts(g, slots, 0, SlotAt(g.ss, p).id, p.symbol);
    assert SlotOk(g.ss, g.at, g.open, p);
  }

  lemma AdmissionMeans(c: Setup, w: World, i: Intent, env: Env)
    requires Good(c, w) && i.symbol < |w.g.ss| && Passes(c, w.g, i) && i.id !in w.g.used
    ensures var r := Admitted(c, w, i, env);
            var w', ok, risk := r.0, r.1, w.g.ss[i.symbol].risk;
            && (ok <==> i.id != 0 && |w.g.open| < c.ledgerCap && env.auditOk && (c.attached ==> env.written))
            && Stands(w.g, w'.g, i.id) && Apart(w.g, w'.g, i.symbol) && w'.g.fills == w.g.fills && w'.g.rejected == w.g.rejected
            && w'.breaker == (if ok then w.breaker else B.RecordFailure(c.breaker, w.breaker, i.now))
            && (ok ==> w'.g.open == w.g.open[i.id := View(NewOrder(i))] && w'.g.used == w.g.used + {i.id})
            && (ok ==> w'.g.pending == w.g.pending + 1)
            && (ok ==> HasOrder(w'.g, i.symbol, i.id) && w'.g.ss[i.symbol].risk == Reserved(risk, NewOrder(i)))
            && (!ok ==> w'.g.open == w.g.open && w'.g.used == w.g.used && w'.g.pending == w.g.pending)
            && (!ok ==> w'.g.ss[i.symbol].risk == risk.(rejectCount := risk.rejectCount + 1))
            && (ok ==> Holds(w.g, w'.g, Place(i.symbol, FirstFree(w.g.ss[i.symbol].orders)),
                             ActiveOrder(i.id, i.price, i.qty, 0, i.sell, Live)))
            && (!ok ==> || w'.g.ss[i.symbol].orders == w.g.ss[i.symbol].orders
                        || Empties(w.g, w'.g, Place(i.symbol, FirstFree(w.g.ss[i.symbol].orders))))
  {
    var p := Place(i.symbol, FirstFree(w.g.ss[i.symbol].orders));
    FreeSlotFound(w.g, c.slots, 0, i.symbol);
    LedgerTakes(c, w.g, i);
    CountedIs(w.g, i.symbol, false);
    if L.DoMap(w.g.ledger, L.RegisterOp(i.id, i.qty), c.ledgerCap).1 {
      BookedIs(c, w, p, i);
      TakenBackIs(c, w, p, i);
    }
  }

  lemma SubmitMeans(c: Setup, w: World, i: Intent, env: Env)
    requires Good(c, w) && i.id !in w.g.used
    ensures var r := Submitted(c, w, i, env); SubmitEffect(c, w, i, env, r.0, r.1)
  {
    if i.symbol < |w.g.ss| {
      var allowed := B.Allow(c.breaker, w.breaker, i.now);
      if allowed.0 && Passes(c, w.g, i) {
        AdmissionMeans(c, w.(breaker := allowed.1), i, env);
      } else {
        ScreenedOutMeans(c, w, i, env);
      }
    }
  }

  lemma ScreenedOutMeans(c: Setup, w: World, i: Intent, env: Env)
    requires Good(c, w) && i.symbol < |w.g.ss| && !(B.Allow(c.breaker, w.breaker, i.now).0 && Passes(c, w.g, i))
    ensures var r := Submitted(c, w, i, env); SubmitEffect(c, w, i, env, r.0, r.1)
  {
    CountedIs(w.g, i.symbol, true);
    CountedIs(w.g, i.symbol, false);
  }

  // ----- runs -----

  function IdOf(op: Op): nat {
    if op.Submit? then op.i.id else if op.Execution? then op.report.id else op.id
  }

  ghost predicate Follows(c: Setup, w: World, op: Op, w': World) {
    Fresh(w, op) && exists ok :: Does(c, w, op, w', ok)
  }

  ghost predicate Run(c: Setup, worlds: seq<World>, ops: seq<Op>) {
    && |worlds| == |ops| + 1 && Good(c, worlds[0])
    && forall i {:trigger ops[i]} :: 0 <= i < |ops| ==> Follows(c, worlds[i], ops[i], worlds[i + 1])
  }

  lemma {:induction false} RunGood(c: Setup, worlds: seq<World>, ops: seq<Op>, n: nat)
    requires Run(c, worlds, ops) && n <= |ops|
    ensures Good(c, worlds[n])
  {
    if n > 0 {
      RunGood(c, worlds, ops, n - 1);
      assert Follows(c, worlds[n - 1], ops[n - 1], worlds[n]);
      FollowsKeeps(c, worlds[n - 1], ops[n - 1], worlds[n]);
    }
  }

  lemma FollowsKeeps(c: Setup, w: World, op: Op, w': World)
    requires Good(c, w) && Follows(c, w, op, w')
    ensures Good(c, w')
  {
    var ok :| Does(c, w, op, w', ok);
    DoesKeeps(c, w, op, w', ok);
  }

  /** A call leaves every order but its own open, under its symbol and with its figures. */
  lemma OthersStand(c: Setup, w: World, op: Op, symbol: nat, id: nat)
    requires Good(c, w) && Fresh(w, op) && HasOrder(w.g, symbol, id) && id != IdOf(op)
    ensures var g' := Do(c, w, op).0.g; HasOrder(g', symbol, id) && g'.open[id] == w.g.open[id]
  {
    var g' := Do(c, w, op).0.g;
    match op
    case Submit(i, env) => SubmitMeans(c, w, i, env); assert HasOrder(g', symbol, id);
    case Execution(s, report, written) => ExecutionMeans(c, w, s, report, written); assert HasOrder(g', symbol, id);
    case Cancel(s, k, written) => CancelMeans(c, w, s, k, written); assert HasOrder(g', symbol, id);
    case Replace(s, k, qty, price, written) => ReplaceMeans(c, w, s, k, qty, price, written); assert HasOrder(g', symbol, id);
    case Reject(s, k, now) => RejectMeans(c, w, s, k, now); assert HasOrder(g', symbol, id);
  }

  lemma FollowsStand(c: Setup, w: World, op: Op, w': World, symbol: nat, id: nat)
    requires Good(c, w) && Follows(c, w, op, w') && HasOrder(w.g, symbol, id) && id != IdOf(op)
    ensures HasOrder(w'.g, symbol, id) && w'.g.open[id] == w.g.open[id]
  {
    var ok :| Does(c, w, op, w', ok);
    assert DoesTo(c, w, op, w', ok, |w.g.ss|);
    OthersStand(c, w, op, symbol, id);
  }

  /** Over any stretch of a run without a call about it, an order stays open under its symbol with
      its figures; so the next report about it is taken or refused on its own merits. */
  lemma {:induction false} OrderStays(c: Setup, worlds: seq<World>, ops: seq<Op>, m: nat, n: nat, symbol: nat, id: nat)
    requires Run(c, worlds, ops) && m <= n <= |ops| && HasOrder(worlds[m].g, symbol, id)
    requires forall i :: m <= i < n ==> IdOf(ops[i]) != id
    ensures HasOrder(worlds[n].g, symbol, id) && worlds[n].g.open[id] == worlds[m].g.open[id]
  {
    if n > m {
      OrderStays(c, worlds, ops, m, n - 1, symbol, id);
      OrderStaysOnce(c, worlds, ops, n - 1, symbol, id);
    }
  }

  lemma OrderStaysOnce(c: Setup, worlds: seq<World>, ops: seq<Op>, n: nat, symbol: nat, id: nat)
    requires Run(c, worlds, ops) && n < |ops| && HasOrder(worlds[n].g, symbol, id) && IdOf(ops[n]) != id
    ensures HasOrder(worlds[n + 1].g, symbol, id) && worlds[n + 1].g.open[id] == worlds[n].g.open[id]
  {
    RunGood(c, worlds, ops, n);
    assert Follows(c, worlds[n], ops[n], worlds[n + 1]);
    FollowsStand(c, worlds[n], ops[n], worlds[n + 1], symbol, id);
  }

  /** At every point of every run, per symbol: the position is what was bought and is being bought
      less what was sold and is being sold, exposure is what was traded and what is open at their prices,
      and the order counter counts the open slots. */
  lemma PositionConserved(c: Setup, worlds: seq<World>, ops: seq<Op>, n: nat, symbol: nat)
    requires Run(c, worlds, ops) && n <= |ops| && symbol < |c.limits|
    ensures |worlds[n].g.ss| == |c.limits|
    ensures var g := worlds[n].g;
            var s := g.ss[symbol];
            && s.risk.net == Bought(g.fills, symbol) + Resting(s.orders, false) - Sold(g.fills, symbol) - Resting(s.orders, true)
            && s.risk.gross == FilledGross(g.fills, symbol) + Worth(s.orders)
            && s.risk.orderCount == |OpenSlots(s.orders)|
  {
    RunGood(c, worlds, ops, n);
    var g := worlds[n].g;
    assert Agree(g, c.slots, 0);
    assert MoneyOk(g.ss[symbol], g.fills, symbol);
    PositionIs(g.ss[symbol], g.fills, symbol);
  }

  // ----- what a slot tells -----

  /** A live order has no fill yet, a partial or done one has, and nothing is overfilled. */
  ghost predicate Tells(o: ActiveOrder) {
    && (o.status == Vacant || o.status == Live ==> o.filled == 0)
    && (o.status == Partial || o.status == Done ==> o.filled > 0) && o.qty >= 0
  }

  ghost predicate AllTell(ss: seq<SymbolState>) {
    forall t, k {:trigger ss[t].orders[k]} :: 0 <= t < |ss| && 0 <= k < |ss[t].orders| ==> Tells(ss[t].orders[k])
  }

  lemma HoldsTell(g: Snapshot, g': Snapshot, p: Place, o: ActiveOrder)
    requires AllTell(g.ss) && Apart(g, g', p.symbol) && Holds(g, g', p, o) && Tells(o)
    ensures AllTell(g'.ss)
  {
    forall t, k {:trigger g'.ss[t].orders[k]} | 0 <= t < |g'.ss| && 0 <= k < |g'.ss[t].orders| ensures Tells(g'.ss[t].orders[k]) {
      if t != p.symbol {
        assert g'.ss[t] == g.ss[t];
      } else {
        assert g'.ss[t].orders[k] == if k == p.slot then o else g.ss[t].orders[k];
      }
    }
  }

  lemma SameTell(g: Snapshot, g': Snapshot, symbol: nat)
    requires AllTell(g.ss) && Apart(g, g', symbol) && (symbol < |g.ss| ==> g'.ss[symbol].orders == g.ss[symbol].orders)
    ensures AllTell(g'.ss)
  {
    forall t, k {:trigger g'.ss[t].orders[k]} | 0 <= t < |g'.ss| && 0 <= k < |g'.ss[t].orders| ensures Tells(g'.ss[t].orders[k]) {
      assert g'.ss[t].orders[k] == g.ss[t].orders[k];
    }
  }

  const EMPTY_SLOT := ActiveOrder(0, 0, 0, 0, false, Vacant)

  lemma SubmitTells(c: Setup, w: World, i: Intent, env: Env)
    requires Good(c, w) && i.id !in w.g.used && AllTell(w.g.ss)
    ensures AllTell(Submitted(c, w, i, env).0.g.ss)
  {
    SubmitMeans(c, w, i, env);
    var r := Submitted(c, w, i, env);
    if i.symbol < |w.g.ss| {
      var p := Place(i.symbol, FirstFree(w.g.ss[i.symbol].orders));
      if r.1 {
        HoldsTell(w.g, r.0.g, p, ActiveOrder(i.id, i.price, i.qty, 0, i.sell, Live));
      } else if r.0.g.ss[i.symbol].orders == w.g.ss[i.symbol].orders {
        SameTell(w.g, r.0.g, i.symbol);
      } else {
        HoldsTell(w.g, r.0.g, p, EMPTY_SLOT);
      }
    }
  }

  lemma ExecutionTells(c: Setup, w: World, symbol: nat, report: Ledger.Report, written: bool)
    requires Good(c, w) && AllTell(w.g.ss)
    ensures AllTell(Executed(c, w, symbol, report, written).0.g.ss)
  {
    ExecutionMeans(c, w, symbol, report, written);
    var r := Executed(c, w, symbol, report, written);
    if r.1 {
      KnowsIff(w.g, c.slots, 0, symbol, report.id);
      KnownFacts(w.g, c.slots, 0, symbol, report.id);
      var p := w.g.at[report.id];
      var o := SlotAt(w.g.ss, p);
      assert Tells(w.g.ss[p.symbol].orders[p.slot]);
      HoldsTell(w.g, r.0.g, p, SlotAt(r.0.g.ss, p));
    } else {
      SameTell(w.g, r.0.g, symbol);
    }
  }

  lemma CancelTells(c: Setup, w: World, symbol: nat, id: nat, written: bool)
    requires Good(c, w) && AllTell(w.g.ss)
    ensures AllTell(Cancelled(c, w, symbol, id, written).0.g.ss)
  {
    CancelMeans(c, w, symbol, id, written);
    var r := Cancelled(c, w, symbol, id, written);
    if r.1 {
      HoldsTell(w.g, r.0.g, w.g.at[id], EMPTY_SLOT);
    } else {
      SameTell(w.g, r.0.g, symbol);
    }
  }

  lemma ReplaceTells(c: Setup, w: World, symbol: nat, id: nat, qty: int, price: int, written: bool)
    requires Good(c, w) && AllTell(w.g.ss)
    ensures AllTell(Replaced(c, w, symbol, id, qty, price, written).0.g.ss)
  {
    ReplaceMeans(c, w, symbol, id, qty, price, written);
    var r := Replaced(c, w, symbol, id, qty, price, written);
    if r.1 {
      var p := w.g.at[id];
      assert Tells(w.g.ss[p.symbol].orders[p.slot]);
      HoldsTell(w.g, r.0.g, p, SlotAt(r.0.g.ss, p));
    } else {
      SameTell(w.g, r.0.g, symbol);
    }
  }

  lemma RejectTells(c: Setup, w: World, symbol: nat, id: nat, now: nat)
    requires Good(c, w) && AllTell(w.g.ss)
    ensures AllTell(Rejected(c, w, symbol, id, now).0.g.ss)
  {
    RejectMeans(c, w, symbol, id, now);
    var r := Rejected(c, w, symbol, id, now);
    if r.1 {
      HoldsTell(w.g, r.0.g, w.g.at[id], EMPTY_SLOT);
    } else {
      SameTell(w.g, r.0.g, symbol);
    }
  }

  lemma FollowsTells(c: Setup, w: World, op: Op, w': World)
    requires Good(c, w) && Follows(c, w, op, w') && AllTell(w.g.ss)
    ensures AllTell(w'.g.ss)
  {
    var ok :| Does(c, w, op, w', ok);
    assert DoesTo(c, w, op, w', ok, |w.g.ss|);
    match op
    case Submit(i, env) => SubmitTells(c, w, i, env);
    case Execution(symbol, report, written) => ExecutionTells(c, w, symbol, report, written);
    case Cancel(symbol, id, written) => CancelTells(c, w, symbol, id, written);
    case Replace(symbol, id, qty, price, written) => ReplaceTells(c, w, symbol, id, qty, price, written);
    case Reject(symbol, id, now) => RejectTells(c, w, symbol, id, now);
  }

  /** In every run from blank slots, a slot's status tells whether its order has been filled at all, and
      no slot is overfilled. */
  lemma {:induction false} StatusTells(c: Setup, worlds: seq<World>, ops: seq<Op>, n: nat)
    requires Run(c, worlds, ops) && n <= |ops| && AllTell(worlds[0].g.ss)
    ensures AllTell(worlds[n].g.ss)
  {
    if n > 0 {
      StatusTells(c, worlds, ops, n - 1);
      RunGood(c, worlds, ops, n - 1);
      assert Follows(c, worlds[n - 1], ops[n - 1], worlds[n]);
      FollowsTells(c, worlds[n - 1], ops[n - 1], worlds[n]);
    }
  }

  /** The reconciliation table behind the gateway: run over the gateway's ledger operations, it holds
      the gateway's ledger, gives its answers and finds exactly its ids, as long as no completing
      report has cut another order's probe path. */
  lemma TableIsLedger(c: Setup, w: World, tables: seq<seq<Ledger.Entry>>, hash: nat -> nat)
    requires Good(c, w) && L.Run(tables, hash, w.ops) && |tables[0]| == c.ledgerCap
    requires forall i :: 0 <= i < |w.ops| ==> !L.Cutting(tables[i], hash, w.ops[i])
    ensures var es := tables[|w.ops|];
            && |es| == c.ledgerCap && Ledger.Open(es) == w.g.ledger && L.AnswersAsMap(es, hash)
            && forall id :: id != 0 ==> (Ledger.Found(es, hash, id) >= 0 <==> id in w.g.ledger)
  {
    var n := |w.ops|;
    L.TableIsMap(tables, hash, w.ops, n);
    L.Sizes(tables, hash, w.ops, n);
    assert w.ops[..n] == w.ops;
    forall id | id != 0 ensures Ledger.Found(tables[n], hash, id) >= 0 <==> id in w.g.ledger {
      Ledger.FoundExact(tables[n], hash, id);
    }
  }
}
