/** The execution gateway: admission of orders and the venue's reports, each keeping slots,
    ledger, rate limiter, risk figures and write-ahead log in step. */
module Gateway {
  import opened Risk
  import opened OpenOrders
  import opened GatewayState
  import opened GatewayRuns
  import Ledger
  import L = LedgerRuns
  import R = Recovery
  import B = Breaker

  class ExecutionGateway {
    const symbols: array<SymbolState>
    const limits: seq<Limits>
    const slots: nat
    const maxPending: nat
    const ledgerCap: nat
    const breakerConfig: B.Config
    const wal: R.RecoveryLedger
    const attached: bool
    var ledger: map<nat, int>
    var pending: nat
    var breaker: B.State

    // For the specification: where each id is, what is open, what has been filled, which ids
    // have been accepted, the orders the venue rejected, as they then were, the operations the
    // ledger has seen, what the log replays to and how many orders that takes at most.
    ghost var at: map<nat, Place>
    ghost var open: map<nat, R.Open>
    ghost var fills: seq<FillEvent>
    ghost var used: set<nat>
    ghost var rejected: map<nat, R.Open>
    ghost var ops: seq<L.Op>
    ghost var logged: map<nat, R.Open>
    ghost var peak: nat

    ghost function Snap(): Snapshot
      reads this, symbols
    {
      Snapshot(symbols[..], ledger, pending, at, open, fills, used, rejected)
    }

    ghost function Now(): World
      reads this, symbols
    {
      World(Snap(), breaker, ops)
    }

    ghost function Setup(): GatewayRuns.Setup {
      GatewayRuns.Setup(limits, slots, maxPending, ledgerCap, breakerConfig, attached)
    }

    /** The books agree, and the log replays to the open orders beside those the venue rejected. */
    ghost predicate Valid()
      reads this, symbols, wal
    {
      wal.Valid() && Good(Setup(), Now()) && LogFor(open)
    }

    /** The log replays to `orders`, beside the rejected ones. */
    ghost predicate LogFor(orders: map<nat, R.Open>)
      reads this, wal
    {
      attached ==> Backed(wal.log, logged, rejected, orders, maxPending, peak)
    }

    constructor (limits: seq<Limits>, slots: nat, maxPending: nat, ledgerCap: nat, c: B.Config, wal: R.RecoveryLedger, attached: bool)
      requires wal.Valid() && wal.log == []
      ensures Valid() && Setup() == GatewayRuns.Setup(limits, slots, maxPending, ledgerCap, c, attached) && this.wal == wal
      ensures Now() == World(Snapshot(symbols[..], map[], 0, map[], map[], [], {}, map[]), B.INITIAL, []) && fresh(symbols)
      ensures symbols.Length == |limits|
      ensures forall t :: 0 <= t < |limits| ==> symbols[t] == SymbolState(seq(slots, _ => BLANK), RiskState(0, 0, 0, 0, 0, false))
    {
      var empty := SymbolState(seq(slots, _ => BLANK), RiskState(0, 0, 0, 0, 0, false));
      symbols := new SymbolState[|limits|](_ => empty);
      this.limits, this.slots, this.maxPending, this.ledgerCap, breakerConfig := limits, slots, maxPending, ledgerCap, c;
      this.wal, this.attached := wal, attached;
      ledger, pending, breaker := map[], 0, B.INITIAL;
      at, open, fills, used, rejected, ops, logged, peak := map[], map[], [], {}, map[], [], map[], maxPending;
      new;
      EmptyLog(maxPending);
      StartsEmpty(symbols[..], empty);
      assert Agree(Snap(), slots, 0);
    }

    static lemma StartsEmpty(ss: seq<SymbolState>, empty: SymbolState)
      requires forall t :: 0 <= t < |ss| ==> ss[t] == empty
      requires forall i :: 0 <= i < |empty.orders| ==> empty.orders[i] == BLANK
      requires empty.risk == RiskState(0, 0, 0, 0, 0, false)
      ensures Books(ss, map[], map[]) && Conserved(ss, []) && TotalOpen(ss) == 0
    {
      NothingOpen(empty.orders, OpenNet);
      NothingOpen(empty.orders, OpenGross);
      NothingOpen(empty.orders, OpenOne);
      NoOpenOrders(ss);
    }

    static lemma {:induction false} NothingOpen(orders: seq<ActiveOrder>, f: ActiveOrder -> int)
      requires f(BLANK) == 0 && forall i :: 0 <= i < |orders| ==> orders[i] == BLANK
      ensures Total(orders, f) == 0
    {
      if orders != [] { NothingOpen(orders[..|orders| - 1], f); }
    }

    static lemma {:induction false} NoOpenOrders(ss: seq<SymbolState>)
      requires forall t :: 0 <= t < |ss| ==> ss[t].risk.orderCount == 0
      ensures TotalOpen(ss) == 0
    {
      if ss != [] { NoOpenOrders(ss[..|ss| - 1]); }
    }

    // ----- parts -----

    /** Gives a permit of the rate limiter back. */
    method ReturnPermit()
      modifies this`pending
      ensures Snap() == Freed(old(Snap()))
    {
      if pending > 0 { pending := pending - 1; }
    }

    /** Counts a rejection and, if asked to, halts the symbol. */
    method NoteReject(symbol: nat, halt: bool)
      requires symbol < symbols.Length
      modifies symbols
      ensures Snap() == Counted(old(Snap()), symbol, halt)
    {
      ghost var g := Snap();
      var s := symbols[symbol];
      symbols[symbol] := s.(risk := s.risk.(halted := s.risk.halted || halt, rejectCount := s.risk.rejectCount + 1));
      assert symbols[..] == Counted(g, symbol, halt).ss;
    }

    /** Halts the symbol and trips the breaker: the answer to a report that does not reconcile. */
    method Distrust(symbol: nat)
      requires symbol < symbols.Length
      modifies symbols, this`breaker
      ensures Now() == Distrusted(old(Now()), symbol)
    {
      ghost var w := Now();
      var s := symbols[symbol];
      symbols[symbol] := s.(risk := s.risk.(halted := true));
      breaker := B.Trip(breaker, 0);
      assert symbols[..] == Distrusted(w, symbol).g.ss;
    }

    /** Whether the ledger has the order; a report for one that it has not is distrusted. */
    method Contains(symbol: nat, id: nat) returns (held: bool)
      requires symbol < symbols.Length
      modifies symbols, this`breaker
      ensures held <==> id in ledger
      ensures Now() == if held then old(Now()) else Distrusted(old(Now()), symbol)
    {
      held := id in ledger;
      if !held { Distrust(symbol); }
    }

    /** An operation on the ledger; a report whose operation fails is distrusted. */
    method Reconcile(symbol: nat, op: L.Op) returns (ok: bool)
      requires symbol < symbols.Length
      modifies symbols, this`breaker, this`ledger, this`ops
      ensures var r := L.DoMap(old(ledger), op, ledgerCap);
              var w := old(Now()).(g := old(Snap()).(ledger := r.0), ops := old(ops) + [op]);
              ok == r.1 && Now() == if ok then w else Distrusted(w, symbol)
    {
      var r := L.DoMap(ledger, op, ledgerCap);
      ledger, ops, ok := r.0, ops + [op], r.1;
      if !ok { Distrust(symbol); }
    }

    /** The used slot of this symbol that holds `id`, or -1. */
    method FindOrder(symbol: nat, id: nat, ghost g: Snapshot, ghost extra: nat) returns (i: int)
      requires Core(g, slots, extra) && g.ss == symbols[..] && symbol < symbols.Length
      ensures -1 <= i < |symbols[symbol].orders|
      ensures i >= 0 <==> Knows(g, symbol, id)
      ensures i >= 0 ==> g.at[id] == Place(symbol, i) && symbols[symbol].orders[i].id == id
      ensures i >= 0 ==> (symbols[symbol].orders[i].status == Done <==> id !in g.open)
      ensures i >= 0 ==> (IsOpen(symbols[symbol].orders[i]) <==> id in g.open)
    {
      PlaceFacts(g, slots, extra, id, symbol);
      i := 0;
      while i < |symbols[symbol].orders|
        invariant 0 <= i <= |symbols[symbol].orders|
        invariant forall j :: 0 <= j < i ==> !(symbols[symbol].orders[j].id == id && symbols[symbol].orders[j].status != Vacant)
      {
        if symbols[symbol].orders[i].id == id && symbols[symbol].orders[i].status != Vacant {
          assert SlotOk(g.ss, g.at, g.open, Place(symbol, i));
          return;
        }
        i := i + 1;
      }
      i := -1;
    }

    /** Appends to the log, if one is attached: either one whole record or nothing. */
    method WriteAhead(e: R.Event, written: bool, ghost before: map<nat, R.Open>, ghost after: map<nat, R.Open>) returns (ok: bool)
      requires wal.Valid() && LogFor(before) && e.id !in rejected
      requires Becomes(before, e, after) && |after| <= maxPending
      modifies wal, this`logged
      ensures wal.Valid() && (ok ==> LogFor(after)) && (!ok ==> LogFor(before))
      ensures ok <==> (attached ==> e.id != 0 && e.qty > 0 && written)
    {
      ok := true;
      if attached {
        ghost var log := wal.log;
        assert Backs(log, logged, rejected, before, maxPending, peak);
        ok := wal.Append(e, written);
        if ok { logged := LogStepBeside(log, logged, rejected, before, e, after, peak); }
      }
    }

    // ----- submission -----

    /** The first slot of a symbol that is vacant or done. */
    method FreeSlot(symbol: nat) returns (k: nat)
      requires symbol < symbols.Length && FirstFree(symbols[symbol].orders) < |symbols[symbol].orders|
      ensures k == FirstFree(symbols[symbol].orders)
    {
      var orders := symbols[symbol].orders;
      k := 0;
      while IsOpen(orders[k])
        invariant k < |orders| && forall j :: 0 <= j < k ==> IsOpen(orders[j])
        decreases |orders| - k
      {
        k := k + 1;
      }
    }

    /** Takes the first free slot for the order and reserves its position and exposure. */
    method Reserve(i: Intent)
      requires i.symbol < symbols.Length && FirstFree(symbols[i.symbol].orders) < |symbols[i.symbol].orders|
      modifies this`at, this`open, this`used, symbols
      ensures var g := old(Snap());
              Snap() == Accept(g, Place(i.symbol, FirstFree(g.ss[i.symbol].orders)), i).(ledger := ledger)
    {
      ghost var g := Snap();
      var k := FreeSlot(i.symbol);
      var s := symbols[i.symbol];
      ghost var p := Place(i.symbol, k);
      symbols[i.symbol] := SymbolState(s.orders[k := NewOrder(i)], Reserved(s.risk, NewOrder(i)));
      at, open, used := (at - IdSet(s.orders[k]))[i.id := p], open[i.id := View(NewOrder(i))], used + {i.id};
      assert symbols[..] == Accept(g, p, i).ss;
    }

    /** Blanks a slot and takes its order off the reservation. */
    method Vacate(symbol: nat, k: nat)
      requires symbol < symbols.Length && k < |symbols[symbol].orders|
      modifies this`at, this`open, symbols
      ensures Snap() == Close(old(Snap()), Place(symbol, k)).(ledger := ledger)
    {
      ghost var g, p := Snap(), Place(symbol, k);
      var s := symbols[symbol];
      var o := s.orders[k];
      symbols[symbol] := SymbolState(s.orders[k := BLANK], Released(s.risk, o.sell, o.price, o.qty));
      at, open := at - {o.id}, open - {o.id};
      assert symbols[..] == Close(g, p).ss;
    }

    /** Undoes `Reserve`: the slot that holds the id is the one just reserved. */
    method Rollback(i: Intent, ghost g: Snapshot)
      requires Core(g, slots, 0) && Snap() == g.(ledger := ledger) && i.symbol < symbols.Length && Knows(g, i.symbol, i.id)
      modifies this`at, this`open, this`used, symbols
      ensures Snap() == Close(g, g.at[i.id]).(ledger := ledger, used := g.used - {i.id})
    {
      var k := FindOrder(i.symbol, i.id, g, 0);
      Vacate(i.symbol, k);
      used := used - {i.id};
    }

    /** Gives the permit back, counts the rejection and reports a failure to the breaker. */
    method Refuse(i: Intent)
      requires i.symbol < symbols.Length
      modifies this`pending, this`breaker, symbols
      ensures Now() == World(Counted(Freed(old(Snap())), i.symbol, false), B.RecordFailure(breakerConfig, old(breaker), i.now), ops)
    {
      ReturnPermit();
      NoteReject(i.symbol, false);
      breaker := B.RecordFailure(breakerConfig, breaker, i.now);
    }

    method Register(i: Intent) returns (ok: bool)
      modifies this`ledger, this`ops
      ensures (ledger, ok) == L.DoMap(old(ledger), L.RegisterOp(i.id, i.qty), ledgerCap)
      ensures ops == old(ops) + [L.RegisterOp(i.id, i.qty)]
    {
      var r := L.DoMap(ledger, L.RegisterOp(i.id, i.qty), ledgerCap);
      ledger, ops, ok := r.0, ops + [L.RegisterOp(i.id, i.qty)], r.1;
    }

    /** Admission of an order that passed risk and holds a permit: ledger, slot, audit log and
        write-ahead log all take it, or none does. */
    method Admit(i: Intent, env: Env, ghost w: World) returns (ok: bool)
      requires Good(Setup(), w) && i.symbol < |w.g.ss| && w.g.ss[i.symbol].risk.orderCount < slots
      requires w.g.pending < maxPending && i.id !in w.g.used
      requires Snap() == w.g.(pending := w.g.pending + 1) && breaker == w.breaker && ops == w.ops
      requires wal.Valid() && LogFor(w.g.open)
      modifies this, symbols, wal
      ensures wal.Valid() && LogFor(open) && (Now(), ok) == Admitted(Setup(), w, i, env)
    {
      ghost var p := Place(i.symbol, FirstFree(w.g.ss[i.symbol].orders));
      FreeSlotFound(w.g, slots, 0, i.symbol);
      ok := Register(i);
      if ok {
        ok := Settle(i, env, w, p);
      } else {
        Refuse(i);
      }
    }

    /** Slot and logs of a registered order. */
    method Settle(i: Intent, env: Env, ghost w: World, ghost p: Place) returns (ok: bool)
      requires Good(Setup(), w) && CanBook(Setup(), w, p, i) && w.g.pending < maxPending
      requires i.symbol < |w.g.ss| && p == Place(i.symbol, FirstFree(w.g.ss[i.symbol].orders))
      requires Snap() == w.g.(pending := w.g.pending + 1, ledger := w.g.ledger[i.id := i.qty])
      requires breaker == w.breaker && ops == w.ops + [L.RegisterOp(i.id, i.qty)] && wal.Valid() && LogFor(w.g.open)
      modifies this, symbols, wal
      ensures wal.Valid() && LogFor(open) && (ok <==> env.auditOk && (attached ==> env.written))
      ensures Now() == if ok then Booked(w, p, i) else TakenBack(Setup(), w, p, i)
    {
      ghost var g := Snap();
      Reserve(i);
      BookedInSteps(w, p, i, g, Snap());
      ok := Confirm(i, env, w, p);
    }

    /** Records a reserved order in audit log and write-ahead log, or takes it back. */
    method Confirm(i: Intent, env: Env, ghost w: World, ghost p: Place) returns (ok: bool)
      requires Good(Setup(), w) && CanBook(Setup(), w, p, i) && p.symbol == i.symbol && w.g.pending < maxPending
      requires Now() == Booked(w, p, i) && wal.Valid() && LogFor(w.g.open)
      modifies this, symbols, wal
      ensures wal.Valid() && LogFor(open) && (ok <==> env.auditOk && (attached ==> env.written))
      ensures Now() == if ok then Booked(w, p, i) else TakenBack(Setup(), w, p, i)
    {
      ok := env.auditOk;
      if ok { ok := LogAdd(i, env, w.g); }
      if !ok { Undo(i, w, p); }
    }

    method LogAdd(i: Intent, env: Env, ghost g: Snapshot) returns (ok: bool)
      requires Core(g, slots, 0) && g.pending < maxPending && i.id !in g.used && i.id != 0 && i.qty > 0
      requires open == g.open[i.id := View(NewOrder(i))] && rejected == g.rejected && wal.Valid() && LogFor(g.open)
      modifies wal, this`logged
      ensures wal.Valid() && (ok ==> LogFor(open)) && (!ok ==> LogFor(g.open)) && (ok <==> (attached ==> env.written))
    {
      IdFacts(g, slots, 0, i.id);
      var e := R.Event(R.Add, i.id, i.qty, i.price, if i.sell then 1 else 0, i.now);
      AddBecomes(g.open, e);
      ok := WriteAhead(e, env.written, g.open, open);
    }

    method Undo(i: Intent, ghost w: World, ghost p: Place)
      requires Good(Setup(), w) && CanBook(Setup(), w, p, i) && p.symbol == i.symbol && w.g.pending < maxPending
      requires Now() == Booked(w, p, i)
      modifies this`ledger, this`ops, this`at, this`open, this`used, this`pending, this`breaker, symbols
      ensures Now() == TakenBack(Setup(), w, p, i) && open == w.g.open
    {
      TakeBack(i, w, p);
      Refuse(i);
    }

    /** Takes a reserved order off ledger, slot and reservation; the permit is still held. */
    method TakeBack(i: Intent, ghost w: World, ghost p: Place)
      requires Good(Setup(), w) && CanBook(Setup(), w, p, i) && p.symbol == i.symbol && w.g.pending < maxPending
      requires Now() == Booked(w, p, i)
      modifies this`ledger, this`ops, this`at, this`open, this`used, symbols
      ensures Freed(Snap()) == Close(Accept(w.g, p, i), p).(used := w.g.used) && open == w.g.open
      ensures ops == w.ops + [L.RegisterOp(i.id, i.qty), L.CancelOp(i.id)]
    {
      ghost var g := Snap();
      BookedKeeps(Setup(), w, p, i);
      CancelLedger(i.id);
      assert ledger == g.ledger - {i.id};
      Rollback(i, g);
      TakenBackInSteps(w, p, i, g, Snap());
      UndoneIs(w.g, slots, p, i, Freed(Snap()));
    }

    /** Takes an order off the ledger, whatever the ledger answers. */
    method CancelLedger(id: nat)
      modifies this`ledger, this`ops
      ensures ledger == L.DoMap(old(ledger), L.CancelOp(id), ledgerCap).0 && ops == old(ops) + [L.CancelOp(id)]
    {
      var r := L.DoMap(ledger, L.CancelOp(id), ledgerCap);
      ledger, ops := r.0, ops + [L.CancelOp(id)];
    }

    /** Submission. */
    method TryBuild(i: Intent, env: Env) returns (pass: bool)
      requires Valid() && i.id !in used
      modifies this, symbols, wal
      ensures Valid() && Does(Setup(), old(Now()), Submit(i, env), Now(), pass)
      ensures SubmitEffect(Setup(), old(Now()), i, env, Now(), pass)
      ensures pass ==> i.symbol < symbols.Length &&
                       symbols[i.symbol].risk.net == old(symbols[..])[i.symbol].risk.net + (if i.sell then -i.qty else i.qty)
      ensures pass && InI64(i.price) ==> RiskIsSafe(limits[i.symbol], symbols[i.symbol].risk)
    {
      ghost var w := Now();
      pass := Screen(i, env);
      ghost var w' := Now();
      DoesKeeps(Setup(), w, Submit(i, env), w', pass);
      SubmitMeans(Setup(), w, i, env);
      if pass && InI64(i.price) { AcceptedIsSafe(limits[i.symbol], w.g.ss[i.symbol].risk, i); }
    }

    /** Breaker, rate limiter, risk limits and order limit, then admission. */
    method Screen(i: Intent, env: Env) returns (pass: bool)
      requires Valid() && i.id !in used
      modifies this, symbols, wal
      ensures wal.Valid() && LogFor(open) && (Now(), pass) == Submitted(Setup(), old(Now()), i, env)
    {
      ghost var w := Now();
      if i.symbol >= symbols.Length { return false; }
      var allowed := B.Allow(breakerConfig, breaker, i.now);
      breaker := allowed.1;
      if !allowed.0 || pending >= maxPending {
        NoteReject(i.symbol, true);
        return false;
      }
      pending := pending + 1;
      pass := CheckLimits(i, env, w.(breaker := breaker));
    }

    /** Risk limits and order limit, then admission, for an order that holds a permit. */
    method CheckLimits(i: Intent, env: Env, ghost w: World) returns (pass: bool)
      requires Good(Setup(), w) && i.symbol < |w.g.ss| && w.g.pending < maxPending && i.id !in w.g.used
      requires Snap() == w.g.(pending := w.g.pending + 1) && breaker == w.breaker && ops == w.ops
      requires wal.Valid() && LogFor(w.g.open)
      modifies this, symbols, wal
      ensures wal.Valid() && LogFor(open)
      ensures (Now(), pass) ==
              if Passes(Setup(), w.g, i) then Admitted(Setup(), w, i, env)
              else (w.(g := Counted(w.g, i.symbol, Evaluate(limits[i.symbol], w.g.ss[i.symbol].risk, i).pass)), false)
    {
      var decision := Evaluate(limits[i.symbol], symbols[i.symbol].risk, i);
      var capacityOk := symbols[i.symbol].risk.orderCount < slots;
      if !decision.pass || !capacityOk {
        ReturnPermit();
        NoteReject(i.symbol, decision.pass);
        return false;
      }
      pass := Admit(i, env, w);
    }

    // ----- the venue's reports -----

    /** Cancel report. */
    method ApplyCancel(symbol: nat, id: nat, now: nat, written: bool) returns (ok: bool)
      requires Valid()
      modifies this, symbols, wal
      ensures Valid() && Does(Setup(), old(Now()), Cancel(symbol, id, written), Now(), ok)
      ensures CancelEffect(Setup(), old(Now()), symbol, id, written, Now(), ok)
    {
      ghost var w := Now();
      ok := DoCancel(symbol, id, now, written);
      DoesKeeps(Setup(), w, Cancel(symbol, id, written), Now(), ok);
      CancelMeans(Setup(), w, symbol, id, written);
    }

    method DoCancel(symbol: nat, id: nat, now: nat, written: bool) returns (ok: bool)
      requires Valid()
      modifies this, symbols, wal
      ensures wal.Valid() && LogFor(open) && (Now(), ok) == Cancelled(Setup(), old(Now()), symbol, id, written)
    {
      ok := false;
      if symbol >= symbols.Length {
        breaker := B.Trip(breaker, 0);
        return;
      }
      ghost var w := Now();
      var k := FindOrder(symbol, id, w.g, 0);
      if k < 0 {
        Distrust(symbol);
      } else if symbols[symbol].orders[k].status != Done {
        KnownFacts(w.g, slots, 0, symbol, id);
        var held := Contains(symbol, id);
        if held { ok := CancelOpen(symbol, k, id, now, written, w); }
      }
    }

    /** Log record, ledger, then slot, reservation and permit, for the open order in slot `k`. */
    method CancelOpen(symbol: nat, k: nat, id: nat, now: nat, written: bool, ghost w: World) returns (ok: bool)
      requires Now() == w && wal.Valid() && LogFor(w.g.open) && Good(Setup(), w)
      requires Knows(w.g, symbol, id) && id in w.g.open && w.g.at[id] == Place(symbol, k)
      modifies this, symbols, wal
      ensures wal.Valid() && LogFor(open) && (ok <==> (attached ==> written))
      ensures Now() == if ok then World(Freed(Close(w.g, Place(symbol, k))), w.breaker, w.ops + [L.CancelOp(id)])
                       else Distrusted(w, symbol)
    {
      KnownFacts(w.g, slots, 0, symbol, id);
      ok := LogCancel(symbol, k, id, now, written, w.g);
      if !ok {
        Distrust(symbol);
        return;
      }
      ok := BookCancel(symbol, k, id, w);
    }

    /** Ledger, slot, reservation and permit of a cancelled order; the ledger step cannot fail. */
    method BookCancel(symbol: nat, k: nat, id: nat, ghost w: World) returns (ok: bool)
      requires Now() == w && symbol < |w.g.ss| && k < |w.g.ss[symbol].orders|
      requires w.g.ss[symbol].orders[k].id == id && id in w.g.ledger
      modifies this`ledger, this`ops, this`breaker, this`at, this`open, this`pending, symbols
      ensures ok && Now() == World(Freed(Close(w.g, Place(symbol, k))), w.breaker, w.ops + [L.CancelOp(id)])
    {
      ok := Reconcile(symbol, L.CancelOp(id));
      if ok {
        Vacate(symbol, k);
        ReturnPermit();
      }
    }

    method LogCancel(symbol: nat, k: nat, id: nat, now: nat, written: bool, ghost g: Snapshot) returns (ok: bool)
      requires Snap() == g && Core(g, slots, 0) && g.pending <= maxPending && wal.Valid() && LogFor(g.open)
      requires Knows(g, symbol, id) && id in g.open && g.at[id] == Place(symbol, k)
      modifies wal, this`logged
      ensures wal.Valid() && (ok ==> LogFor(g.open - {id})) && (!ok ==> LogFor(g.open)) && (ok <==> (attached ==> written))
    {
      var o := symbols[symbol].orders[k];
      KnownFacts(g, slots, 0, symbol, id);
      IdFacts(g, slots, 0, id);
      var e := R.Event(R.Cancel, id, o.qty, o.price, if o.sell then 1 else 0, now);
      CancelBecomes(g.open, e);
      ok := WriteAhead(e, written, g.open, g.open - {id});
    }

    /** Replace report: new quantity and price for an open order of this symbol. */
    method ApplyReplace(symbol: nat, id: nat, qty: int, price: int, now: nat, written: bool) returns (ok: bool)
      requires Valid()
      modifies this, symbols, wal
      ensures Valid() && Does(Setup(), old(Now()), Replace(symbol, id, qty, price, written), Now(), ok)
      ensures ReplaceEffect(Setup(), old(Now()), symbol, id, qty, price, written, Now(), ok)
    {
      ghost var w := Now();
      ok := DoReplace(symbol, id, qty, price, now, written);
      DoesKeeps(Setup(), w, Replace(symbol, id, qty, price, written), Now(), ok);
      ReplaceMeans(Setup(), w, symbol, id, qty, price, written);
    }

    method DoReplace(symbol: nat, id: nat, qty: int, price: int, now: nat, written: bool) returns (ok: bool)
      requires Valid()
      modifies this, symbols, wal
      ensures wal.Valid() && LogFor(open) && (Now(), ok) == Replaced(Setup(), old(Now()), symbol, id, qty, price, written)
    {
      ok := false;
      if symbol >= symbols.Length {
        breaker := B.Trip(breaker, 0);
        return;
      }
      ghost var w := Now();
      var k := FindOrder(symbol, id, w.g, 0);
      if k >= 0 { KnownFacts(w.g, slots, 0, symbol, id); }
      if k < 0 || symbols[symbol].orders[k].status == Done || id !in ledger || qty <= 0 || price <= 0 {
        Distrust(symbol);
      } else {
        ok := ReplaceOpen(symbol, k, id, qty, price, now, written, w);
      }
    }

    /** Log record, ledger, then slot and reservation, for the open order in slot `k`. */
    method ReplaceOpen(symbol: nat, k: nat, id: nat, qty: int, price: int, now: nat, written: bool, ghost w: World) returns (ok: bool)
      requires Now() == w && wal.Valid() && LogFor(w.g.open) && Good(Setup(), w) && qty > 0 && price > 0
      requires Knows(w.g, symbol, id) && id in w.g.open && w.g.at[id] == Place(symbol, k)
      modifies this, symbols, wal
      ensures wal.Valid() && LogFor(open) && (ok <==> (attached ==> written))
      ensures Now() == if ok then World(Amend(w.g, Place(symbol, k), qty, price), w.breaker, w.ops + [L.ReplaceOp(id, qty)])
                       else Distrusted(w, symbol)
    {
      KnownFacts(w.g, slots, 0, symbol, id);
      ok := LogReplace(symbol, k, id, qty, price, now, written, w.g);
      if !ok {
        Distrust(symbol);
        return;
      }
      ok := BookReplace(symbol, k, id, qty, price, w);
    }

    /** Ledger, slot and reservation of a replaced order; the ledger step cannot fail. */
    method BookReplace(symbol: nat, k: nat, id: nat, qty: int, price: int, ghost w: World) returns (ok: bool)
      requires Now() == w && symbol < |w.g.ss| && k < |w.g.ss[symbol].orders|
      requires w.g.ss[symbol].orders[k].id == id && id in w.g.ledger && id != 0 && qty > 0
      modifies this`ledger, this`ops, this`breaker, this`open, symbols
      ensures ok && Now() == World(Amend(w.g, Place(symbol, k), qty, price), w.breaker, w.ops + [L.ReplaceOp(id, qty)])
    {
      ok := Reconcile(symbol, L.ReplaceOp(id, qty));
      if ok { BookAmend(symbol, k, qty, price); }
    }

    method LogReplace(symbol: nat, k: nat, id: nat, qty: int, price: int, now: nat, written: bool, ghost g: Snapshot) returns (ok: bool)
      requires Snap() == g && Core(g, slots, 0) && g.pending <= maxPending && wal.Valid() && LogFor(g.open) && qty > 0 && price > 0
      requires Knows(g, symbol, id) && id in g.open && g.at[id] == Place(symbol, k)
      modifies wal, this`logged
      ensures var after := g.open[id := g.open[id].(remaining := qty, price := price)];
              wal.Valid() && (ok ==> LogFor(after)) && (!ok ==> LogFor(g.open)) && (ok <==> (attached ==> written))
    {
      var o := symbols[symbol].orders[k];
      KnownFacts(g, slots, 0, symbol, id);
      IdFacts(g, slots, 0, id);
      var e := R.Event(R.Replace, id, qty, price, if o.sell then 1 else 0, now);
      ReplaceBecomes(g.open, e);
      ok := WriteAhead(e, written, g.open, g.open[id := g.open[id].(remaining := qty, price := price)]);
    }

    method BookAmend(symbol: nat, k: nat, qty: int, price: int)
      requires symbol < symbols.Length && k < |symbols[symbol].orders|
      modifies this`open, symbols
      ensures Snap() == Amend(old(Snap()), Place(symbol, k), qty, price).(ledger := ledger)
    {
      ghost var g, p := Snap(), Place(symbol, k);
      var s := symbols[symbol];
      var o := s.orders[k];
      var o' := o.(qty := qty, price := price);
      var risk := s.risk.(net := s.risk.net + (Signed(o.sell, qty) - Signed(o.sell, o.qty)),
                          gross := s.risk.gross + (price * qty - o.price * o.qty));
      symbols[symbol] := SymbolState(s.orders[k := o'], risk);
      open := open[o.id := View(o')];
      assert symbols[..] == Amend(g, p, qty, price).ss;
    }

    /** Execution report. */
    method ApplyExecution(symbol: nat, report: Ledger.Report, now: nat, written: bool) returns (ok: bool)
      requires Valid()
      modifies this, symbols, wal
      ensures Valid() && Does(Setup(), old(Now()), Execution(symbol, report, written), Now(), ok)
      ensures ExecutionEffect(Setup(), old(Now()), symbol, report, written, Now(), ok)
    {
      ghost var w := Now();
      ok := DoExecution(symbol, report, now, written);
      DoesKeeps(Setup(), w, Execution(symbol, report, written), Now(), ok);
      ExecutionMeans(Setup(), w, symbol, report, written);
    }

    method DoExecution(symbol: nat, report: Ledger.Report, now: nat, written: bool) returns (ok: bool)
      requires Valid()
      modifies this, symbols, wal
      ensures wal.Valid() && LogFor(open) && (Now(), ok) == Executed(Setup(), old(Now()), symbol, report, written)
    {
      ok := false;
      if symbol >= symbols.Length {
        breaker := B.Trip(breaker, 0);
        return;
      }
      ghost var w := Now();
      var k := FindOrder(symbol, report.id, w.g, 0);
      if k >= 0 { KnownFacts(w.g, slots, 0, symbol, report.id); }
      if k < 0 || report.filled <= 0 || report.filled > symbols[symbol].orders[k].qty || report.id !in ledger {
        Distrust(symbol);
      } else {
        ok := Fill(symbol, k, report, now, written, w);
      }
    }

    /** Log record, ledger, then slot, reservation and permit, for a fill of the order in slot `k`. */
    method Fill(symbol: nat, k: nat, report: Ledger.Report, now: nat, written: bool, ghost w: World) returns (ok: bool)
      requires Now() == w && wal.Valid() && LogFor(w.g.open) && Good(Setup(), w)
      requires Knows(w.g, symbol, report.id) && report.id in w.g.open && w.g.at[report.id] == Place(symbol, k)
      requires 0 < report.filled <= SlotAt(w.g.ss, Place(symbol, k)).qty
      modifies this, symbols, wal
      ensures wal.Valid() && LogFor(open) && (ok <==> (attached ==> written))
      ensures Now() == if ok then Filled(w, Place(symbol, k), report) else Distrusted(w, symbol)
    {
      KnownFacts(w.g, slots, 0, symbol, report.id);
      ok := LogFill(symbol, k, report, now, written, w.g);
      if !ok {
        Distrust(symbol);
        return;
      }
      ok := BookReport(symbol, k, report, w);
    }

    /** Ledger, slot, reservation and permit of a filled order; the ledger step cannot fail. */
    method BookReport(symbol: nat, k: nat, report: Ledger.Report, ghost w: World) returns (ok: bool)
      requires Now() == w && symbol < |w.g.ss| && k < |w.g.ss[symbol].orders| && w.g.ss[symbol].orders[k].id == report.id != 0
      requires report.id in w.g.ledger && 0 < report.filled <= w.g.ledger[report.id] == w.g.ss[symbol].orders[k].qty
      modifies this`ledger, this`ops, this`breaker, this`open, this`fills, this`pending, symbols
      ensures ok && Now() == Filled(w, Place(symbol, k), report)
    {
      ok := Reconcile(symbol, L.ApplyOp(report));
      if ok { BookFill(symbol, k, report); }
    }

    /** What is open once the report is booked. */
    static ghost function AfterFill(g: Snapshot, report: Ledger.Report): map<nat, R.Open>
      requires report.id in g.open
    {
      var o := g.open[report.id];
      if report.terminal || report.filled == o.remaining then g.open - {report.id}
      else g.open[report.id := o.(remaining := o.remaining - report.filled)]
    }

    method LogFill(symbol: nat, k: nat, report: Ledger.Report, now: nat, written: bool, ghost g: Snapshot) returns (ok: bool)
      requires Snap() == g && Core(g, slots, 0) && g.pending <= maxPending && wal.Valid() && LogFor(g.open)
      requires Knows(g, symbol, report.id) && report.id in g.open && g.at[report.id] == Place(symbol, k)
      requires 0 < report.filled <= SlotAt(g.ss, Place(symbol, k)).qty
      modifies wal, this`logged
      ensures wal.Valid() && (ok ==> LogFor(AfterFill(g, report))) && (!ok ==> LogFor(g.open)) && (ok <==> (attached ==> written))
    {
      var o := symbols[symbol].orders[k];
      var remaining := o.qty - report.filled;
      KnownFacts(g, slots, 0, symbol, report.id);
      IdFacts(g, slots, 0, report.id);
      var e := R.Event(FillKind(report.terminal, remaining), report.id, report.filled, o.price, if o.sell then 1 else 0, now);
      FillBecomes(g.open, e, report.terminal, remaining, AfterFill(g, report));
      ok := WriteAhead(e, written, g.open, AfterFill(g, report));
    }

    /** Slot, reservation and permit after a fill. */
    method BookFill(symbol: nat, k: nat, report: Ledger.Report)
      requires symbol < symbols.Length && k < |symbols[symbol].orders|
      modifies this`open, this`fills, this`pending, symbols
      ensures var g, p := old(Snap()), Place(symbol, k);
              Snap() == (if report.terminal || report.filled == SlotAt(g.ss, p).qty then Freed(LastFill(g, p, report.filled))
                         else PartFill(g, p, report.filled)).(ledger := ledger)
    {
      if report.terminal || report.filled == symbols[symbol].orders[k].qty {
        BookLastFill(symbol, k, report.filled);
        ReturnPermit();
      } else {
        BookPartFill(symbol, k, report.filled);
      }
    }

    method BookLastFill(symbol: nat, k: nat, qty: int)
      requires symbol < symbols.Length && k < |symbols[symbol].orders|
      modifies this`open, this`fills, symbols
      ensures Snap() == LastFill(old(Snap()), Place(symbol, k), qty).(ledger := ledger)
    {
      ghost var g, p := Snap(), Place(symbol, k);
      var s := symbols[symbol];
      var o := s.orders[k];
      var o' := o.(qty := o.qty - qty, filled := o.filled + qty, status := Done);
      symbols[symbol] := SymbolState(s.orders[k := o'], Released(s.risk, o.sell, o.price, o.qty - qty));
      fills, open := fills + [FillOf(symbol, o, qty)], open - {o.id};
      assert symbols[..] == LastFill(g, p, qty).ss;
    }

    method BookPartFill(symbol: nat, k: nat, qty: int)
      requires symbol < symbols.Length && k < |symbols[symbol].orders|
      modifies this`open, this`fills, symbols
      ensures Snap() == PartFill(old(Snap()), Place(symbol, k), qty).(ledger := ledger)
    {
      ghost var g, p := Snap(), Place(symbol, k);
      var s := symbols[symbol];
      var o := s.orders[k];
      var o' := o.(qty := o.qty - qty, filled := o.filled + qty, status := Partial);
      symbols[symbol] := s.(orders := s.orders[k := o']);
      fills, open := fills + [FillOf(symbol, o, qty)], open[o.id := View(o')];
      assert symbols[..] == PartFill(g, p, qty).ss;
    }

    /** Reject report: removes an open order without a log record, so replay will bring it back. */
    method ApplyReject(symbol: nat, id: nat, now: nat) returns (ok: bool)
      requires Valid()
      modifies this, symbols
      ensures Valid() && Does(Setup(), old(Now()), GatewayRuns.Reject(symbol, id, now), Now(), ok)
      ensures RejectEffect(Setup(), old(Now()), symbol, id, now, Now(), ok)
    {
      ghost var w := Now();
      ok := DoReject(symbol, id, now);
      DoesKeeps(Setup(), w, GatewayRuns.Reject(symbol, id, now), Now(), ok);
      RejectMeans(Setup(), w, symbol, id, now);
    }

    method DoReject(symbol: nat, id: nat, now: nat) returns (ok: bool)
      requires Valid()
      modifies this, symbols
      ensures wal.Valid() && LogFor(open) && (Now(), ok) == Rejected(Setup(), old(Now()), symbol, id, now)
    {
      ok := false;
      if symbol >= symbols.Length {
        breaker := B.RecordFailure(breakerConfig, breaker, now);
        return;
      }
      ghost var w := Now();
      var k := FindOrder(symbol, id, w.g, 0);
      if k >= 0 && symbols[symbol].orders[k].status == Done { return; }
      ghost var halt := symbols[symbol].risk.rejectCount + 1 >= limits[symbol].maxRejections;
      NoteReject(symbol, symbols[symbol].risk.rejectCount + 1 >= limits[symbol].maxRejections);
      breaker := B.RecordRejection(breakerConfig, breaker, now);
      if k >= 0 {
        CountKeeps(w.g, slots, 0, symbol, halt);
        Drop(symbol, k, id, Snap());
        ok := true;
      }
    }

    /** Drops the order at slot `k` and remembers that the log still holds it. */
    method Drop(symbol: nat, k: nat, id: nat, ghost g: Snapshot)
      requires Snap() == g && Core(g, slots, 0) && wal.Valid() && LogFor(g.open)
      requires Knows(g, symbol, id) && id in g.open && g.at[id] == Place(symbol, k)
      modifies this, symbols
      ensures wal.Valid() && LogFor(open) && breaker == old(breaker) && ops == old(ops) + [L.CancelOp(id)]
      ensures Snap() == Freed(Close(g, Place(symbol, k))).(rejected := g.rejected[id := g.open[id]])
    {
      KnownFacts(g, slots, 0, symbol, id);
      Retire(symbol, k, id, g);
      Bar(id, g.open);
    }

    method Retire(symbol: nat, k: nat, id: nat, ghost g: Snapshot)
      requires Snap() == g && symbol < |g.ss| && k < |g.ss[symbol].orders| && g.ss[symbol].orders[k].id == id && id in g.ledger
      modifies this`ledger, this`ops, this`at, this`open, this`pending, symbols
      ensures Snap() == Freed(Close(g, Place(symbol, k))) && ops == old(ops) + [L.CancelOp(id)]
    {
      CancelLedger(id);
      Vacate(symbol, k);
      ReturnPermit();
    }

    /** Puts an order that is no longer open on the record of rejected ones. */
    ghost method Bar(id: nat, was: map<nat, R.Open>)
      requires LogFor(was) && id in was && open == was - {id}
      modifies this`rejected, this`peak
      ensures LogFor(open) && rejected == old(rejected)[id := was[id]]
    {
      if attached {
        assert Backs(wal.log, logged, rejected, was, maxPending, peak);
        RejectBeside(logged, rejected, was, id);
        var more := peak + 1;
        MoreCapacity(wal.log, logged, peak, more);
        peak := more;
      }
      rejected := rejected[id := was[id]];
    }

    // ----- recovery -----

    /** At every point of every run with a log: recovery into an array that can hold as many
        orders as the rate limiter admits and the venue rejected succeeds. It lists the open
        orders, and the rejected ones come back with them: it is exact if and only if the venue
        has rejected no open order. */
    lemma RecoveryIsExact(size: nat)
      requires Valid() && attached && maxPending + |rejected| <= size
      ensures R.ReplayArray(wal.log, |wal.log|, size).Some?
      ensures var out := R.ReplayArray(wal.log, |wal.log|, size).value;
              && R.Lists(out, logged) && Shadow(logged, rejected, open) && (R.Lists(out, open) <==> rejected == map[])
              && forall id :: id in rejected ==> R.Find(out, id, 0) < |out| && out[R.Find(out, id, 0)].id == id
    {
      assert Backs(wal.log, logged, rejected, open, maxPending, peak);
      ReplayBringsBackRejects(wal.log, logged, rejected, open, peak, size);
    }
  }
}
