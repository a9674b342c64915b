/** Two promises the gateway does not keep, each on runs of the gateway itself. */
module GatewayFailures {
  import opened Risk
  import opened OpenOrders
  import opened GatewayState
  import opened GatewayRuns
  import opened Gateway
  import Ledger
  import L = LedgerRuns
  import R = Recovery
  import B = Breaker

  const NO_RISK := RiskState(0, 0, 0, 0, 0, false)

  /** Recovery lists the order, and therefore not just what is open. */
  ghost predicate ComesBack(log: seq<R.Record>, size: nat, open: map<nat, R.Open>, id: nat) {
    var r := R.ReplayArray(log, |log|, size);
    r.Some? && !R.Lists(r.value, open) && R.Find(r.value, id, 0) < |r.value| && r.value[R.Find(r.value, id, 0)].id == id
  }

  method FreshGateway(limits: seq<Limits>, slots: nat, maxPending: nat, cap: nat, c: B.Config) returns (gw: ExecutionGateway)
    ensures gw.Valid() && gw.Setup() == Setup(limits, slots, maxPending, cap, c, true)
    ensures fresh(gw) && fresh(gw.symbols) && fresh(gw.wal)
    ensures gw.open == map[] && gw.used == {} && gw.pending == 0 && gw.rejected == map[] && gw.ops == [] && gw.breaker == B.INITIAL
    ensures gw.symbols.Length == |limits| && forall t :: 0 <= t < |limits| ==> gw.symbols[t].risk == NO_RISK
  {
    var wal := new R.RecoveryLedger();
    gw := new ExecutionGateway(limits, slots, maxPending, cap, c, wal, true);
  }

  /** A fresh gateway with a log accepts any order within its limits. */
  method OneOrder(limits: seq<Limits>, slots: nat, maxPending: nat, cap: nat, c: B.Config, i: Intent) returns (gw: ExecutionGateway)
    requires i.symbol < |limits| && 0 < slots && 0 < maxPending && 0 < cap && i.id != 0
    requires Evaluate(limits[i.symbol], NO_RISK, i).pass
    ensures gw.Valid() && gw.Setup() == Setup(limits, slots, maxPending, cap, c, true)
    ensures fresh(gw) && fresh(gw.symbols) && fresh(gw.wal)
    ensures HasOrder(gw.Snap(), i.symbol, i.id) && gw.open == map[i.id := View(NewOrder(i))] && gw.used == {i.id}
    ensures gw.pending == 1 && gw.rejected == map[] && gw.breaker == B.Allow(c, B.INITIAL, i.now).1
    ensures gw.ops == [L.RegisterOp(i.id, i.qty)]
    ensures gw.symbols.Length == |limits| && forall t :: 0 <= t < |limits| && t != i.symbol ==> gw.symbols[t].risk == NO_RISK
  {
    gw := FreshGateway(limits, slots, maxPending, cap, c);
    ghost var w := gw.Now();
    var accepted := gw.TryBuild(i, Env(true, true));
    AcceptedOps(gw.Setup(), w, i, Env(true, true), gw.Now());
  }

  /** Any order within the limits of a fresh gateway, accepted and then rejected by the venue, is
      back after recovery although nothing is open. */
  method RejectedOrderComesBack(limits: seq<Limits>, slots: nat, maxPending: nat, cap: nat, c: B.Config, i: Intent, now: nat)
    returns (gw: ExecutionGateway)
    requires i.symbol < |limits| && 0 < slots && 0 < maxPending && 0 < cap && i.id != 0
    requires Evaluate(limits[i.symbol], NO_RISK, i).pass
    ensures gw.Valid() && gw.attached && gw.maxPending == maxPending && gw.open == map[]
    ensures forall size :: maxPending < size ==> ComesBack(gw.wal.log, size, gw.open, i.id)
  {
    gw := OneOrder(limits, slots, maxPending, cap, c, i);
    var dropped := gw.ApplyReject(i.symbol, i.id, now);
    assert dropped && i.id in gw.rejected && |gw.rejected| == 1;
    forall size | maxPending < size ensures ComesBack(gw.wal.log, size, gw.open, i.id) {
      gw.RecoveryIsExact(size);
    }
  }

  /** Two orders whose ids collide in the reconciliation table, accepted by a fresh gateway, the
      first then filled: the ledger operations the gateway has made leave a table that cannot find
      the second, although it is open. */
  method FilledOrderHidesAnother(limits: seq<Limits>, slots: nat, maxPending: nat, cap: nat, c: B.Config,
                                 i: Intent, j: Intent, ghost hash: nat -> nat, now: nat)
    returns (gw: ExecutionGateway, ghost tables: seq<seq<Ledger.Entry>>)
    requires i.symbol < |limits| && j.symbol < |limits| && i.symbol != j.symbol && 0 < slots && 2 <= maxPending && 2 <= cap
    requires i.id != 0 && j.id != 0 && i.id != j.id && Ledger.HashInto(hash, cap) && hash(i.id) == hash(j.id)
    requires Evaluate(limits[i.symbol], NO_RISK, i).pass && Evaluate(limits[j.symbol], NO_RISK, j).pass && c.maxRate == 0
    ensures gw.Valid() && L.Run(tables, hash, gw.ops) && |gw.ops| == 3 && |tables[3]| == cap
    ensures j.id in gw.open && j.id in gw.ledger && Ledger.Found(tables[3], hash, j.id) < 0
  {
    gw := TwoOrders(limits, slots, maxPending, cap, c, i, j);
    ghost var w := gw.Now();
    var report := Ledger.Report(i.id, i.qty, true);
    var filled := gw.ApplyExecution(i.symbol, report, now, true);
    FilledOps(gw.Setup(), w, i.symbol, report, true, gw.Now());
    ghost var ops: seq<L.Op>;
    tables, ops := L.CollisionHides(hash, cap, i.id, i.qty, j.id, j.qty, true);
    assert gw.ops == ops;
    SameKeys(gw.Snap(), slots, 0);
  }

  method TwoOrders(limits: seq<Limits>, slots: nat, maxPending: nat, cap: nat, c: B.Config, i: Intent, j: Intent)
    returns (gw: ExecutionGateway)
    requires i.symbol < |limits| && j.symbol < |limits| && i.symbol != j.symbol && 0 < slots && 2 <= maxPending && 2 <= cap
    requires i.id != 0 && j.id != 0 && i.id != j.id
    requires Evaluate(limits[i.symbol], NO_RISK, i).pass && Evaluate(limits[j.symbol], NO_RISK, j).pass && c.maxRate == 0
    ensures gw.Valid() && gw.slots == slots && gw.ops == [L.RegisterOp(i.id, i.qty), L.RegisterOp(j.id, j.qty)]
    ensures HasOrder(gw.Snap(), i.symbol, i.id) && gw.open[i.id] == View(NewOrder(i)) && j.id in gw.open
    ensures fresh(gw) && fresh(gw.symbols) && fresh(gw.wal)
  {
    gw := OneOrder(limits, slots, maxPending, cap, c, i);
    ghost var w := gw.Now();
    var accepted := gw.TryBuild(j, Env(true, true));
    AcceptedOps(gw.Setup(), w, j, Env(true, true), gw.Now());
  }

  lemma AcceptedOps(c: Setup, w: World, i: Intent, env: Env, w': World)
    requires Good(c, w) && i.id !in w.g.used && Does(c, w, Submit(i, env), w', true)
    ensures w'.ops == w.ops + [L.RegisterOp(i.id, i.qty)]
  {
    assert DoesTo(c, w, Submit(i, env), w', true, |w.g.ss|);
  }

  lemma FilledOps(c: Setup, w: World, symbol: nat, report: Ledger.Report, written: bool, w': World)
    requires Good(c, w) && Does(c, w, Execution(symbol, report, written), w', true)
    ensures w'.ops == w.ops + [L.ApplyOp(report)]
  {
    assert DoesTo(c, w, Execution(symbol, report, written), w', true, |w.g.ss|);
  }
}
