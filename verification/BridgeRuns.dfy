/** Every run of one listener and the execution thread, from a fresh bridge. */
module BridgeRuns {
  import opened Finite
  import opened Bridge
  import opened BridgeSystem
  import opened BridgeClients

  // ----- every step -----

  /** What was delivered went to the connection that asked, and had been taken. */
  ghost predicate LogOk(log: History) {
    && (forall id {:trigger id in log.asked} :: id in log.asked <==> id in log.accepted)
    && forall id {:trigger log.delivered[id]} :: id in log.delivered ==>
         id in log.taken && id in log.asked && log.delivered[id] == log.asked[id]
  }

  ghost function InFlight(s: System): set<nat> { Elems(Pending(s.queues, s.working)) }

  ghost predicate Inv(s: System) {
    QueueInv(s) && ClientsInv(s.server, InFlight(s), s.log.asked, s.log.connections) && LogOk(s.log)
  }

  lemma StartInv(s: System)
    requires Start(s)
    ensures Inv(s)
  {
    assert Pending(s.queues, s.working) == [];
    assert Held(s.server.outstanding) == {};
    forall i | 0 <= i < |s.server.clients| ensures ClientOk(s.server, i, InFlight(s), s.log.asked, s.log.connections) {
      assert s.server.clients[i] == Client(false, 0, 0, Submit, false, false, false);
    }
  }

  lemma AskKeeps(s: System, i: nat, command: Command, orderId: nat, fails: bool)
    requires Inv(s) && i < |s.server.clients| && Reads(s.server.clients[i]) && command != Submit
    ensures Inv(DoAsk(s, i, command, orderId, fails))
  {
    var s', v, id := DoAsk(s, i, command, orderId, fails), s.server, s.server.nextId;
    var room := |s.queues.requests| < REQUEST_SLOTS;
    var p, asked, n := InFlight(s), s.log.asked, s.log.connections;
    IdIsFresh(s);
    assert ClientOk(v, i, p, asked, n);
    RefusalLeavesNoTrace(v, i, command, room, fails);
    if Ask(v, i, command, room, fails).1 {
      AcceptedAsk(v, i, command, fails, p, asked, n);
      AskQueues(s, s', Request(command, id, orderId));
      AskLogs(s.log, id, v.clients[i].connection);
    } else {
      var w := v.(nextId := NextId(id));
      assert ClientsInv(w, p, asked, n) by {
        forall j | 0 <= j < |w.clients| ensures ClientOk(w, j, p, asked, n) { assert ClientOk(v, j, p, asked, n); }
      }
      InlineKeeps(w, i, fails, p, asked, n);
    }
  }

  lemma AskLogs(log: History, id: nat, connection: nat)
    requires LogOk(log) && id !in log.accepted
    ensures LogOk(log.(accepted := log.accepted + [id], asked := log.asked[id := connection]))
  {
    forall x ensures x in log.asked[id := connection] <==> x in log.accepted + [id] {
      assert x in log.asked <==> x in log.accepted;
    }
    assert forall x {:trigger log.delivered[x]} :: x in log.delivered ==> x in log.asked && x != id;
  }

  lemma DrainKeeps(s: System, fits: bool, fails: bool)
    requires Inv(s) && s.queues.responses != []
    ensures Inv(DoDrain(s, fits, fails))
  {
    var s', v0, id := DoDrain(s, fits, fails), s.server, s.queues.responses[0].id;
    var p, asked, n := InFlight(s), s.log.asked, s.log.connections;
    HeadIsHeld(s);
    var v := v0.(outstanding := Release(v0.outstanding, id));
    var i := Waiter(v.clients, id, 0);
    assert ClientsInv(v, p, asked, n) by {
      forall j | 0 <= j < |v.clients| ensures ClientOk(v, j, p, asked, n) { assert ClientOk(v0, j, p, asked, n); }
    }
    if i == |v.clients| {
      DiscardKeeps(v, id, p, asked, n);
    } else {
      assert ClientOk(v, i, p, asked, n);
      DeliverKeeps(v, i, fits, fails, p, asked, n);
    }
    DrainQueues(s, s');
    assert InFlight(s') == p - {id};
    assert s'.log.taken[|s.log.taken|] == id;
    assert forall x :: x in s.log.taken ==> x in s'.log.taken;
  }

  lemma StepKeeps(s: System, a: Step)
    requires Inv(s) && Enabled(s, a)
    ensures Inv(Do(s, a))
  {
    match a
    case DispatchSubmit(i, orderId, fails) => SubmissionKeeps(s, i, orderId, fails);
    case DispatchAsk(i, command, orderId, fails) => AskKeeps(s, i, command, orderId, fails);
    case Drain(fits, fails) => DrainKeeps(s, fits, fails);
    case FlushDeferred =>
    case TakeRequest => TakeKeeps(s);
    case Answer(outcome) => AnswerKeeps(s, outcome);
    case _ => ClientStepKeeps(s, a);
  }

  lemma SubmissionKeeps(s: System, i: nat, orderId: nat, fails: bool)
    requires Inv(s) && Enabled(s, DispatchSubmit(i, orderId, fails))
    ensures Inv(Do(s, DispatchSubmit(i, orderId, fails)))
  {
    InlineKeeps(s.server, i, fails, InFlight(s), s.log.asked, s.log.connections);
    if |s.queues.requests| < REQUEST_SLOTS { SubmitKeeps(s, Request(Submit, 0, orderId)); }
  }

  /** Steps that touch client slots only. */
  lemma ClientStepKeeps(s: System, a: Step)
    requires Inv(s) && Enabled(s, a) && (a.AcceptClient? || a.Refuse? || a.ExpireClient? || a.Close?)
    ensures Inv(Do(s, a))
  {
    var v, p, asked, n := s.server, InFlight(s), s.log.asked, s.log.connections;
    match a
    case AcceptClient(i) => AcceptKeeps(v, i, p, asked, n);
    case Refuse(i, fails) => InlineKeeps(v, i, fails, p, asked, n);
    case ExpireClient(i, fails) => ExpireKeeps(v, i, fails, p, asked, n);
    case Close(i) => CloseKeeps(v, i, p, asked, n);
  }

  // ----- runs -----

  ghost predicate Run(states: seq<System>, steps: seq<Step>) {
    && |states| == |steps| + 1 && Start(states[0])
    && forall i {:trigger steps[i]} :: 0 <= i < |steps| ==>
         Enabled(states[i], steps[i]) && states[i + 1] == Do(states[i], steps[i])
  }

  lemma {:induction false} RunInv(states: seq<System>, steps: seq<Step>, n: nat)
    requires Run(states, steps) && n < |states|
    ensures Inv(states[n])
  {
    if n == 0 {
      StartInv(states[0]);
    } else {
      RunInv(states, steps, n - 1);
      assert states[n - 1 + 1] == Do(states[n - 1], steps[n - 1]);
      StepKeeps(states[n - 1], steps[n - 1]);
    }
  }

  /** Responses come back one per accepted request and in request order; once nothing is in
      flight every accepted request has been answered. */
  lemma AnsweredOnceInOrder(states: seq<System>, steps: seq<Step>, n: nat)
    requires Run(states, steps) && n < |states|
    ensures Distinct(states[n].log.accepted) && states[n].log.taken <= states[n].log.accepted
    ensures Pending(states[n].queues, states[n].working) == [] ==> states[n].log.taken == states[n].log.accepted
  {
    RunInv(states, steps, n);
  }

  // ----- progress -----

  /** What is still to be done for the requests in the queues. */
  ghost function Work(s: System): nat {
    3 * |s.queues.requests| + (if s.working.Some? then 2 else 0) + |s.queues.responses|
  }

  predicate IsWork(a: Step) { a.Drain? || a.Answer? || a.TakeRequest? }

  /** Each step of work lowers it; only a dispatched request raises it, and no other step
      accepts one. */
  lemma WorkFalls(s: System, a: Step)
    requires Inv(s) && Enabled(s, a)
    ensures IsWork(a) ==> Work(Do(s, a)) < Work(s)
    ensures !a.DispatchSubmit? && !a.DispatchAsk? ==> Work(Do(s, a)) <= Work(s) && Do(s, a).log.accepted == s.log.accepted
  {
    if a.Answer? { FlightFits(s); }
  }

  /** A step of work is possible as long as there is any. */
  lemma WorkIsEnabled(s: System) returns (a: Step)
    requires Inv(s) && Work(s) > 0
    ensures Enabled(s, a) && IsWork(a)
  {
    a := if s.queues.responses != [] then Drain(true, false) else if s.working.Some? then Answer(0) else TakeRequest;
  }

  /** Without work nothing is in flight. */
  lemma NoWorkNothingPending(s: System)
    requires Inv(s) && Work(s) == 0
    ensures Pending(s.queues, s.working) == [] && s.log.taken == s.log.accepted
  {}

  lemma Extend(states: seq<System>, steps: seq<Step>, a: Step)
    requires Run(states, steps) && Enabled(states[|states| - 1], a)
    ensures Run(states + [Do(states[|states| - 1], a)], steps + [a])
  {
    var states', steps' := states + [Do(states[|states| - 1], a)], steps + [a];
    forall i {:trigger steps'[i]} | 0 <= i < |steps'|
      ensures Enabled(states'[i], steps'[i]) && states'[i + 1] == Do(states'[i], steps'[i])
    {
      if i < |steps| { assert steps'[i] == steps[i]; }
    }
  }

  /** Every run extends, by taking, answering and draining alone, to one in which exactly the
      requests accepted so far have been answered, in order. */
  lemma {:induction false} EveryRequestGetsItsAnswer(states: seq<System>, steps: seq<Step>)
    returns (states': seq<System>, steps': seq<Step>)
    requires Run(states, steps)
    ensures Run(states', steps') && states <= states' && steps <= steps'
    ensures forall i :: |steps| <= i < |steps'| ==> IsWork(steps'[i])
    ensures var s, s' := states[|states| - 1], states'[|states'| - 1]; s'.log.taken == s'.log.accepted == s.log.accepted
    decreases Work(states[|states| - 1])
  {
    var s := states[|states| - 1];
    RunInv(states, steps, |states| - 1);
    if Work(s) == 0 {
      NoWorkNothingPending(s);
      states', steps' := states, steps;
    } else {
      var a := WorkIsEnabled(s);
      WorkFalls(s, a);
      Extend(states, steps, a);
      states', steps' := EveryRequestGetsItsAnswer(states + [Do(s, a)], steps + [a]);
      assert states <= states + [Do(s, a)] && steps <= steps + [a];
      assert steps'[|steps|] == (steps + [a])[|steps|];
    }
  }

  // ----- delivery -----

  /** The deferred slot is never needed: at most eight requests are in flight, and an answer
      always finds room. */
  lemma NeverDeferred(states: seq<System>, steps: seq<Step>, n: nat)
    requires Run(states, steps) && n < |states|
    ensures states[n].queues.deferred.None?
    ensures |Pending(states[n].queues, states[n].working)| <= RESPONSE_SLOTS
    ensures states[n].working.Some? ==> |states[n].queues.responses| < RESPONSE_SLOTS
  {
    RunInv(states, steps, n);
    FlightFits(states[n]);
  }

  /** A delivered response went to the connection that asked; a waiting client's request is
      still in flight and no other client waits for it. */
  lemma DeliveredToItsOwn(states: seq<System>, steps: seq<Step>, n: nat)
    requires Run(states, steps) && n < |states|
    ensures forall id :: id in states[n].log.delivered ==>
              id in states[n].log.taken && id in states[n].log.asked &&
              states[n].log.delivered[id] == states[n].log.asked[id]
    ensures forall i :: 0 <= i < |states[n].server.clients| && states[n].server.clients[i].waiting ==>
              states[n].server.clients[i].id in Pending(states[n].queues, states[n].working)
    ensures forall i, j :: 0 <= i < j < |states[n].server.clients| ==>
              states[n].server.clients[i].waiting && states[n].server.clients[j].waiting ==>
              states[n].server.clients[i].id != states[n].server.clients[j].id
  {
    RunInv(states, steps, n);
    var s := states[n];
    forall i | 0 <= i < |s.server.clients| && s.server.clients[i].waiting
      ensures s.server.clients[i].id in InFlight(s) && s.server.clients[i].open &&
              s.server.clients[i].id in s.log.asked && s.log.asked[s.server.clients[i].id] == s.server.clients[i].connection
    {
      assert ClientOk(s.server, i, InFlight(s), s.log.asked, s.log.connections);
    }
  }

  /** A client waiting for the response at the head gets it. */
  lemma WaiterIsServed(s: System, i: nat, fits: bool, fails: bool)
    requires Inv(s) && s.queues.responses != [] && i < |s.server.clients|
    requires s.server.clients[i].waiting && s.server.clients[i].id == s.queues.responses[0].id
    ensures var s' := DoDrain(s, fits, fails); var id := s.queues.responses[0].id;
            && id in s'.log.delivered && s'.log.delivered[id] == s.server.clients[i].connection
            && i < |s'.server.clients| && !s'.server.clients[i].waiting
  {
    var p, asked, n, id := InFlight(s), s.log.asked, s.log.connections, s.queues.responses[0].id;
    HeadIsHeld(s);
    assert ClientOk(s.server, i, p, asked, n);
    var k := Waiter(s.server.clients, id, 0);
    assert k < |s.server.clients|;
    assert ClientOk(s.server, k, p, asked, n);
    assert k == i;
  }

  /** Whoever asked for an id, and whoever it was delivered to, stays on record unchanged. */
  lemma RecordsStand(s: System, a: Step, id: nat)
    requires Inv(s) && Enabled(s, a)
    ensures id in s.log.asked ==> id in Do(s, a).log.asked && Do(s, a).log.asked[id] == s.log.asked[id]
    ensures id in s.log.delivered ==> id in Do(s, a).log.delivered && Do(s, a).log.delivered[id] == s.log.delivered[id]
  {
    IdIsFresh(s);
    assert id in s.log.asked <==> id in s.log.accepted;
    if a.Drain? {
      HeadIsHeld(s);
      PendingDistinct(s.log.taken, Pending(s.queues, s.working));
      assert s.queues.responses[0].id !in s.log.taken;
    }
  }

  /** Over a whole run an id is asked for by one connection and delivered to at most one. */
  lemma {:induction false} AskedAndDeliveredOnce(states: seq<System>, steps: seq<Step>, i: nat, j: nat, id: nat)
    requires Run(states, steps) && i <= j < |states|
    ensures id in states[i].log.asked ==> id in states[j].log.asked && states[j].log.asked[id] == states[i].log.asked[id]
    ensures id in states[i].log.delivered ==>
              id in states[j].log.delivered && states[j].log.delivered[id] == states[i].log.delivered[id]
    decreases j - i
  {
    if i < j {
      AskedAndDeliveredOnce(states, steps, i, j - 1, id);
      RunInv(states, steps, j - 1);
      assert states[j - 1 + 1] == Do(states[j - 1], steps[j - 1]);
      RecordsStand(states[j - 1], steps[j - 1], id);
    }
  }

  /** At most one client owns the shared positions buffer, and a client waiting for positions does. */
  lemma OneBodyOwner(states: seq<System>, steps: seq<Step>, n: nat, i: nat, j: nat)
    requires Run(states, steps) && n < |states|
    requires i < |states[n].server.clients| && j < |states[n].server.clients|
    ensures states[n].server.clients[i].ownsBody && states[n].server.clients[j].ownsBody ==> i == j
    ensures states[n].server.clients[i].waiting && states[n].server.clients[i].command == Positions ==>
              states[n].server.clients[i].ownsBody
  {
    RunInv(states, steps, n);
    var s := states[n];
    assert ClientOk(s.server, i, InFlight(s), s.log.asked, s.log.connections);
    assert ClientOk(s.server, j, InFlight(s), s.log.asked, s.log.connections);
  }
}
