/** What a response answers: over every run, the request it was given for and the outcome given. */
module BridgeOutcomes {
  import opened Finite
  import opened Bridge
  import opened BridgeSystem
  import opened BridgeClients
  import opened BridgeRuns

  /** Step `d` dispatches request `q` for the client of `connection`. */
  ghost predicate Dispatches(states: seq<System>, steps: seq<Step>, d: nat, q: Request)
    requires Run(states, steps)
  {
    && d < |steps| && steps[d].DispatchAsk? && steps[d].slot < |states[d].server.clients|
    && q == Request(steps[d].command, states[d].server.nextId, steps[d].orderId)
    && q.id in states[d + 1].log.asked
    && states[d + 1].log.asked[q.id] == states[d].server.clients[steps[d].slot].connection
  }

  /** Step `m` answers request `q` with response `r`. */
  ghost predicate Answers(states: seq<System>, steps: seq<Step>, m: nat, q: Request, r: Response)
    requires Run(states, steps)
  {
    m < |steps| && states[m].working == Some(q) && steps[m] == Answer(r.outcome) && r.id == q.id
  }

  /** A queued request that expects an answer is as it was dispatched. */
  lemma {:induction false} QueuedWasDispatched(states: seq<System>, steps: seq<Step>, n: nat, k: nat) returns (d: nat)
    requires Run(states, steps) && n < |states| && k < |states[n].queues.requests|
    requires states[n].queues.requests[k].command != Submit
    ensures d < n && Dispatches(states, steps, d, states[n].queues.requests[k])
  {
    assert n > 0;
    var s, a := states[n - 1], steps[n - 1];
    assert Enabled(s, a) && states[n - 1 + 1] == Do(s, a);
    if a.DispatchAsk? && k == |s.queues.requests| {
      d := n - 1;
    } else {
      d := QueuedWasDispatched(states, steps, n - 1, if a.TakeRequest? then k + 1 else k);
    }
  }

  /** So is the request being worked on. */
  lemma {:induction false} WorkedOnWasDispatched(states: seq<System>, steps: seq<Step>, n: nat) returns (d: nat)
    requires Run(states, steps) && n < |states| && states[n].working.Some?
    ensures d < n && Dispatches(states, steps, d, states[n].working.value)
  {
    assert n > 0;
    var s, a := states[n - 1], steps[n - 1];
    assert Enabled(s, a) && states[n - 1 + 1] == Do(s, a);
    if a.TakeRequest? {
      d := QueuedWasDispatched(states, steps, n - 1, 0);
    } else {
      d := WorkedOnWasDispatched(states, steps, n - 1);
    }
  }

  lemma {:induction false} ResponseWasGiven(states: seq<System>, steps: seq<Step>, n: nat, k: nat)
    returns (m: nat, q: Request)
    requires Run(states, steps) && n < |states| && k < |states[n].queues.responses|
    ensures m < n && Answers(states, steps, m, q, states[n].queues.responses[k])
  {
    assert n > 0;
    var s, a := states[n - 1], steps[n - 1];
    assert Enabled(s, a) && states[n - 1 + 1] == Do(s, a);
    RunInv(states, steps, n - 1);
    if a.Answer? && k == |s.queues.responses| {
      m, q := n - 1, s.working.value;
    } else {
      m, q := ResponseWasGiven(states, steps, n - 1, if a.Drain? then k + 1 else k);
    }
  }

  /** Every response carries the outcome that was given for the request with its id, and that request
      is, command and order, what the connection on record for the id asked for. */
  lemma ResponseAnswersItsRequest(states: seq<System>, steps: seq<Step>, n: nat, k: nat)
    returns (d: nat, m: nat, q: Request)
    requires Run(states, steps) && n < |states| && k < |states[n].queues.responses|
    ensures d < m < n && Dispatches(states, steps, d, q) && Answers(states, steps, m, q, states[n].queues.responses[k])
    ensures q.id in states[n].log.asked && states[n].log.asked[q.id] == states[d + 1].log.asked[q.id]
  {
    m, q := ResponseWasGiven(states, steps, n, k);
    d := WorkedOnWasDispatched(states, steps, m);
    AskedAndDeliveredOnce(states, steps, d + 1, n, q.id);
  }

  // ----- an id is answered once -----

  /** The request with this id has been answered. */
  ghost predicate Past(s: System, id: nat) { id in s.log.taken || id in ResponseIds(s.queues.responses) }

  lemma PastStays(s: System, a: Step, id: nat)
    requires Inv(s) && Enabled(s, a)
    ensures Past(s, id) ==> Past(Do(s, a), id)
    ensures a.Answer? ==> Past(Do(s, a), s.working.value.id)
  {
    if a.Drain? {
      var id0 := s.queues.responses[0].id;
      ResponseIdsHead(s.queues.responses);
      assert Do(s, a).log.taken == s.log.taken + [id0];
    } else if a.Answer? {
      FlightFits(s);
      var rs, rs' := s.queues.responses, Do(s, a).queues.responses;
      assert rs'[..|rs|] == rs;
      assert ResponseIds(rs') == ResponseIds(rs) + [s.working.value.id];
    }
  }

  lemma {:induction false} PastForever(states: seq<System>, steps: seq<Step>, i: nat, j: nat, id: nat)
    requires Run(states, steps) && i <= j < |states| && Past(states[i], id)
    ensures Past(states[j], id)
    decreases j - i
  {
    if i < j {
      PastForever(states, steps, i, j - 1, id);
      RunInv(states, steps, j - 1);
      assert states[j - 1 + 1] == Do(states[j - 1], steps[j - 1]);
      PastStays(states[j - 1], steps[j - 1], id);
    }
  }

  lemma WorkingIsNotPast(s: System)
    requires Inv(s) && s.working.Some?
    ensures !Past(s, s.working.value.id)
  {
    var id, rs, all := s.working.value.id, ResponseIds(s.queues.responses), s.log.accepted;
    assert all[|s.log.taken| + |rs|] == id;
    forall i | 0 <= i < |s.log.taken| ensures s.log.taken[i] != id { assert all[i] == s.log.taken[i]; }
    forall i | 0 <= i < |rs| ensures rs[i] != id { assert all[|s.log.taken| + i] == rs[i]; }
  }

  /** No two steps of a run answer requests with the same id. */
  lemma IdAnsweredOnce(states: seq<System>, steps: seq<Step>, m: nat, m': nat)
    requires Run(states, steps) && m < m' < |steps| && steps[m].Answer? && steps[m'].Answer?
    requires states[m].working.Some? && states[m'].working.Some?
    ensures states[m].working.value.id != states[m'].working.value.id
  {
    var id := states[m].working.value.id;
    RunInv(states, steps, m);
    RunInv(states, steps, m');
    assert Enabled(states[m], steps[m]) && states[m + 1] == Do(states[m], steps[m]);
    PastStays(states[m], steps[m], id);
    PastForever(states, steps, m + 1, m', id);
    WorkingIsNotPast(states[m']);
  }

  // ----- requests reach the execution thread in order -----

  /** What step `k` puts into the request queue. */
  ghost function Enters(states: seq<System>, steps: seq<Step>, k: nat): seq<Request>
    requires k < |steps| < |states|
  {
    match steps[k]
    case DispatchSubmit(_, orderId, _) =>
      if |states[k].queues.requests| < 256 then [Request(Submit, 0, orderId)] else []
    case DispatchAsk(_, command, orderId, _) =>
      if states[k + 1].log.accepted == states[k].log.accepted + [states[k].server.nextId]
      then [Request(command, states[k].server.nextId, orderId)] else []
    case _ => []
  }

  /** What it takes from there. */
  ghost function Takes(states: seq<System>, steps: seq<Step>, k: nat): seq<Request>
    requires k < |steps| < |states|
  {
    if steps[k].TakeRequest? && states[k].queues.requests != [] then [states[k].queues.requests[0]] else []
  }

  /** Everything put into the queue, and everything taken from it, in the first `n` steps. */
  ghost function Entered(states: seq<System>, steps: seq<Step>, n: nat): seq<Request>
    requires n <= |steps| < |states|
  {
    if n == 0 then [] else Entered(states, steps, n - 1) + Enters(states, steps, n - 1)
  }

  ghost function Taken(states: seq<System>, steps: seq<Step>, n: nat): seq<Request>
    requires n <= |steps| < |states|
  {
    if n == 0 then [] else Taken(states, steps, n - 1) + Takes(states, steps, n - 1)
  }

  lemma QueueStep(s: System, a: Step)
    requires Enabled(s, a)
    ensures a.TakeRequest? ==> s.queues.requests != [] && Do(s, a).queues.requests == s.queues.requests[1..]
    ensures a.TakeRequest? ==>
              Do(s, a).working == if s.queues.requests[0].command == Submit then None else Some(s.queues.requests[0])
    ensures !a.TakeRequest? && !a.DispatchSubmit? && !a.DispatchAsk? ==> Do(s, a).queues.requests == s.queues.requests
  {}

  lemma DispatchStep(s: System, a: Step)
    requires Enabled(s, a) && (a.DispatchAsk? || a.DispatchSubmit?)
    ensures a.DispatchAsk? ==>
              Do(s, a).queues.requests == s.queues.requests +
                if Do(s, a).log.accepted == s.log.accepted + [s.server.nextId]
                then [Request(a.command, s.server.nextId, a.orderId)] else []
    ensures a.DispatchSubmit? ==>
              Do(s, a).queues.requests == s.queues.requests +
                if |s.queues.requests| < 256 then [Request(Submit, 0, a.orderId)] else []
  {
    if a.DispatchAsk? { assert |s.log.accepted| != |s.log.accepted + [s.server.nextId]|; }
  }

  lemma Regroup(a: seq<Request>, b: seq<Request>, c: seq<Request>, d: seq<Request>, e: seq<Request>)
    requires b + c == d + e
    ensures (a + b) + c == (a + d) + e
  {
    assert (a + b) + c == a + (b + c);
    assert (a + d) + e == a + (d + e);
  }

  /** What stands in the queue and what goes in is what goes out and what stands there next. */
  ghost predicate QueueMoves(states: seq<System>, steps: seq<Step>, k: nat)
    requires k < |steps| < |states|
  {
    states[k].queues.requests + Enters(states, steps, k) == Takes(states, steps, k) + states[k + 1].queues.requests
  }

  lemma StepMovesQueue(states: seq<System>, steps: seq<Step>, k: nat)
    requires Run(states, steps) && k < |steps|
    ensures QueueMoves(states, steps, k)
  {
    var s, a := states[k], steps[k];
    assert Enabled(s, a) && states[k + 1] == Do(s, a);
    if a.DispatchAsk? || a.DispatchSubmit? {
      DispatchStep(s, a);
    } else {
      QueueStep(s, a);
      if a.TakeRequest? { assert s.queues.requests == [s.queues.requests[0]] + s.queues.requests[1..]; }
    }
  }

  lemma {:induction false} MovesAddUp(states: seq<System>, steps: seq<Step>, n: nat)
    requires n <= |steps| < |states| && states[0].queues.requests == []
    requires forall k {:trigger QueueMoves(states, steps, k)} :: 0 <= k < n ==> QueueMoves(states, steps, k)
    ensures Entered(states, steps, n) == Taken(states, steps, n) + states[n].queues.requests
  {
    if n > 0 {
      MovesAddUp(states, steps, n - 1);
      assert QueueMoves(states, steps, n - 1);
      Regroup(Taken(states, steps, n - 1), states[n - 1].queues.requests, Enters(states, steps, n - 1),
              Takes(states, steps, n - 1), states[n].queues.requests);
    }
  }

  /** The execution thread takes orders and requests as they were put in: none lost, repeated, changed
      or overtaken. */
  lemma RequestsInOrder(states: seq<System>, steps: seq<Step>, n: nat)
    requires Run(states, steps) && n <= |steps|
    ensures Entered(states, steps, n) == Taken(states, steps, n) + states[n].queues.requests
  {
    forall k {:trigger QueueMoves(states, steps, k)} | 0 <= k < n ensures QueueMoves(states, steps, k) {
      StepMovesQueue(states, steps, k);
    }
    MovesAddUp(states, steps, n);
  }

  // ----- which requests are accepted -----

  lemma {:induction false} FreePlace(ids: seq<nat>)
    requires HeldOnce(ids)
    ensures 0 in ids <==> |Held(ids)| < |ids|
  {
    if ids != [] {
      var rest := ids[1..];
      assert HeldOnce(rest) by { assert forall i :: 0 <= i < |rest| ==> rest[i] == ids[i + 1]; }
      FreePlace(rest);
      HeldSize(rest);
      assert ids == [ids[0]] + rest;
      if ids[0] == 0 {
        assert Held(ids) == Held(rest);
      } else {
        forall i | 0 <= i < |rest| ensures rest[i] != ids[0] { assert rest[i] == ids[i + 1]; }
        assert Held(ids) == Held(rest) + {ids[0]};
      }
    }
  }

  /** A query, cancel or positions request is accepted exactly if ids have not run out, the request queue
      has a place, fewer than eight requests are in flight and, for positions, nobody has the buffer. */
  lemma AcceptedExactly(s: System, i: nat, command: Command, orderId: nat, fails: bool)
    requires Inv(s) && Enabled(s, DispatchAsk(i, command, orderId, fails))
    ensures var s' := Do(s, DispatchAsk(i, command, orderId, fails));
            && (s'.log.accepted == s.log.accepted + [s.server.nextId] <==>
                && s.server.nextId != 0 && |s.queues.requests| < 256 && |Pending(s.queues, s.working)| < 8
                && (command == Positions ==> forall j :: 0 <= j < |s.server.clients| ==> !s.server.clients[j].ownsBody))
            && (s'.log.accepted != s.log.accepted + [s.server.nextId] ==>
                s'.log == s.log && s'.queues == s.queues && !s'.server.clients[i].waiting)
  {
    var v, pending := s.server, Pending(s.queues, s.working);
    PendingDistinct(s.log.taken, pending);
    DistinctSize(pending);
    FreePlace(v.outstanding);
    IdIsFresh(s);
    assert ClientOk(v, i, InFlight(s), s.log.asked, s.log.connections);
    if v.bodyOwner != NO_CLIENT {
      assert v.clients[v.bodyOwner].ownsBody;
    } else {
      forall j | 0 <= j < |v.clients| ensures !v.clients[j].ownsBody {
        assert ClientOk(v, j, InFlight(s), s.log.asked, s.log.connections);
      }
    }
    assert |s.log.accepted + [v.nextId]| != |s.log.accepted|;
    RefusalLeavesNoTrace(v, i, command, |s.queues.requests| < REQUEST_SLOTS, fails);
  }

  // ----- what the steps do to clients -----

  ghost predicate OnlyClient(cs: seq<Client>, cs': seq<Client>, i: nat) {
    |cs'| == |cs| && forall j {:trigger cs'[j]} :: 0 <= j < |cs| && j != i ==> cs'[j] == cs[j]
  }

  ghost predicate OnlySlot(s: System, s': System, i: nat) { OnlyClient(s.server.clients, s'.server.clients, i) }

  /** The client is being sent a reply, or is gone if that failed. */
  predicate Replied(c: Client, c': Client, fails: bool) {
    c'.connection == c.connection && !c'.waiting && !c'.ownsBody && (c'.open <==> !fails) && (c'.sending <==> !fails)
  }

  /** A submitted order, a bad request and a refused one are answered at once. */
  lemma RepliesAtOnce(s: System, a: Step)
    requires Inv(s) && Enabled(s, a) && (a.DispatchSubmit? || a.Refuse? || a.DispatchAsk?)
    requires a.DispatchAsk? ==> Do(s, a).log.accepted == s.log.accepted
    ensures OnlySlot(s, Do(s, a), a.slot) && Replied(s.server.clients[a.slot], Do(s, a).server.clients[a.slot], a.fails)
  {
    assert ClientOk(s.server, a.slot, InFlight(s), s.log.asked, s.log.connections);
    if a.DispatchAsk? {
      IdIsFresh(s);
      RefusalLeavesNoTrace(s.server, a.slot, a.command, |s.queues.requests| < REQUEST_SLOTS, a.fails);
      assert |s.log.accepted| != |s.log.accepted + [s.server.nextId]|;
    }
  }

  /** A client past its deadline is told, or dropped if it was being sent a reply. */
  lemma ExpiryReplies(s: System, a: Step)
    requires Inv(s) && Enabled(s, a) && a.ExpireClient?
    ensures OnlySlot(s, Do(s, a), a.slot)
    ensures var c, c' := s.server.clients[a.slot], Do(s, a).server.clients[a.slot];
            if !c.open then c' == c else Replied(c, c', c.sending || a.fails)
  {
    assert ClientOk(s.server, a.slot, InFlight(s), s.log.asked, s.log.connections);
  }

  /** A new connection is read from; a closed one is neither waiting nor being sent anything. */
  lemma OpensAndCloses(s: System, a: Step)
    requires Inv(s) && Enabled(s, a) && (a.AcceptClient? || a.Close?)
    ensures OnlySlot(s, Do(s, a), a.slot)
    ensures var c, c' := s.server.clients[a.slot], Do(s, a).server.clients[a.slot];
            if a.AcceptClient?
            then c' == Client(true, s.log.connections, 0, Submit, false, false, false) && Do(s, a).log.connections == s.log.connections + 1
            else Replied(c, c', true)
  {}

  /** Draining answers the clients waiting for that response and no others. */
  lemma DrainReplies(s: System, a: Step, i: nat)
    requires Inv(s) && Enabled(s, a) && a.Drain? && i < |s.server.clients|
    ensures |Do(s, a).server.clients| == |s.server.clients|
    ensures var c, c' := s.server.clients[i], Do(s, a).server.clients[i];
            if c.waiting && c.id == s.queues.responses[0].id
            then !c'.waiting && c'.connection == c.connection && (c'.open <==> !a.fails) && (c'.sending <==> !a.fails)
            else c' == c
  {
    var id := s.queues.responses[0].id;
    HeadIsHeld(s);
    var k := Waiter(s.server.clients, id, 0);
    assert ClientOk(s.server, i, InFlight(s), s.log.asked, s.log.connections);
    if k < |s.server.clients| { assert ClientOk(s.server, k, InFlight(s), s.log.asked, s.log.connections); }
  }

  /** A dispatch changes the slot it reads from and no other; the execution thread changes none. */
  lemma DispatchOnlySlot(s: System, a: Step)
    requires Inv(s) && Enabled(s, a) && (a.DispatchSubmit? || a.DispatchAsk? || a.Refuse?)
    ensures OnlySlot(s, Do(s, a), a.slot) && !s.server.clients[a.slot].waiting
  {
    var v, room := s.server, |s.queues.requests| < REQUEST_SLOTS;
    if a.DispatchAsk? {
      IdIsFresh(s);
      assert ClientOk(v, a.slot, InFlight(s), s.log.asked, s.log.connections);
      RefusalLeavesNoTrace(v, a.slot, a.command, room, a.fails);
      if Ask(v, a.slot, a.command, room, a.fails).1 {
        AskOnlySlot(v, a.slot, a.command, a.fails);
      } else {
        InlineOnlySlot(v.(nextId := NextId(v.nextId)), a.slot, a.fails);
      }
    } else {
      InlineOnlySlot(v, a.slot, a.fails);
    }
  }

  lemma InlineOnlySlot(v: Server, i: nat, fails: bool)
    requires i < |v.clients|
    ensures OnlyClient(v.clients, QueueInline(v, i, fails).clients, i)
  {}

  lemma AskOnlySlot(v: Server, i: nat, command: Command, fails: bool)
    requires i < |v.clients| && Ask(v, i, command, true, fails).1
    ensures OnlyClient(v.clients, Ask(v, i, command, true, fails).0.clients, i)
  {}

  lemma ThreadLeavesClients(s: System, a: Step)
    requires Enabled(s, a) && (a.FlushDeferred? || a.TakeRequest? || a.Answer?)
    ensures Do(s, a).server == s.server
  {}

  /** The step ends the wait of the client in slot `i`. */
  ghost predicate EndsWait(s: System, a: Step, i: nat) {
    || (a.Drain? && s.queues.responses != [] && i < |s.server.clients| && s.queues.responses[0].id == s.server.clients[i].id)
    || ((a.ExpireClient? || a.Close?) && a.slot == i)
  }

  lemma WaitStep(s: System, a: Step, i: nat)
    requires Inv(s) && Enabled(s, a) && i < |s.server.clients| && s.server.clients[i].waiting
    ensures |Do(s, a).server.clients| == |s.server.clients|
    ensures if EndsWait(s, a, i) then !Do(s, a).server.clients[i].waiting else Do(s, a).server.clients[i] == s.server.clients[i]
  {
    assert ClientOk(s.server, i, InFlight(s), s.log.asked, s.log.connections);
    match a
    case AcceptClient(_) => OpensAndCloses(s, a);
    case Close(_) => OpensAndCloses(s, a);
    case ExpireClient(_, _) => ExpiryReplies(s, a);
    case Drain(_, _) => DrainReplies(s, a, i);
    case DispatchSubmit(_, _, _) => DispatchOnlySlot(s, a);
    case DispatchAsk(_, _, _, _) => DispatchOnlySlot(s, a);
    case Refuse(_, _) => DispatchOnlySlot(s, a);
    case _ => ThreadLeavesClients(s, a);
  }

  /** A client waits, for the same request, exactly until its response is drained, its deadline passes or
      its connection closes. */
  lemma {:induction false} WaitsUntilServed(states: seq<System>, steps: seq<Step>, m: nat, n: nat, i: nat)
    requires Run(states, steps) && m <= n < |states| && i < |states[m].server.clients| && states[m].server.clients[i].waiting
    requires forall k {:trigger EndsWait(states[k], steps[k], i)} :: m <= k < n ==> !EndsWait(states[k], steps[k], i)
    ensures i < |states[n].server.clients| && states[n].server.clients[i] == states[m].server.clients[i]
    decreases n - m
  {
    if m < n {
      WaitsUntilServed(states, steps, m, n - 1, i);
      RunInv(states, steps, n - 1);
      var s, a := states[n - 1], steps[n - 1];
      assert Enabled(s, a) && states[n - 1 + 1] == Do(s, a);
      assert !EndsWait(s, a, i);
      WaitStep(s, a, i);
    }
  }
}
