/** The listener and the execution thread as one system, interleaved at every queue operation,
    and what it keeps of the requests in flight. */
module BridgeSystem {
  import opened Finite
  import opened Bridge

  /** What has happened so far; no step reads it. `asked` and `delivered` map request ids to
      connections. */
  datatype History = History(accepted: seq<nat>, taken: seq<nat>, asked: map<nat, nat>, delivered: map<nat, nat>,
                             connections: nat)

  /** `working` is the request the execution thread has taken and not yet answered. */
  datatype System = System(queues: Queues, working: Option<Request>, server: Server, log: History)

  datatype Step =
    | AcceptClient(slot: nat)
    | DispatchSubmit(slot: nat, orderId: nat, fails: bool)
    | DispatchAsk(slot: nat, command: Command, orderId: nat, fails: bool)
    | Refuse(slot: nat, fails: bool)
    | Drain(fits: bool, fails: bool)
    | ExpireClient(slot: nat, fails: bool)
    | Close(slot: nat)
    | FlushDeferred
    | TakeRequest
    | Answer(outcome: nat)

  predicate Enabled(s: System, a: Step) {
    match a
    case AcceptClient(i) => i < |s.server.clients| && !s.server.clients[i].open
    case DispatchSubmit(i, _, _) => i < |s.server.clients| && Reads(s.server.clients[i])
    case DispatchAsk(i, command, _, _) => i < |s.server.clients| && Reads(s.server.clients[i]) && command != Submit
    case Refuse(i, _) => i < |s.server.clients| && Reads(s.server.clients[i])
    case Drain(_, _) => s.queues.responses != []
    case ExpireClient(i, _) => i < |s.server.clients|
    case Close(i) => i < |s.server.clients|
    case FlushDeferred => s.working.None? && s.queues.deferred.Some? && |s.queues.responses| < RESPONSE_SLOTS
    case TakeRequest => s.working.None? && s.queues.deferred.None? && s.queues.requests != []
    case Answer(_) => s.working.Some?
  }

  /** The listener accepts a request, or answers it with an error. */
  function DoAsk(s: System, i: nat, command: Command, orderId: nat, fails: bool): System
    requires i < |s.server.clients|
  {
    var id := s.server.nextId;
    var (v, accepted) := Ask(s.server, i, command, |s.queues.requests| < REQUEST_SLOTS, fails);
    if !accepted then s.(server := v)
    else s.(server := v,
            queues := s.queues.(requests := s.queues.requests + [Request(command, id, orderId)]),
            log := s.log.(accepted := s.log.accepted + [id],
                          asked := s.log.asked[id := s.server.clients[i].connection]))
  }

  function DoDrain(s: System, fits: bool, fails: bool): System
    requires s.queues.responses != []
  {
    var id := s.queues.responses[0].id;
    var i := Waiter(s.server.clients, id, 0);
    var delivered := id != 0 && Find(s.server.outstanding, id) < |s.server.outstanding| && i < |s.server.clients|;
    s.(queues := s.queues.(responses := s.queues.responses[1..]), server := Take(s.server, id, fits, fails),
       log := s.log.(taken := s.log.taken + [id],
                     delivered := if delivered then s.log.delivered[id := s.server.clients[i].connection]
                                  else s.log.delivered))
  }

  function DoTake(s: System): System
    requires s.queues.requests != []
  {
    var (q, w) := TakeOne(s.queues);
    s.(queues := q, working := w)
  }

  function DoAnswer(s: System, outcome: nat): System
    requires s.working.Some?
  {
    s.(working := None, queues := AnswerOne(s.queues, s.working.value, outcome))
  }

  function Do(s: System, a: Step): System
    requires Enabled(s, a)
  {
    match a
    case AcceptClient(i) =>
      s.(server := Accept(s.server, i, s.log.connections), log := s.log.(connections := s.log.connections + 1))
    case DispatchSubmit(i, orderId, fails) =>
      s.(server := QueueInline(s.server, i, fails),
         queues := if |s.queues.requests| < REQUEST_SLOTS
                   then s.queues.(requests := s.queues.requests + [Request(Submit, 0, orderId)]) else s.queues)
    case DispatchAsk(i, command, orderId, fails) => DoAsk(s, i, command, orderId, fails)
    case Refuse(i, fails) => s.(server := QueueInline(s.server, i, fails))
    case Drain(fits, fails) => DoDrain(s, fits, fails)
    case ExpireClient(i, fails) => s.(server := Expire(s.server, i, fails))
    case Close(i) => s.(server := CloseClient(s.server, i))
    case FlushDeferred => s.(queues := FlushOne(s.queues))
    case TakeRequest => DoTake(s)
    case Answer(outcome) => DoAnswer(s, outcome)
  }

  ghost predicate Start(s: System) {
    && s.queues == Queues([], [], None) && s.working == None && s.log == History([], [], map[], map[], 0)
    && 1 <= s.server.nextId <= MAX_ID && s.server.bodyOwner == NO_CLIENT
    && |s.server.outstanding| == RESPONSE_SLOTS && (forall i :: 0 <= i < RESPONSE_SLOTS ==> s.server.outstanding[i] == 0)
    && |s.server.clients| == CLIENT_SLOTS
    && forall i {:trigger s.server.clients[i]} :: 0 <= i < CLIENT_SLOTS ==>
         s.server.clients[i] == Client(false, 0, 0, Submit, false, false, false)
  }

  // ----- requests in flight -----

  ghost function ResponseIds(rs: seq<Response>): seq<nat> {
    if rs == [] then [] else ResponseIds(rs[..|rs| - 1]) + [rs[|rs| - 1].id]
  }

  /** The ids of the requests that will be answered. */
  ghost function RequestIds(qs: seq<Request>): seq<nat> {
    if qs == [] then [] else RequestIds(qs[..|qs| - 1]) + IdOf(qs[|qs| - 1])
  }

  ghost function IdOf(q: Request): seq<nat> { if q.command == Submit then [] else [q.id] }

  ghost function WorkingIds(w: Option<Request>): seq<nat> { if w.Some? then [w.value.id] else [] }

  /** Every request accepted and not yet taken back as a response, oldest first. */
  ghost function Pending(q: Queues, w: Option<Request>): seq<nat> {
    ResponseIds(q.responses) + WorkingIds(w) + RequestIds(q.requests)
  }

  lemma {:induction false} ResponseIdsHead(rs: seq<Response>)
    requires rs != []
    ensures ResponseIds(rs) == [rs[0].id] + ResponseIds(rs[1..])
  {
    var n := |rs|;
    if n > 1 {
      ResponseIdsHead(rs[..n - 1]);
      assert rs[..n - 1][1..] == rs[1..][..n - 2] && rs[1..][n - 2] == rs[n - 1];
      assert ResponseIds(rs[1..]) == ResponseIds(rs[1..][..n - 2]) + [rs[n - 1].id];
    } else {
      assert rs[..0] == [] && rs[1..] == [];
    }
  }

  lemma {:induction false} RequestIdsHead(qs: seq<Request>)
    requires qs != []
    ensures RequestIds(qs) == IdOf(qs[0]) + RequestIds(qs[1..])
  {
    var n := |qs|;
    if n > 1 {
      RequestIdsHead(qs[..n - 1]);
      assert qs[..n - 1][1..] == qs[1..][..n - 2] && qs[1..][n - 2] == qs[n - 1];
      assert RequestIds(qs[1..]) == RequestIds(qs[1..][..n - 2]) + IdOf(qs[n - 1]);
    } else {
      assert qs[..0] == [] && qs[1..] == [];
    }
  }

  lemma {:induction false} ResponseIdsSize(rs: seq<Response>)
    ensures |ResponseIds(rs)| == |rs|
  {
    if rs != [] { ResponseIdsSize(rs[..|rs| - 1]); }
  }

  lemma RequestIdsPush(qs: seq<Request>, q: Request)
    ensures RequestIds(qs + [q]) == RequestIds(qs) + IdOf(q)
  {}

  // ----- the invariant of the queues -----

  /** Ids are issued once, so what has been accepted has no duplicates. */
  ghost predicate Issued(accepted: seq<nat>, nextId: nat) {
    && Distinct(accepted)
    && forall i {:trigger accepted[i]} :: 0 <= i < |accepted| ==>
         0 < accepted[i] && (nextId != 0 ==> accepted[i] < nextId)
  }

  /** The listener holds exactly the ids in flight, so there are at most as many as response slots. */
  ghost predicate Accounted(outstanding: seq<nat>, pending: seq<nat>) {
    |outstanding| == RESPONSE_SLOTS && HeldOnce(outstanding) && Held(outstanding) == Elems(pending)
  }

  ghost predicate QueueInv(s: System) {
    && s.queues.deferred.None? && |s.queues.responses| <= RESPONSE_SLOTS && |s.queues.requests| <= REQUEST_SLOTS
    && (s.working.Some? ==> s.working.value.command != Submit)
    && s.log.accepted == s.log.taken + Pending(s.queues, s.working)
    && s.server.nextId <= MAX_ID && Issued(s.log.accepted, s.server.nextId)
    && Accounted(s.server.outstanding, Pending(s.queues, s.working))
  }

  lemma PendingDistinct(taken: seq<nat>, pending: seq<nat>)
    requires Distinct(taken + pending)
    ensures Distinct(pending) && forall x :: x in pending ==> x !in taken
  {
    var all := taken + pending;
    forall i, j | 0 <= i < j < |pending| ensures pending[i] != pending[j] {
      assert all[|taken| + i] == pending[i] && all[|taken| + j] == pending[j];
    }
    forall x | x in pending ensures x !in taken {
      var j :| 0 <= j < |pending| && pending[j] == x;
      assert all[|taken| + j] == x;
      forall i | 0 <= i < |taken| ensures taken[i] != x { assert all[i] == taken[i]; }
    }
  }

  /** No more requests are in flight than the response queue can hold. */
  lemma FlightFits(s: System)
    requires QueueInv(s)
    ensures |Pending(s.queues, s.working)| <= RESPONSE_SLOTS
    ensures |s.queues.responses| + |WorkingIds(s.working)| <= RESPONSE_SLOTS
  {
    var pending := Pending(s.queues, s.working);
    PendingDistinct(s.log.taken, pending);
    DistinctSize(pending);
    HeldSize(s.server.outstanding);
    ResponseIdsSize(s.queues.responses);
  }

  /** Taking a request moves it along without changing what is in flight. */
  lemma TakeKeeps(s: System)
    requires QueueInv(s) && Enabled(s, TakeRequest)
    ensures QueueInv(DoTake(s)) && Pending(DoTake(s).queues, DoTake(s).working) == Pending(s.queues, s.working)
  {
    var s' := DoTake(s);
    RequestIdsHead(s.queues.requests);
    assert WorkingIds(s.working) == [] && WorkingIds(s'.working) == IdOf(s.queues.requests[0]);
    assert Pending(s'.queues, s'.working) == Pending(s.queues, s.working);
  }

  /** The answer always fits: nothing is ever deferred. */
  lemma AnswerKeeps(s: System, outcome: nat)
    requires QueueInv(s) && s.working.Some?
    ensures QueueInv(DoAnswer(s, outcome))
    ensures Pending(DoAnswer(s, outcome).queues, DoAnswer(s, outcome).working) == Pending(s.queues, s.working)
  {
    var s' := DoAnswer(s, outcome);
    FlightFits(s);
    assert s'.queues.responses[..|s.queues.responses|] == s.queues.responses;
    assert Pending(s'.queues, s'.working) == Pending(s.queues, s.working);
  }

  lemma SubmitKeeps(s: System, q: Request)
    requires QueueInv(s) && |s.queues.requests| < REQUEST_SLOTS && q.command == Submit
    ensures Pending(s.queues.(requests := s.queues.requests + [q]), s.working) == Pending(s.queues, s.working)
  {}

  // ----- accepting and taking -----

  /** The next id is new. */
  lemma IdIsFresh(s: System)
    requires QueueInv(s)
    ensures s.server.nextId !in s.log.accepted
    ensures s.server.nextId !in Pending(s.queues, s.working)
    ensures s.server.nextId != 0 ==> s.server.nextId !in s.server.outstanding
  {
    var id, pending := s.server.nextId, Pending(s.queues, s.working);
    assert forall i :: 0 <= i < |s.log.accepted| ==> s.log.accepted[i] != id;
    forall x | x in pending ensures x in s.log.accepted {
      var j :| 0 <= j < |pending| && pending[j] == x;
      assert s.log.accepted[|s.log.taken| + j] == x;
    }
    assert id != 0 ==> (id in s.server.outstanding <==> id in Held(s.server.outstanding));
  }

  lemma AskQueues(s: System, s': System, q: Request)
    requires QueueInv(s) && |s.queues.requests| < REQUEST_SLOTS && q.command != Submit && q.id == s.server.nextId != 0
    requires CanReserve(s.server.outstanding, q.id)
    requires s'.queues == s.queues.(requests := s.queues.requests + [q]) && s'.working == s.working
    requires s'.log.accepted == s.log.accepted + [q.id] && s'.log.taken == s.log.taken
    requires s'.server.outstanding == Reserve(s.server.outstanding, q.id) && s'.server.nextId == NextId(q.id)
    ensures QueueInv(s') && Elems(Pending(s'.queues, s'.working)) == Elems(Pending(s.queues, s.working)) + {q.id}
  {
    IdIsFresh(s);
    RequestIdsPush(s.queues.requests, q);
    var pending, pending' := Pending(s.queues, s.working), Pending(s'.queues, s'.working);
    assert pending' == pending + [q.id];
    assert s'.log.accepted == s'.log.taken + pending';
    assert Elems(pending') == Elems(pending) + {q.id} by {
      assert pending'[|pending|] == q.id;
      assert forall i :: 0 <= i < |pending| ==> pending'[i] == pending[i];
    }
    ReserveHolds(s.server.outstanding, q.id);
  }

  lemma TailElems(x: nat, rest: seq<nat>)
    requires Distinct([x] + rest)
    ensures Elems([x] + rest) - {x} == Elems(rest)
  {
    var all := [x] + rest;
    assert forall i :: 0 <= i < |rest| ==> all[i + 1] == rest[i] && all[0] != all[i + 1];
  }

  lemma PendingTail(q: Queues, w: Option<Request>, q': Queues)
    requires q.responses != [] && q' == q.(responses := q.responses[1..])
    ensures Pending(q, w) == [q.responses[0].id] + Pending(q', w)
  {
    ResponseIdsHead(q.responses);
  }

  lemma ReleaseAccounts(outstanding: seq<nat>, id: nat, rest: seq<nat>)
    requires Accounted(outstanding, [id] + rest) && Distinct([id] + rest) && id != 0
    ensures Accounted(Release(outstanding, id), rest)
  {
    TailElems(id, rest);
    assert ([id] + rest)[0] == id;
    assert id in Elems([id] + rest);
    ReleaseDrops(outstanding, id);
  }

  lemma DrainQueues(s: System, s': System)
    requires QueueInv(s) && s.queues.responses != []
    requires s'.queues == s.queues.(responses := s.queues.responses[1..]) && s'.working == s.working
    requires s'.log.taken == s.log.taken + [s.queues.responses[0].id] && s'.log.accepted == s.log.accepted
    requires s'.server.outstanding == Release(s.server.outstanding, s.queues.responses[0].id)
    requires s'.server.nextId == s.server.nextId
    ensures QueueInv(s')
    ensures Elems(Pending(s'.queues, s'.working)) == Elems(Pending(s.queues, s.working)) - {s.queues.responses[0].id}
  {
    var id := s.queues.responses[0].id;
    var pending, pending' := Pending(s.queues, s.working), Pending(s'.queues, s'.working);
    PendingTail(s.queues, s.working, s'.queues);
    PendingDistinct(s.log.taken, pending);
    assert s'.log.accepted == s'.log.taken + pending';
    assert s.log.accepted[|s.log.taken|] == id;
    TailElems(id, pending');
    ReleaseAccounts(s.server.outstanding, id, pending');
  }

  /** The listener holds the id of every response it takes. */
  lemma HeadIsHeld(s: System)
    requires QueueInv(s) && s.queues.responses != []
    ensures var id := s.queues.responses[0].id;
            id != 0 && id in Pending(s.queues, s.working) && Find(s.server.outstanding, id) < |s.server.outstanding|
  {
    var id, pending := s.queues.responses[0].id, Pending(s.queues, s.working);
    ResponseIdsHead(s.queues.responses);
    assert pending[0] == id && id in Elems(pending);
    assert id in Held(s.server.outstanding);
    ReleaseDrops(s.server.outstanding, id);
  }
}
