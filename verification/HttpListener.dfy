/** The bridge and the listener as objects, updating their fields in place. */
module HttpListener {
  import opened Bridge
  import opened BridgeClients

  // ----- what the listener keeps -----

  /** Every id held was issued before the next one. */
  ghost predicate Behind(v: Server) {
    forall id :: id in Held(v.outstanding) ==> v.nextId == 0 || id < v.nextId
  }

  /** Each waiting client waits for an id that is held, and no id is held twice. */
  ghost predicate ListenerInv(v: Server, asked: map<nat, nat>, connections: nat) {
    && |v.outstanding| == RESPONSE_SLOTS && HeldOnce(v.outstanding) && Behind(v) && v.nextId <= MAX_ID
    && ClientsInv(v, Held(v.outstanding), asked, connections)
  }

  /** The client has its reply or is gone. */
  predicate Answered(c: Client, c': Client) {
    !c'.waiting && (c'.open ==> c'.sending && c'.connection == c.connection)
  }

  /** Exactly the clients waiting for one of these ids have been answered. */
  predicate Served(c: Client, c': Client, ids: set<nat>) {
    if c.waiting && c.id in ids then Answered(c, c') else c' == c
  }

  ghost predicate AllServed(cs: seq<Client>, cs': seq<Client>, ids: set<nat>) {
    |cs'| == |cs| && forall i {:trigger cs'[i]} :: 0 <= i < |cs| ==> Served(cs[i], cs'[i], ids)
  }

  lemma ServedTwice(cs: seq<Client>, cs': seq<Client>, cs'': seq<Client>, ids: set<nat>, id: nat)
    requires AllServed(cs, cs', ids) && AllServed(cs', cs'', {id})
    ensures AllServed(cs, cs'', ids + {id})
  {
    forall i {:trigger cs''[i]} | 0 <= i < |cs| ensures Served(cs[i], cs''[i], ids + {id}) {
      assert Served(cs[i], cs'[i], ids) && Served(cs'[i], cs''[i], {id});
    }
  }

  lemma FindHeld(ids: seq<nat>, id: nat)
    requires id != 0
    ensures Find(ids, id) < |ids| <==> id in Held(ids)
  {}

  lemma TakeKeeps(v: Server, id: nat, fits: bool, fails: bool, asked: map<nat, nat>, n: nat)
    requires ListenerInv(v, asked, n)
    ensures var v' := Take(v, id, fits, fails);
            ListenerInv(v', asked, n) && Held(v'.outstanding) == Held(v.outstanding) - {id} && v'.nextId == v.nextId
  {
    if id != 0 { FindHeld(v.outstanding, id); }
    if id in Held(v.outstanding) {
      ReleaseDrops(v.outstanding, id);
      var w := v.(outstanding := Release(v.outstanding, id));
      var i := Waiter(w.clients, id, 0);
      SameClients(v, w, Held(v.outstanding), asked, n);
      if i == |w.clients| {
        DiscardKeeps(w, id, Held(v.outstanding), asked, n);
      } else {
        DeliverKeeps(w, i, fits, fails, Held(v.outstanding), asked, n);
      }
    }
  }

  lemma SameClients(v: Server, w: Server, p: set<nat>, asked: map<nat, nat>, n: nat)
    requires ClientsInv(v, p, asked, n) && w.clients == v.clients && w.bodyOwner == v.bodyOwner
    ensures ClientsInv(w, p, asked, n)
  {
    forall j | 0 <= j < |w.clients| ensures ClientOk(w, j, p, asked, n) { assert ClientOk(v, j, p, asked, n); }
  }

  /** The response reaches whoever waits for it, and nobody else notices. */
  lemma TakeServes(v: Server, id: nat, fits: bool, fails: bool, asked: map<nat, nat>, n: nat)
    requires ListenerInv(v, asked, n)
    ensures AllServed(v.clients, Take(v, id, fits, fails).clients, {id})
  {
    var v' := Take(v, id, fits, fails);
    if id != 0 { FindHeld(v.outstanding, id); }
    var i := Waiter(v.clients, id, 0);
    forall j {:trigger v'.clients[j]} | 0 <= j < |v.clients| ensures Served(v.clients[j], v'.clients[j], {id}) {
      assert ClientOk(v, j, Held(v.outstanding), asked, n);
      if i < |v.clients| { assert ClientOk(v, i, Held(v.outstanding), asked, n); }
    }
  }

  /** A client past its deadline: one that is being sent its reply is dropped, any other is told. */
  function Overdue(c: Client, fails: bool): Client {
    if !c.open then c
    else if c.sending || fails then Shut(c)
    else c.(waiting := false, sending := true, ownsBody := false)
  }

  /** Expiry changes its own slot as said and no other. */
  lemma ExpireAt(v: Server, i: nat, fails: bool)
    requires i < |v.clients|
    ensures Expire(v, i, fails).clients == v.clients[i := Overdue(v.clients[i], fails)]
    ensures Expire(v, i, fails).outstanding == v.outstanding && Expire(v, i, fails).nextId == v.nextId
  {}

  /** The client that asked: it waits under the new id, with the buffer if it asked for positions, or has
      been answered; no other client notices. */
  predicate Asked(c: Client, c': Client, id: nat, command: Command, accepted: bool) {
    if accepted then c' == Client(true, c.connection, id, command, true, false, command == Positions) else Answered(c, c')
  }

  lemma AskAnswers(v: Server, i: nat, command: Command, room: bool, fails: bool, asked: map<nat, nat>, n: nat)
    requires ListenerInv(v, asked, n) && i < |v.clients| && Reads(v.clients[i])
    ensures var (v', accepted) := Ask(v, i, command, room, fails);
            && |v'.clients| == |v.clients| && Asked(v.clients[i], v'.clients[i], v.nextId, command, accepted)
            && v'.nextId == (if v.nextId == 0 || v.nextId == 0xFFFF_FFFF_FFFF_FFFF then 0 else v.nextId + 1)
            && forall j :: 0 <= j < |v.clients| && j != i ==> v'.clients[j] == v.clients[j]
  {
    assert ClientOk(v, i, Held(v.outstanding), asked, n);
  }

  /** A refused request leaves the listener in order, and so does an accepted one, which is held. */
  lemma AskListener(v: Server, i: nat, command: Command, room: bool, fails: bool, asked: map<nat, nat>, n: nat)
    requires ListenerInv(v, asked, n) && i < |v.clients| && Reads(v.clients[i])
    ensures var (v', accepted) := Ask(v, i, command, room, fails);
            && (accepted <==> v.nextId != 0 && room && 0 in v.outstanding &&
                              (command == Positions ==> v.bodyOwner == NO_CLIENT))
            && Held(v'.outstanding) == Held(v.outstanding) + (if accepted then {v.nextId} else {})
            && ListenerInv(v', if accepted then asked[v.nextId := v.clients[i].connection] else asked, n)
  {
    var (v', accepted) := Ask(v, i, command, room, fails);
    assert ClientOk(v, i, Held(v.outstanding), asked, n);
    if v.nextId != 0 { FindHeld(v.outstanding, v.nextId); }
    RefusalLeavesNoTrace(v, i, command, room, fails);
    if accepted {
      AcceptedAsk(v, i, command, fails, Held(v.outstanding), asked, n);
      ReserveHolds(v.outstanding, v.nextId);
    } else {
      var w := v.(nextId := NextId(v.nextId));
      SameClients(v, w, Held(v.outstanding), asked, n);
      InlineKeeps(w, i, fails, Held(v.outstanding), asked, n);
    }
  }

  class ExecutionBridge {
    var requests: seq<Request>
    var responses: seq<Response>
    var deferred: Option<Response>

    ghost function View(): Queues
      reads this
    {
      Queues(requests, responses, deferred)
    }

    constructor ()
      ensures View() == Queues([], [], None)
    {
      requests, responses, deferred := [], [], None;
    }

    method Submit(q: Request) returns (ok: bool)
      modifies this
      ensures ok <==> old(|requests|) < REQUEST_SLOTS
      ensures View() == if ok then old(View()).(requests := old(requests) + [q]) else old(View())
    {
      ok := |requests| < REQUEST_SLOTS;
      if ok {
        requests := requests + [q];
      }
    }

    method TryTakeResponse() returns (r: Option<Response>)
      modifies this
      ensures r.None? <==> old(responses) == []
      ensures r.None? ==> View() == old(View())
      ensures r.Some? ==> View() == old(View()).(responses := old(responses)[1..]) && r.value == old(responses)[0]
    {
      if responses == [] {
        return None;
      }
      r := Some(responses[0]);
      responses := responses[1..];
    }

    /** What the listener is still to get, oldest first. */
    ghost function Owed(): seq<Response>
      reads this
    {
      if deferred.Some? then responses + [deferred.value] else responses
    }

    /** One turn of the execution thread: flush, take and answer, each as the thread's steps do it.
        Unless a deferred response finds no room, the oldest request is taken and, if it is not an order
        submission, its answer owed behind all others; none is lost, and the deferred slot is used only
        when the queue is full. */
    method ProcessOne(outcome: nat) returns (worked: bool)
      modifies this
      ensures if old(deferred).Some? && old(|responses|) >= 8 then View() == old(View()) && !worked
              else if old(requests) == [] then
                requests == [] && Owed() == old(Owed()) && deferred == None && (worked <==> old(deferred).Some?)
              else
                && worked && requests == old(requests)[1..]
                && Owed() == old(Owed()) + if old(requests)[0].command == Command.Submit then []
                                           else [Response(old(requests)[0].id, outcome)]
      ensures |responses| <= 8 || responses == old(responses)
      ensures deferred.Some? ==> |responses| >= 8
      ensures var q0 := old(View());
              var q1 := if q0.deferred.Some? && |q0.responses| < RESPONSE_SLOTS then FlushOne(q0) else q0;
              if q1.deferred.Some? || q1.requests == [] then View() == q1 && (worked <==> q1 != q0)
              else
                var (q2, w) := TakeOne(q1);
                worked && View() == if w.Some? then AnswerOne(q2, w.value, outcome) else q2
    {
      var flushed := false;
      if deferred.Some? {
        if |responses| >= RESPONSE_SLOTS {
          return false;
        }
        responses := responses + [deferred.value];
        deferred := None;
        flushed := true;
      }
      if requests == [] {
        return flushed;
      }
      var request := requests[0];
      requests := requests[1..];
      if request.command == Command.Submit {
        return true;
      }
      var response := Response(request.id, outcome);
      if |responses| < RESPONSE_SLOTS {
        responses := responses + [response];
      } else {
        deferred := Some(response);
      }
      return true;
    }
  }

  class HttpServer {
    var nextId: nat
    const outstanding: array<nat>
    const clients: array<Client>
    var bodyOwner: nat
    /** How many connections there have been; it stands for the descriptor that a client gets. */
    var connections: nat
    /** Which connection asked under each id. */
    ghost var asked: map<nat, nat>

    ghost predicate Valid()
      reads this, outstanding, clients
    {
      ListenerInv(View(), asked, connections)
    }

    ghost function View(): Server
      reads this, outstanding, clients
    {
      Server(nextId, outstanding[..], clients[..], bodyOwner)
    }

    constructor (firstId: nat)
      requires firstId <= MAX_ID
      ensures Valid() && fresh(outstanding) && fresh(clients) && nextId == firstId && bodyOwner == NO_CLIENT
      ensures Held(outstanding[..]) == {} && forall i :: 0 <= i < CLIENT_SLOTS ==> !clients[i].open
    {
      nextId, bodyOwner := firstId, NO_CLIENT;
      outstanding := new nat[RESPONSE_SLOTS](_ => 0);
      clients := new Client[CLIENT_SLOTS](_ => Client(false, 0, 0, Submit, false, false, false));
      asked, connections := map[], 0;
      new;
      assert forall i :: 0 <= i < CLIENT_SLOTS ==> ClientOk(View(), i, {}, asked, connections);
      assert Held(outstanding[..]) == {};
    }

    /** A new connection takes the first free slot, if there is one. */
    method AcceptClient() returns (slot: nat)
      requires Valid()
      modifies this, clients
      ensures Valid() && slot <= CLIENT_SLOTS
      ensures forall j :: 0 <= j < slot ==> old(clients[j]).open
      ensures if slot == CLIENT_SLOTS then View() == old(View())
              else !old(clients[slot]).open && Reads(clients[slot]) && clients[slot].connection == old(connections) &&
                   View() == Accept(old(View()), slot, old(connections))
    {
      slot := 0;
      while slot < clients.Length
        invariant 0 <= slot <= clients.Length && View() == old(View()) && Valid() && connections == old(connections)
        invariant forall j :: 0 <= j < slot ==> clients[j].open
      {
        if !clients[slot].open {
          AcceptKeeps(View(), slot, Held(outstanding[..]), asked, connections);
          clients[slot] := Client(true, connections, 0, Submit, false, false, false);
          connections := connections + 1;
          assert View() == Accept(old(View()), slot, old(connections));
          return;
        }
        slot := slot + 1;
      }
    }

    method ReserveResponseId(id: nat) returns (ok: bool)
      modifies outstanding
      ensures ok == (id != 0 && 0 in old(outstanding[..])) == CanReserve(old(outstanding[..]), id)
      ensures outstanding[..] == Reserve(old(outstanding[..]), id)
    {
      if id == 0 {
        return false;
      }
      var i := 0;
      while i < outstanding.Length
        invariant 0 <= i <= outstanding.Length && outstanding[..] == old(outstanding[..])
        invariant forall j :: 0 <= j < i ==> outstanding[j] != 0
      {
        if outstanding[i] == 0 {
          assert Find(old(outstanding[..]), 0) == i;
          outstanding[i] := id;
          return true;
        }
        i := i + 1;
      }
      return false;
    }

    method ReleaseResponseId(id: nat) returns (ok: bool)
      modifies outstanding
      ensures ok <==> id != 0 && id in old(outstanding[..])
      ensures outstanding[..] == Release(old(outstanding[..]), id)
    {
      if id == 0 {
        return false;
      }
      var i := 0;
      while i < outstanding.Length
        invariant 0 <= i <= outstanding.Length && outstanding[..] == old(outstanding[..])
        invariant forall j :: 0 <= j < i ==> outstanding[j] != id
      {
        if outstanding[i] == id {
          assert Find(old(outstanding[..]), id) == i;
          assert old(outstanding[..])[i] == id;
          outstanding[i] := 0;
          return true;
        }
        i := i + 1;
      }
      return false;
    }

    method ReservePositionsBody(i: nat) returns (ok: bool)
      requires i < clients.Length
      modifies this`bodyOwner, clients
      ensures ok == CanReserveBody(old(View()), i)
      ensures View() == if ok then ReserveBody(old(View()), i) else old(View())
    {
      if clients[i].ownsBody || bodyOwner != NO_CLIENT {
        return false;
      }
      bodyOwner := i;
      clients[i] := clients[i].(ownsBody := true);
      return true;
    }

    method ReleasePositionsBody(i: nat)
      requires i < clients.Length
      modifies this`bodyOwner, clients
      ensures View() == ReleaseBody(old(View()), i)
    {
      if !clients[i].ownsBody {
        return;
      }
      if bodyOwner == i {
        bodyOwner := NO_CLIENT;
      }
      clients[i] := clients[i].(ownsBody := false);
    }

    method CloseSlot(i: nat)
      requires i < clients.Length
      modifies this`bodyOwner, clients
      ensures View() == CloseClient(old(View()), i)
      ensures old(Valid()) ==> Valid()
    {
      if Valid() { CloseKeeps(View(), i, Held(outstanding[..]), asked, connections); }
      ReleasePositionsBody(i);
      clients[i] := Shut(clients[i]);
    }

    method QueueInlineJson(i: nat, fails: bool)
      requires i < clients.Length
      modifies this`bodyOwner, clients
      ensures View() == QueueInline(old(View()), i, fails)
    {
      if !clients[i].open {
        return;
      }
      ReleasePositionsBody(i);
      if fails {
        CloseSlot(i);
        return;
      }
      clients[i] := clients[i].(waiting := false, sending := true);
    }

    method QueuePositionsJson(i: nat, fits: bool, fails: bool)
      requires i < clients.Length
      modifies this`bodyOwner, clients
      ensures View() == QueuePositions(old(View()), i, fits, fails)
    {
      if !clients[i].open || !clients[i].ownsBody {
        return;
      }
      if !fits {
        QueueInlineJson(i, fails);
      } else if fails {
        CloseSlot(i);
      } else {
        clients[i] := clients[i].(waiting := false, sending := true);
      }
    }

    /** Dispatches a query, cancel or positions request of a client being read. It is accepted
        exactly if an id, a place for its answer, a place in the queue and, for positions, the
        shared buffer are there. */
    method Dispatch(bridge: ExecutionBridge, i: nat, command: Command, orderId: nat, fails: bool)
      returns (accepted: bool)
      requires Valid() && i < clients.Length && Reads(clients[i]) && command != Submit
      modifies this, outstanding, clients, bridge
      ensures Valid() && connections == old(connections)
      ensures accepted <==> old(nextId) != 0 && old(|bridge.requests|) < REQUEST_SLOTS && 0 in old(outstanding[..]) &&
                            (command == Positions ==> old(bodyOwner) == NO_CLIENT)
      ensures Held(outstanding[..]) == old(Held(outstanding[..])) + if accepted then {old(nextId)} else {}
      ensures accepted ==> asked == old(asked)[old(nextId) := old(clients[i]).connection]
      ensures Asked(old(clients[i]), clients[i], old(nextId), command, accepted)
      ensures forall j :: 0 <= j < clients.Length && j != i ==> clients[j] == old(clients[j])
      ensures (View(), accepted) == Ask(old(View()), i, command, old(|bridge.requests|) < REQUEST_SLOTS, fails)
      ensures bridge.View() == if accepted
              then old(bridge.View()).(requests := old(bridge.requests) + [Request(command, old(nextId), orderId)])
              else old(bridge.View())
    {
      AskListener(View(), i, command, |bridge.requests| < REQUEST_SLOTS, fails, asked, connections);
      AskAnswers(View(), i, command, |bridge.requests| < REQUEST_SLOTS, fails, asked, connections);
      accepted := TryAsk(bridge, i, command, orderId, fails);
      if accepted {
        asked := asked[old(nextId) := old(clients[i]).connection];
      }
    }

    /** Holds a place for the answer and queues the request; a full queue gives the place back. */
    method TryQueue(bridge: ExecutionBridge, q: Request) returns (queued: bool)
      modifies outstanding, bridge
      ensures var ids, room := old(outstanding[..]), old(|bridge.requests|) < REQUEST_SLOTS;
              && queued == (CanReserve(ids, q.id) && room)
              && outstanding[..] == if queued || !CanReserve(ids, q.id) then Reserve(ids, q.id)
                                    else Release(Reserve(ids, q.id), q.id)
      ensures bridge.View() == if queued then old(bridge.View()).(requests := old(bridge.requests) + [q])
                               else old(bridge.View())
    {
      var held := ReserveResponseId(q.id);
      if !held {
        return false;
      }
      queued := bridge.Submit(q);
      if !queued {
        var released := ReleaseResponseId(q.id);
      }
    }

    method TryAsk(bridge: ExecutionBridge, i: nat, command: Command, orderId: nat, fails: bool)
      returns (accepted: bool)
      requires i < clients.Length && command != Submit
      modifies this, outstanding, clients, bridge
      ensures (View(), accepted) == Ask(old(View()), i, command, old(|bridge.requests|) < REQUEST_SLOTS, fails)
      ensures asked == old(asked) && connections == old(connections)
      ensures bridge.View() == if accepted
              then old(bridge.View()).(requests := old(bridge.requests) + [Request(command, old(nextId), orderId)])
              else old(bridge.View())
    {
      var id := nextId;
      nextId := NextId(id);
      if id == 0 {
        QueueInlineJson(i, fails);
        return false;
      }
      if command == Positions {
        var free := ReservePositionsBody(i);
        if !free {
          QueueInlineJson(i, fails);
          return false;
        }
      }
      var queued := TryQueue(bridge, Request(command, id, orderId));
      if !queued {
        ReleasePositionsBody(i);
        QueueInlineJson(i, fails);
        return false;
      }
      clients[i] := clients[i].(id := id, command := command, waiting := true);
      return true;
    }

    /** Hands one response taken from the bridge to the client waiting for it. */
    method DrainOne(r: Response, fits: bool, fails: bool)
      modifies this`bodyOwner, outstanding, clients
      ensures View() == Take(old(View()), r.id, fits, fails)
    {
      var ours := ReleaseResponseId(r.id);
      if !ours {
        return;
      }
      var i := 0;
      while i < clients.Length
        invariant 0 <= i <= clients.Length && Waiter(clients[..], r.id, 0) == Waiter(clients[..], r.id, i)
      {
        if clients[i].open && clients[i].waiting && clients[i].id == r.id {
          clients[i] := clients[i].(waiting := false);
          if clients[i].command == Positions {
            QueuePositionsJson(i, fits, fails);
          } else {
            QueueInlineJson(i, fails);
          }
          return;
        }
        i := i + 1;
      }
    }

    /** The same on a listener in order. */
    method ServeOne(r: Response, fits: bool, fails: bool)
      requires Valid()
      modifies this`bodyOwner, outstanding, clients
      ensures Valid() && Held(outstanding[..]) == old(Held(outstanding[..])) - {r.id}
      ensures AllServed(old(clients[..]), clients[..], {r.id})
    {
      TakeKeeps(View(), r.id, fits, fails, asked, connections);
      TakeServes(View(), r.id, fits, fails, asked, connections);
      DrainOne(r, fits, fails);
    }

    /** Takes every queued response. Exactly the clients waiting for one of them are answered, and
        exactly the ids of those responses are free again. The k-th reply may not fit or may fail. */
    method DrainResponses(bridge: ExecutionBridge, fits: nat -> bool, fails: nat -> bool)
      requires Valid()
      modifies this`bodyOwner, outstanding, clients, bridge
      ensures Valid() && bridge.View() == old(bridge.View()).(responses := [])
      ensures var ids := set r | r in old(bridge.responses) :: r.id;
              Held(outstanding[..]) == old(Held(outstanding[..])) - ids && AllServed(old(clients[..]), clients[..], ids)
    {
      ghost var queued, ids, start := bridge.responses, {}, clients[..];
      var k := 0;
      var r := bridge.TryTakeResponse();
      while r.Some?
        invariant Valid() && |clients[..]| == |start|
        invariant k <= |queued| && bridge.View() == old(bridge.View()).(responses := bridge.responses)
        invariant if r.Some? then k < |queued| && r.value == queued[k] && bridge.responses == queued[k + 1..]
                  else k == |queued| && bridge.responses == []
        invariant ids == set j | 0 <= j < k :: queued[j].id
        invariant Held(outstanding[..]) == old(Held(outstanding[..])) - ids && AllServed(start, clients[..], ids)
        decreases |queued| - k
      {
        ghost var before := clients[..];
        ServeOne(r.value, fits(k), fails(k));
        ServedTwice(start, before, clients[..], ids, r.value.id);
        ids, k := ids + {r.value.id}, k + 1;
        r := bridge.TryTakeResponse();
      }
      assert ids == set q | q in queued :: q.id;
    }

    /** Every client past its deadline gets a timeout reply or is dropped; no id is freed. */
    method ExpireClients(due: nat -> bool, fails: nat -> bool)
      requires Valid()
      modifies this`bodyOwner, clients
      ensures Valid() && forall i :: 0 <= i < CLIENT_SLOTS ==>
                clients[i] == if due(i) then Overdue(old(clients[i]), fails(i)) else old(clients[i])
    {
      var i := 0;
      while i < clients.Length
        invariant 0 <= i <= clients.Length && Valid()
        invariant forall j :: 0 <= j < i ==>
                    clients[j] == if due(j) then Overdue(old(clients[j]), fails(j)) else old(clients[j])
        invariant forall j :: i <= j < clients.Length ==> clients[j] == old(clients[j])
      {
        if clients[i].open && due(i) {
          ghost var v := View();
          ExpireAt(v, i, fails(i));
          ExpireKeeps(v, i, fails(i), Held(v.outstanding), asked, connections);
          if clients[i].sending {
            CloseSlot(i);
          } else {
            QueueInlineJson(i, fails(i));
          }
          assert View() == Expire(v, i, fails(i));
        }
        i := i + 1;
      }
    }
  }
}
