/** The control-plane bridge: an HTTP listener thread and the execution thread exchanging
    requests and responses over two bounded queues. */
module Bridge {
  datatype Option<T> = None | Some(value: T)

  datatype Command = Submit | Query | Cancel | Positions

  /** A submitted order carries no request id: it is acknowledged when queued. */
  datatype Request = Request(command: Command, id: nat, orderId: nat)

  /** The outcome is whatever the execution gateway answers. */
  datatype Response = Response(id: nat, outcome: nat)

  const REQUEST_SLOTS: nat := 256
  const RESPONSE_SLOTS: nat := 8
  const CLIENT_SLOTS: nat := 64
  const NO_CLIENT: nat := 0xFFFF_FFFF
  const MAX_ID: nat := 0xFFFF_FFFF_FFFF_FFFF

  datatype Queues = Queues(requests: seq<Request>, responses: seq<Response>, deferred: Option<Response>)

  /** A client slot. `connection` tells apart the successive connections using the slot. */
  datatype Client = Client(open: bool, connection: nat, id: nat, command: Command, waiting: bool, sending: bool,
                           ownsBody: bool)

  /** The listener's own state; `nextId` is 0 once the request ids have run out. */
  datatype Server = Server(nextId: nat, outstanding: seq<nat>, clients: seq<Client>, bodyOwner: nat)

  // ----- the execution thread -----

  function FlushOne(q: Queues): Queues
    requires q.deferred.Some?
  {
    q.(responses := q.responses + [q.deferred.value], deferred := None)
  }

  /** Takes the oldest request; only one that is not an order submission is to be answered. */
  function TakeOne(q: Queues): (Queues, Option<Request>)
    requires q.requests != []
  {
    (q.(requests := q.requests[1..]), if q.requests[0].command == Submit then None else Some(q.requests[0]))
  }

  function AnswerOne(q: Queues, request: Request, outcome: nat): Queues {
    var r := Response(request.id, outcome);
    if |q.responses| < RESPONSE_SLOTS then q.(responses := q.responses + [r]) else q.(deferred := Some(r))
  }

  // ----- the outstanding-id table -----

  /** The first place that holds `id`, or the length. */
  function Find(ids: seq<nat>, id: nat): (i: nat)
    ensures i <= |ids| && (forall j :: 0 <= j < i ==> ids[j] != id) && (i < |ids| ==> ids[i] == id)
  {
    FindFrom(ids, id, 0)
  }

  function FindFrom(ids: seq<nat>, id: nat, from: nat): (i: nat)
    requires from <= |ids|
    ensures from <= i <= |ids| && (forall j :: from <= j < i ==> ids[j] != id) && (i < |ids| ==> ids[i] == id)
    decreases |ids| - from
  {
    if from == |ids| || ids[from] == id then from else FindFrom(ids, id, from + 1)
  }

  predicate CanReserve(ids: seq<nat>, id: nat) { id != 0 && Find(ids, 0) < |ids| }

  function Reserve(ids: seq<nat>, id: nat): seq<nat> {
    if CanReserve(ids, id) then ids[Find(ids, 0) := id] else ids
  }

  function Release(ids: seq<nat>, id: nat): seq<nat> {
    if id != 0 && Find(ids, id) < |ids| then ids[Find(ids, id) := 0] else ids
  }

  ghost function Held(ids: seq<nat>): set<nat> {
    set id | id in ids && id != 0
  }

  /** No id is held twice. */
  ghost predicate HeldOnce(ids: seq<nat>) {
    forall i, j :: 0 <= i < j < |ids| && ids[i] != 0 ==> ids[i] != ids[j]
  }

  lemma ReserveHolds(ids: seq<nat>, id: nat)
    requires HeldOnce(ids) && id !in ids && CanReserve(ids, id)
    ensures HeldOnce(Reserve(ids, id)) && Held(Reserve(ids, id)) == Held(ids) + {id}
  {
    var k := Find(ids, 0);
    var ids' := ids[k := id];
    PlaceHeld(ids, k, id);
    forall i, j | 0 <= i < j < |ids| && ids'[i] != 0 ensures ids'[i] != ids'[j] {
      assert i != k ==> ids[i] in ids;
      assert j != k ==> ids[j] in ids;
    }
  }

  /** Overwriting the only place of one id with another. */
  lemma PlaceHeld(ids: seq<nat>, k: nat, id: nat)
    requires HeldOnce(ids) && k < |ids|
    ensures Held(ids[k := id]) == Held(ids) - {ids[k]} + if id == 0 then {} else {id}
  {
    var ids' := ids[k := id];
    assert ids'[k] == id;
    forall x | x in Held(ids) && x != ids[k] ensures x in Held(ids') {
      var j :| 0 <= j < |ids| && ids[j] == x;
      assert ids'[j] == x;
    }
    forall x | x in Held(ids') && x != id ensures x in Held(ids) && x != ids[k] {
      var j :| 0 <= j < |ids'| && ids'[j] == x;
      assert ids[j] == x && j != k;
    }
    if id != 0 { assert id in Held(ids'); }
  }

  lemma ReleaseDrops(ids: seq<nat>, id: nat)
    requires HeldOnce(ids) && id in Held(ids)
    ensures Find(ids, id) < |ids| && HeldOnce(Release(ids, id)) && Held(Release(ids, id)) == Held(ids) - {id}
  {
    var k := Find(ids, id);
    PlaceHeld(ids, k, 0);
  }

  /** Taking back what was just reserved restores the table. */
  lemma ReleaseUndoesReserve(ids: seq<nat>, id: nat)
    requires id !in ids && CanReserve(ids, id)
    ensures Release(Reserve(ids, id), id) == ids
  {
    var k := Find(ids, 0);
    var ids' := ids[k := id];
    assert ids'[k] == id && forall j :: 0 <= j < k ==> ids'[j] == ids[j];
    assert Find(ids', id) == k;
    assert ids'[k := 0] == ids;
  }

  lemma {:induction false} HeldSize(ids: seq<nat>)
    ensures |Held(ids)| <= |ids|
  {
    if ids != [] {
      HeldSize(ids[1..]);
      if ids[0] == 0 {
        assert Held(ids) == Held(ids[1..]);
      } else {
        assert Held(ids) == Held(ids[1..]) + {ids[0]};
      }
    }
  }

  // ----- client slots -----

  /** Gives the shared positions buffer back. */
  function ReleaseBody(v: Server, i: nat): Server
    requires i < |v.clients|
  {
    if !v.clients[i].ownsBody then v
    else v.(bodyOwner := if v.bodyOwner == i then NO_CLIENT else v.bodyOwner,
            clients := v.clients[i := v.clients[i].(ownsBody := false)])
  }

  predicate CanReserveBody(v: Server, i: nat)
    requires i < |v.clients|
  {
    !v.clients[i].ownsBody && v.bodyOwner == NO_CLIENT
  }

  function ReserveBody(v: Server, i: nat): Server
    requires i < |v.clients|
  {
    v.(bodyOwner := i, clients := v.clients[i := v.clients[i].(ownsBody := true)])
  }

  /** The listener reads from the client: it has neither asked nor been answered. */
  predicate Reads(c: Client) { c.open && !c.waiting && !c.sending }

  function Shut(c: Client): Client { Client(false, c.connection, 0, Submit, false, false, false) }

  function CloseClient(v: Server, i: nat): Server
    requires i < |v.clients|
  {
    var v := ReleaseBody(v, i);
    v.(clients := v.clients[i := Shut(v.clients[i])])
  }

  /** Queues a complete reply, which drops any claim to the positions buffer. Formatting or
      sending may fail, which closes the client. */
  function QueueInline(v: Server, i: nat, fails: bool): Server
    requires i < |v.clients|
  {
    if !v.clients[i].open then v
    else
      var v := ReleaseBody(v, i);
      if fails then CloseClient(v, i)
      else v.(clients := v.clients[i := v.clients[i].(waiting := false, sending := true)])
  }

  /** Answers a positions query from the shared buffer; the reply may not fit. */
  function QueuePositions(v: Server, i: nat, fits: bool, fails: bool): Server
    requires i < |v.clients|
  {
    if !v.clients[i].open || !v.clients[i].ownsBody then v
    else if !fits then QueueInline(v, i, fails)
    else if fails then CloseClient(v, i)
    else v.(clients := v.clients[i := v.clients[i].(waiting := false, sending := true)])
  }

  /** The slot waiting for this response, or the number of slots. */
  function Waiter(clients: seq<Client>, id: nat, from: nat): (i: nat)
    requires from <= |clients|
    ensures from <= i <= |clients|
    ensures forall j :: from <= j < i ==> !(clients[j].open && clients[j].waiting && clients[j].id == id)
    ensures i < |clients| ==> clients[i].open && clients[i].waiting && clients[i].id == id
    decreases |clients| - from
  {
    if from == |clients| || (clients[from].open && clients[from].waiting && clients[from].id == id) then from
    else Waiter(clients, id, from + 1)
  }

  function Deliver(v: Server, i: nat, fits: bool, fails: bool): Server
    requires i < |v.clients|
  {
    var v := v.(clients := v.clients[i := v.clients[i].(waiting := false)]);
    if v.clients[i].command == Positions then QueuePositions(v, i, fits, fails) else QueueInline(v, i, fails)
  }

  /** The listener takes the response with this id and hands it to the client waiting for it, if any.
      A response whose id it does not hold is not its own. */
  function Take(v: Server, id: nat, fits: bool, fails: bool): Server {
    if id == 0 || Find(v.outstanding, id) == |v.outstanding| then v
    else
      var v := v.(outstanding := Release(v.outstanding, id));
      var i := Waiter(v.clients, id, 0);
      if i == |v.clients| then v else Deliver(v, i, fits, fails)
  }

  function Expire(v: Server, i: nat, fails: bool): Server
    requires i < |v.clients|
  {
    if !v.clients[i].open then v
    else if v.clients[i].sending then CloseClient(v, i)
    else QueueInline(v, i, fails)
  }

  /** A new connection takes a free slot. */
  function Accept(v: Server, i: nat, connection: nat): Server
    requires i < |v.clients|
  {
    v.(clients := v.clients[i := Client(true, connection, 0, Submit, false, false, false)])
  }

  // ----- dispatching a request -----

  function NextId(id: nat): nat { if id == 0 || id == MAX_ID then 0 else id + 1 }

  /** What a dispatched query, cancel or positions request leads to: a queued request, or a
      reply with an error after everything reserved for it has been given back. */
  function Ask(v: Server, i: nat, command: Command, room: bool, fails: bool): (r: (Server, bool))
    requires i < |v.clients|
  {
    var id := v.nextId;
    if id == 0 then (QueueInline(v, i, fails), false)
    else
      var v := v.(nextId := NextId(id));
      if command == Positions && !CanReserveBody(v, i) then (QueueInline(v, i, fails), false)
      else
        var v := if command == Positions then ReserveBody(v, i) else v;
        if !CanReserve(v.outstanding, id) then (QueueInline(ReleaseBody(v, i), i, fails), false)
        else
          var v := v.(outstanding := Reserve(v.outstanding, id));
          if !room then
            (QueueInline(ReleaseBody(v.(outstanding := Release(v.outstanding, id)), i), i, fails), false)
          else
            (v.(clients := v.clients[i := v.clients[i].(id := id, command := command, waiting := true)]), true)
  }
}
