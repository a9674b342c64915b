/** What the listener keeps of its client slots. */
module BridgeClients {
  import opened Bridge

  // ----- the invariant of the clients -----

  /** A waiting client waits for a request of its own that is in flight, holding the shared
      buffer if it asked for positions; an owner of the buffer is the registered one. */
  ghost predicate ClientOk(v: Server, i: nat, pending: set<nat>, asked: map<nat, nat>, connections: nat)
    requires i < |v.clients|
  {
    var c := v.clients[i];
    && (c.open ==> c.connection < connections)
    && (c.waiting ==> c.open && !c.sending && c.id in pending && c.id in asked && asked[c.id] == c.connection)
    && (c.waiting && c.command == Positions ==> c.ownsBody)
    && (c.ownsBody ==> c.open && (c.waiting || c.sending) && v.bodyOwner == i)
  }

  ghost predicate BodyOk(v: Server) {
    v.bodyOwner == NO_CLIENT || (v.bodyOwner < |v.clients| && v.clients[v.bodyOwner].ownsBody)
  }

  ghost predicate Apart(clients: seq<Client>) {
    forall i, j :: 0 <= i < j < |clients| && clients[i].open && clients[j].open ==>
      clients[i].connection != clients[j].connection
  }

  ghost predicate ClientsInv(v: Server, pending: set<nat>, asked: map<nat, nat>, connections: nat) {
    && |v.clients| == CLIENT_SLOTS && BodyOk(v) && Apart(v.clients)
    && forall i {:trigger ClientOk(v, i, pending, asked, connections)} :: 0 <= i < |v.clients| ==>
         ClientOk(v, i, pending, asked, connections)
  }

  /** Only slot `i` changes, and the shared buffer only moves between it and nobody. */
  ghost predicate OnlyAt(v: Server, v': Server, i: nat) {
    && |v'.clients| == |v.clients| && i < |v.clients|
    && (forall j {:trigger v'.clients[j]} :: 0 <= j < |v.clients| && j != i ==> v'.clients[j] == v.clients[j])
    && (v'.clients[i].ownsBody <==> v'.bodyOwner == i)
    && (if v.bodyOwner == i || v.bodyOwner == NO_CLIENT then v'.bodyOwner == i || v'.bodyOwner == NO_CLIENT
        else v'.bodyOwner == v.bodyOwner)
    && (v'.clients[i].open ==> v.clients[i].open && v'.clients[i].connection == v.clients[i].connection)
  }

  /** The requests other clients wait for are still in flight. */
  ghost predicate OthersKept(v: Server, i: nat, p': set<nat>, asked: map<nat, nat>, asked': map<nat, nat>) {
    forall j {:trigger v.clients[j]} :: 0 <= j < |v.clients| && j != i && v.clients[j].waiting && v.clients[j].id in asked ==>
      v.clients[j].id in p' && v.clients[j].id in asked' && asked'[v.clients[j].id] == asked[v.clients[j].id]
  }

  lemma ChangeOne(v: Server, v': Server, i: nat, p: set<nat>, p': set<nat>, asked: map<nat, nat>,
                  asked': map<nat, nat>, n: nat)
    requires ClientsInv(v, p, asked, n) && OnlyAt(v, v', i) && ClientOk(v', i, p', asked', n)
    requires OthersKept(v, i, p', asked, asked')
    ensures ClientsInv(v', p', asked', n)
  {
    forall j | 0 <= j < |v'.clients| ensures ClientOk(v', j, p', asked', n) {
      if j != i {
        assert ClientOk(v, j, p, asked, n);
        assert v'.clients[j] == v.clients[j];
      }
    }
    assert BodyOk(v') by {
      if v'.bodyOwner != NO_CLIENT && v'.bodyOwner != i { assert v'.clients[v.bodyOwner] == v.clients[v.bodyOwner]; }
    }
    forall j, k | 0 <= j < k < |v'.clients| && v'.clients[j].open && v'.clients[k].open
      ensures v'.clients[j].connection != v'.clients[k].connection
    {
      assert v.clients[j].connection == v'.clients[j].connection && v.clients[k].connection == v'.clients[k].connection;
    }
  }

  /** A reply or a close touches one slot and leaves it not waiting. */
  lemma InlineKeeps(v: Server, i: nat, fails: bool, p: set<nat>, asked: map<nat, nat>, n: nat)
    requires ClientsInv(v, p, asked, n) && i < |v.clients|
    ensures ClientsInv(QueueInline(v, i, fails), p, asked, n)
    ensures QueueInline(v, i, fails).outstanding == v.outstanding && QueueInline(v, i, fails).nextId == v.nextId
  {
    assert ClientOk(v, i, p, asked, n);
    var v' := QueueInline(v, i, fails);
    assert ClientOk(v', i, p, asked, n);
    ForAllOthers(v, i, p, asked, n);
    ChangeOne(v, v', i, p, p, asked, asked, n);
  }

  lemma CloseKeeps(v: Server, i: nat, p: set<nat>, asked: map<nat, nat>, n: nat)
    requires ClientsInv(v, p, asked, n) && i < |v.clients|
    ensures ClientsInv(CloseClient(v, i), p, asked, n)
    ensures CloseClient(v, i).outstanding == v.outstanding && CloseClient(v, i).nextId == v.nextId
  {
    assert ClientOk(v, i, p, asked, n);
    var v' := CloseClient(v, i);
    assert ClientOk(v', i, p, asked, n);
    ForAllOthers(v, i, p, asked, n);
    ChangeOne(v, v', i, p, p, asked, asked, n);
  }

  lemma ForAllOthers(v: Server, i: nat, p: set<nat>, asked: map<nat, nat>, n: nat)
    requires ClientsInv(v, p, asked, n)
    ensures OthersKept(v, i, p, asked, asked)
  {
    forall j {:trigger v.clients[j]} | 0 <= j < |v.clients| && v.clients[j].waiting ensures v.clients[j].id in p {
      assert ClientOk(v, j, p, asked, n);
    }
  }

  lemma ExpireKeeps(v: Server, i: nat, fails: bool, p: set<nat>, asked: map<nat, nat>, n: nat)
    requires ClientsInv(v, p, asked, n) && i < |v.clients|
    ensures ClientsInv(Expire(v, i, fails), p, asked, n)
    ensures Expire(v, i, fails).outstanding == v.outstanding && Expire(v, i, fails).nextId == v.nextId
  {
    InlineKeeps(v, i, fails, p, asked, n);
    CloseKeeps(v, i, p, asked, n);
  }

  lemma AcceptKeeps(v: Server, i: nat, p: set<nat>, asked: map<nat, nat>, n: nat)
    requires ClientsInv(v, p, asked, n) && i < |v.clients| && !v.clients[i].open
    ensures ClientsInv(Accept(v, i, n), p, asked, n + 1)
  {
    var v', n' := Accept(v, i, n), n + 1;
    assert ClientOk(v, i, p, asked, n);
    forall j | 0 <= j < |v'.clients| ensures ClientOk(v', j, p, asked, n') {
      assert ClientOk(v, j, p, asked, n);
    }
    forall j, k | 0 <= j < k < |v'.clients| && v'.clients[j].open && v'.clients[k].open
      ensures v'.clients[j].connection != v'.clients[k].connection
    {
      assert ClientOk(v, j, p, asked, n) && ClientOk(v, k, p, asked, n);
    }
  }

  // ----- asking -----

  /** A request that is not queued gives back the buffer and the id slot it had reserved: all
      that remains is the error reply and the used-up request id. */
  lemma RefusalLeavesNoTrace(v: Server, i: nat, command: Command, room: bool, fails: bool)
    requires i < |v.clients| && !v.clients[i].ownsBody && (v.nextId != 0 ==> v.nextId !in v.outstanding)
    ensures var (v', accepted) := Ask(v, i, command, room, fails);
            && (accepted <==> v.nextId != 0 && room && CanReserve(v.outstanding, v.nextId) &&
                              (command == Positions ==> v.bodyOwner == NO_CLIENT))
            && (!accepted ==> v' == QueueInline(v.(nextId := NextId(v.nextId)), i, fails))
  {
    var id := v.nextId;
    var w := v.(nextId := NextId(id));
    if id != 0 && (command == Positions ==> CanReserveBody(w, i)) {
      var b := if command == Positions then ReserveBody(w, i) else w;
      assert ReleaseBody(b, i) == w by {
        assert ReleaseBody(b, i).clients == w.clients;
      }
      if CanReserve(v.outstanding, id) {
        ReleaseUndoesReserve(v.outstanding, id);
        assert b.(outstanding := Reserve(b.outstanding, id)).(outstanding := Release(Reserve(b.outstanding, id), id)) == b;
      }
    } else if id == 0 {
      assert w == v;
    }
  }

  lemma AcceptedAsk(v: Server, i: nat, command: Command, fails: bool, p: set<nat>, asked: map<nat, nat>, n: nat)
    requires ClientsInv(v, p, asked, n) && i < |v.clients| && Reads(v.clients[i]) && v.nextId !in p
    requires Ask(v, i, command, true, fails).1
    ensures var v' := Ask(v, i, command, true, fails).0; var id := v.nextId;
            && v'.outstanding == Reserve(v.outstanding, id) && v'.nextId == NextId(id) && CanReserve(v.outstanding, id)
            && ClientsInv(v', p + {id}, asked[id := v.clients[i].connection], n)
  {
    var v', id := Ask(v, i, command, true, fails).0, v.nextId;
    var p', asked' := p + {id}, asked[id := v.clients[i].connection];
    assert ClientOk(v, i, p, asked, n);
    assert ClientOk(v', i, p', asked', n);
    forall j {:trigger v.clients[j]} | 0 <= j < |v.clients| && v.clients[j].waiting
      ensures v.clients[j].id in p && v.clients[j].id != id
    {
      assert ClientOk(v, j, p, asked, n);
    }
    ChangeOne(v, v', i, p, p', asked, asked', n);
  }

  // ----- delivering -----

  /** Delivering to the slot that waits leaves nobody waiting for that id. */
  lemma DeliverKeeps(v: Server, i: nat, fits: bool, fails: bool, p: set<nat>, asked: map<nat, nat>, n: nat)
    requires ClientsInv(v, p, asked, n) && i < |v.clients| && v.clients[i].waiting
    ensures ClientsInv(Deliver(v, i, fits, fails), p - {v.clients[i].id}, asked, n)
    ensures Deliver(v, i, fits, fails).outstanding == v.outstanding && Deliver(v, i, fits, fails).nextId == v.nextId
    ensures !Deliver(v, i, fits, fails).clients[i].waiting && !Reads(Deliver(v, i, fits, fails).clients[i])
  {
    var v', p' := Deliver(v, i, fits, fails), p - {v.clients[i].id};
    assert ClientOk(v, i, p, asked, n);
    assert ClientOk(v', i, p', asked, n);
    forall j {:trigger v.clients[j]} | 0 <= j < |v.clients| && j != i && v.clients[j].waiting
      ensures v.clients[j].id in p'
    {
      assert ClientOk(v, j, p, asked, n);
      assert v.clients[j].connection != v.clients[i].connection;
    }
    ChangeOne(v, v', i, p, p', asked, asked, n);
  }

  lemma DiscardKeeps(v: Server, id: nat, p: set<nat>, asked: map<nat, nat>, n: nat)
    requires ClientsInv(v, p, asked, n) && Waiter(v.clients, id, 0) == |v.clients|
    ensures ClientsInv(v, p - {id}, asked, n)
  {
    forall j | 0 <= j < |v.clients| ensures ClientOk(v, j, p - {id}, asked, n) {
      assert ClientOk(v, j, p, asked, n);
    }
  }
}
