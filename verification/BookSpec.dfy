/** What the limit order book is meant to be: a map from order reference to order, and an
    arrival-order queue of references for every row (symbol and side) and price. */
module BookSpec {
  import opened Finite

  datatype Order = Order(row: nat, price: int, qty: int)
  datatype PriceKey = PriceKey(row: nat, price: int)
  datatype Book = Book(orders: map<nat, Order>, queues: map<PriceKey, seq<nat>>)

  const EMPTY_BOOK := Book(map[], map[])

  function KeyOf(o: Order): PriceKey {
    PriceKey(o.row, o.price)
  }

  function Queue(book: Book, key: PriceKey): seq<nat> {
    if key in book.queues then book.queues[key] else []
  }

  /** `p` has priority over `q` on this row: bids (even rows) descend, asks ascend. */
  predicate Better(row: nat, p: int, q: int) {
    if row % 2 == 0 then p > q else p < q
  }

  function Without(q: seq<nat>, ref: nat): seq<nat> {
    if q == [] then [] else if q[0] == ref then q[1..] else [q[0]] + Without(q[1..], ref)
  }

  // ----- the operations -----

  /** A new order goes to the back of its queue. */
  function Enter(book: Book, ref: nat, o: Order): Book {
    Book(book.orders[ref := o], book.queues[KeyOf(o) := Queue(book, KeyOf(o)) + [ref]])
  }

  /** An order leaves its queue; an empty queue leaves the book. */
  function Leave(book: Book, ref: nat): Book
    requires ref in book.orders
  {
    var key := KeyOf(book.orders[ref]);
    var rest := Without(Queue(book, key), ref);
    Book(book.orders - {ref}, if rest == [] then book.queues - {key} else book.queues[key := rest])
  }

  /** Execution or partial cancel: an order keeps its place until nothing is left of it. */
  function Reduce(book: Book, ref: nat, qty: int): Book {
    if ref !in book.orders || qty <= 0 then book
    else if qty < book.orders[ref].qty then
      book.(orders := book.orders[ref := book.orders[ref].(qty := book.orders[ref].qty - qty)])
    else Leave(book, ref)
  }

  function Delete(book: Book, ref: nat): Book {
    if ref in book.orders then Leave(book, ref) else book
  }

  /** The prices present on a row. */
  function Prices(book: Book, row: nat): set<int> {
    set key | key in book.queues && key.row == row :: key.price
  }

  /** Capacity for one more order: its level has a slot left, or a level can be added. */
  predicate Fits(book: Book, key: PriceKey, levels: nat, slots: nat) {
    if key in book.queues then |book.queues[key]| < slots else |Prices(book, key.row)| < levels && 0 < slots
  }

  /** Enter if there is room, otherwise leave the book alone. */
  function TryEnter(book: Book, ref: nat, o: Order, levels: nat, slots: nat): Book {
    if Fits(book, KeyOf(o), levels, slots) then Enter(book, ref, o) else book
  }

  // ----- what every operation keeps -----

  /** Every order waits exactly once, in the queue of its own price, and no queue is empty. */
  ghost predicate BookInv(book: Book) {
    && (forall key :: key in book.queues ==> QueueInv(book, key))
    && (forall ref :: ref in book.orders ==> ref in Queue(book, KeyOf(book.orders[ref])))
  }

  ghost predicate QueueInv(book: Book, key: PriceKey)
    requires key in book.queues
  {
    && book.queues[key] != [] && Distinct(book.queues[key])
    && forall ref :: ref in book.queues[key] ==> ref in book.orders && KeyOf(book.orders[ref]) == key
  }

  lemma {:induction false} WithoutIs(q: seq<nat>, ref: nat, p: nat)
    requires Distinct(q) && p < |q| && q[p] == ref
    ensures Without(q, ref) == q[..p] + q[p + 1..]
  {
    if p > 0 {
      WithoutIs(q[1..], ref, p - 1);
      assert q[..p] + q[p + 1..] == [q[0]] + (q[1..][..p - 1] + q[1..][p..]);
    }
  }

  lemma WithoutKeeps(q: seq<nat>, ref: nat)
    requires Distinct(q) && ref in q
    ensures Distinct(Without(q, ref)) && forall x :: x in Without(q, ref) <==> x in q && x != ref
  {
    var p :| 0 <= p < |q| && q[p] == ref;
    WithoutIs(q, ref, p);
    CutKeeps(q, p);
  }

  lemma CutKeeps(q: seq<nat>, p: nat)
    requires Distinct(q) && p < |q|
    ensures Distinct(q[..p] + q[p + 1..]) && forall x :: x in q[..p] + q[p + 1..] <==> x in q && x != q[p]
  {}

  lemma EnterKeeps(book: Book, ref: nat, o: Order)
    requires BookInv(book) && ref !in book.orders
    ensures BookInv(Enter(book, ref, o))
  {}

  lemma LeaveKeeps(book: Book, ref: nat)
    requires BookInv(book) && ref in book.orders
    ensures BookInv(Leave(book, ref))
  {
    var key := KeyOf(book.orders[ref]);
    assert QueueInv(book, key);
    WithoutKeeps(book.queues[key], ref);
    var book' := Leave(book, ref);
    forall k | k in book'.queues ensures QueueInv(book', k) {
      assert QueueInv(book, k);
    }
  }

  lemma ReduceKeeps(book: Book, ref: nat, qty: int)
    requires BookInv(book)
    ensures BookInv(Reduce(book, ref, qty))
  {
    if ref in book.orders && qty > 0 {
      var book' := Reduce(book, ref, qty);
      if qty < book.orders[ref].qty {
        forall k | k in book'.queues ensures QueueInv(book', k) {
          assert QueueInv(book, k);
        }
      } else {
        LeaveKeeps(book, ref);
      }
    }
  }

  /** Nothing but the order `ref` differs. */
  ghost predicate OthersSame(book: Book, book': Book, ref: nat) {
    forall r :: r != ref ==> (r in book'.orders <==> r in book.orders) && (r in book.orders ==> book'.orders[r] == book.orders[r])
  }

  lemma ReduceOrders(book: Book, ref: nat, qty: int)
    ensures OthersSame(book, Reduce(book, ref, qty), ref)
    ensures ref in book.orders && 0 < qty < book.orders[ref].qty ==>
              ref in Reduce(book, ref, qty).orders &&
              Reduce(book, ref, qty).orders[ref] == Order(book.orders[ref].row, book.orders[ref].price, book.orders[ref].qty - qty)
    ensures ref in book.orders && 0 < qty && book.orders[ref].qty <= qty ==> ref !in Reduce(book, ref, qty).orders
  {}

  /** A reduction lowers the order by what it says, and takes it out of the book and its queue
      once nothing is left. */
  lemma ReduceMeans(book: Book, ref: nat, qty: int)
    requires BookInv(book)
    ensures OthersSame(book, Reduce(book, ref, qty), ref)
    ensures ref !in book.orders || qty <= 0 ==> Reduce(book, ref, qty) == book
    ensures ref in book.orders && 0 < qty < book.orders[ref].qty ==>
              && ref in Reduce(book, ref, qty).orders && Reduce(book, ref, qty).queues == book.queues
              && Reduce(book, ref, qty).orders[ref] == Order(book.orders[ref].row, book.orders[ref].price, book.orders[ref].qty - qty)
    ensures ref in book.orders && 0 < qty && book.orders[ref].qty <= qty ==>
              && ref !in Reduce(book, ref, qty).orders
              && forall key :: key in Reduce(book, ref, qty).queues ==> ref !in Reduce(book, ref, qty).queues[key]
  {
    ReduceKeeps(book, ref, qty);
    var book' := Reduce(book, ref, qty);
    if ref in book.orders && 0 < qty && book.orders[ref].qty <= qty {
      forall key | key in book'.queues ensures ref !in book'.queues[key] { assert QueueInv(book', key); }
    }
  }

  /** Deleting the order just entered restores the book. */
  lemma EnterThenLeave(book: Book, ref: nat, o: Order)
    requires BookInv(book) && ref !in book.orders
    ensures Leave(Enter(book, ref, o), ref) == book
  {
    var key, q := KeyOf(o), Queue(book, KeyOf(o));
    assert Without(q + [ref], ref) == q && (key in book.queues ==> q != []) by {
      if key in book.queues { assert QueueInv(book, key); }
      WithoutIs(q + [ref], ref, |q|);
    }
    assert book.orders[ref := o] - {ref} == book.orders;
  }

  // ----- the effect on the queues -----

  ghost predicate NoEmptyQueue(book: Book) {
    forall key :: key in book.queues ==> book.queues[key] != []
  }

  /** The books differ at most in the queue of `key`, which becomes `q`. */
  ghost predicate Requeued(book: Book, book': Book, key: PriceKey, q: seq<nat>) {
    && NoEmptyQueue(book') && Queue(book', key) == q
    && forall k :: k != key ==> Queue(book', k) == Queue(book, k)
  }

  lemma EnterRequeues(book: Book, ref: nat, o: Order)
    requires NoEmptyQueue(book)
    ensures Requeued(book, Enter(book, ref, o), KeyOf(o), Queue(book, KeyOf(o)) + [ref])
  {}

  lemma LeaveRequeues(book: Book, ref: nat)
    requires NoEmptyQueue(book) && ref in book.orders
    ensures var key := KeyOf(book.orders[ref]);
            Requeued(book, Leave(book, ref), key, Without(Queue(book, key), ref))
  {}

  lemma TrimRequeues(book: Book, ref: nat, qty: int, key: PriceKey)
    requires NoEmptyQueue(book) && ref in book.orders && 0 < qty < book.orders[ref].qty
    ensures Requeued(book, Reduce(book, ref, qty), key, Queue(book, key))
  {}

  // ----- feed messages -----

  datatype Kind = AddOrder | AddOrderMpid | Executed | ExecutedWithPrice | Cancelled | Deleted | Replaced | Trade | Other

  /** A decoded message; for a replace, `newRef` is the reference of the new order. */
  datatype Tick = Tick(kind: Kind, symbol: nat, buy: bool, price: int, qty: int, ref: nat, newRef: nat)

  predicate ValidQty(qty: int) {
    1 <= qty <= 1_000_000_000
  }

  predicate ValidPrice(price: int) {
    1 <= price <= 0xFFFF_FFFF
  }

  function RowOf(symbol: nat, buy: bool): nat {
    2 * symbol + if buy then 0 else 1
  }

  /** What one message does to the book. `takes` says whether the reference map has room for
      a new reference, `can` whether the replacement reference passes its pre-flight. */
  function Step(book: Book, tick: Tick, symbols: nat, levels: nat, slots: nat, takes: bool, can: bool): Book {
    if tick.symbol >= symbols || tick.ref == 0 then book else
    match tick.kind
    case AddOrder | AddOrderMpid =>
      var o := Order(RowOf(tick.symbol, tick.buy), tick.price, tick.qty);
      if ValidQty(tick.qty) && ValidPrice(tick.price) && tick.ref !in book.orders && takes
      then TryEnter(book, tick.ref, o, levels, slots) else book
    case Executed | ExecutedWithPrice | Cancelled =>
      if ValidQty(tick.qty) then Reduce(book, tick.ref, tick.qty) else book
    case Deleted =>
      Delete(book, tick.ref)
    case Replaced =>
      if tick.newRef != 0 && tick.ref != tick.newRef && ValidQty(tick.qty) && ValidPrice(tick.price)
         && tick.ref in book.orders && tick.newRef !in book.orders && can
      then TryEnter(Leave(book, tick.ref), tick.newRef, Order(book.orders[tick.ref].row, tick.price, tick.qty), levels, slots)
      else book
    case Trade | Other => book
  }

  lemma StepKeeps(book: Book, tick: Tick, symbols: nat, levels: nat, slots: nat, takes: bool, can: bool)
    requires BookInv(book)
    ensures BookInv(Step(book, tick, symbols, levels, slots, takes, can))
  {
    if tick.symbol < symbols && tick.ref != 0 {
      match tick.kind
      case AddOrder | AddOrderMpid =>
        if tick.ref !in book.orders {
          EnterKeeps(book, tick.ref, Order(RowOf(tick.symbol, tick.buy), tick.price, tick.qty));
        }
      case Executed | ExecutedWithPrice | Cancelled =>
        ReduceKeeps(book, tick.ref, tick.qty);
      case Deleted =>
        if tick.ref in book.orders { LeaveKeeps(book, tick.ref); }
      case Replaced =>
        if tick.ref in book.orders && tick.newRef !in book.orders {
          LeaveKeeps(book, tick.ref);
          EnterKeeps(Leave(book, tick.ref), tick.newRef, Order(book.orders[tick.ref].row, tick.price, tick.qty));
        }
      case Trade | Other =>
    }
  }

  /** A message together with the reference map's answers at that moment. */
  datatype Event = Event(tick: Tick, takes: bool, can: bool)

  ghost function Run(book: Book, events: seq<Event>, symbols: nat, levels: nat, slots: nat): Book {
    if events == [] then book
    else
      var n := |events| - 1;
      Step(Run(book, events[..n], symbols, levels, slots), events[n].tick, symbols, levels, slots, events[n].takes, events[n].can)
  }

  /** After any sequence of messages every order waits exactly once, in the queue of its price. */
  lemma {:induction false} RunKeeps(events: seq<Event>, symbols: nat, levels: nat, slots: nat)
    ensures BookInv(Run(EMPTY_BOOK, events, symbols, levels, slots))
  {
    if events != [] {
      var n := |events| - 1;
      RunKeeps(events[..n], symbols, levels, slots);
      StepKeeps(Run(EMPTY_BOOK, events[..n], symbols, levels, slots), events[n].tick, symbols, levels, slots,
                events[n].takes, events[n].can);
    }
  }

  // ----- queries -----

  ghost function QtyOf(book: Book, q: seq<nat>): int {
    if q == [] then 0
    else QtyOf(book, q[..|q| - 1]) + if q[|q| - 1] in book.orders then book.orders[q[|q| - 1]].qty else 0
  }

  /** The prices of a row, best first. */
  ghost predicate BestFirst(book: Book, row: nat, ps: seq<int>) {
    && Elems(ps) == Prices(book, row)
    && forall i, j :: 0 <= i < j < |ps| ==> Better(row, ps[i], ps[j])
  }

  lemma BestFirstOrder(book: Book, row: nat, ps: seq<int>)
    requires BestFirst(book, row, ps)
    ensures forall i, j :: 0 <= i < j < |ps| ==> if row % 2 == 0 then ps[i] > ps[j] else ps[i] < ps[j]
  {}

  /** The open quantity of the orders queued at these prices. */
  ghost function DepthQty(book: Book, row: nat, ps: seq<int>): int {
    if ps == [] then 0
    else DepthQty(book, row, ps[..|ps| - 1]) + QtyOf(book, Queue(book, PriceKey(row, ps[|ps| - 1])))
  }

  lemma DepthGrows(book: Book, row: nat, ps: seq<int>, i: nat)
    requires i < |ps|
    ensures DepthQty(book, row, ps[..i + 1]) == DepthQty(book, row, ps[..i]) + QtyOf(book, Queue(book, PriceKey(row, ps[i])))
  {
    assert ps[..i + 1][..i] == ps[..i];
  }
}
