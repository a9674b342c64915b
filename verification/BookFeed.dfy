/** The engine as a function of its feed: the book together with the keys of its reference
    table, which decide what is accepted. */
module BookFeed {
  import opened Probing
  import opened BookSpec
  import opened OrderRefMap

  datatype Setup = Setup(symbols: nat, levels: nat, slots: nat, hash: nat -> nat, window: nat, maxEntries: nat)

  datatype Feed = Feed(book: Book, keys: seq<nat>)

  /** The reference table takes a new reference: a tombstone or empty slot lies in its window. */
  ghost predicate Takes(c: Setup, f: Feed, ref: nat)
    requires HashInto(c.hash, |f.keys|)
  {
    Live(ref) && |f.book.orders| < c.maxEntries && Room(f.keys, c.hash, c.window, ref, true)
  }

  /** The pre-flight of a replacement admits a new reference: an empty slot lies in its window. */
  ghost predicate Admits(c: Setup, f: Feed, ref: nat)
    requires HashInto(c.hash, |f.keys|)
  {
    Live(ref) && |f.book.orders| < c.maxEntries && ref !in f.book.orders && Room(f.keys, c.hash, c.window, ref, false)
  }

  /** The reference a message may bring into the book. */
  function NewRef(tick: Tick): nat { if tick.kind == Replaced then tick.newRef else tick.ref }

  ghost function NextBook(c: Setup, f: Feed, tick: Tick): Book
    requires HashInto(c.hash, |f.keys|)
  {
    Step(f.book, tick, c.symbols, c.levels, c.slots, Takes(c, f, tick.ref), Admits(c, f, tick.newRef))
  }

  /** Keys of orders that left become tombstones; the key of one that came takes the nearest
      slot without a live key. */
  ghost function Rekeyed(hash: nat -> nat, keys: seq<nat>, book: Book, book': Book, tick: Tick): (r: seq<nat>)
    requires HashInto(hash, |keys|)
    ensures |r| == |keys|
  {
    var rest := if tick.ref in book.orders && tick.ref !in book'.orders then Vacated(keys, tick.ref) else keys;
    if NewRef(tick) !in book.orders && NewRef(tick) in book'.orders then Entered(rest, hash, NewRef(tick)) else rest
  }

  ghost function Next(c: Setup, f: Feed, tick: Tick): (r: Feed)
    requires HashInto(c.hash, |f.keys|)
    ensures |r.keys| == |f.keys|
  {
    var book' := NextBook(c, f, tick);
    Feed(book', Rekeyed(c.hash, f.keys, f.book, book', tick))
  }

  ghost function After(c: Setup, f: Feed, ticks: seq<Tick>): (r: Feed)
    requires HashInto(c.hash, |f.keys|)
    ensures |r.keys| == |f.keys|
  {
    if ticks == [] then f else Next(c, After(c, f, ticks[..|ticks| - 1]), ticks[|ticks| - 1])
  }

  // ----- one message, case by case -----

  lemma NextAdd(c: Setup, f: Feed, tick: Tick)
    requires HashInto(c.hash, |f.keys|) && tick.kind in {AddOrder, AddOrderMpid}
    ensures var o := Order(RowOf(tick.symbol, tick.buy), tick.price, tick.qty);
            Next(c, f, tick) ==
            if tick.symbol < c.symbols && tick.ref != 0 && ValidQty(tick.qty) && ValidPrice(tick.price) &&
               tick.ref !in f.book.orders && Takes(c, f, tick.ref) && Fits(f.book, KeyOf(o), c.levels, c.slots)
            then Feed(Enter(f.book, tick.ref, o), Entered(f.keys, c.hash, tick.ref)) else f
  {}

  /** What an accepted add looks like: buys go to the symbol's even row, sells to its odd one, at
      the back of the queue of their price. */
  lemma AddEnters(c: Setup, f: Feed, tick: Tick)
    requires HashInto(c.hash, |f.keys|) && tick.kind in {AddOrder, AddOrderMpid}
    requires tick.ref !in f.book.orders && tick.ref in Next(c, f, tick).book.orders
    ensures var row := 2 * tick.symbol + if tick.buy then 0 else 1;
            && Next(c, f, tick).book.orders == f.book.orders[tick.ref := Order(row, tick.price, tick.qty)]
            && Queue(Next(c, f, tick).book, PriceKey(row, tick.price)) == Queue(f.book, PriceKey(row, tick.price)) + [tick.ref]
    ensures tick.symbol < c.symbols && 1 <= tick.qty <= 1_000_000_000 && 1 <= tick.price <= 0xFFFF_FFFF
  {
    NextAdd(c, f, tick);
  }

  lemma NextReduction(c: Setup, f: Feed, tick: Tick)
    requires HashInto(c.hash, |f.keys|) && tick.kind in {Executed, ExecutedWithPrice, Cancelled, Deleted}
    ensures var book' := if tick.symbol >= c.symbols || tick.ref == 0 then f.book
                         else if tick.kind == Deleted then Delete(f.book, tick.ref)
                         else if ValidQty(tick.qty) then Reduce(f.book, tick.ref, tick.qty) else f.book;
            Next(c, f, tick) ==
            Feed(book', if tick.ref in f.book.orders && tick.ref !in book'.orders then Vacated(f.keys, tick.ref) else f.keys)
  {}

  lemma NextReplace(c: Setup, f: Feed, tick: Tick)
    requires HashInto(c.hash, |f.keys|) && tick.kind == Replaced
    ensures Next(c, f, tick) ==
            if tick.symbol < c.symbols && tick.ref != 0 && tick.newRef != 0 && tick.ref != tick.newRef &&
               1 <= tick.qty <= 1_000_000_000 && 1 <= tick.price <= 0xFFFF_FFFF && tick.ref in f.book.orders && Admits(c, f, tick.newRef)
            then
              var rest, keys := Leave(f.book, tick.ref), Vacated(f.keys, tick.ref);
              var o := Order(f.book.orders[tick.ref].row, tick.price, tick.qty);
              if Fits(rest, KeyOf(o), c.levels, c.slots)
              then Feed(Enter(rest, tick.newRef, o), Entered(keys, c.hash, tick.newRef)) else Feed(rest, keys)
            else f
  {}

  // ----- the feed is a run of the specification -----

  /** The messages with the table's answers at the time. */
  ghost function Events(c: Setup, f: Feed, ticks: seq<Tick>): (r: seq<Event>)
    requires HashInto(c.hash, |f.keys|)
    ensures |r| == |ticks|
  {
    if ticks == [] then []
    else
      var n := |ticks| - 1;
      var before := After(c, f, ticks[..n]);
      Events(c, f, ticks[..n]) + [Event(ticks[n], Takes(c, before, ticks[n].ref), Admits(c, before, ticks[n].newRef))]
  }

  lemma {:induction false} FeedIsRun(c: Setup, f: Feed, ticks: seq<Tick>)
    requires HashInto(c.hash, |f.keys|)
    ensures After(c, f, ticks).book == Run(f.book, Events(c, f, ticks), c.symbols, c.levels, c.slots)
  {
    if ticks != [] {
      var n := |ticks| - 1;
      FeedIsRun(c, f, ticks[..n]);
      assert Events(c, f, ticks)[..n] == Events(c, f, ticks[..n]);
    }
  }

  /** From the empty book every feed keeps the book consistent. */
  lemma FeedKeeps(c: Setup, keys: seq<nat>, ticks: seq<Tick>)
    requires HashInto(c.hash, |keys|)
    ensures BookInv(After(c, Feed(EMPTY_BOOK, keys), ticks).book)
  {
    FeedIsRun(c, Feed(EMPTY_BOOK, keys), ticks);
    RunKeeps(Events(c, Feed(EMPTY_BOOK, keys), ticks), c.symbols, c.levels, c.slots);
  }

  // ----- which references a step touches -----

  /** A message removes at most the order it names, and brings in at most its new reference,
      which must be live. */
  lemma StepRefs(c: Setup, f: Feed, tick: Tick)
    requires HashInto(c.hash, |f.keys|)
    ensures var book' := NextBook(c, f, tick);
            && (forall r :: r in f.book.orders && r !in book'.orders ==> r == tick.ref)
            && (forall r :: r in book'.orders && r !in f.book.orders ==> r == NewRef(tick) && Live(r))
            && (tick.ref in f.book.orders && tick.ref !in book'.orders ==> tick.ref != 0)
  {}

  // ----- empty slots never come back -----

  /** No reference is the marker of an empty slot or a tombstone. */
  ghost predicate Proper(f: Feed) { forall r :: r in f.book.orders ==> Live(r) }

  lemma NextUses(c: Setup, f: Feed, tick: Tick)
    requires HashInto(c.hash, |f.keys|) && Proper(f)
    ensures Proper(Next(c, f, tick)) && Used(f.keys) <= Used(Next(c, f, tick).keys)
    ensures |Used(Next(c, f, tick).keys)| <=
            |Used(f.keys)| + if NewRef(tick) !in f.book.orders && NewRef(tick) in NextBook(c, f, tick).orders then 1 else 0
  {
    StepRefs(c, f, tick);
    var book' := NextBook(c, f, tick);
    var gone := tick.ref in f.book.orders && tick.ref !in book'.orders;
    var rest := if gone then Vacated(f.keys, tick.ref) else f.keys;
    if gone { VacatedUses(f.keys, tick.ref); }
    if NewRef(tick) !in f.book.orders && NewRef(tick) in book'.orders { EnteredUses(rest, c.hash, NewRef(tick)); }
  }

  /** How many orders the feed has brought into the book. */
  ghost function Entries(c: Setup, f: Feed, ticks: seq<Tick>): (n: nat)
    requires HashInto(c.hash, |f.keys|)
    ensures n <= |ticks|
  {
    if ticks == [] then 0
    else
      var before, tick := After(c, f, ticks[..|ticks| - 1]), ticks[|ticks| - 1];
      Entries(c, f, ticks[..|ticks| - 1]) +
      if NewRef(tick) !in before.book.orders && NewRef(tick) in NextBook(c, before, tick).orders then 1 else 0
  }

  /** Over every feed, used slots stay used, and there are at most as many new ones as entries. */
  lemma {:induction false} EmptySlotsNeverReturn(c: Setup, f: Feed, ticks: seq<Tick>)
    requires HashInto(c.hash, |f.keys|) && Proper(f)
    ensures Proper(After(c, f, ticks)) && Used(f.keys) <= Used(After(c, f, ticks).keys)
    ensures |Used(After(c, f, ticks).keys)| <= |Used(f.keys)| + Entries(c, f, ticks)
  {
    if ticks != [] {
      var n := |ticks| - 1;
      EmptySlotsNeverReturn(c, f, ticks[..n]);
      NextUses(c, After(c, f, ticks[..n]), ticks[n]);
    }
  }

  /** Once the window of a reference has no empty slot, no replacement to it is ever admitted
      again, whatever is deleted meanwhile. */
  lemma RefusedForGood(c: Setup, f: Feed, ticks: seq<Tick>, ref: nat)
    requires HashInto(c.hash, |f.keys|) && Proper(f) && !Room(f.keys, c.hash, c.window, ref, false)
    ensures !Admits(c, After(c, f, ticks), ref)
  {
    EmptySlotsNeverReturn(c, f, ticks);
    var keys' := After(c, f, ticks).keys;
    forall j | 0 <= j < |keys'| && Dist(c.hash(ref), j, |keys'|) < c.window ensures keys'[j] != EMPTY {
      assert j in Used(f.keys);
    }
  }

  /** On a fresh table, until the feed has entered as many orders as the window is long, a
      replacement is refused only for a reference that is reserved or in the book, or at the limit. */
  lemma AdmittedBelowWindow(c: Setup, keys: seq<nat>, ticks: seq<Tick>, ref: nat)
    requires HashInto(c.hash, |keys|) && c.window <= |keys| && Used(keys) == {}
    requires Entries(c, Feed(EMPTY_BOOK, keys), ticks) < c.window
    ensures var f := After(c, Feed(EMPTY_BOOK, keys), ticks);
            Admits(c, f, ref) <==> Live(ref) && |f.book.orders| < c.maxEntries && ref !in f.book.orders
  {
    EmptySlotsNeverReturn(c, Feed(EMPTY_BOOK, keys), ticks);
    RoomBelowWindow(After(c, Feed(EMPTY_BOOK, keys), ticks).keys, c.hash, c.window, ref);
  }

  // ----- what an add needs -----

  /** Live keys are references of the book, each in one slot. */
  ghost predicate Keyed(f: Feed) {
    && Proper(f) && (forall j :: 0 <= j < |f.keys| && Live(f.keys[j]) ==> f.keys[j] in f.book.orders)
    && forall i, j :: 0 <= i < j < |f.keys| && Live(f.keys[i]) ==> f.keys[i] != f.keys[j]
  }

  lemma EnteredKeyed(hash: nat -> nat, f: Feed, key: nat, book': Book)
    requires HashInto(hash, |f.keys|) && Keyed(f) && Live(key) && key !in f.book.orders
    requires key in book'.orders && (forall r :: r in f.book.orders ==> r in book'.orders)
    requires forall r :: r in book'.orders ==> r in f.book.orders || r == key
    ensures Keyed(Feed(book', Entered(f.keys, hash, key)))
  {}

  lemma VacatedKeyed(f: Feed, key: nat, orders': map<nat, Order>)
    requires Keyed(f) && Live(key) && orders'.Keys == f.book.orders.Keys - {key}
    ensures Keyed(Feed(Book(orders', f.book.queues), Vacated(f.keys, key)))
  {}

  lemma NextKeyed(c: Setup, f: Feed, tick: Tick)
    requires HashInto(c.hash, |f.keys|) && Keyed(f)
    ensures Keyed(Next(c, f, tick))
  {
    StepRefs(c, f, tick);
    var book' := NextBook(c, f, tick);
    var gone := tick.ref in f.book.orders && tick.ref !in book'.orders;
    var rest := if gone then Feed(Book(f.book.orders - {tick.ref}, f.book.queues), Vacated(f.keys, tick.ref)) else f;
    if gone { VacatedKeyed(f, tick.ref, rest.book.orders); }
    if NewRef(tick) !in f.book.orders && NewRef(tick) in book'.orders {
      EnteredKeyed(c.hash, rest, NewRef(tick), book');
    }
  }

  lemma {:induction false} FeedKeyed(c: Setup, f: Feed, ticks: seq<Tick>)
    requires HashInto(c.hash, |f.keys|) && Keyed(f)
    ensures Keyed(After(c, f, ticks))
  {
    if ticks != [] {
      FeedKeyed(c, f, ticks[..|ticks| - 1]);
      NextKeyed(c, After(c, f, ticks[..|ticks| - 1]), ticks[|ticks| - 1]);
    }
  }

  /** Slots with different keys from a set are at most as many as the set has elements. */
  lemma {:induction false} SlotsBound(keys: seq<nat>, slots: set<nat>, refs: set<nat>)
    requires forall j :: j in slots ==> j < |keys| && keys[j] in refs
    requires forall i, j :: i in slots && j in slots && i != j ==> keys[i] != keys[j]
    ensures |slots| <= |refs|
  {
    if slots != {} {
      var j :| j in slots;
      SlotsBound(keys, slots - {j}, refs - {keys[j]});
    }
  }

  /** Fewer orders than the window is long: some slot of every window holds no live key. */
  lemma OfferBelowWindow(c: Setup, f: Feed, ref: nat)
    requires HashInto(c.hash, |f.keys|) && Keyed(f) && |f.book.orders| < c.window <= |f.keys|
    ensures Room(f.keys, c.hash, c.window, ref, true)
  {
    var path := Path(c.hash(ref), c.window, |f.keys|);
    PathSize(c.hash(ref), c.window, |f.keys|);
    if forall j :: j in path ==> Live(f.keys[j]) {
      SlotsBound(f.keys, path, f.book.orders.Keys);
      assert false;
    }
  }

  /** While the book has fewer orders than the window is long, the table refuses an add only
      for a reserved reference or at the limit. */
  lemma TakenBelowWindow(c: Setup, f: Feed, ticks: seq<Tick>, ref: nat)
    requires HashInto(c.hash, |f.keys|) && c.window <= |f.keys| && Keyed(f)
    requires |After(c, f, ticks).book.orders| < c.window
    ensures Takes(c, After(c, f, ticks), ref) <==> Live(ref) && |After(c, f, ticks).book.orders| < c.maxEntries
  {
    FeedKeyed(c, f, ticks);
    OfferBelowWindow(c, After(c, f, ticks), ref);
  }

  // ----- quantity is conserved -----

  /** The open quantity of the whole book. */
  ghost function OpenQty(orders: map<nat, Order>): int {
    if orders == map[] then 0
    else
      var ref :| ref in orders;
      orders[ref].qty + OpenQty(orders - {ref})
  }

  lemma {:induction false} OpenQtyDrop(orders: map<nat, Order>, ref: nat)
    requires ref in orders
    ensures OpenQty(orders) == orders[ref].qty + OpenQty(orders - {ref})
    decreases |orders|
  {
    var k :| k in orders && OpenQty(orders) == orders[k].qty + OpenQty(orders - {k});
    if k != ref {
      OpenQtyDrop(orders - {k}, ref);
      OpenQtyDrop(orders - {ref}, k);
      assert orders - {k} - {ref} == orders - {ref} - {k};
    }
  }

  lemma OpenQtyPut(orders: map<nat, Order>, ref: nat, o: Order)
    ensures OpenQty(orders[ref := o]) == OpenQty(orders) + o.qty - if ref in orders then orders[ref].qty else 0
  {
    OpenQtyDrop(orders[ref := o], ref);
    if ref in orders { OpenQtyDrop(orders, ref); }
    assert orders[ref := o] - {ref} == orders - {ref};
    if ref !in orders { assert orders - {ref} == orders; }
  }

  /** What a message takes out of the book: of the order it names, as much as it says but no more
      than is left; all of it for a deletion or an admitted replacement. */
  ghost function Taken(c: Setup, f: Feed, tick: Tick): int
    requires HashInto(c.hash, |f.keys|)
  {
    if tick.symbol >= c.symbols || tick.ref == 0 || tick.ref !in f.book.orders then 0
    else
      var left := f.book.orders[tick.ref].qty;
      match tick.kind
      case Executed | ExecutedWithPrice | Cancelled =>
        if !(1 <= tick.qty <= 1_000_000_000) then 0 else if tick.qty < left then tick.qty else left
      case Deleted => left
      case Replaced =>
        if tick.newRef != 0 && tick.newRef != tick.ref && 1 <= tick.qty <= 1_000_000_000 &&
           1 <= tick.price <= 0xFFFF_FFFF && Admits(c, f, tick.newRef) then left else 0
      case _ => 0
  }

  /** What it brings in. */
  ghost function Brought(c: Setup, f: Feed, tick: Tick): int
    requires HashInto(c.hash, |f.keys|)
  {
    if NewRef(tick) !in f.book.orders && NewRef(tick) in NextBook(c, f, tick).orders then tick.qty else 0
  }

  ghost predicate Positive(book: Book) { forall r :: r in book.orders ==> book.orders[r].qty > 0 }

  /** One message moves the open quantity by what it brings and takes. */
  ghost predicate Conserves(c: Setup, f: Feed, tick: Tick)
    requires HashInto(c.hash, |f.keys|)
  {
    var book' := NextBook(c, f, tick);
    Positive(book') && OpenQty(book'.orders) == OpenQty(f.book.orders) + Brought(c, f, tick) - Taken(c, f, tick)
  }

  /** What is left of the order `ref` once `taken` of it is gone. */
  ghost predicate Lowered(orders: map<nat, Order>, ref: nat, taken: int, orders': map<nat, Order>) {
    if taken == 0 then orders' == orders
    else ref in orders && 0 < taken <= orders[ref].qty &&
         orders' == if taken == orders[ref].qty then orders - {ref}
                    else orders[ref := orders[ref].(qty := orders[ref].qty - taken)]
  }

  lemma LoweredQty(orders: map<nat, Order>, ref: nat, taken: int, orders': map<nat, Order>)
    requires Lowered(orders, ref, taken, orders')
    ensures OpenQty(orders') == OpenQty(orders) - taken
  {
    if taken != 0 {
      if taken == orders[ref].qty {
        OpenQtyDrop(orders, ref);
      } else {
        OpenQtyPut(orders, ref, orders[ref].(qty := orders[ref].qty - taken));
      }
    }
  }

  /** Executions, cancels and deletions lower exactly the order they name. */
  lemma ReductionLowers(c: Setup, f: Feed, tick: Tick)
    requires HashInto(c.hash, |f.keys|) && Positive(f.book) && tick.kind in {Executed, ExecutedWithPrice, Cancelled, Deleted}
    ensures Lowered(f.book.orders, tick.ref, Taken(c, f, tick), NextBook(c, f, tick).orders) && Brought(c, f, tick) == 0
  {}

  /** An add brings in exactly its order, and an admitted replacement takes the place of the one
      it names. */
  lemma EntryBrings(c: Setup, f: Feed, tick: Tick, rest: map<nat, Order>)
    requires HashInto(c.hash, |f.keys|) && Positive(f.book) && tick.kind in {AddOrder, AddOrderMpid, Replaced}
    requires rest == if Taken(c, f, tick) == 0 then f.book.orders else f.book.orders - {tick.ref}
    ensures Lowered(f.book.orders, tick.ref, Taken(c, f, tick), rest)
    ensures if Brought(c, f, tick) == 0 then NextBook(c, f, tick).orders == rest
            else exists row :: NextBook(c, f, tick).orders == rest[NewRef(tick) := Order(row, tick.price, tick.qty)]
    ensures Brought(c, f, tick) != 0 ==> NewRef(tick) !in rest && Brought(c, f, tick) == tick.qty > 0
  {
    if Brought(c, f, tick) != 0 {
      var row := if tick.kind == Replaced then f.book.orders[tick.ref].row else RowOf(tick.symbol, tick.buy);
      assert NextBook(c, f, tick).orders == rest[NewRef(tick) := Order(row, tick.price, tick.qty)];
    }
  }

  lemma EntryConserves(c: Setup, f: Feed, tick: Tick)
    requires HashInto(c.hash, |f.keys|) && Positive(f.book) && tick.kind in {AddOrder, AddOrderMpid, Replaced}
    ensures Conserves(c, f, tick)
  {
    var orders: map<nat, Order> := f.book.orders;
    var rest := if Taken(c, f, tick) == 0 then orders else orders - {tick.ref};
    EntryBrings(c, f, tick, rest);
    LoweredQty(orders, tick.ref, Taken(c, f, tick), rest);
    if Brought(c, f, tick) != 0 {
      var row :| NextBook(c, f, tick).orders == rest[NewRef(tick) := Order(row, tick.price, tick.qty)];
      OpenQtyPut(rest, NewRef(tick), Order(row, tick.price, tick.qty));
    }
  }

  lemma NextConserves(c: Setup, f: Feed, tick: Tick)
    requires HashInto(c.hash, |f.keys|) && Positive(f.book)
    ensures Conserves(c, f, tick)
  {
    match tick.kind
    case AddOrder | AddOrderMpid | Replaced => EntryConserves(c, f, tick);
    case Executed | ExecutedWithPrice | Cancelled | Deleted =>
      ReductionLowers(c, f, tick);
      LoweredQty(f.book.orders, tick.ref, Taken(c, f, tick), NextBook(c, f, tick).orders);
    case Trade | Other =>
  }

  /** The quantity brought in, and the quantity taken out by messages of the given kinds. */
  ghost function Inflow(c: Setup, f: Feed, ticks: seq<Tick>): int
    requires HashInto(c.hash, |f.keys|)
  {
    if ticks == [] then 0
    else
      var n := |ticks| - 1;
      Inflow(c, f, ticks[..n]) + Brought(c, After(c, f, ticks[..n]), ticks[n])
  }

  ghost function Outflow(c: Setup, f: Feed, ticks: seq<Tick>, kinds: set<Kind>): int
    requires HashInto(c.hash, |f.keys|)
  {
    if ticks == [] then 0
    else
      var n := |ticks| - 1;
      Outflow(c, f, ticks[..n], kinds) + if ticks[n].kind in kinds then Taken(c, After(c, f, ticks[..n]), ticks[n]) else 0
  }

  /** Over every feed from the empty book, the quantity entered is what is open, executed,
      cancelled, deleted and replaced; and no order rests with nothing left of it. */
  lemma {:induction false} QuantityConserved(c: Setup, keys: seq<nat>, ticks: seq<Tick>)
    requires HashInto(c.hash, |keys|)
    ensures var f := Feed(EMPTY_BOOK, keys);
            && Positive(After(c, f, ticks).book)
            && Inflow(c, f, ticks) ==
               OpenQty(After(c, f, ticks).book.orders) + Outflow(c, f, ticks, {Executed, ExecutedWithPrice}) +
               Outflow(c, f, ticks, {Cancelled}) + Outflow(c, f, ticks, {Deleted}) + Outflow(c, f, ticks, {Replaced})
  {
    if ticks != [] {
      var n := |ticks| - 1;
      QuantityConserved(c, keys, ticks[..n]);
      NextConserves(c, After(c, Feed(EMPTY_BOOK, keys), ticks[..n]), ticks[n]);
    }
  }

  // ----- where the two answers part -----

  /** An add on a table without live keys goes to its home slot, if that is empty. */
  lemma HomeAdd(c: Setup, keys: seq<nat>, add: Tick)
    requires HashInto(c.hash, |keys|) && NoneLive(keys) && 0 < c.window <= |keys| && 0 < c.maxEntries
    requires 0 < c.symbols && 0 < c.levels && 0 < c.slots && GoodAdd(add) && keys[c.hash(add.ref)] == EMPTY
    ensures Next(c, Feed(EMPTY_BOOK, keys), add) ==
            Feed(Enter(EMPTY_BOOK, add.ref, Order(RowOf(0, add.buy), add.price, add.qty)), keys[c.hash(add.ref) := add.ref])
  {
    var f, h := Feed(EMPTY_BOOK, keys), c.hash(add.ref);
    assert Takes(c, f, add.ref) by { assert Dist(h, h, |keys|) < c.window; }
    assert Prices(EMPTY_BOOK, RowOf(0, add.buy)) == {};
    NextAdd(c, f, add);
    NearestIs(keys, h, 0, h);
  }

  ghost predicate NoneLive(keys: seq<nat>) { forall j :: 0 <= j < |keys| ==> !Live(keys[j]) }

  /** An add that nothing but the table can refuse. */
  predicate GoodAdd(add: Tick) {
    add.symbol == 0 && add.kind == AddOrder && ValidQty(add.qty) && ValidPrice(add.price) && Live(add.ref)
  }

  /** An order that comes and goes leaves a tombstone in its home slot and the book as empty as
      before. */
  lemma ComesAndGoes(c: Setup, keys: seq<nat>, add: Tick, del: Tick)
    requires HashInto(c.hash, |keys|) && NoneLive(keys) && 0 < c.window <= |keys| && 0 < c.maxEntries
    requires 0 < c.symbols && 0 < c.levels && 0 < c.slots && GoodAdd(add) && keys[c.hash(add.ref)] == EMPTY
    requires del.kind == Deleted && del.symbol == 0 && del.ref == add.ref
    ensures Next(c, Next(c, Feed(EMPTY_BOOK, keys), add), del) == Feed(EMPTY_BOOK, keys[c.hash(add.ref) := TOMBSTONE])
  {
    var h, o := c.hash(add.ref), Order(RowOf(0, add.buy), add.price, add.qty);
    HomeAdd(c, keys, add);
    EnterThenLeave(EMPTY_BOOK, add.ref, o);
    NextReduction(c, Next(c, Feed(EMPTY_BOOK, keys), add), del);
    KeyLeaves(keys, h, add.ref);
  }

  lemma KeyLeaves(keys: seq<nat>, h: nat, ref: nat)
    requires h < |keys| && NoneLive(keys) && Live(ref)
    ensures Vacated(keys[h := ref], ref) == keys[h := TOMBSTONE]
  {
    var r := Vacated(keys[h := ref], ref);
    forall j | 0 <= j < |keys| ensures r[j] == if j == h then TOMBSTONE else keys[j] {}
  }

  /** Orders under these references come and go, one after the other. */
  function Churn(add: Tick, del: Tick, refs: seq<nat>): seq<Tick> {
    if refs == [] then []
    else Churn(add, del, refs[..|refs| - 1]) + [add.(ref := refs[|refs| - 1]), del.(ref := refs[|refs| - 1])]
  }

  lemma AfterOne(c: Setup, f: Feed, ticks: seq<Tick>, tick: Tick)
    requires HashInto(c.hash, |f.keys|)
    ensures After(c, f, ticks + [tick]) == Next(c, After(c, f, ticks), tick)
  {
    assert (ticks + [tick])[..|ticks|] == ticks;
  }

  lemma AfterTwo(c: Setup, f: Feed, ticks: seq<Tick>, first: Tick, second: Tick)
    requires HashInto(c.hash, |f.keys|)
    ensures After(c, f, ticks + [first, second]) == Next(c, Next(c, After(c, f, ticks), first), second)
  {
    assert ticks + [first, second] == (ticks + [first]) + [second];
    AfterOne(c, f, ticks + [first], second);
    AfterOne(c, f, ticks, first);
  }

  /** Tombstones in the first `n` slots of the path from `h`, and all else empty. */
  ghost predicate Spent(keys: seq<nat>, h: nat, n: nat)
    requires h < |keys|
  {
    forall j :: 0 <= j < |keys| ==> keys[j] == if Dist(h, j, |keys|) < n then TOMBSTONE else EMPTY
  }

  lemma SpendOne(keys: seq<nat>, h: nat, n: nat)
    requires h < |keys| && n < |keys| && Spent(keys, h, n)
    ensures NoneLive(keys) && keys[At(h, n, |keys|)] == EMPTY && Spent(keys[At(h, n, |keys|) := TOMBSTONE], h, n + 1)
  {}

  /** The references hash to successive slots of the path from `h`. */
  ghost predicate Spread(c: Setup, refs: seq<nat>, h: nat, cap: nat)
    requires h < cap && |refs| <= cap
  {
    forall k :: 0 <= k < |refs| ==> Live(refs[k]) && c.hash(refs[k]) == At(h, k, cap)
  }

  lemma {:induction false} ChurnSpends(c: Setup, keys: seq<nat>, add: Tick, del: Tick, refs: seq<nat>, h: nat)
    requires HashInto(c.hash, |keys|) && 0 < c.window <= |keys| && 0 < c.maxEntries && h < |keys| && Spent(keys, h, 0)
    requires 0 < c.symbols && 0 < c.levels && 0 < c.slots && |refs| <= c.window && Spread(c, refs, h, |keys|)
    requires GoodAdd(add) && del.kind == Deleted && del.symbol == 0
    ensures var f := After(c, Feed(EMPTY_BOOK, keys), Churn(add, del, refs));
            f.book == EMPTY_BOOK && Spent(f.keys, h, |refs|)
  {
    if refs != [] {
      var n := |refs| - 1;
      ChurnSpends(c, keys, add, del, refs[..n], h);
      var start, most := Feed(EMPTY_BOOK, keys), Churn(add, del, refs[..n]);
      var first, second := add.(ref := refs[n]), del.(ref := refs[n]);
      var now := After(c, start, most).keys;
      AfterTwo(c, start, most, first, second);
      SpendOne(now, h, n);
      ComesAndGoes(c, now, first, second);
    }
  }

  /** The two answers differ, for every window: once an order has come and gone in each slot of a
      window, the table takes any reference of that window in an add, and in a replacement none,
      then or ever after. */
  lemma AddTakesWhatReplaceRefuses(c: Setup, keys: seq<nat>, add: Tick, del: Tick, refs: seq<nat>, ref: nat, more: seq<Tick>)
    requires HashInto(c.hash, |keys|) && 0 < c.window <= |keys| && 0 < c.maxEntries && Used(keys) == {}
    requires 0 < c.symbols && 0 < c.levels && 0 < c.slots && |refs| == c.window && Spread(c, refs, c.hash(ref), |keys|)
    requires GoodAdd(add) && del.kind == Deleted && del.symbol == 0 && Live(ref)
    ensures var f := After(c, Feed(EMPTY_BOOK, keys), Churn(add, del, refs));
            Takes(c, f, ref) && ref !in f.book.orders && !Admits(c, After(c, f, more), ref)
  {
    var h := c.hash(ref);
    forall j | 0 <= j < |keys| ensures keys[j] == EMPTY { assert j !in Used(keys); }
    ChurnSpends(c, keys, add, del, refs, h);
    var f := After(c, Feed(EMPTY_BOOK, keys), Churn(add, del, refs));
    assert f.keys[h] == TOMBSTONE && Dist(h, h, |keys|) < c.window;
    RefusedForGood(c, f, more, ref);
  }
}
