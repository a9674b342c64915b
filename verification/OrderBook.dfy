/** The limit order book engine: level storage plus reference map, driven by feed messages,
    proved to maintain the book of `BookSpec`. */
module OrderBook {
  import Finite
  import opened BookSpec
  import opened PL = PriceLevels
  import opened BookRep
  import opened RM = OrderRefMap
  import Arena
  import BookFeed

  // ----- refreshing the map after a block move -----

  /** The new level of a location on moved levels: one deeper, or one shallower. */
  function NewLevel(level: nat, up: bool): int {
    if up then level - 1 else level + 1
  }

  /** A location on row `b` whose new level lies in `first..last`, or is `last` with a slot below `k`. */
  predicate Due(loc: Location, b: nat, first: nat, last: nat, k: nat, up: bool) {
    loc.row == b && first <= NewLevel(loc.level, up) &&
    (NewLevel(loc.level, up) < last || (NewLevel(loc.level, up) == last && loc.slot < k))
  }

  function MovedLoc(loc: Location, b: nat, first: nat, last: nat, k: nat, up: bool): Location {
    if Due(loc, b, first, last, k, up) then loc.(level := NewLevel(loc.level, up)) else loc
  }

  /** `now` is `m` with the locations due by then moved. */
  ghost predicate Moved(m: map<nat, Location>, now: map<nat, Location>,
                        b: nat, first: nat, last: nat, k: nat, up: bool) {
    now.Keys == m.Keys && forall ref {:trigger now[ref]} :: ref in m ==> now[ref] == MovedLoc(m[ref], b, first, last, k, up)
  }

  /** The levels `first..last` of row `b` hold what the map still places one level off. */
  ghost predicate Stale(rows: seq<Row>, m: map<nat, Location>, b: nat, first: nat, last: nat, slots: nat, up: bool) {
    && b < |rows| && first <= last <= |rows[b]|
    && (forall l {:trigger rows[b][l]} :: first <= l < last ==> |rows[b][l].orders| == slots)
    && (forall l, k {:trigger StaleSlot(rows, m, b, l, k, up)} ::
          first <= l < last && 0 <= k < slots ==> StaleSlot(rows, m, b, l, k, up))
    && (forall ref {:trigger StaleRef(rows, m, b, ref, up)} ::
          ref in m && Due(m[ref], b, first, last, 0, up) ==> m[ref].slot < slots && StaleRef(rows, m, b, ref, up))
  }

  ghost predicate StaleSlot(rows: seq<Row>, m: map<nat, Location>, b: nat, l: nat, k: nat, up: bool)
    requires b < |rows| && l < |rows[b]| && k < |rows[b][l].orders|
  {
    var slot := rows[b][l].orders[k];
    slot.active ==> slot.id in m && m[slot.id].row == b && NewLevel(m[slot.id].level, up) == l && m[slot.id].slot == k
  }

  ghost predicate StaleRef(rows: seq<Row>, m: map<nat, Location>, b: nat, ref: nat, up: bool)
    requires b < |rows| && ref in m
  {
    var l := NewLevel(m[ref].level, up);
    0 <= l < |rows[b]| && m[ref].slot < |rows[b][l].orders| && rows[b][l].orders[m[ref].slot].active &&
    rows[b][l].orders[m[ref].slot].id == ref
  }

  lemma MovedStep(rows: seq<Row>, m: map<nat, Location>, now: map<nat, Location>, b: nat, first: nat, last: nat,
                  slots: nat, up: bool, l: nat, k: nat)
    requires Stale(rows, m, b, first, last, slots, up) && first <= l < last && k < slots
    requires Moved(m, now, b, first, l, k, up)
    ensures var slot := rows[b][l].orders[k];
            if slot.active then slot.id in now && Moved(m, now[slot.id := Location(b, l, k)], b, first, l, k + 1, up)
            else Moved(m, now, b, first, l, k + 1, up)
  {
    var slot := rows[b][l].orders[k];
    assert StaleSlot(rows, m, b, l, k, up);
    forall ref | ref in m && Due(m[ref], b, first, l, k + 1, up) && !Due(m[ref], b, first, l, k, up)
      ensures slot.active && ref == slot.id
    {
      assert StaleRef(rows, m, b, ref, up);
    }
  }

  lemma MovedRow(rows: seq<Row>, m: map<nat, Location>, now: map<nat, Location>, b: nat, first: nat, last: nat,
                 slots: nat, up: bool, l: nat)
    requires Stale(rows, m, b, first, last, slots, up) && first <= l < last
    requires Moved(m, now, b, first, l, slots, up)
    ensures Moved(m, now, b, first, l + 1, 0, up)
  {
    forall ref | ref in m && Due(m[ref], b, first, l + 1, 0, up) ensures Due(m[ref], b, first, l, slots, up) {
      assert StaleRef(rows, m, b, ref, up);
    }
  }

  lemma LevelSize(rows: seq<Row>, m: map<nat, Location>, book: Book, slots: nat, b: nat, l: nat)
    requires Rep(rows, m, book, slots) && b < |rows| && l < |rows[b]|
    ensures |rows[b][l].orders| == slots
  {
    assert LevelOk(rows, book, slots, b, l);
  }

  lemma RefLands(rows: seq<Row>, m: map<nat, Location>, book: Book, slots: nat, ref: nat)
    requires Rep(rows, m, book, slots) && ref in m
    ensures InRange(rows, m[ref]) && m[ref].slot < slots
    ensures SlotAt(rows, m[ref]).active && SlotAt(rows, m[ref]).id == ref
  {
    assert RefOk(rows, m, book, ref);
    LevelSize(rows, m, book, slots, m[ref].row, m[ref].level);
  }

  /** Row `b` of `now` is row `b` of `rows` with the levels `first..last` moved by one. */
  ghost predicate Shifted(rows: seq<Row>, now: seq<Row>, b: nat, first: nat, last: nat, up: bool) {
    && b < |rows| == |now| && first <= last <= |now[b]|
    && forall l {:trigger now[b][l]} :: first <= l < last ==>
         var from := if up then l + 1 else l - 1;
         0 <= from < |rows[b]| && now[b][l] == rows[b][from]
  }

  lemma ShiftedIsStale(rows: seq<Row>, now: seq<Row>, m: map<nat, Location>, book: Book, slots: nat,
                       b: nat, first: nat, last: nat, up: bool)
    requires Rep(rows, m, book, slots) && Shifted(rows, now, b, first, last, up)
    ensures Stale(now, m, b, first, last, slots, up)
  {
    forall l | first <= l < last ensures |now[b][l].orders| == slots {
      var lvl := now[b][l];
      LevelSize(rows, m, book, slots, b, if up then l + 1 else l - 1);
    }
    forall l, k | first <= l < last && 0 <= k < slots ensures StaleSlot(now, m, b, l, k, up) {
      var lvl := now[b][l];
      assert SlotOk(rows, m, Location(b, if up then l + 1 else l - 1, k));
    }
    forall ref | ref in m && Due(m[ref], b, first, last, 0, up)
      ensures m[ref].slot < slots && StaleRef(now, m, b, ref, up)
    {
      RefLands(rows, m, book, slots, ref);
      assert now[b][NewLevel(m[ref].level, up)] == rows[b][m[ref].level];
    }
  }

  lemma StaleAfterInsert(rows: seq<Row>, big: seq<Row>, m: map<nat, Location>, book: Book, slots: nat,
                         b: nat, pos: nat, price: int, first: nat, last: nat)
    requires Rep(rows, m, book, slots) && b < |rows| && pos <= |rows[b]| && first == pos + 1 && last == |rows[b]| + 1
    requires big == Spliced(rows, b, pos, Fresh(slots, price))
    ensures Stale(big, m, b, first, last, slots, false)
  {
    assert Shifted(rows, big, b, first, last, false);
    ShiftedIsStale(rows, big, m, book, slots, b, first, last, false);
  }

  lemma StaleAfterRemove(rows: seq<Row>, small: seq<Row>, m: map<nat, Location>, book: Book, slots: nat,
                         b: nat, pos: nat, last: nat)
    requires Rep(rows, m, book, slots) && b < |rows| && pos < |rows[b]| && last == |rows[b]| - 1
    requires small == rows[b := Remove(rows[b], pos)]
    ensures Stale(small, m, b, pos, last, slots, true)
  {
    assert Shifted(rows, small, b, pos, last, true);
    ShiftedIsStale(rows, small, m, book, slots, b, pos, last, true);
  }

  lemma MovedIsDown(rows: seq<Row>, m: map<nat, Location>, now: map<nat, Location>, book: Book, slots: nat, b: nat, pos: nat)
    requires Rep(rows, m, book, slots) && b < |rows| && pos <= |rows[b]|
    requires Moved(m, now, b, pos + 1, |rows[b]| + 1, 0, false)
    ensures now == Down(m, b, pos)
  {
    forall ref | ref in m ensures now[ref] == DownLoc(m[ref], b, pos) { RefLands(rows, m, book, slots, ref); }
  }

  lemma MovedIsUp(rows: seq<Row>, m: map<nat, Location>, now: map<nat, Location>, book: Book, slots: nat, b: nat, pos: nat)
    requires Rep(rows, m, book, slots) && b < |rows| && pos < |rows[b]|
    requires Moved(m, now, b, pos, |rows[b]| - 1, 0, true)
    ensures now == Up(m, b, pos + 1)
  {
    forall ref | ref in m ensures now[ref] == UpLoc(m[ref], b, pos + 1) { RefLands(rows, m, book, slots, ref); }
  }

  ghost predicate NoEmptyBut(rows: seq<Row>, b: nat, l: nat) {
    forall c, i {:trigger HasOrders(rows, c, i)} :: 0 <= c < |rows| && 0 <= i < |rows[c]| && (c, i) != (b, l) ==>
      HasOrders(rows, c, i)
  }

  lemma NoneEmptyAfterRemove(rows: seq<Row>, b: nat, l: nat)
    requires b < |rows| && l < |rows[b]| && NoEmptyBut(rows, b, l)
    ensures NoEmptyLevel(rows[b := Remove(rows[b], l)])
  {
    var small: seq<Row> := rows[b := Remove(rows[b], l)];
    forall c, i | 0 <= c < |small| && 0 <= i < |small[c]| ensures HasOrders(small, c, i) {
      assert HasOrders(rows, c, if c == b && i >= l then i + 1 else i);
    }
  }

  lemma NoneEmptyAfterInsert(rows: seq<Row>, b: nat, l: nat, lvl: PriceLevel)
    requires NoEmptyLevel(rows) && b < |rows| && l <= |rows[b]|
    ensures NoEmptyBut(Spliced(rows, b, l, lvl), b, l)
  {
    var big := Spliced(rows, b, l, lvl);
    forall c, i | 0 <= c < |big| && 0 <= i < |big[c]| && (c, i) != (b, l) ensures HasOrders(big, c, i) {
      assert HasOrders(rows, c, if c == b && i > l then i - 1 else i);
    }
  }

  /** A level put in place of another leaves the others' orders alone. */
  lemma NoneEmptyAfterPut(rows: seq<Row>, b: nat, l: nat, lvl: PriceLevel)
    requires b < |rows| && l < |rows[b]| && NoEmptyBut(rows, b, l)
    ensures NoEmptyBut(Put(rows, b, l, lvl), b, l)
    ensures Chain(lvl) != [] ==> NoEmptyLevel(Put(rows, b, l, lvl))
  {
    var rows' := Put(rows, b, l, lvl);
    forall c, i | 0 <= c < |rows'| && 0 <= i < |rows'[c]| && (c, i) != (b, l) ensures HasOrders(rows', c, i) {
      assert HasOrders(rows, c, i);
    }
  }

  /** A new empty level, once the locations behind it have moved down. */
  lemma InsertLands(rows: seq<Row>, big: seq<Row>, m: map<nat, Location>, now: map<nat, Location>, book: Book, slots: nat,
                    b: nat, pos: nat, price: int, first: nat, last: nat)
    requires Rep(rows, m, book, slots) && NoEmptyLevel(rows) && b < |rows| && Between(b, rows[b], pos, price)
    requires big == Spliced(rows, b, pos, Fresh(slots, price)) && first == pos + 1 && last == |rows[b]| + 1
    requires Moved(m, now, b, first, last, 0, false)
    ensures Rep(big, now, book, slots) && NoEmptyBut(big, b, pos) && |big| == |rows|
    ensures pos < |big[b]| && big[b][pos] == Fresh(slots, price)
  {
    InsertKeeps(rows, m, book, slots, b, pos, price);
    MovedIsDown(rows, m, now, book, slots, b, pos);
    NoneEmptyAfterInsert(rows, b, pos, Fresh(slots, price));
  }

  /** An empty level gone, once the locations behind it have moved up. */
  lemma RemoveLands(rows: seq<Row>, small: seq<Row>, m: map<nat, Location>, now: map<nat, Location>, book: Book, slots: nat,
                    b: nat, l: nat, last: nat)
    requires Rep(rows, m, book, slots) && b < |rows| && l < |rows[b]| && NoEmptyBut(rows, b, l)
    requires small == rows[b := Remove(rows[b], l)] && last == |rows[b]| - 1
    requires Chain(rows[b][l]) == [] && Moved(m, now, b, l, last, 0, true)
    ensures Rep(small, now, book, slots) && NoEmptyLevel(small) && |small| == |rows|
  {
    RemoveKeeps(rows, m, book, slots, b, l);
    MovedIsUp(rows, m, now, book, slots, b, l);
    NoneEmptyAfterRemove(rows, b, l);
  }

  /** Rows without levels stand for the empty book. */
  lemma EmptyRep(rows: seq<Row>, slots: nat)
    requires forall b :: 0 <= b < |rows| ==> rows[b] == []
    ensures Rep(rows, map[], EMPTY_BOOK, slots) && NoEmptyLevel(rows)
  {}

  lemma UnusedKeys(keys: seq<nat>)
    requires forall j :: 0 <= j < |keys| ==> keys[j] == EMPTY
    ensures Used(keys) == {}
  {}

  lemma PutBack(rows: seq<Row>, b: nat, l: nat, r: PriceLevel)
    requires b < |rows| && l < |rows[b]|
    ensures Put(Put(rows, b, l, r), b, l, rows[b][l]) == rows
  {
    assert rows[b][l := r][l := rows[b][l]] == rows[b];
  }

  lemma LevelCount(rows: seq<Row>, m: map<nat, Location>, book: Book, slots: nat, b: nat, l: nat)
    requires Rep(rows, m, book, slots) && b < |rows| && l < |rows[b]|
    ensures rows[b][l].orderCount == |Chain(rows[b][l])| == |Queue(book, PriceKey(b, rows[b][l].price))|
    ensures WellFormed(rows[b][l]) && |rows[b][l].orders| == slots
  {
    assert LevelOk(rows, book, slots, b, l);
  }

  /** Without empty levels, the levels of a row are the prices of the book. */
  lemma DepthIs(rows: seq<Row>, m: map<nat, Location>, book: Book, slots: nat, b: nat, price: int)
    requires Rep(rows, m, book, slots) && NoEmptyLevel(rows) && b < |rows|
    ensures PriceKey(b, price) in book.queues <==> HasPrice(rows[b], price)
    ensures |Prices(book, b)| == |rows[b]|
  {
    var row := rows[b];
    var ps := seq(|row|, i requires 0 <= i < |row| => row[i].price);
    assert RowSorted(b, row);
    forall i, j | 0 <= i < j < |ps| ensures ps[i] != ps[j] {
      assert Better(b, row[i].price, row[j].price);
    }
    Finite.DistinctSize(ps);
    forall i | 0 <= i < |row| ensures PriceKey(b, row[i].price) in book.queues {
      assert HasOrders(rows, b, i);
      LevelCount(rows, m, book, slots, b, i);
    }
    forall key | key in book.queues ensures key.row < |rows| && HasPrice(rows[key.row], key.price) {
      assert KeyOk(rows, book, key);
    }
    assert Finite.Elems(ps) == Prices(book, b) by {
      forall p | p in Prices(book, b) ensures p in ps {
        assert PriceKey(b, p) in book.queues;
        var i :| 0 <= i < |row| && row[i].price == p;
        assert ps[i] == p;
      }
    }
  }

  /** The levels of a row list its prices best first. */
  lemma RowPrices(rows: seq<Row>, m: map<nat, Location>, book: Book, slots: nat, b: nat) returns (ps: seq<int>)
    requires Rep(rows, m, book, slots) && NoEmptyLevel(rows) && b < |rows|
    ensures BestFirst(book, b, ps) && |ps| == |rows[b]|
    ensures forall i :: 0 <= i < |ps| ==> ps[i] == rows[b][i].price
  {
    var row := rows[b];
    ps := seq(|row|, i requires 0 <= i < |row| => row[i].price);
    assert RowSorted(b, row);
    forall i | 0 <= i < |row| ensures PriceKey(b, row[i].price) in book.queues {
      DepthIs(rows, m, book, slots, b, row[i].price);
    }
    forall p | p in Prices(book, b) ensures p in ps {
      DepthIs(rows, m, book, slots, b, p);
      var i :| 0 <= i < |row| && row[i].price == p;
      assert ps[i] == p;
    }
  }

  /** The reference table maps exactly the orders of the book. */
  lemma SameRefs(rows: seq<Row>, m: map<nat, Location>, book: Book, slots: nat)
    requires Rep(rows, m, book, slots)
    ensures m.Keys == book.orders.Keys
  {}

  /** The levels of a row are the prices of its orders. */
  lemma RowOrders(rows: seq<Row>, m: map<nat, Location>, book: Book, slots: nat, b: nat)
    requires Rep(rows, m, book, slots) && NoEmptyLevel(rows) && b < |rows|
    ensures forall r :: r in book.orders && book.orders[r].row == b ==> HasPrice(rows[b], book.orders[r].price)
    ensures forall l {:trigger rows[b][l]} :: 0 <= l < |rows[b]| ==> RestsAt(book, b, rows[b][l].price)
  {
    forall r | r in book.orders && book.orders[r].row == b ensures HasPrice(rows[b], book.orders[r].price) {
      assert RefOk(rows, m, book, r);
    }
    forall l {:trigger rows[b][l]} | 0 <= l < |rows[b]| ensures RestsAt(book, b, rows[b][l].price) {
      var lvl := rows[b][l];
      assert HasOrders(rows, b, l) && LevelOk(rows, book, slots, b, l);
      var k := Chain(lvl)[0];
      assert FilledAt(lvl.orders, Chain(lvl), k);
      SlotHolds(rows, m, book, slots, Location(b, l, k));
    }
  }

  /** Some order of the row rests at this price. */
  ghost predicate RestsAt(book: Book, row: nat, price: int) {
    exists r :: r in book.orders && book.orders[r].row == row && book.orders[r].price == price
  }

  /** A level's cached total is the open quantity of its queue. */
  lemma LevelQty(rows: seq<Row>, m: map<nat, Location>, book: Book, slots: nat, b: nat, l: nat)
    requires Rep(rows, m, book, slots) && b < |rows| && l < |rows[b]|
    ensures rows[b][l].totalQty == QtyOf(book, Queue(book, PriceKey(b, rows[b][l].price)))
  {
    assert LevelOk(rows, book, slots, b, l);
    var orders, ch := rows[b][l].orders, Chain(rows[b][l]);
    forall i | 0 <= i < |ch|
      ensures orders[ch[i]].id in book.orders && book.orders[orders[ch[i]].id].qty == orders[ch[i]].qty
    {
      assert FilledAt(orders, ch, ch[i]);
      SlotHolds(rows, m, book, slots, Location(b, l, ch[i]));
    }
    SumIsQty(orders, ch, book);
  }

  lemma DepthStep(rows: seq<Row>, m: map<nat, Location>, book: Book, slots: nat, b: nat, ps: seq<int>, i: nat)
    requires Rep(rows, m, book, slots) && b < |rows| && i < |ps| == |rows[b]| && ps[i] == rows[b][i].price
    ensures DepthQty(book, b, ps[..i + 1]) == DepthQty(book, b, ps[..i]) + rows[b][i].totalQty
  {
    LevelQty(rows, m, book, slots, b, i);
    DepthGrows(book, b, ps, i);
  }

  lemma {:induction false} SumIsQty(orders: seq<OrderSlot>, ch: seq<nat>, book: Book)
    requires Within(orders, ch)
    requires forall i :: 0 <= i < |ch| ==>
               orders[ch[i]].id in book.orders && book.orders[orders[ch[i]].id].qty == orders[ch[i]].qty
    ensures SumQty(orders, ch) == QtyOf(book, Ids(orders, ch))
  {
    if ch != [] {
      var front := ch[..|ch| - 1];
      SumIsQty(orders, front, book);
      assert Ids(orders, ch)[..|ch| - 1] == Ids(orders, front);
    }
  }

  class Engine {
    const symbols: nat
    const arena: Arena.Levels
    const table: Table
    ghost var book: Book

    ghost function Footprint(): set<object> {
      {this, arena, arena.levels, arena.counts, table, table.keys, table.values}
    }

    ghost predicate Shape()
      reads this, arena, arena.levels, arena.counts, table, table.keys, table.values
    {
      && arena.Valid() && table.Valid() && arena.counts != table.keys
      && table.rows == |arena.rows| == 2 * symbols && table.levels == arena.levels.Length1 && table.slots == arena.slots
      && 0 < arena.slots && arena.slots * MAX_QTY <= MAX_I64
    }

    /** Storage and map represent the book; levels may be empty. */
    ghost predicate Represents()
      reads this, arena, arena.levels, arena.counts, table, table.keys, table.values
    {
      Shape() && Rep(arena.rows, table.contents, book, arena.slots)
    }

    ghost predicate Valid()
      reads this, arena, arena.levels, arena.counts, table, table.keys, table.values
    {
      Represents() && NoEmptyLevel(arena.rows)
    }

    ghost function Setup(): BookFeed.Setup
    {
      BookFeed.Setup(symbols, arena.levels.Length1, arena.slots, table.hash, table.window, table.maxEntries)
    }

    ghost function Now(): BookFeed.Feed
      reads this, table
    {
      BookFeed.Feed(book, table.slotKeys)
    }

    /** The table's answers are those of the feed. */
    lemma AnswersAgree(ref: nat)
      requires Valid()
      ensures HashInto(table.hash, |table.slotKeys|) && table.count == |book.orders|
      ensures table.Takes(ref) == BookFeed.Takes(Setup(), Now(), ref)
    {}

    /** Rewrites the map entries of all orders on levels `first..last` of row `b`. */
    method RefreshLevelLocations(b: nat, first: nat, last: nat, ghost up: bool)
      requires arena.Valid() && table.Valid()
      requires Stale(arena.rows, table.contents, b, first, last, arena.slots, up)
      modifies table`contents, table.values
      ensures table.Valid() && Moved(old(table.contents), table.contents, b, first, last, 0, up)
    {
      ghost var m := table.contents;
      var l := first;
      while l < last
        invariant first <= l <= last && table.Valid() && Moved(m, table.contents, b, first, l, 0, up)
      {
        var lvl := arena.Get(b, l);
        RefreshLevel(lvl.orders, b, l, arena.rows, m, first, last, up);
        MovedRow(arena.rows, m, table.contents, b, first, last, arena.slots, up, l);
        l := l + 1;
      }
    }

    method RefreshLevel(orders: seq<OrderSlot>, b: nat, l: nat, ghost rows: seq<Row>,
                        ghost m: map<nat, Location>, ghost first: nat, ghost last: nat, ghost up: bool)
      requires table.Valid() && Stale(rows, m, b, first, last, |orders|, up)
      requires first <= l < last && orders == rows[b][l].orders && Moved(m, table.contents, b, first, l, 0, up)
      modifies table`contents, table.values
      ensures table.Valid() && Moved(m, table.contents, b, first, l, |orders|, up)
    {
      var k := 0;
      while k < |orders|
        invariant 0 <= k <= |orders| && table.Valid() && Moved(m, table.contents, b, first, l, k, up)
      {
        RefreshSlot(orders[k], b, l, k, rows, m, first, last, |orders|, up);
        k := k + 1;
      }
    }

    method RefreshSlot(slot: OrderSlot, b: nat, l: nat, k: nat, ghost rows: seq<Row>, ghost m: map<nat, Location>,
                       ghost first: nat, ghost last: nat, ghost slots: nat, ghost up: bool)
      requires table.Valid() && Stale(rows, m, b, first, last, slots, up)
      requires first <= l < last && k < slots && slot == rows[b][l].orders[k]
      requires Moved(m, table.contents, b, first, l, k, up)
      modifies table`contents, table.values
      ensures table.Valid() && Moved(m, table.contents, b, first, l, k + 1, up)
    {
      MovedStep(rows, m, table.contents, b, first, last, slots, up, l, k);
      if slot.active {
        Touch(slot.id, Location(b, l, k));
      }
    }

    /** Overwrites the location of a reference, if it is mapped. */
    method Touch(ref: nat, loc: Location)
      requires table.Valid()
      modifies table`contents, table.values
      ensures table.Valid()
      ensures table.contents == if ref in old(table.contents) then old(table.contents)[ref := loc] else old(table.contents)
    {
      var slot := table.Lookup(ref);
      if slot >= 0 { table.Relocate(slot, loc); }
    }

    constructor (symbols: nat, depth: nat, slots: nat, capacity: nat, hash: nat -> nat, window: nat, maxEntries: nat)
      requires 0 < slots && slots * MAX_QTY <= MAX_I64 && window <= capacity && HashInto(hash, capacity)
      ensures Valid() && book == EMPTY_BOOK && fresh(Footprint() - {this})
      ensures Setup() == BookFeed.Setup(symbols, depth, slots, hash, window, maxEntries)
      ensures |table.slotKeys| == capacity && Used(table.slotKeys) == {}
    {
      this.symbols := symbols;
      arena := new Arena.Levels(2 * symbols, depth, slots);
      table := new Table(capacity, hash, window, maxEntries, 2 * symbols, depth, slots);
      book := EMPTY_BOOK;
      new;
      EmptyRep(arena.rows, slots);
      UnusedKeys(table.slotKeys);
    }

    /** Adds an empty level for a new price; -1 when the row is at maximum depth. */
    method InsertLevel(b: nat, price: int) returns (pos: int)
      requires Valid() && b < |arena.rows| && !HasPrice(arena.rows[b], price)
      modifies arena, arena.levels, arena.counts, table`contents, table.values
      ensures pos < 0 <==> |old(arena.rows)[b]| >= arena.levels.Length1
      ensures pos < 0 ==> Valid() && arena.rows == old(arena.rows)
      ensures pos >= 0 ==> Represents() && |arena.rows| == |old(arena.rows)| && pos < |arena.rows[b]|
                           && arena.rows[b][pos] == Fresh(arena.slots, price) && NoEmptyBut(arena.rows, b, pos)
    {
      var count := arena.Count(b);
      if count >= arena.levels.Length1 { return -1; }
      assert RowSorted(b, arena.rows[b]);
      pos := arena.InsertionPoint(b, price);
      InsertLevelAt(b, pos, price, count);
    }

    method InsertLevelAt(b: nat, pos: nat, price: int, count: nat)
      requires Valid() && b < |arena.rows| && Between(b, arena.rows[b], pos, price)
      requires count == |arena.rows[b]| < arena.levels.Length1
      modifies arena, arena.levels, arena.counts, table`contents, table.values
      ensures Represents() && |arena.rows| == |old(arena.rows)| && pos < |arena.rows[b]|
      ensures arena.rows[b][pos] == Fresh(arena.slots, price) && NoEmptyBut(arena.rows, b, pos)
    {
      ghost var rows, m := arena.rows, table.contents;
      arena.InsertAt(b, pos, price);
      ghost var big := arena.rows;
      var first, last := pos + 1, count + 1;
      StaleAfterInsert(rows, big, m, book, arena.slots, b, pos, price, first, last);
      RefreshLevelLocations(b, first, last, false);
      InsertLands(rows, big, m, table.contents, book, arena.slots, b, pos, price, first, last);
    }

    /** Drops the level if it has no orders left; the book is unaffected. */
    method RemoveLevelIfEmpty(b: nat, l: nat)
      requires Represents() && b < |arena.rows| && l < |arena.rows[b]| && NoEmptyBut(arena.rows, b, l)
      modifies arena, arena.levels, arena.counts, table`contents, table.values
      ensures Valid()
    {
      LevelCount(arena.rows, table.contents, book, arena.slots, b, l);
      var lvl := arena.Get(b, l);
      if lvl.orderCount > 0 {
        assert HasOrders(arena.rows, b, l);
      } else {
        RemoveLevel(b, l);
      }
    }

    method RemoveLevel(b: nat, l: nat)
      requires Represents() && b < |arena.rows| && l < |arena.rows[b]| && NoEmptyBut(arena.rows, b, l)
      requires Chain(arena.rows[b][l]) == []
      modifies arena, arena.levels, arena.counts, table`contents, table.values
      ensures Valid()
    {
      ghost var rows, m := arena.rows, table.contents;
      var count := arena.Count(b);
      arena.RemoveAt(b, l);
      ghost var small := arena.rows;
      var last := count - 1;
      StaleAfterRemove(rows, small, m, book, arena.slots, b, l, last);
      RefreshLevelLocations(b, l, last, true);
      RemoveLands(rows, small, m, table.contents, book, arena.slots, b, l, last);
    }

    /** The level of a price, added if need be; -1 when that would exceed the depth. */
    method LevelFor(b: nat, price: int) returns (l: int)
      requires Valid() && b < |arena.rows|
      modifies arena, arena.levels, arena.counts, table`contents, table.values
      ensures l < 0 ==> Valid()
      ensures l >= 0 ==> Represents() && |arena.rows| == |old(arena.rows)| && l < |arena.rows[b]|
                         && arena.rows[b][l].price == price && NoEmptyBut(arena.rows, b, l)
      ensures l < 0 <==> PriceKey(b, price) !in book.queues && |Prices(book, b)| >= arena.levels.Length1
    {
      ghost var rows, m := arena.rows, table.contents;
      DepthIs(rows, m, book, arena.slots, b, price);
      assert RowSorted(b, rows[b]);
      l := arena.FindLevel(b, price);
      if l < 0 {
        l := InsertLevel(b, price);
      }
    }

    /** Writes a level with a new order and registers the order's reference. */
    method Register(b: nat, l: nat, r: PriceLevel, k: nat, ref: nat, ghost book': Book) returns (ok: bool)
      requires Shape() && b < |arena.rows| && l < |arena.rows[b]| && k < arena.slots && ref !in table.contents
      requires Rep(Put(arena.rows, b, l, r), table.contents[ref := Location(b, l, k)], book', arena.slots)
      modifies Footprint()
      ensures Shape() && arena.rows == Put(old(arena.rows), b, l, r) && ok == old(table.Takes(ref))
      ensures table.slotKeys == if ok then Entered(old(table.slotKeys), table.hash, ref) else old(table.slotKeys)
      ensures if ok then book == book' && Represents() else book == old(book) && table.contents == old(table.contents)
    {
      assert arena.RowIs(b);
      arena.Set(b, l, r);
      ok := table.Insert(ref, Location(b, l, k));
      if ok {
        book := book';
      }
    }

    /** Takes the order just pushed off its level again. */
    method Undo(ghost rows: seq<Row>, b: nat, l: nat, k: nat, ghost ref: nat, ghost qty: int)
      requires arena.Valid() && b < |rows| == |arena.rows| && l < |rows[b]| && l < |arena.rows[b]|
      requires arena.rows == Put(rows, b, l, arena.rows[b][l]) && Pushed(rows[b][l], arena.rows[b][l], k, ref, qty)
      modifies arena`rows, arena.levels
      ensures arena.Valid() && arena.rows == rows
    {
      ghost var lvl := rows[b][l];
      var r := arena.Get(b, l);
      var back := Take(r, k, |Chain(lvl)|);
      PushThenTake(lvl, r, back, k);
      arena.Set(b, l, back);
      PutBack(rows, b, l, r);
    }

    /** Puts an order at the back of level `(b, l)`. When the level is full or the map refuses
        the reference, everything is undone, down to dropping a level added for the occasion. */
    method FillSlot(b: nat, l: nat, ref: nat, qty: int) returns (ok: bool)
      requires Represents() && b < |arena.rows| && l < |arena.rows[b]| && NoEmptyBut(arena.rows, b, l)
      requires ref !in book.orders && 0 < qty <= MAX_QTY
      modifies Footprint()
      ensures Valid()
      ensures ok <==> |Chain(old(arena.rows)[b][l])| < arena.slots && old(table.Takes(ref))
      ensures book == if ok then Enter(old(book), ref, Order(b, old(arena.rows)[b][l].price, qty)) else old(book)
      ensures table.slotKeys == if ok then Entered(old(table.slotKeys), table.hash, ref) else old(table.slotKeys)
    {
      ghost var rows: seq<Row> := arena.rows;
      var k, r := Pushing(b, l, ref, qty);
      if k < 0 { return false; }
      ok := Register(b, l, r, k, ref, Enter(book, ref, Order(b, rows[b][l].price, qty)));
      if !ok {
        Undo(rows, b, l, k, ref, qty);
        RemoveLevelIfEmpty(b, l);
      }
    }

    /** The level with the order appended, or -1 when every slot is taken. */
    method Pushing(b: nat, l: nat, ref: nat, qty: int) returns (k: int, r: PriceLevel)
      requires Represents() && b < |arena.rows| && l < |arena.rows[b]| && NoEmptyBut(arena.rows, b, l)
      requires ref !in book.orders && 0 < qty <= MAX_QTY
      ensures k < 0 <==> |Chain(arena.rows[b][l])| >= arena.slots
      ensures k < 0 ==> NoEmptyLevel(arena.rows)
      ensures k >= 0 ==> k < arena.slots && Pushed(arena.rows[b][l], r, k, ref, qty) && r.orders[k].bid == (b % 2 == 0)
      ensures k >= 0 ==> NoEmptyLevel(Put(arena.rows, b, l, r))
      ensures k >= 0 ==> Rep(Put(arena.rows, b, l, r), table.contents[ref := Location(b, l, k)],
                             Enter(book, ref, Order(b, arena.rows[b][l].price, qty)), arena.slots)
    {
      var lvl := arena.Get(b, l);
      LevelCount(arena.rows, table.contents, book, arena.slots, b, l);
      r := lvl;
      k := AllocSlot(lvl);
      if k >= 0 {
        r := Push(lvl, k, ref, qty, b % 2 == 0);
        PushRep(arena.rows, table.contents, book, arena.slots, b, l, r, k, ref, qty);
        NoneEmptyAfterPut(arena.rows, b, l, r);
      } else {
        assert HasOrders(arena.rows, b, l);
      }
    }

    /** Enters a new order exactly when the book has capacity for it and the map takes its
        reference; otherwise the book stays as it was. */
    method EnterOrder(b: nat, ref: nat, price: int, qty: int) returns (ok: bool)
      requires Valid() && b < |arena.rows| && ref !in book.orders && 0 < qty <= MAX_QTY
      modifies Footprint()
      ensures Valid()
      ensures ok <==> Fits(old(book), PriceKey(b, price), arena.levels.Length1, arena.slots) && old(table.Takes(ref))
      ensures book == if ok then Enter(old(book), ref, Order(b, price, qty)) else old(book)
      ensures table.slotKeys == if ok then Entered(old(table.slotKeys), table.hash, ref) else old(table.slotKeys)
    {
      ghost var key := PriceKey(b, price);
      RepNoEmptyQueue(arena.rows, table.contents, book, arena.slots);
      var l := LevelFor(b, price);
      if l < 0 { return false; }
      LevelCount(arena.rows, table.contents, book, arena.slots, b, l);
      ok := FillSlot(b, l, ref, qty);
    }

    /** Add Order: refused for a reference already in the book. */
    method OnAddOrder(b: nat, ref: nat, price: int, qty: int) returns (ok: bool)
      requires Valid() && b < |arena.rows| && 0 < qty <= MAX_QTY
      modifies Footprint()
      ensures Valid()
      ensures ok <==> ref !in old(book).orders && old(table.Takes(ref)) &&
                      Fits(old(book), PriceKey(b, price), arena.levels.Length1, arena.slots)
      ensures book == if ok then Enter(old(book), ref, Order(b, price, qty)) else old(book)
      ensures table.slotKeys == if ok then Entered(old(table.slotKeys), table.hash, ref) else old(table.slotKeys)
    {
      var slot := table.Lookup(ref);
      if slot >= 0 { return false; }
      ok := EnterOrder(b, ref, price, qty);
    }

    /** The location of an order of the book; its slot is always active and its own. */
    method Locate(ref: nat) returns (found: bool, loc: Location)
      requires Valid()
      ensures found <==> ref in book.orders
      ensures found ==> Live(ref)
      ensures found ==> ref in table.contents && loc == table.contents[ref] && InRange(arena.rows, loc)
      ensures found ==> SlotAt(arena.rows, loc).active && SlotAt(arena.rows, loc).id == ref
      ensures found ==> book.orders[ref] == Order(loc.row, arena.rows[loc.row][loc.level].price, SlotAt(arena.rows, loc).qty)
    {
      var slot := table.Lookup(ref);
      found, loc := slot >= 0, Location(0, 0, 0);
      if found {
        loc := table.values[slot];
        assert RefOk(arena.rows, table.contents, book, ref);
      }
    }

    /** Takes an order out of storage, map and book. */
    method Drop(ref: nat, loc: Location)
      requires Valid() && ref in book.orders && ref in table.contents && table.contents[ref] == loc
      modifies Footprint()
      ensures Valid() && book == Leave(old(book), ref)
      ensures table.count == old(table.count) - 1 && table.slotKeys == Vacated(old(table.slotKeys), ref)
    {
      TakeOut(ref, loc);
      RemoveLevelIfEmpty(loc.row, loc.level);
    }

    /** The same, but for the level, which may be left empty. */
    method TakeOut(ref: nat, loc: Location)
      requires Valid() && ref in book.orders && ref in table.contents && table.contents[ref] == loc
      modifies Footprint()
      ensures Represents() && book == Leave(old(book), ref)
      ensures table.count == old(table.count) - 1 && table.slotKeys == Vacated(old(table.slotKeys), ref)
      ensures loc.row < |arena.rows| && loc.level < |arena.rows[loc.row]| && NoEmptyBut(arena.rows, loc.row, loc.level)
    {
      assert RefOk(arena.rows, table.contents, book, ref);
      TakeOff(ref, loc);
      table.Remove(ref);
      book := Leave(book, ref);
    }

    /** Takes an order off its level; map and book are to follow. */
    method TakeOff(ref: nat, loc: Location)
      requires Valid() && ref in book.orders && ref in table.contents && table.contents[ref] == loc
      requires InRange(arena.rows, loc)
      modifies arena, arena.levels
      ensures arena.Valid() && |arena.rows| == |old(arena.rows)| && loc.level < |arena.rows[loc.row]|
      ensures Rep(arena.rows, table.contents - {ref}, Leave(book, ref), arena.slots)
      ensures NoEmptyBut(arena.rows, loc.row, loc.level)
    {
      ghost var rows, m := arena.rows, table.contents;
      assert RefOk(rows, m, book, ref);
      LevelCount(rows, m, book, arena.slots, loc.row, loc.level);
      var lvl := arena.Get(loc.row, loc.level);
      assert FilledAt(lvl.orders, Chain(lvl), loc.slot);
      ghost var p :| 0 <= p < |Chain(lvl)| && Chain(lvl)[p] == loc.slot;
      var r := Take(lvl, loc.slot, p);
      TakeRep(rows, m, book, arena.slots, loc.row, loc.level, r, loc.slot, p, ref);
      assert NoEmptyBut(rows, loc.row, loc.level);
      NoneEmptyAfterPut(rows, loc.row, loc.level, r);
      arena.Set(loc.row, loc.level, r);
    }

    /** Order Executed and Order Cancel: the quantity taken is clamped to what is left. */
    method OnReduce(ref: nat, qty: int)
      requires Valid()
      modifies Footprint()
      ensures Valid() && book == BookSpec.Reduce(old(book), ref, qty)
      ensures OthersSame(old(book), book, ref)
      ensures ref in old(book).orders && 0 < qty < old(book).orders[ref].qty ==>
                var o := old(book).orders[ref];
                ref in book.orders && book.orders[ref] == Order(o.row, o.price, o.qty - qty) && ref in table.contents
      ensures ref in old(book).orders && 0 < old(book).orders[ref].qty <= qty ==>
                ref !in book.orders && ref !in table.contents
      ensures table.slotKeys == if ref in old(book).orders && ref !in book.orders
                                then Vacated(old(table.slotKeys), ref) else old(table.slotKeys)
    {
      LowerOrDrop(ref, qty);
      ReduceOrders(old(book), ref, qty);
      SameRefs(arena.rows, table.contents, book, arena.slots);
    }

    method LowerOrDrop(ref: nat, qty: int)
      requires Valid()
      modifies Footprint()
      ensures Valid() && book == BookSpec.Reduce(old(book), ref, qty)
      ensures table.slotKeys == if ref in old(book).orders && ref !in book.orders
                                then Vacated(old(table.slotKeys), ref) else old(table.slotKeys)
    {
      var found, loc := Locate(ref);
      if !found { return; }
      var lvl := arena.Get(loc.row, loc.level);
      LevelCount(arena.rows, table.contents, book, arena.slots, loc.row, loc.level);
      assert FilledAt(lvl.orders, Chain(lvl), loc.slot);
      var delta := ClampedQty(qty, lvl.orders[loc.slot].qty);
      if delta == lvl.orders[loc.slot].qty {
        Drop(ref, loc);
      } else if delta > 0 {
        Trim(ref, loc, delta);
      }
    }

    method Trim(ref: nat, loc: Location, delta: int)
      requires Valid() && ref in book.orders && ref in table.contents && table.contents[ref] == loc
      requires 0 < delta < book.orders[ref].qty
      modifies Footprint()
      ensures Valid() && book == BookSpec.Reduce(old(book), ref, delta) && table.slotKeys == old(table.slotKeys)
    {
      ghost var rows, m := arena.rows, table.contents;
      assert RefOk(rows, m, book, ref);
      LevelCount(rows, m, book, arena.slots, loc.row, loc.level);
      var lvl := arena.Get(loc.row, loc.level);
      assert FilledAt(lvl.orders, Chain(lvl), loc.slot);
      var r := PL.Reduce(lvl, loc.slot, delta);
      TrimRep(rows, m, book, arena.slots, loc.row, loc.level, r, loc.slot, ref, delta);
      assert NoEmptyBut(rows, loc.row, loc.level);
      NoneEmptyAfterPut(rows, loc.row, loc.level, r);
      arena.Set(loc.row, loc.level, r);
      book := BookSpec.Reduce(book, ref, delta);
    }

    /** Order Delete. */
    method OnDelete(ref: nat)
      requires Valid()
      modifies Footprint()
      ensures Valid() && book == Delete(old(book), ref)
      ensures ref !in book.orders && ref !in table.contents && OthersSame(old(book), book, ref)
      ensures table.slotKeys == if ref in old(book).orders then Vacated(old(table.slotKeys), ref) else old(table.slotKeys)
    {
      var found, loc := Locate(ref);
      if found { Drop(ref, loc); }
      SameRefs(arena.rows, table.contents, book, arena.slots);
    }

    /** Order Replace. Once the new reference has passed `CanInsert`, the original is deleted
        and the new order goes to the back of its queue, on the original's row; only lack of
        book capacity can then keep it out. The map cannot refuse it any more. */
    method OnReplace(ref: nat, newRef: nat, price: int, qty: int) returns (ok: bool)
      requires Valid() && ref != newRef && 0 < qty <= MAX_QTY
      modifies Footprint()
      ensures Valid()
      ensures if ref !in old(book).orders || !old(Admits(newRef)) then
                !ok && book == old(book) && table.slotKeys == old(table.slotKeys)
              else
                var rest, row := Leave(old(book), ref), old(book).orders[ref].row;
                var keys := Vacated(old(table.slotKeys), ref);
                && ok == Fits(rest, PriceKey(row, price), arena.levels.Length1, arena.slots)
                && book == TryEnter(rest, newRef, Order(row, price, qty), arena.levels.Length1, arena.slots)
                && table.slotKeys == if ok then Entered(keys, table.hash, newRef) else keys
    {
      var found, loc := Locate(ref);
      if !found { return false; }
      var can := table.CanInsert(newRef);
      if !can { return false; }
      VacatedRoom(table.slotKeys, table.hash, table.window, ref, newRef);
      Drop(ref, loc);
      ok := EnterOrder(loc.row, newRef, price, qty);
    }

    /** The pre-flight of a replacement reference. */
    ghost predicate Admits(ref: nat)
      requires HashInto(table.hash, |table.slotKeys|)
      reads this, table
    {
      Live(ref) && table.count < table.maxEntries && ref !in book.orders &&
      Room(table.slotKeys, table.hash, table.window, ref, false)
    }

    /** Dispatch: every message, malformed and unsupported ones included, is one step of the feed. */
    method Process(tick: Tick)
      requires Valid()
      modifies Footprint()
      ensures Valid() && Now() == BookFeed.Next(Setup(), old(Now()), tick)
    {
      if tick.symbol >= symbols { return; }
      match tick.kind
      case AddOrder | AddOrderMpid => ProcessAdd(tick);
      case Executed | ExecutedWithPrice | Cancelled | Deleted => ProcessReduction(tick);
      case Replaced => ProcessReplace(tick);
      case Trade =>
      case Other =>
    }

    method ProcessAdd(tick: Tick)
      requires Valid() && tick.symbol < symbols && tick.kind in {AddOrder, AddOrderMpid}
      modifies Footprint()
      ensures Valid() && Now() == BookFeed.Next(Setup(), old(Now()), tick)
    {
      AnswersAgree(tick.ref);
      BookFeed.NextAdd(Setup(), Now(), tick);
      if tick.ref != 0 && ValidQty(tick.qty) && ValidPrice(tick.price) {
        var _ := OnAddOrder(RowOf(tick.symbol, tick.buy), tick.ref, tick.price, tick.qty);
      }
    }

    method ProcessReduction(tick: Tick)
      requires Valid() && tick.kind in {Executed, ExecutedWithPrice, Cancelled, Deleted}
      requires tick.symbol < symbols
      modifies Footprint()
      ensures Valid() && Now() == BookFeed.Next(Setup(), old(Now()), tick)
    {
      AnswersAgree(tick.ref);
      BookFeed.NextReduction(Setup(), Now(), tick);
      if tick.ref == 0 { return; }
      if tick.kind == Deleted {
        OnDelete(tick.ref);
      } else if ValidQty(tick.qty) {
        OnReduce(tick.ref, tick.qty);
      }
    }

    method ProcessReplace(tick: Tick)
      requires Valid() && tick.symbol < symbols && tick.kind == Replaced
      modifies Footprint()
      ensures Valid() && Now() == BookFeed.Next(Setup(), old(Now()), tick)
    {
      AnswersAgree(tick.newRef);
      BookFeed.NextReplace(Setup(), Now(), tick);
      if tick.ref != 0 && tick.newRef != 0 && tick.ref != tick.newRef && ValidQty(tick.qty) && ValidPrice(tick.price) {
        var _ := OnReplace(tick.ref, tick.newRef, tick.price, tick.qty);
      }
    }

    /** A whole feed: book and keys are exactly what the ticks make of them. */
    method ProcessAll(ticks: seq<Tick>)
      requires Valid()
      modifies Footprint()
      ensures Valid() && HashInto(table.hash, |old(table.slotKeys)|)
      ensures Now() == BookFeed.After(Setup(), old(Now()), ticks)
    {
      var n := 0;
      assert ticks[..0] == [];
      while n < |ticks|
        invariant 0 <= n <= |ticks| && Valid()
        invariant Now() == BookFeed.After(Setup(), old(Now()), ticks[..n])
      {
        Process(ticks[n]);
        assert ticks[..n + 1][..n] == ticks[..n];
        n := n + 1;
      }
      assert ticks[..n] == ticks;
    }

    /** The best bid is the greatest price of an open buy order of the symbol, the best ask the
        least price of an open sell order; 0 if there is none. */
    method BestPrice(b: nat) returns (price: int)
      requires Valid()
      ensures b >= |arena.rows| || (forall r :: r in book.orders ==> book.orders[r].row != b) ==> price == 0
      ensures b < |arena.rows| && (exists r :: r in book.orders && book.orders[r].row == b) ==> RestsAt(book, b, price)
      ensures b < |arena.rows| ==>
                forall r :: r in book.orders && book.orders[r].row == b ==>
                  if b % 2 == 0 then book.orders[r].price <= price else price <= book.orders[r].price
    {
      if b >= arena.counts.Length { return 0; }
      ghost var rows := arena.rows;
      RowOrders(rows, table.contents, book, arena.slots, b);
      assert RowSorted(b, rows[b]);
      var count := arena.Count(b);
      if count == 0 { return 0; }
      var best := arena.Get(b, 0);
      price := best.price;
      assert RestsAt(book, b, rows[b][0].price);
    }

    /** Total open quantity on the best `n` levels. */
    method Depth(b: nat, n: nat) returns (total: int, ghost ps: seq<int>)
      requires Valid()
      ensures b >= |arena.rows| ==> total == 0
      ensures b < |arena.rows| ==>
                BestFirst(book, b, ps) && total == DepthQty(book, b, ps[..if n < |ps| then n else |ps|])
      ensures forall i, j :: 0 <= i < j < |ps| ==> if b % 2 == 0 then ps[i] > ps[j] else ps[i] < ps[j]
    {
      total, ps := 0, [];
      if b >= arena.counts.Length { return; }
      ps := RowPrices(arena.rows, table.contents, book, arena.slots, b);
      BestFirstOrder(book, b, ps);
      total := SumLevels(b, n, ps);
    }

    method SumLevels(b: nat, n: nat, ghost ps: seq<int>) returns (total: int)
      requires Represents() && b < |arena.rows| && |ps| == |arena.rows[b]|
      requires forall i :: 0 <= i < |ps| ==> ps[i] == arena.rows[b][i].price
      ensures total == DepthQty(book, b, ps[..if n < |ps| then n else |ps|])
    {
      ghost var rows := arena.rows;
      var count := arena.Count(b);
      var top := if n < count then n else count;
      total := 0;
      var i := 0;
      while i < top
        invariant 0 <= i <= top && total == DepthQty(book, b, ps[..i])
      {
        var lvl := arena.Get(b, i);
        DepthStep(rows, table.contents, book, arena.slots, b, ps, i);
        total := total + lvl.totalQty;
        i := i + 1;
      }
    }
  }
}
