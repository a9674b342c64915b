/** How sorted level arrays and the reference map represent a book, and what each of the
    engine's elementary moves does to that representation. */
module BookRep {
  import Finite
  import opened BookSpec
  import opened PL = PriceLevels
  import opened RM = OrderRefMap

  type Row = seq<PriceLevel>

  ghost predicate RowSorted(b: nat, row: Row) {
    forall i, j :: 0 <= i < j < |row| ==> Better(b, row[i].price, row[j].price)
  }

  ghost predicate HasPrice(row: Row, price: int) {
    exists l :: 0 <= l < |row| && row[l].price == price
  }

  ghost predicate InRange(rows: seq<Row>, loc: Location) {
    loc.row < |rows| && loc.level < |rows[loc.row]| && loc.slot < |rows[loc.row][loc.level].orders|
  }

  ghost function SlotAt(rows: seq<Row>, loc: Location): OrderSlot
    requires InRange(rows, loc)
  {
    rows[loc.row][loc.level].orders[loc.slot]
  }

  /** A mapped reference leads to an active slot holding that order of the book. */
  ghost predicate RefOk(rows: seq<Row>, m: map<nat, Location>, book: Book, ref: nat)
    requires ref in m
  {
    && InRange(rows, m[ref]) && ref in book.orders
    && var slot := SlotAt(rows, m[ref]);
       && slot.active && slot.id == ref
       && book.orders[ref] == Order(m[ref].row, rows[m[ref].row][m[ref].level].price, slot.qty)
  }

  /** An active slot is where the map says its order is. */
  ghost predicate SlotOk(rows: seq<Row>, m: map<nat, Location>, loc: Location)
    requires InRange(rows, loc)
  {
    var slot := SlotAt(rows, loc);
    slot.active ==> slot.id in m && m[slot.id] == loc
  }

  /** A level holds the queue of its price, in arrival order. */
  ghost predicate LevelOk(rows: seq<Row>, book: Book, slots: nat, b: nat, l: nat)
    requires b < |rows| && l < |rows[b]|
  {
    var lvl := rows[b][l];
    WellFormed(lvl) && |lvl.orders| == slots && Queue(book, PriceKey(b, lvl.price)) == Refs(lvl)
  }

  /** Every queue of the book has a level. */
  ghost predicate KeyOk(rows: seq<Row>, book: Book, key: PriceKey)
    requires key in book.queues
  {
    book.queues[key] != [] && key.row < |rows| && HasPrice(rows[key.row], key.price)
  }

  ghost predicate LevelsOk(rows: seq<Row>, book: Book, slots: nat) {
    && (forall b {:trigger RowSorted(b, rows[b])} :: 0 <= b < |rows| ==> RowSorted(b, rows[b]))
    && (forall b, l {:trigger LevelOk(rows, book, slots, b, l)} ::
          0 <= b < |rows| && 0 <= l < |rows[b]| ==> LevelOk(rows, book, slots, b, l))
    && (forall key {:trigger KeyOk(rows, book, key)} :: key in book.queues ==> KeyOk(rows, book, key))
  }

  ghost predicate MapOk(rows: seq<Row>, m: map<nat, Location>, book: Book) {
    && m.Keys == book.orders.Keys
    && (forall ref {:trigger RefOk(rows, m, book, ref)} :: ref in m ==> RefOk(rows, m, book, ref))
    && (forall loc {:trigger SlotOk(rows, m, loc)} :: InRange(rows, loc) ==> SlotOk(rows, m, loc))
  }

  /** Levels strictly sorted; map, slots, queues and orders agree. */
  ghost predicate Rep(rows: seq<Row>, m: map<nat, Location>, book: Book, slots: nat) {
    MapOk(rows, m, book) && LevelsOk(rows, book, slots)
  }

  /** No level without orders. */
  ghost predicate NoEmptyLevel(rows: seq<Row>) {
    forall b, l {:trigger HasOrders(rows, b, l)} :: 0 <= b < |rows| && 0 <= l < |rows[b]| ==> HasOrders(rows, b, l)
  }

  ghost predicate HasOrders(rows: seq<Row>, b: nat, l: nat)
    requires b < |rows| && l < |rows[b]|
  {
    Chain(rows[b][l]) != []
  }

  /** The representation determines the book. */
  lemma RepUnique(rows: seq<Row>, m: map<nat, Location>, book: Book, book': Book, slots: nat)
    requires Rep(rows, m, book, slots) && Rep(rows, m, book', slots)
    ensures book == book'
  {
    forall ref | ref in m ensures book.orders[ref] == book'.orders[ref] {
      assert RefOk(rows, m, book, ref) && RefOk(rows, m, book', ref);
    }
    SameQueues(rows, m, book, book', slots);
    SameQueues(rows, m, book', book, slots);
  }

  lemma SameQueues(rows: seq<Row>, m: map<nat, Location>, book: Book, book': Book, slots: nat)
    requires Rep(rows, m, book, slots) && Rep(rows, m, book', slots)
    ensures forall key :: key in book.queues ==> key in book'.queues && book'.queues[key] == book.queues[key]
  {
    forall key | key in book.queues ensures key in book'.queues && book'.queues[key] == book.queues[key] {
      assert KeyOk(rows, book, key);
      var l :| 0 <= l < |rows[key.row]| && rows[key.row][l].price == key.price;
      assert LevelOk(rows, book, slots, key.row, l) && LevelOk(rows, book', slots, key.row, l);
    }
  }

  // ----- moving levels -----

  function Insert(row: Row, pos: nat, lvl: PriceLevel): Row
    requires pos <= |row|
  {
    row[..pos] + [lvl] + row[pos..]
  }

  function Remove(row: Row, pos: nat): Row
    requires pos < |row|
  {
    row[..pos] + row[pos + 1..]
  }

  /** Where a location goes when the levels of row `b` from `lo` on move down by one. */
  function DownLoc(loc: Location, b: nat, lo: nat): Location {
    if loc.row == b && loc.level >= lo then loc.(level := loc.level + 1) else loc
  }

  /** Where it goes when they move up by one. */
  function UpLoc(loc: Location, b: nat, lo: nat): Location {
    if loc.row == b && loc.level >= lo && loc.level > 0 then loc.(level := loc.level - 1) else loc
  }

  function Down(m: map<nat, Location>, b: nat, lo: nat): map<nat, Location> {
    map ref | ref in m :: DownLoc(m[ref], b, lo)
  }

  function Up(m: map<nat, Location>, b: nat, lo: nat): map<nat, Location> {
    map ref | ref in m :: UpLoc(m[ref], b, lo)
  }

  /** `price` belongs at position `pos` of the row. */
  ghost predicate Between(b: nat, row: Row, pos: nat, price: int) {
    && pos <= |row|
    && (forall i :: 0 <= i < pos ==> Better(b, row[i].price, price))
    && (forall i :: pos <= i < |row| ==> Better(b, price, row[i].price))
  }

  /** The rows with an extra level in row `b`. */
  ghost function Spliced(rows: seq<Row>, b: nat, pos: nat, lvl: PriceLevel): (big: seq<Row>)
    requires b < |rows| && pos <= |rows[b]|
    ensures |big| == |rows|
  {
    rows[b := Insert(rows[b], pos, lvl)]
  }

  lemma SplicedAt(rows: seq<Row>, b: nat, pos: nat, lvl: PriceLevel, c: nat, l: nat)
    requires b < |rows| && pos <= |rows[b]| && c < |rows| && l < |rows[c]|
    ensures var big := Spliced(rows, b, pos, lvl); var l' := if c == b && l >= pos then l + 1 else l;
            l' < |big[c]| && big[c][l'] == rows[c][l]
  {}

  lemma SpliceRef(rows: seq<Row>, m: map<nat, Location>, book: Book, b: nat, pos: nat, lvl: PriceLevel, ref: nat)
    requires b < |rows| && pos <= |rows[b]| && ref in m
    ensures RefOk(rows, m, book, ref) <==> RefOk(Spliced(rows, b, pos, lvl), Down(m, b, pos), book, ref)
  {}

  lemma SpliceSlot(rows: seq<Row>, m: map<nat, Location>, b: nat, pos: nat, lvl: PriceLevel, loc: Location)
    requires b < |rows| && pos <= |rows[b]| && InRange(rows, loc)
    ensures var big, loc' := Spliced(rows, b, pos, lvl), DownLoc(loc, b, pos);
            InRange(big, loc') && (SlotOk(rows, m, loc) <==> SlotOk(big, Down(m, b, pos), loc'))
  {}

  lemma SpliceKey(rows: seq<Row>, book: Book, b: nat, pos: nat, lvl: PriceLevel, key: PriceKey)
    requires b < |rows| && pos <= |rows[b]| && key in book.queues
    ensures KeyOk(rows, book, key) ==> KeyOk(Spliced(rows, b, pos, lvl), book, key)
    ensures KeyOk(Spliced(rows, b, pos, lvl), book, key) && key != PriceKey(b, lvl.price) ==> KeyOk(rows, book, key)
  {
    var big := Spliced(rows, b, pos, lvl);
    if KeyOk(rows, book, key) {
      var l :| 0 <= l < |rows[key.row]| && rows[key.row][l].price == key.price;
      SplicedAt(rows, b, pos, lvl, key.row, l);
    }
    if KeyOk(big, book, key) && key != PriceKey(b, lvl.price) {
      var l :| 0 <= l < |big[key.row]| && big[key.row][l].price == key.price;
      assert rows[key.row][if key.row == b && l > pos then l - 1 else l].price == key.price;
    }
  }

  /** Adding an empty level in the right place, and telling the map, leaves the book alone. */
  lemma InsertKeeps(rows: seq<Row>, m: map<nat, Location>, book: Book, slots: nat, b: nat, pos: nat, price: int)
    requires Rep(rows, m, book, slots) && b < |rows| && Between(b, rows[b], pos, price)
    ensures Rep(Spliced(rows, b, pos, Fresh(slots, price)), Down(m, b, pos), book, slots)
  {
    var lvl := Fresh(slots, price);
    var big, m' := Spliced(rows, b, pos, lvl), Down(m, b, pos);
    FreshHolds(slots, price);
    forall ref | ref in m' ensures RefOk(big, m', book, ref) {
      assert RefOk(rows, m, book, ref);
      SpliceRef(rows, m, book, b, pos, lvl, ref);
    }
    forall loc | InRange(big, loc) ensures SlotOk(big, m', loc) {
      if !(loc.row == b && loc.level == pos) {
        var from := if loc.row == b && loc.level > pos then loc.(level := loc.level - 1) else loc;
        assert SlotOk(rows, m, from);
        SpliceSlot(rows, m, b, pos, lvl, from);
      }
    }
    InsertLevels(rows, m, book, slots, b, pos, price);
    InsertSorted(b, rows[b], pos, lvl);
    forall key | key in book.queues ensures KeyOk(big, book, key) {
      assert KeyOk(rows, book, key);
      SpliceKey(rows, book, b, pos, lvl, key);
    }
  }

  lemma NoQueue(rows: seq<Row>, m: map<nat, Location>, book: Book, slots: nat, b: nat, price: int)
    requires Rep(rows, m, book, slots) && b < |rows| && !HasPrice(rows[b], price)
    ensures PriceKey(b, price) !in book.queues
  {
    forall key | key in book.queues ensures key.row < |rows| && HasPrice(rows[key.row], key.price) {
      assert KeyOk(rows, book, key);
    }
  }

  lemma InsertSorted(b: nat, row: Row, pos: nat, lvl: PriceLevel)
    requires RowSorted(b, row) && Between(b, row, pos, lvl.price)
    ensures RowSorted(b, Insert(row, pos, lvl))
  {}

  lemma InsertLevels(rows: seq<Row>, m: map<nat, Location>, book: Book, slots: nat, b: nat, pos: nat, price: int)
    requires Rep(rows, m, book, slots) && b < |rows| && Between(b, rows[b], pos, price)
    ensures var big := Spliced(rows, b, pos, Fresh(slots, price));
            forall c, l {:trigger LevelOk(big, book, slots, c, l)} ::
              0 <= c < |big| && 0 <= l < |big[c]| ==> LevelOk(big, book, slots, c, l)
  {
    var big := Spliced(rows, b, pos, Fresh(slots, price));
    FreshHolds(slots, price);
    forall c, l | 0 <= c < |big| && 0 <= l < |big[c]| ensures LevelOk(big, book, slots, c, l) {
      if c == b && l == pos {
        NoQueue(rows, m, book, slots, b, price);
      } else {
        assert LevelOk(rows, book, slots, c, if c == b && l > pos then l - 1 else l);
      }
    }
  }

  /** Dropping an empty level, and telling the map, leaves the book alone too. */
  lemma RemoveKeeps(rows: seq<Row>, m: map<nat, Location>, book: Book, slots: nat, b: nat, pos: nat)
    requires Rep(rows, m, book, slots) && b < |rows| && pos < |rows[b]| && Chain(rows[b][pos]) == []
    ensures Rep(rows[b := Remove(rows[b], pos)], Up(m, b, pos + 1), book, slots)
  {
    var small, m' := rows[b := Remove(rows[b], pos)], Up(m, b, pos + 1);
    assert Insert(Remove(rows[b], pos), pos, rows[b][pos]) == rows[b];
    assert Spliced(small, b, pos, rows[b][pos]) == rows;
    assert Down(m', b, pos) == m by { NothingThere(rows, m, book, slots, b, pos); }
    SpliceBack(small, m', book, slots, b, pos, rows[b][pos]);
  }

  lemma SpliceBack(rows: seq<Row>, m: map<nat, Location>, book: Book, slots: nat, b: nat, pos: nat, lvl: PriceLevel)
    requires b < |rows| && pos <= |rows[b]| && Chain(lvl) == []
    requires Rep(Spliced(rows, b, pos, lvl), Down(m, b, pos), book, slots)
    ensures Rep(rows, m, book, slots)
  {
    var big, m' := Spliced(rows, b, pos, lvl), Down(m, b, pos);
    forall ref | ref in m ensures RefOk(rows, m, book, ref) {
      assert RefOk(big, m', book, ref);
      SpliceRef(rows, m, book, b, pos, lvl, ref);
    }
    forall loc | InRange(rows, loc) ensures SlotOk(rows, m, loc) {
      SpliceSlot(rows, m, b, pos, lvl, loc);
      assert SlotOk(big, m', DownLoc(loc, b, pos));
    }
    SpliceBackLevels(rows, m', book, slots, b, pos, lvl);
  }

  lemma SpliceBackLevels(rows: seq<Row>, m: map<nat, Location>, book: Book, slots: nat, b: nat, pos: nat, lvl: PriceLevel)
    requires b < |rows| && pos <= |rows[b]| && Chain(lvl) == []
    requires Rep(Spliced(rows, b, pos, lvl), m, book, slots)
    ensures LevelsOk(rows, book, slots)
  {
    var big := Spliced(rows, b, pos, lvl);
    forall c | 0 <= c < |rows| ensures RowSorted(c, rows[c]) {
      assert RowSorted(c, big[c]);
      if c == b { RemoveSorted(b, rows[b], pos, lvl); }
    }
    forall c, l | 0 <= c < |rows| && 0 <= l < |rows[c]| ensures LevelOk(rows, book, slots, c, l) {
      SplicedAt(rows, b, pos, lvl, c, l);
      assert LevelOk(big, book, slots, c, if c == b && l >= pos then l + 1 else l);
    }
    assert LevelOk(big, book, slots, b, pos);
    forall key | key in book.queues ensures KeyOk(rows, book, key) {
      assert KeyOk(big, book, key);
      SpliceKey(rows, book, b, pos, lvl, key);
    }
  }

  lemma RemoveSorted(b: nat, row: Row, pos: nat, lvl: PriceLevel)
    requires pos <= |row| && RowSorted(b, Insert(row, pos, lvl))
    ensures RowSorted(b, row)
  {
    var big := Insert(row, pos, lvl);
    assert forall l :: 0 <= l < |row| ==> row[l] == big[if l >= pos then l + 1 else l];
  }

  lemma NothingThere(rows: seq<Row>, m: map<nat, Location>, book: Book, slots: nat, b: nat, pos: nat)
    requires Rep(rows, m, book, slots) && b < |rows| && pos < |rows[b]| && Chain(rows[b][pos]) == []
    ensures forall ref :: ref in m ==> !(m[ref].row == b && m[ref].level == pos)
  {
    assert LevelOk(rows, book, slots, b, pos);
    var orders := rows[b][pos].orders;
    forall k | 0 <= k < |orders| ensures !orders[k].active { assert FilledAt(orders, [], k); }
    forall ref | ref in m ensures !(m[ref].row == b && m[ref].level == pos) {
      assert RefOk(rows, m, book, ref);
    }
  }

  // ----- changing one level -----

  ghost function Put(rows: seq<Row>, b: nat, l: nat, lvl: PriceLevel): seq<Row>
    requires b < |rows| && l < |rows[b]|
  {
    rows[b := rows[b][l := lvl]]
  }

  /** Level `(b, l)` is replaced by one that differs in slot `k` only; the queues of all
      other prices, and whether this price has a level, stay as they were. */
  ghost predicate OneSlot(rows: seq<Row>, slots: nat, b: nat, l: nat, r: PriceLevel, k: nat) {
    && b < |rows| && l < |rows[b]| && |rows[b][l].orders| == slots && k < slots
    && SameBut(rows[b][l], r, k) && WellFormed(r)
  }

  /** The books differ at most in the queue of level `r` of row `b`, which is that level's. */
  ghost predicate OnlyQueue(book: Book, book': Book, b: nat, r: PriceLevel) {
    WellFormed(r) && Requeued(book, book', PriceKey(b, r.price), Refs(r))
  }

  lemma RepNoEmptyQueue(rows: seq<Row>, m: map<nat, Location>, book: Book, slots: nat)
    requires Rep(rows, m, book, slots)
    ensures NoEmptyQueue(book)
  {
    forall key | key in book.queues ensures book.queues[key] != [] { assert KeyOk(rows, book, key); }
  }

  lemma PutRef(rows: seq<Row>, m: map<nat, Location>, m': map<nat, Location>, book: Book, book': Book,
               slots: nat, b: nat, l: nat, r: PriceLevel, k: nat, ref: nat)
    requires OneSlot(rows, slots, b, l, r, k) && ref in m && RefOk(rows, m, book, ref)
    requires m[ref] != Location(b, l, k) && ref in m' && m'[ref] == m[ref]
    requires ref in book'.orders && book'.orders[ref] == book.orders[ref]
    ensures RefOk(Put(rows, b, l, r), m', book', ref)
  {}

  lemma PutSlot(rows: seq<Row>, m: map<nat, Location>, m': map<nat, Location>, slots: nat,
                b: nat, l: nat, r: PriceLevel, k: nat, loc: Location)
    requires OneSlot(rows, slots, b, l, r, k) && loc != Location(b, l, k)
    requires InRange(Put(rows, b, l, r), loc)
    requires InRange(rows, loc) ==> SlotOk(rows, m, loc)
    requires forall ref :: ref in m && m[ref] == loc ==> ref in m' && m'[ref] == loc
    ensures SlotOk(Put(rows, b, l, r), m', loc)
  {}

  /** Levels and queues after such a change, when only the queue of this price may differ. */
  lemma PutLevels(rows: seq<Row>, m: map<nat, Location>, book: Book, book': Book, slots: nat,
                  b: nat, l: nat, r: PriceLevel, k: nat)
    requires Rep(rows, m, book, slots) && OneSlot(rows, slots, b, l, r, k)
    requires OnlyQueue(book, book', b, r)
    ensures LevelsOk(Put(rows, b, l, r), book', slots)
  {
    var rows' := Put(rows, b, l, r);
    forall c | 0 <= c < |rows'| ensures RowSorted(c, rows'[c]) {
      assert RowSorted(c, rows[c]);
    }
    forall c, i | 0 <= c < |rows'| && 0 <= i < |rows'[c]| ensures LevelOk(rows', book', slots, c, i) {
      PutLevel(rows, m, book, book', slots, b, l, r, k, c, i);
    }
    forall key | key in book'.queues ensures KeyOk(rows', book', key) {
      PutKeyOk(rows, m, book, book', slots, b, l, r, k, key);
    }
  }

  lemma PutLevel(rows: seq<Row>, m: map<nat, Location>, book: Book, book': Book, slots: nat,
                 b: nat, l: nat, r: PriceLevel, k: nat, c: nat, i: nat)
    requires Rep(rows, m, book, slots) && OneSlot(rows, slots, b, l, r, k)
    requires OnlyQueue(book, book', b, r)
    requires c < |rows| && i < |rows[c]|
    ensures LevelOk(Put(rows, b, l, r), book', slots, c, i)
  {
    assert LevelOk(rows, book, slots, c, i);
    if c != b || i != l {
      assert RowSorted(b, rows[b]);
      var key := PriceKey(c, rows[c][i].price);
      assert key != PriceKey(b, r.price);
      assert Queue(book', key) == Queue(book, key);
    }
  }

  lemma PutKeyOk(rows: seq<Row>, m: map<nat, Location>, book: Book, book': Book, slots: nat,
                 b: nat, l: nat, r: PriceLevel, k: nat, key: PriceKey)
    requires Rep(rows, m, book, slots) && OneSlot(rows, slots, b, l, r, k)
    requires key != PriceKey(b, r.price) ==> Queue(book', key) == Queue(book, key)
    requires key in book'.queues && book'.queues[key] != []
    ensures KeyOk(Put(rows, b, l, r), book', key)
  {
    var rows': seq<Row> := Put(rows, b, l, r);
    if key == PriceKey(b, r.price) {
      assert rows'[b][l].price == key.price;
    } else {
      assert KeyOk(rows, book, key);
      var i :| 0 <= i < |rows[key.row]| && rows[key.row][i].price == key.price;
      assert rows'[key.row][i].price == key.price;
    }
  }

  /** A pushed order enters the book at the back of its queue. */
  lemma PushRep(rows: seq<Row>, m: map<nat, Location>, book: Book, slots: nat,
                b: nat, l: nat, r: PriceLevel, k: nat, ref: nat, qty: int)
    requires Rep(rows, m, book, slots) && OneSlot(rows, slots, b, l, r, k)
    requires k !in Chain(rows[b][l]) && Chain(r) == Chain(rows[b][l]) + [k] && ref !in m
    requires r.orders[k].active && r.orders[k].id == ref && r.orders[k].qty == qty
    ensures Rep(Put(rows, b, l, r), m[ref := Location(b, l, k)], Enter(book, ref, Order(b, r.price, qty)), slots)
  {
    var rows', m', book' := Put(rows, b, l, r), m[ref := Location(b, l, k)], Enter(book, ref, Order(b, r.price, qty));
    assert LevelOk(rows, book, slots, b, l);
    assert FilledAt(rows[b][l].orders, Chain(rows[b][l]), k);
    PushMap(rows, m, book, slots, b, l, r, k, ref, qty);
    PushQueues(rows, m, book, slots, b, l, r, k, ref, qty);
    PutLevels(rows, m, book, book', slots, b, l, r, k);
  }

  lemma PushQueues(rows: seq<Row>, m: map<nat, Location>, book: Book, slots: nat,
                   b: nat, l: nat, r: PriceLevel, k: nat, ref: nat, qty: int)
    requires Rep(rows, m, book, slots) && OneSlot(rows, slots, b, l, r, k)
    requires k !in Chain(rows[b][l]) && Chain(r) == Chain(rows[b][l]) + [k] && r.orders[k].id == ref
    ensures OnlyQueue(book, Enter(book, ref, Order(b, r.price, qty)), b, r)
  {
    assert LevelOk(rows, book, slots, b, l);
    PushRefs(rows[b][l], r, k);
    RepNoEmptyQueue(rows, m, book, slots);
    EnterRequeues(book, ref, Order(b, r.price, qty));
  }

  lemma PushMap(rows: seq<Row>, m: map<nat, Location>, book: Book, slots: nat,
                b: nat, l: nat, r: PriceLevel, k: nat, ref: nat, qty: int)
    requires Rep(rows, m, book, slots) && OneSlot(rows, slots, b, l, r, k)
    requires !rows[b][l].orders[k].active && ref !in m
    requires r.orders[k].active && r.orders[k].id == ref && r.orders[k].qty == qty
    ensures MapOk(Put(rows, b, l, r), m[ref := Location(b, l, k)], Enter(book, ref, Order(b, r.price, qty)))
  {
    var here := Location(b, l, k);
    var rows', m', book' := Put(rows, b, l, r), m[ref := here], Enter(book, ref, Order(b, r.price, qty));
    forall x | x in m' ensures RefOk(rows', m', book', x) {
      if x != ref {
        assert RefOk(rows, m, book, x);
        PutRef(rows, m, m', book, book', slots, b, l, r, k, x);
      }
    }
    forall loc | InRange(rows', loc) ensures SlotOk(rows', m', loc) {
      if loc != here {
        if InRange(rows, loc) { assert SlotOk(rows, m, loc); }
        PutSlot(rows, m, m', slots, b, l, r, k, loc);
      }
    }
  }

  lemma PushRefs(lvl: PriceLevel, r: PriceLevel, k: nat)
    requires WellFormed(lvl) && WellFormed(r) && k < |lvl.orders| && SameBut(lvl, r, k)
    requires k !in Chain(lvl) && Chain(r) == Chain(lvl) + [k]
    ensures Refs(r) == Refs(lvl) + [r.orders[k].id]
  {}

  /** The order in an active slot, as the map and the book see it. */
  lemma SlotHolds(rows: seq<Row>, m: map<nat, Location>, book: Book, slots: nat, loc: Location)
    requires Rep(rows, m, book, slots) && InRange(rows, loc) && SlotAt(rows, loc).active
    ensures var slot := SlotAt(rows, loc);
            && slot.id in m && m[slot.id] == loc && slot.id in book.orders
            && book.orders[slot.id] == Order(loc.row, rows[loc.row][loc.level].price, slot.qty)
  {
    assert SlotOk(rows, m, loc);
    assert RefOk(rows, m, book, SlotAt(rows, loc).id);
  }

  lemma RefsDistinct(rows: seq<Row>, m: map<nat, Location>, book: Book, slots: nat, b: nat, l: nat)
    requires Rep(rows, m, book, slots) && b < |rows| && l < |rows[b]| && WellFormed(rows[b][l])
    ensures Finite.Distinct(Refs(rows[b][l]))
  {
    var orders, ch := rows[b][l].orders, Chain(rows[b][l]);
    forall i | 0 <= i < |ch| ensures orders[ch[i]].active { assert FilledAt(orders, ch, ch[i]); }
    IdsDistinct(rows, m, book, slots, b, l, orders, ch);
  }

  lemma IdsDistinct(rows: seq<Row>, m: map<nat, Location>, book: Book, slots: nat, b: nat, l: nat,
                    orders: seq<OrderSlot>, ch: seq<nat>)
    requires Rep(rows, m, book, slots) && b < |rows| && l < |rows[b]| && rows[b][l].orders == orders
    requires Finite.Distinct(ch) && forall i :: 0 <= i < |ch| ==> ch[i] < |orders| && orders[ch[i]].active
    ensures Finite.Distinct(Ids(orders, ch))
  {
    forall i, j | 0 <= i < j < |ch| ensures orders[ch[i]].id != orders[ch[j]].id {
      assert SlotOk(rows, m, Location(b, l, ch[i]));
      assert SlotOk(rows, m, Location(b, l, ch[j]));
    }
  }

  /** What a queue becomes when the order at list position `p` is taken. */
  lemma IdsCut(orders: seq<OrderSlot>, orders': seq<OrderSlot>, ch: seq<nat>, p: nat)
    requires p < |ch| && Finite.Distinct(ch) && |orders'| == |orders|
    requires forall i :: 0 <= i < |ch| ==> ch[i] < |orders| && (i != p ==> orders'[ch[i]].id == orders[ch[i]].id)
    requires Finite.Distinct(Ids(orders, ch))
    ensures forall i :: 0 <= i < |Cut(ch, p)| ==> Cut(ch, p)[i] < |orders'|
    ensures Without(Ids(orders, ch), orders[ch[p]].id) == Ids(orders', Cut(ch, p))
  {
    var q := Ids(orders, ch);
    WithoutIs(q, orders[ch[p]].id, p);
    CutAt(ch, p);
  }

  lemma TakeRefs(lvl: PriceLevel, r: PriceLevel, k: nat, p: nat)
    requires WellFormed(lvl) && WellFormed(r) && k < |lvl.orders| && SameBut(lvl, r, k)
    requires p < |Chain(lvl)| && Chain(lvl)[p] == k && Chain(r) == Cut(Chain(lvl), p)
    requires Finite.Distinct(Refs(lvl))
    ensures Without(Refs(lvl), lvl.orders[k].id) == Refs(r)
  {
    IdsCut(lvl.orders, r.orders, Chain(lvl), p);
  }

  /** A taken order leaves the book; the others keep their order. */
  lemma TakeRep(rows: seq<Row>, m: map<nat, Location>, book: Book, slots: nat,
                b: nat, l: nat, r: PriceLevel, k: nat, p: nat, ref: nat)
    requires Rep(rows, m, book, slots) && OneSlot(rows, slots, b, l, r, k)
    requires ref in m && m[ref] == Location(b, l, k) && ref in book.orders
    requires p < |Chain(rows[b][l])| && Chain(rows[b][l])[p] == k && Chain(r) == Cut(Chain(rows[b][l]), p)
    requires r.orders[k] == VACANT
    ensures Rep(Put(rows, b, l, r), m - {ref}, Leave(book, ref), slots)
  {
    var rows', m', book' := Put(rows, b, l, r), m - {ref}, Leave(book, ref);
    assert RefOk(rows, m, book, ref);
    TakeMap(rows, m, book, slots, b, l, r, k, ref);
    TakeQueues(rows, m, book, slots, b, l, r, k, p, ref);
    PutLevels(rows, m, book, book', slots, b, l, r, k);
  }

  lemma TakeMap(rows: seq<Row>, m: map<nat, Location>, book: Book, slots: nat,
                b: nat, l: nat, r: PriceLevel, k: nat, ref: nat)
    requires Rep(rows, m, book, slots) && OneSlot(rows, slots, b, l, r, k)
    requires ref in m && m[ref] == Location(b, l, k) && ref in book.orders && !r.orders[k].active
    ensures MapOk(Put(rows, b, l, r), m - {ref}, Leave(book, ref))
  {
    var here := Location(b, l, k);
    var rows', m', book' := Put(rows, b, l, r), m - {ref}, Leave(book, ref);
    assert RefOk(rows, m, book, ref);
    forall x | x in m' ensures RefOk(rows', m', book', x) {
      assert RefOk(rows, m, book, x);
      PutRef(rows, m, m', book, book', slots, b, l, r, k, x);
    }
    forall loc | InRange(rows', loc) ensures SlotOk(rows', m', loc) {
      if loc != here {
        if InRange(rows, loc) { assert SlotOk(rows, m, loc); }
        PutSlot(rows, m, m', slots, b, l, r, k, loc);
      }
    }
  }

  lemma TakeQueues(rows: seq<Row>, m: map<nat, Location>, book: Book, slots: nat,
                   b: nat, l: nat, r: PriceLevel, k: nat, p: nat, ref: nat)
    requires Rep(rows, m, book, slots) && OneSlot(rows, slots, b, l, r, k)
    requires ref in m && m[ref] == Location(b, l, k) && ref in book.orders
    requires p < |Chain(rows[b][l])| && Chain(rows[b][l])[p] == k && Chain(r) == Cut(Chain(rows[b][l]), p)
    ensures OnlyQueue(book, Leave(book, ref), b, r)
  {
    assert LevelOk(rows, book, slots, b, l) && RefOk(rows, m, book, ref);
    RefsDistinct(rows, m, book, slots, b, l);
    TakeRefs(rows[b][l], r, k, p);
    RepNoEmptyQueue(rows, m, book, slots);
    LeaveRequeues(book, ref);
  }

  /** A reduced order keeps its place. */
  lemma TrimRep(rows: seq<Row>, m: map<nat, Location>, book: Book, slots: nat,
                b: nat, l: nat, r: PriceLevel, k: nat, ref: nat, qty: int)
    requires Rep(rows, m, book, slots) && OneSlot(rows, slots, b, l, r, k)
    requires ref in m && m[ref] == Location(b, l, k) && ref in book.orders && 0 < qty < book.orders[ref].qty
    requires Chain(r) == Chain(rows[b][l]) && k in Chain(r)
    requires r.orders[k].active && r.orders[k].id == ref && r.orders[k].qty == book.orders[ref].qty - qty
    ensures Rep(Put(rows, b, l, r), m, BookSpec.Reduce(book, ref, qty), slots)
  {
    var rows', book' := Put(rows, b, l, r), BookSpec.Reduce(book, ref, qty);
    assert RefOk(rows, m, book, ref);
    TrimMap(rows, m, book, slots, b, l, r, k, ref, qty);
    assert OnlyQueue(book, book', b, r) by {
      TrimQueues(rows, m, book, slots, b, l, r, k, ref, qty);
    }
    PutLevels(rows, m, book, book', slots, b, l, r, k);
  }

  lemma TrimMap(rows: seq<Row>, m: map<nat, Location>, book: Book, slots: nat,
                b: nat, l: nat, r: PriceLevel, k: nat, ref: nat, qty: int)
    requires Rep(rows, m, book, slots) && OneSlot(rows, slots, b, l, r, k)
    requires ref in m && m[ref] == Location(b, l, k) && ref in book.orders && 0 < qty < book.orders[ref].qty
    requires r.orders[k].active && r.orders[k].id == ref && r.orders[k].qty == book.orders[ref].qty - qty
    ensures MapOk(Put(rows, b, l, r), m, BookSpec.Reduce(book, ref, qty))
  {
    var here := Location(b, l, k);
    var rows', book' := Put(rows, b, l, r), BookSpec.Reduce(book, ref, qty);
    assert RefOk(rows, m, book, ref);
    forall x | x in m ensures RefOk(rows', m, book', x) {
      assert RefOk(rows, m, book, x);
      if x != ref { PutRef(rows, m, m, book, book', slots, b, l, r, k, x); }
    }
    forall loc | InRange(rows', loc) ensures SlotOk(rows', m, loc) {
      if loc != here {
        if InRange(rows, loc) { assert SlotOk(rows, m, loc); }
        PutSlot(rows, m, m, slots, b, l, r, k, loc);
      }
    }
  }

  lemma TrimQueues(rows: seq<Row>, m: map<nat, Location>, book: Book, slots: nat,
                   b: nat, l: nat, r: PriceLevel, k: nat, ref: nat, qty: int)
    requires Rep(rows, m, book, slots) && OneSlot(rows, slots, b, l, r, k)
    requires ref in m && m[ref] == Location(b, l, k) && ref in book.orders && 0 < qty < book.orders[ref].qty
    requires Chain(r) == Chain(rows[b][l]) && r.orders[k].id == ref
    ensures OnlyQueue(book, BookSpec.Reduce(book, ref, qty), b, r)
  {
    assert LevelOk(rows, book, slots, b, l) && RefOk(rows, m, book, ref);
    TrimRefs(rows[b][l], r, k);
    RepNoEmptyQueue(rows, m, book, slots);
    TrimRequeues(book, ref, qty, PriceKey(b, r.price));
  }

  lemma TrimRefs(lvl: PriceLevel, r: PriceLevel, k: nat)
    requires WellFormed(lvl) && WellFormed(r) && k < |lvl.orders| && SameBut(lvl, r, k)
    requires Chain(r) == Chain(lvl) && r.orders[k].id == lvl.orders[k].id
    ensures Refs(r) == Refs(lvl)
  {}
}
