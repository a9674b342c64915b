/** The level storage: a fixed block of price levels per row, of which the first `counts[b]`
    are in use, kept contiguous by block moves. */
module Arena {
  import opened BookSpec
  import opened PriceLevels
  import opened BookRep

  class Levels {
    const levels: array2<PriceLevel>
    const counts: array<nat>
    const slots: nat
    ghost var rows: seq<Row>

    ghost predicate Valid()
      reads this, levels, counts
    {
      |rows| == counts.Length == levels.Length0 && forall b {:trigger RowIs(b)} :: 0 <= b < |rows| ==> RowIs(b)
    }

    /** The levels of row `b` that are in use. */
    ghost predicate RowIs(b: nat)
      requires b < |rows| == counts.Length == levels.Length0
      reads this, levels, counts
    {
      |rows[b]| == counts[b] <= levels.Length1 && forall l :: 0 <= l < |rows[b]| ==> levels[b, l] == rows[b][l]
    }

    method Get(b: nat, l: nat) returns (lvl: PriceLevel)
      requires Valid() && b < |rows| && l < |rows[b]|
      ensures lvl == rows[b][l]
    {
      assert RowIs(b);
      lvl := levels[b, l];
    }

    method Count(b: nat) returns (n: nat)
      requires Valid() && b < |rows|
      ensures n == |rows[b]| <= levels.Length1
    {
      assert RowIs(b);
      n := counts[b];
    }

    constructor (rowCount: nat, depth: nat, slots: nat)
      ensures Valid() && |rows| == rowCount && levels.Length1 == depth && this.slots == slots
      ensures forall b :: 0 <= b < |rows| ==> rows[b] == []
      ensures fresh(levels) && fresh(counts)
    {
      levels := new PriceLevel[rowCount, depth]((i, j) => Fresh(slots, 0));
      counts := new nat[rowCount](_ => 0);
      this.slots := slots;
      rows := seq(rowCount, _ => []);
      new;
      forall c | 0 <= c < |rows| ensures RowIs(c) { }
    }

    /** Binary search in the row's own direction. */
    method FindLevel(b: nat, price: int) returns (idx: int)
      requires Valid() && b < |rows| && RowSorted(b, rows[b])
      ensures -1 <= idx < |rows[b]|
      ensures idx >= 0 <==> HasPrice(rows[b], price)
      ensures idx >= 0 ==> rows[b][idx].price == price
    {
      assert RowIs(b);
      var low: int, high: int := 0, counts[b] as int - 1;
      while low <= high
        invariant 0 <= low <= high + 1 <= |rows[b]|
        invariant forall l :: 0 <= l < low ==> Better(b, rows[b][l].price, price)
        invariant forall l :: high < l < |rows[b]| ==> Better(b, price, rows[b][l].price)
      {
        var mid := low + (high - low) / 2;
        var mp := levels[b, mid].price;
        if mp == price { return mid; }
        if Better(b, price, mp) {
          high := mid - 1;
        } else {
          low := mid + 1;
        }
      }
      idx := -1;
    }

    /** The position before the first level that the price has priority over. */
    method InsertionPoint(b: nat, price: int) returns (pos: nat)
      requires Valid() && b < |rows| && RowSorted(b, rows[b]) && !HasPrice(rows[b], price)
      ensures Between(b, rows[b], pos, price)
    {
      assert RowIs(b);
      pos := 0;
      while pos < counts[b]
        invariant pos <= |rows[b]|
        invariant forall l :: 0 <= l < pos ==> Better(b, rows[b][l].price, price)
      {
        if Better(b, price, levels[b, pos].price) { return; }
        assert rows[b][pos].price != price;
        pos := pos + 1;
      }
    }

    /** Moves the levels from `pos` on up by one. */
    method ShiftUp(b: nat, pos: nat, count: nat)
      requires b < levels.Length0 && pos <= count < levels.Length1
      modifies levels
      ensures forall l :: pos < l <= count ==> levels[b, l] == old(levels[b, l - 1])
      ensures forall c, l :: 0 <= c < levels.Length0 && 0 <= l < levels.Length1 && (c != b || l <= pos || count < l) ==>
                levels[c, l] == old(levels[c, l])
    {
      forall l | pos < l <= count {
        levels[b, l] := levels[b, l - 1];
      }
    }

    /** Moves the levels behind `pos` down by one. */
    method ShiftDown(b: nat, pos: nat, last: nat)
      requires b < levels.Length0 && pos <= last < levels.Length1
      modifies levels
      ensures forall l :: pos <= l < last ==> levels[b, l] == old(levels[b, l + 1])
      ensures forall c, l :: 0 <= c < levels.Length0 && 0 <= l < levels.Length1 && (c != b || l < pos || last <= l) ==>
                levels[c, l] == old(levels[c, l])
    {
      forall l | pos <= l < last {
        levels[b, l] := levels[b, l + 1];
      }
    }

    /** Makes room at `pos` by moving the levels from there on, then initialises the level. */
    method InsertAt(b: nat, pos: nat, price: int)
      requires Valid() && b < |rows| && pos <= |rows[b]| < levels.Length1
      modifies this`rows, levels, counts
      ensures Valid() && rows == Spliced(old(rows), b, pos, Fresh(slots, price))
    {
      assert RowIs(b);
      var count := counts[b];
      ghost var row := Insert(rows[b], pos, Fresh(slots, price));
      OpenGap(b, pos, price, count, row);
      counts[b] := count + 1;
      rows := Spliced(rows, b, pos, Fresh(slots, price));
      assert rows[b] == row;
      forall c | 0 <= c < |rows| ensures RowIs(c) { assert old(RowIs(c)); }
    }

    method OpenGap(b: nat, pos: nat, price: int, count: nat, ghost row: Row)
      requires b < levels.Length0 && pos <= count < levels.Length1 && |row| == count + 1 && row[pos] == Fresh(slots, price)
      requires forall l :: 0 <= l < pos ==> row[l] == levels[b, l]
      requires forall l :: pos < l <= count ==> row[l] == levels[b, l - 1]
      modifies levels
      ensures forall l :: 0 <= l < |row| ==> levels[b, l] == row[l]
      ensures forall c, l :: 0 <= c < levels.Length0 && c != b && 0 <= l < levels.Length1 ==> levels[c, l] == old(levels[c, l])
    {
      ShiftUp(b, pos, count);
      levels[b, pos] := Fresh(slots, price);
    }

    /** Closes the gap left by the level at `pos` and clears the last one. */
    method RemoveAt(b: nat, pos: nat)
      requires Valid() && b < |rows| && pos < |rows[b]|
      modifies this`rows, levels, counts
      ensures Valid() && rows == old(rows)[b := Remove(old(rows)[b], pos)]
      ensures |rows[b]| < levels.Length1 && levels[b, |rows[b]|] == Fresh(slots, 0)
    {
      assert RowIs(b);
      var last := counts[b] - 1;
      ShiftDown(b, pos, last);
      levels[b, last] := Fresh(slots, 0);
      counts[b] := last;
      rows := rows[b := Remove(rows[b], pos)];
      forall c | 0 <= c < |rows| ensures RowIs(c) { assert old(RowIs(c)); }
    }

    method Set(b: nat, l: nat, lvl: PriceLevel)
      requires Valid() && b < |rows| && l < |rows[b]|
      modifies this`rows, levels
      ensures Valid() && rows == Put(old(rows), b, l, lvl)
    {
      assert RowIs(b);
      levels[b, l] := lvl;
      rows := Put(rows, b, l, lvl);
      forall c | 0 <= c < |rows| ensures RowIs(c) { assert old(RowIs(c)); }
    }
  }
}
