/** The open-addressing map from order reference to book location: linear probing capped
    at a fixed window, deletion by tombstone. */
module OrderRefMap {
  import opened Probing

  const EMPTY: nat := 0
  const TOMBSTONE: nat := 0xFFFF_FFFF_FFFF_FFFF

  /** Where an order lives. `row` packs symbol index and side as `2 * symbol + side`. */
  datatype Location = Location(row: nat, level: nat, slot: nat)

  predicate Live(key: nat) {
    key != EMPTY && key != TOMBSTONE
  }

  ghost predicate HashInto(hash: nat -> nat, cap: nat) {
    forall k :: hash(k) < cap
  }

  // ----- the probing invariant -----

  /** No empty slot lies before `j` on the probe path from `h`. */
  ghost predicate Reaches(keys: seq<nat>, h: nat, j: nat)
    requires h < |keys| && j < |keys|
  {
    forall i :: 0 <= i < |keys| && Dist(h, i, |keys|) < Dist(h, j, |keys|) ==> keys[i] != EMPTY
  }

  /** A live key in slot `j` is indexed there, lies within its window, and is reachable from
      its home slot without crossing an empty one. */
  ghost predicate Settled(keys: seq<nat>, hash: nat -> nat, window: nat, at: map<nat, nat>, j: nat)
    requires HashInto(hash, |keys|) && j < |keys|
  {
    Live(keys[j]) ==>
      && keys[j] in at && at[keys[j]] == j
      && Dist(hash(keys[j]), j, |keys|) < window && Reaches(keys, hash(keys[j]), j)
  }

  /** The slot at which `key` is indexed holds it, with its location. */
  ghost predicate Indexed(keys: seq<nat>, values: seq<Location>, at: map<nat, nat>, m: map<nat, Location>, key: nat)
    requires key in at && key in m && |values| == |keys|
  {
    at[key] < |keys| && keys[at[key]] == key && Live(key) && values[at[key]] == m[key]
  }

  /** The table stands for the finite map `m`: `at` gives the one slot of every live key. */
  ghost predicate Stores(keys: seq<nat>, values: seq<Location>, hash: nat -> nat, window: nat,
                         at: map<nat, nat>, m: map<nat, Location>) {
    && |values| == |keys| && HashInto(hash, |keys|) && window <= |keys|
    && at.Keys == m.Keys
    && (forall j {:trigger Settled(keys, hash, window, at, j)} :: 0 <= j < |keys| ==> Settled(keys, hash, window, at, j))
    && (forall key {:trigger Indexed(keys, values, at, m, key)} :: key in m ==> Indexed(keys, values, at, m, key))
  }

  /** The first `d` probes from `h` meet neither `key` nor an empty slot. */
  ghost predicate Unseen(keys: seq<nat>, h: nat, d: nat, key: nat)
    requires h < |keys|
  {
    forall i :: 0 <= i < |keys| && Dist(h, i, |keys|) < d ==> keys[i] != key && keys[i] != EMPTY
  }

  /** A slot that the probe window of `key` offers to a new entry. */
  ghost predicate Room(keys: seq<nat>, hash: nat -> nat, window: nat, key: nat, tombstones: bool)
    requires HashInto(hash, |keys|)
  {
    exists j :: 0 <= j < |keys| && Dist(hash(key), j, |keys|) < window &&
                (keys[j] == EMPTY || (tombstones && keys[j] == TOMBSTONE))
  }

  /** Slot `dest` is free and a probe for `key` gets there within its window. */
  ghost predicate FreeFor(keys: seq<nat>, hash: nat -> nat, window: nat, key: nat, dest: nat)
    requires HashInto(hash, |keys|)
  {
    && dest < |keys| && !Live(keys[dest])
    && Dist(hash(key), dest, |keys|) < window && Reaches(keys, hash(key), dest)
  }

  // ----- the keys as a value -----

  /** How many steps from `h`, starting at step `d`, until a slot that holds no live key. */
  ghost function Nearest(keys: seq<nat>, h: nat, d: nat): (r: nat)
    requires h < |keys| && d <= |keys|
    ensures d <= r <= |keys| && (r < |keys| ==> !Live(keys[At(h, r, |keys|)]))
    decreases |keys| - d
  {
    if d == |keys| || !Live(keys[At(h, d, |keys|)]) then d else Nearest(keys, h, d + 1)
  }

  /** A new key goes to the nearest slot of its path that holds no live key. */
  ghost function Entered(keys: seq<nat>, hash: nat -> nat, key: nat): (r: seq<nat>)
    requires HashInto(hash, |keys|)
    ensures |r| == |keys|
  {
    if |keys| == 0 then keys
    else
      var d := Nearest(keys, hash(key), 0);
      if d < |keys| then keys[At(hash(key), d, |keys|) := key] else keys
  }

  /** A removed key leaves a tombstone. */
  ghost function Vacated(keys: seq<nat>, key: nat): (r: seq<nat>)
    ensures |r| == |keys|
    ensures forall j {:trigger r[j]} :: 0 <= j < |keys| ==> r[j] == if keys[j] == key then TOMBSTONE else keys[j]
  {
    seq(|keys|, j requires 0 <= j < |keys| => if keys[j] == key then TOMBSTONE else keys[j])
  }

  lemma {:induction false} NearestIs(keys: seq<nat>, h: nat, d: nat, dest: nat)
    requires h < |keys| && dest < |keys| && d <= Dist(h, dest, |keys|)
    requires Unseen(keys, h, Dist(h, dest, |keys|), TOMBSTONE) && !Live(keys[dest])
    ensures Nearest(keys, h, d) == Dist(h, dest, |keys|)
    decreases |keys| - d
  {
    if d < Dist(h, dest, |keys|) {
      assert Live(keys[At(h, d, |keys|)]);
      NearestIs(keys, h, d + 1, dest);
    } else {
      assert At(h, d, |keys|) == dest;
    }
  }

  /** The key of a live slot is in no other slot. */
  lemma OnlySlot(keys: seq<nat>, values: seq<Location>, hash: nat -> nat, window: nat,
                 at: map<nat, nat>, m: map<nat, Location>, dest: nat)
    requires Stores(keys, values, hash, window, at, m) && dest < |keys| && Live(keys[dest])
    ensures Vacated(keys, keys[dest]) == keys[dest := TOMBSTONE]
  {
    assert Settled(keys, hash, window, at, dest);
    forall j | 0 <= j < |keys| ensures Vacated(keys, keys[dest])[j] == keys[dest := TOMBSTONE][j] {
      assert Settled(keys, hash, window, at, j);
    }
  }

  /** Slots that have ever held a key. */
  ghost function Used(keys: seq<nat>): set<nat> {
    set j: nat | j < |keys| && keys[j] != EMPTY
  }

  /** Entering uses up at most one slot, and only one without a live key. */
  lemma EnteredUses(keys: seq<nat>, hash: nat -> nat, key: nat)
    requires HashInto(hash, |keys|) && Live(key)
    ensures Used(keys) <= Used(Entered(keys, hash, key)) && |Used(Entered(keys, hash, key))| <= |Used(keys)| + 1
  {
    if |keys| > 0 {
      var d := Nearest(keys, hash(key), 0);
      if d < |keys| {
        var j := At(hash(key), d, |keys|);
        assert Used(Entered(keys, hash, key)) == Used(keys) + {j};
      }
    }
  }

  /** Leaving uses up none and frees none. */
  lemma VacatedUses(keys: seq<nat>, key: nat)
    requires Live(key)
    ensures Used(Vacated(keys, key)) == Used(keys)
  {}

  /** So an empty slot on offer stays on offer when a key leaves. */
  lemma VacatedRoom(keys: seq<nat>, hash: nat -> nat, window: nat, key: nat, other: nat)
    requires HashInto(hash, |keys|) && Live(key)
    ensures Room(Vacated(keys, key), hash, window, other, false) <==> Room(keys, hash, window, other, false)
  {
    if Room(keys, hash, window, other, false) {
      var j :| 0 <= j < |keys| && Dist(hash(other), j, |keys|) < window && keys[j] == EMPTY;
      assert Vacated(keys, key)[j] == EMPTY;
    }
  }

  /** Fewer used slots than the window is long: some slot of every window is empty. */
  lemma RoomBelowWindow(keys: seq<nat>, hash: nat -> nat, window: nat, key: nat)
    requires HashInto(hash, |keys|) && |Used(keys)| < window <= |keys|
    ensures Room(keys, hash, window, key, false)
  {
    var h := hash(key);
    if Path(h, window, |keys|) <= Used(keys) {
      Pigeonhole(h, window, |keys|, Used(keys));
      assert false;
    }
    var j :| j in Path(h, window, |keys|) && j !in Used(keys);
    assert keys[j] == EMPTY;
  }

  // ----- what one write does to the map -----

  lemma PutKey(keys: seq<nat>, values: seq<Location>, hash: nat -> nat, window: nat,
               at: map<nat, nat>, m: map<nat, Location>, dest: nat, key: nat, loc: Location)
    requires Stores(keys, values, hash, window, at, m)
    requires Live(key) && key !in m && FreeFor(keys, hash, window, key, dest)
    ensures Stores(keys[dest := key], values[dest := loc], hash, window, at[key := dest], m[key := loc])
  {
    var keys', values', at', m' := keys[dest := key], values[dest := loc], at[key := dest], m[key := loc];
    forall j | 0 <= j < |keys'| ensures Settled(keys', hash, window, at', j) {
      assert Settled(keys, hash, window, at, j);
    }
    forall k | k in m' ensures Indexed(keys', values', at', m', k) {
      if k != key { assert Indexed(keys, values, at, m, k); }
    }
  }

  lemma SetValue(keys: seq<nat>, values: seq<Location>, hash: nat -> nat, window: nat,
                 at: map<nat, nat>, m: map<nat, Location>, dest: nat, loc: Location)
    requires Stores(keys, values, hash, window, at, m) && dest < |keys| && Live(keys[dest])
    ensures keys[dest] in m && Stores(keys, values[dest := loc], hash, window, at, m[keys[dest] := loc])
  {
    assert Settled(keys, hash, window, at, dest);
    var values', m' := values[dest := loc], m[keys[dest] := loc];
    forall k | k in m' ensures Indexed(keys, values', at, m', k) {
      assert Indexed(keys, values, at, m, k);
    }
  }

  lemma DropKey(keys: seq<nat>, values: seq<Location>, hash: nat -> nat, window: nat,
                at: map<nat, nat>, m: map<nat, Location>, dest: nat)
    requires Stores(keys, values, hash, window, at, m) && dest < |keys| && Live(keys[dest])
    ensures keys[dest] in m
    ensures Stores(keys[dest := TOMBSTONE], values, hash, window, at - {keys[dest]}, m - {keys[dest]})
  {
    assert Settled(keys, hash, window, at, dest);
    var keys', at', m' := keys[dest := TOMBSTONE], at - {keys[dest]}, m - {keys[dest]};
    forall j | 0 <= j < |keys'| ensures Settled(keys', hash, window, at', j) {
      assert Settled(keys, hash, window, at, j);
    }
    forall k | k in m' ensures Indexed(keys', values, at', m', k) {
      assert Indexed(keys, values, at, m, k);
    }
  }

  // ----- what a scan has learnt -----

  lemma UnseenStep(keys: seq<nat>, h: nat, d: nat, key: nat)
    requires h < |keys| && d < |keys| && Unseen(keys, h, d, key)
    requires keys[At(h, d, |keys|)] != key && keys[At(h, d, |keys|)] != EMPTY
    ensures Unseen(keys, h, d + 1, key)
  {}

  lemma OfferIsFree(keys: seq<nat>, hash: nat -> nat, window: nat, key: nat, probed: nat, dest: nat)
    requires HashInto(hash, |keys|) && probed <= window <= |keys| && dest < |keys|
    requires Unseen(keys, hash(key), probed, key) && !Live(keys[dest])
    requires Dist(hash(key), dest, |keys|) <= probed && Dist(hash(key), dest, |keys|) < window
    ensures FreeFor(keys, hash, window, key, dest) && Room(keys, hash, window, key, true)
  {}

  lemma Offer(keys: seq<nat>, hash: nat -> nat, window: nat, key: nat, probed: nat, dest: nat)
    requires HashInto(hash, |keys|) && probed <= window <= |keys| && dest < |keys|
    requires Unseen(keys, hash(key), probed, key) && !Live(keys[dest])
    requires Dist(hash(key), dest, |keys|) <= probed && Dist(hash(key), dest, |keys|) < window
    requires Unseen(keys, hash(key), Dist(hash(key), dest, |keys|), TOMBSTONE)
    ensures FreeFor(keys, hash, window, key, dest) && Room(keys, hash, window, key, true)
    ensures keys[dest := key] == Entered(keys, hash, key)
  {
    OfferIsFree(keys, hash, window, key, probed, dest);
    NearestIs(keys, hash(key), 0, dest);
  }

  lemma NoOffer(keys: seq<nat>, hash: nat -> nat, window: nat, key: nat)
    requires HashInto(hash, |keys|) && Unseen(keys, hash(key), window, TOMBSTONE)
    ensures !Room(keys, hash, window, key, true)
  {}

  /** A key that a scan of its window did not meet, up to the first empty slot or the end
      of the window, is not in the table. */
  lemma Missed(keys: seq<nat>, values: seq<Location>, hash: nat -> nat, window: nat,
               at: map<nat, nat>, m: map<nat, Location>, key: nat, probed: nat)
    requires Stores(keys, values, hash, window, at, m) && Live(key) && probed <= window
    requires Unseen(keys, hash(key), probed, key)
    requires probed == window || keys[At(hash(key), probed, |keys|)] == EMPTY
    ensures key !in m
  {
    forall k | k in m ensures k != key {
      assert Indexed(keys, values, at, m, k) && Settled(keys, hash, window, at, at[k]);
    }
  }

  class Table {
    const keys: array<nat>
    const values: array<Location>
    const hash: nat -> nat
    const window: nat
    const maxEntries: nat
    // Bounds that a stored location must respect.
    const rows: nat
    const levels: nat
    const slots: nat
    var count: nat

    /** The finite map the table stands for. */
    ghost var contents: map<nat, Location>
    ghost var at: map<nat, nat>
    ghost var slotKeys: seq<nat>

    ghost predicate Valid()
      reads this, keys, values
    {
      slotKeys == keys[..] && Stores(slotKeys, values[..], hash, window, at, contents) && count == |contents|
    }

    predicate InBounds(loc: Location) {
      loc.row < rows && loc.level < levels && loc.slot < slots
    }

    /** The map has room for a new key. */
    ghost predicate Takes(key: nat)
      requires HashInto(hash, |slotKeys|)
      reads this
    {
      Live(key) && count < maxEntries && Room(slotKeys, hash, window, key, true)
    }

    constructor (capacity: nat, hash: nat -> nat, window: nat, maxEntries: nat,
                 rows: nat, levels: nat, slots: nat)
      requires window <= capacity && HashInto(hash, capacity)
      ensures Valid() && contents == map[] && fresh(keys) && fresh(values)
      ensures |slotKeys| == capacity && forall j :: 0 <= j < capacity ==> slotKeys[j] == EMPTY
      ensures this.hash == hash && this.window == window && this.maxEntries == maxEntries
      ensures this.rows == rows && this.levels == levels && this.slots == slots
    {
      keys := new nat[capacity](_ => EMPTY);
      values := new Location[capacity](_ => Location(0, 0, 0));
      this.hash, this.window, this.maxEntries := hash, window, maxEntries;
      this.rows, this.levels, this.slots := rows, levels, slots;
      count, contents, at := 0, map[], map[];
      new;
      slotKeys := keys[..];
    }

    /** The slot holding `key`, or -1. Exact in both directions. */
    method Lookup(key: nat) returns (slot: int)
      requires Valid()
      ensures -1 <= slot < keys.Length
      ensures slot >= 0 <==> key in contents
      ensures slot >= 0 ==> keys[slot] == key && Live(key) && contents[key] == values[slot]
    {
      ghost var ks, vs := keys[..], values[..];
      if key in contents { assert Indexed(ks, vs, at, contents, key); }
      if !Live(key) { return -1; }
      slot := hash(key);
      var probed := 0;
      while probed < window
        invariant probed <= window && (probed < keys.Length ==> slot == At(hash(key), probed, keys.Length))
        invariant Unseen(ks, hash(key), probed, key)
      {
        if keys[slot] == key {
          assert Settled(ks, hash, window, at, slot) && Indexed(ks, vs, at, contents, key);
          return;
        }
        if keys[slot] == EMPTY { break; }
        UnseenStep(ks, hash(key), probed, key);
        slot, probed := Next(slot, keys.Length), probed + 1;
      }
      Missed(ks, vs, hash, window, at, contents, key, probed);
      slot := -1;
    }

    /** True exactly for a new live key, below the load limit, with an empty slot in its window. */
    method CanInsert(key: nat) returns (ok: bool)
      requires Valid()
      ensures ok <==> Live(key) && count < maxEntries && key !in contents && Room(slotKeys, hash, window, key, false)
    {
      if !Live(key) || count >= maxEntries { return false; }
      ghost var ks, vs := keys[..], values[..];
      var slot := hash(key);
      var probed := 0;
      while probed < window
        invariant probed <= window && (probed < keys.Length ==> slot == At(hash(key), probed, keys.Length))
        invariant Unseen(ks, hash(key), probed, key)
      {
        if keys[slot] == key {
          assert Settled(ks, hash, window, at, slot);
          return false;
        }
        if keys[slot] == EMPTY {
          Missed(ks, vs, hash, window, at, contents, key, probed);
          assert ks[slot] == EMPTY;
          return true;
        }
        UnseenStep(ks, hash(key), probed, key);
        slot, probed := Next(slot, keys.Length), probed + 1;
      }
      return false;
    }

    /** The scan of an insertion: the slot of an existing entry, or else the first tombstone
        of the window, or else its first empty slot; `keys.Length` when there is no room. */
    method Probe(key: nat) returns (hit: bool, dest: nat)
      requires Valid() && Live(key)
      ensures hit <==> key in contents
      ensures hit ==> dest < keys.Length && keys[dest] == key
      ensures !hit ==> dest <= keys.Length && (dest < keys.Length <==> Room(slotKeys, hash, window, key, true))
      ensures !hit && dest < keys.Length ==>
                FreeFor(slotKeys, hash, window, key, dest) && slotKeys[dest := key] == Entered(slotKeys, hash, key)
    {
      var cap := keys.Length;
      ghost var ks, vs := keys[..], values[..];
      var slot := hash(key);
      var probed := 0;
      dest := cap;
      while probed < window
        invariant probed <= window && dest <= cap
        invariant probed < cap ==> slot == At(hash(key), probed, cap)
        invariant Unseen(ks, hash(key), probed, key)
        invariant dest < cap ==> ks[dest] == TOMBSTONE && Dist(hash(key), dest, cap) < probed
        invariant dest < cap ==> Unseen(ks, hash(key), Dist(hash(key), dest, cap), TOMBSTONE)
        invariant dest == cap ==> Unseen(ks, hash(key), probed, TOMBSTONE)
      {
        assert keys[slot] == ks[slot];
        if keys[slot] == key {
          assert Settled(ks, hash, window, at, slot);
          return true, slot;
        }
        if keys[slot] == EMPTY {
          Missed(ks, vs, hash, window, at, contents, key, probed);
          if dest == cap { dest := slot; }
          Offer(ks, hash, window, key, probed, dest);
          return false, dest;
        }
        UnseenStep(ks, hash(key), probed, key);
        if dest == cap {
          if keys[slot] == TOMBSTONE {
            dest := slot;
          } else {
            UnseenStep(ks, hash(key), probed, TOMBSTONE);
          }
        }
        slot, probed := Next(slot, cap), probed + 1;
      }
      Missed(ks, vs, hash, window, at, contents, key, probed);
      if dest < cap {
        Offer(ks, hash, window, key, probed, dest);
      } else {
        NoOffer(ks, hash, window, key);
      }
      hit := false;
    }

    /** Inserts or updates; a refused insertion changes nothing. */
    method Insert(key: nat, loc: Location) returns (ok: bool)
      requires Valid()
      modifies this, keys, values
      ensures Valid()
      ensures ok <==> Live(key) && loc.row < rows && loc.level < levels && loc.slot < slots &&
                      (key in old(contents) || old(Takes(key)))
      ensures ok ==> contents == old(contents)[key := loc]
      ensures slotKeys == if ok && key !in old(contents) then Entered(old(slotKeys), hash, key) else old(slotKeys)
      ensures !ok ==> keys[..] == old(keys[..]) && values[..] == old(values[..]) && contents == old(contents)
    {
      if !Live(key) || !InBounds(loc) { return false; }
      var hit, dest := Probe(key);
      if hit {
        Relocate(dest, loc);
        return true;
      }
      if dest == keys.Length || count >= maxEntries { return false; }
      Place(dest, key, loc);
      return true;
    }

    /** Writes a new entry into a free slot that its probe path reaches. */
    method Place(dest: nat, key: nat, loc: Location)
      requires Valid() && Live(key) && key !in contents
      requires FreeFor(slotKeys, hash, window, key, dest)
      modifies this, keys, values
      ensures Valid() && contents == old(contents)[key := loc] && slotKeys == old(slotKeys)[dest := key]
    {
      PutKey(slotKeys, values[..], hash, window, at, contents, dest, key, loc);
      keys[dest] := key;
      values[dest] := loc;
      count, at, contents := count + 1, at[key := dest], contents[key := loc];
      slotKeys := keys[..];
      assert slotKeys == old(slotKeys)[dest := key] && values[..] == old(values[..])[dest := loc];
    }

    /** Overwrites the location at a slot found by `Lookup`. */
    method Relocate(slot: nat, loc: Location)
      requires Valid() && slot < keys.Length && Live(keys[slot])
      modifies this`contents, values
      ensures Valid() && contents == old(contents)[keys[slot] := loc]
    {
      SetValue(keys[..], values[..], hash, window, at, contents, slot, loc);
      values[slot] := loc;
      contents := contents[keys[slot] := loc];
      assert values[..] == old(values[..])[slot := loc];
    }

    /** Deletes `key` if present; its slot becomes a tombstone so longer chains stay intact. */
    method Remove(key: nat)
      requires Valid()
      modifies this, keys
      ensures Valid() && contents == old(contents) - {key}
      ensures slotKeys == if key in old(contents) then Vacated(old(slotKeys), key) else old(slotKeys)
      ensures count == if key in old(contents) then old(count) - 1 else old(count)
    {
      var slot := Lookup(key);
      if slot < 0 { return; }
      DropKey(slotKeys, values[..], hash, window, at, contents, slot);
      OnlySlot(slotKeys, values[..], hash, window, at, contents, slot);
      keys[slot] := TOMBSTONE;
      slotKeys := keys[..];
      assert slotKeys == old(slotKeys)[slot := TOMBSTONE];
      count, at, contents := count - 1, at - {key}, contents - {key};
    }
  }
}
