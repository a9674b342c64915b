/** The decoder's ticker table: linear probing without deletion, at most half full, where
    a lookup gives up after half the capacity. A slot is free when its value is NOT_FOUND,
    so every 64-bit key, zero included, is a legal ticker. */
module SymbolTable {
  import opened Probing

  const NOT_FOUND: nat := 0xFFFF

  ghost predicate Reaches(values: seq<nat>, h: nat, j: nat)
    requires h < |values| && j < |values|
  {
    forall i :: 0 <= i < |values| && Dist(h, i, |values|) < Dist(h, j, |values|) ==> values[i] != NOT_FOUND
  }

  ghost predicate HashInto(hash: nat -> nat, cap: nat) {
    forall k :: hash(k) < cap
  }

  /** A ticker in slot `j` is within the probes that a lookup allows. */
  ghost predicate Settled(keys: seq<nat>, values: seq<nat>, hash: nat -> nat, j: nat)
    requires |keys| == |values| && HashInto(hash, |keys|) && j < |keys|
  {
    values[j] != NOT_FOUND ==>
      Dist(hash(keys[j]), j, |keys|) < |keys| / 2 && Reaches(values, hash(keys[j]), j)
  }

  ghost predicate Inv(keys: seq<nat>, values: seq<nat>, hash: nat -> nat) {
    && |keys| == |values| && HashInto(hash, |keys|)
    && (forall i, j :: 0 <= i < j < |keys| && values[i] != NOT_FOUND && values[j] != NOT_FOUND ==> keys[i] != keys[j])
    && forall j {:trigger Settled(keys, values, hash, j)} :: 0 <= j < |keys| ==> Settled(keys, values, hash, j)
  }

  ghost function Occupied(values: seq<nat>): set<nat> {
    set j: nat | j < |values| && values[j] != NOT_FOUND
  }

  ghost predicate Holds(keys: seq<nat>, values: seq<nat>, key: nat, j: nat)
    requires |keys| == |values|
  {
    j < |keys| && keys[j] == key && values[j] != NOT_FOUND
  }

  /** The finite map the table stands for. */
  ghost function Contents(keys: seq<nat>, values: seq<nat>): map<nat, nat>
    requires |keys| == |values|
  {
    map key | key in Tickers(keys, values) :: values[Slot(keys, values, key)]
  }

  ghost function Tickers(keys: seq<nat>, values: seq<nat>): set<nat>
    requires |keys| == |values|
  {
    set j | j in Occupied(values) :: keys[j]
  }

  ghost function Slot(keys: seq<nat>, values: seq<nat>, key: nat): (j: nat)
    requires |keys| == |values| && key in Tickers(keys, values)
    ensures Holds(keys, values, key, j)
  {
    var j :| j in Occupied(values) && keys[j] == key;
    j
  }

  lemma ContentsAt(keys: seq<nat>, values: seq<nat>, hash: nat -> nat, j: nat)
    requires Inv(keys, values, hash) && j < |keys| && values[j] != NOT_FOUND
    ensures keys[j] in Contents(keys, values) && Contents(keys, values)[keys[j]] == values[j]
  {}

  /** The first `d` probes from `h` meet only occupied slots, none of them holding `key`. */
  ghost predicate Unseen(keys: seq<nat>, values: seq<nat>, h: nat, d: nat, key: nat)
    requires |keys| == |values| && h < |keys|
  {
    forall i :: 0 <= i < |keys| && Dist(h, i, |keys|) < d ==> values[i] != NOT_FOUND && keys[i] != key
  }

  lemma UnseenStep(keys: seq<nat>, values: seq<nat>, h: nat, d: nat, key: nat)
    requires |keys| == |values| && h < |keys| && d < |keys| && Unseen(keys, values, h, d, key)
    requires values[At(h, d, |keys|)] != NOT_FOUND && keys[At(h, d, |keys|)] != key
    ensures Unseen(keys, values, h, d + 1, key)
  {}

  /** A scan that meets neither `key` nor a free slot is no longer than the table is full. */
  lemma ScanBound(keys: seq<nat>, values: seq<nat>, h: nat, d: nat, key: nat)
    requires |keys| == |values| && h < |keys| && d <= |keys| && Unseen(keys, values, h, d, key)
    ensures d <= |Occupied(values)|
  {
    assert Path(h, d, |keys|) <= Occupied(values);
    Pigeonhole(h, d, |keys|, Occupied(values));
  }

  lemma Missed(keys: seq<nat>, values: seq<nat>, hash: nat -> nat, key: nat, d: nat)
    requires Inv(keys, values, hash) && d <= |keys| && Unseen(keys, values, hash(key), d, key)
    requires d >= |keys| / 2 || values[At(hash(key), d, |keys|)] == NOT_FOUND
    ensures key !in Contents(keys, values)
  {
    forall j | j in Occupied(values) ensures keys[j] != key {
      assert Settled(keys, values, hash, j);
    }
  }

  lemma PutNew(keys: seq<nat>, values: seq<nat>, hash: nat -> nat, key: nat, idx: nat, d: nat)
    requires Inv(keys, values, hash) && d < |keys| / 2 && Unseen(keys, values, hash(key), d, key)
    requires idx != NOT_FOUND && key !in Contents(keys, values)
    requires values[At(hash(key), d, |keys|)] == NOT_FOUND
    ensures var j := At(hash(key), d, |keys|);
            && Inv(keys[j := key], values[j := idx], hash)
            && Contents(keys[j := key], values[j := idx]) == Contents(keys, values)[key := idx]
            && |Occupied(values[j := idx])| == |Occupied(values)| + 1
  {
    var dest := At(hash(key), d, |keys|);
    var keys', values' := keys[dest := key], values[dest := idx];
    forall i | 0 <= i < |keys| && values[i] != NOT_FOUND ensures keys[i] != key {
      assert i in Occupied(values) && keys[i] in Tickers(keys, values);
    }
    forall j | 0 <= j < |keys'| ensures Settled(keys', values', hash, j) {
      assert Settled(keys, values, hash, j);
    }
    assert Occupied(values') == Occupied(values) + {dest};
    SameMap(keys, values, keys', values', hash, dest, key, idx);
  }

  lemma SameMap(keys: seq<nat>, values: seq<nat>, keys': seq<nat>, values': seq<nat>, hash: nat -> nat,
                dest: nat, key: nat, idx: nat)
    requires Inv(keys, values, hash) && Inv(keys', values', hash) && |keys| == |keys'| && dest < |keys|
    requires keys' == keys[dest := key] && values' == values[dest := idx] && idx != NOT_FOUND
    requires values[dest] != NOT_FOUND ==> keys[dest] == key
    ensures Contents(keys', values') == Contents(keys, values)[key := idx]
  {
    var m, m' := Contents(keys, values), Contents(keys', values');
    ContentsAt(keys', values', hash, dest);
    forall k | k in m' && k != key ensures k in m && m[k] == m'[k] {
      ContentsAt(keys, values, hash, Slot(keys', values', k));
    }
    forall k | k in m && k != key ensures k in m' {
      ContentsAt(keys', values', hash, Slot(keys, values, k));
    }
  }

  class Table {
    const keys: array<nat>
    const values: array<nat>
    const hash: nat -> nat
    const symbols: nat
    var count: nat

    ghost predicate Valid()
      reads this, keys, values
    {
      && keys.Length == values.Length == 2 * symbols && keys != values
      && 0 < symbols <= NOT_FOUND
      && Inv(keys[..], values[..], hash)
      && count == |Occupied(values[..])| == |Map()| <= symbols
    }

    ghost function Map(): map<nat, nat>
      requires keys.Length == values.Length
      reads this, keys, values
    {
      Contents(keys[..], values[..])
    }

    constructor (symbols: nat, hash: nat -> nat)
      requires 0 < symbols <= NOT_FOUND && HashInto(hash, 2 * symbols)
      ensures Valid() && Map() == map[] && this.symbols == symbols && fresh(keys) && fresh(values)
    {
      keys := new nat[2 * symbols](_ => 0);
      values := new nat[2 * symbols](_ => NOT_FOUND);
      this.symbols, this.hash, count := symbols, hash, 0;
      new;
      assert Occupied(values[..]) == {};
      assert Map() == map[];
      assert forall j :: 0 <= j < keys.Length ==> Settled(keys[..], values[..], hash, j);
    }

    /** Succeeds for an in-range index while the table is below half full; the scan always
        ends, and a refusal changes nothing. */
    method Insert(key: nat, idx: nat) returns (ok: bool)
      requires Valid()
      modifies this`count, keys, values
      ensures Valid()
      ensures ok <==> idx < symbols && old(count) < symbols
      ensures Map() == if ok then old(Map())[key := idx] else old(Map())
    {
      if idx >= symbols || count >= keys.Length / 2 { return false; }
      ghost var ks, vs, h := keys[..], values[..], hash(key);
      var slot := hash(key);
      ghost var d := 0;
      while values[slot] != NOT_FOUND
        invariant keys[..] == ks && values[..] == vs && count == old(count)
        invariant d < |ks| / 2 && slot == At(h, d, |ks|) && Unseen(ks, vs, h, d, key)
        decreases |ks| - d
      {
        if keys[slot] == key {
          Overwrite(slot, idx);
          return true;
        }
        UnseenStep(ks, vs, h, d, key);
        ScanBound(ks, vs, h, d + 1, key);
        slot, d := Next(slot, keys.Length), d + 1;
      }
      Missed(ks, vs, hash, key, d);
      PutNew(ks, vs, hash, key, idx, d);
      keys[slot], values[slot] := key, idx;
      count := count + 1;
      assert keys[..] == ks[slot := key] && values[..] == vs[slot := idx];
      return true;
    }

    /** A repeated ticker is updated in place. */
    method Overwrite(slot: nat, idx: nat)
      requires Valid() && slot < keys.Length && values[slot] != NOT_FOUND && idx < symbols
      modifies values
      ensures Valid() && Map() == old(Map())[keys[slot] := idx]
    {
      ghost var ks, vs := keys[..], values[..];
      ContentsAt(ks, vs, hash, slot);
      values[slot] := idx;
      assert values[..] == vs[slot := idx];
      assert Occupied(values[..]) == Occupied(vs);
      forall j | 0 <= j < |ks| ensures Settled(ks, values[..], hash, j) {
        assert Settled(ks, vs, hash, j);
      }
      SameMap(ks, vs, ks, values[..], hash, slot, ks[slot], idx);
    }

    /** Exact: half the capacity in probes always suffices. */
    method Lookup(key: nat) returns (idx: nat)
      requires Valid()
      ensures idx == if key in Map() then Map()[key] else NOT_FOUND
    {
      ghost var ks, vs, h := keys[..], values[..], hash(key);
      var slot := hash(key);
      var probed := 0;
      while probed < keys.Length / 2
        invariant probed <= |ks| / 2 && slot == At(h, probed, |ks|) && Unseen(ks, vs, h, probed, key)
      {
        if values[slot] == NOT_FOUND {
          Missed(ks, vs, hash, key, probed);
          return NOT_FOUND;
        }
        if keys[slot] == key {
          ContentsAt(ks, vs, hash, slot);
          return values[slot];
        }
        UnseenStep(ks, vs, h, probed, key);
        slot, probed := Next(slot, keys.Length), probed + 1;
      }
      Missed(ks, vs, hash, key, probed);
      return NOT_FOUND;
    }
  }
}
