/** Geometry of linear probing over a circular table of `cap` slots, shared by the
    order-reference map, the symbol table and the reconciliation ledger. The sources
    write `(slot + 1) & mask`; the wrap is spelled out here so that it stays linear. */
module Probing {
  import opened Finite

  /** The slot after `slot`. */
  function Next(slot: nat, cap: nat): (r: nat)
    requires slot < cap
    ensures r < cap
  {
    if slot + 1 == cap then 0 else slot + 1
  }

  /** How many steps a probe starting at `h` takes to reach slot `j`. */
  function Dist(h: nat, j: nat, cap: nat): (d: nat)
    requires h < cap && j < cap
    ensures d < cap
  {
    if h <= j then j - h else j + cap - h
  }

  /** The slot a probe starting at `h` sees after `d` steps; the inverse of `Dist`. */
  function At(h: nat, d: nat, cap: nat): (j: nat)
    requires h < cap && d < cap
    ensures j < cap && Dist(h, j, cap) == d
  {
    if h + d < cap then h + d else h + d - cap
  }

  /** The first `d` slots on the probe path from `h`. */
  ghost function Path(h: nat, d: nat, cap: nat): (s: set<nat>)
    requires h < cap && d <= cap
  {
    set j: nat | j < cap && Dist(h, j, cap) < d
  }

  lemma {:induction false} PathSize(h: nat, d: nat, cap: nat)
    requires h < cap && d <= cap
    ensures |Path(h, d, cap)| == d
  {
    if d == 0 {
      assert Path(h, 0, cap) == {};
    } else {
      PathSize(h, d - 1, cap);
      assert Path(h, d, cap) == Path(h, d - 1, cap) + {At(h, d - 1, cap)};
    }
  }

  /** Pigeonhole: a probe that has met only occupied slots has taken no more steps than
      there are occupied slots. */
  lemma Pigeonhole(h: nat, d: nat, cap: nat, occupied: set<nat>)
    requires h < cap && d <= cap
    requires Path(h, d, cap) <= occupied
    ensures d <= |occupied|
  {
    PathSize(h, d, cap);
    SubsetSize(Path(h, d, cap), occupied);
  }
}
