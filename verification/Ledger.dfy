/** The reconciliation ledger: an open-addressing table of open orders. A cancel repairs
    the cluster behind the slot it empties; a completing execution report does not. */
module Ledger {
  import opened Probing

  datatype Entry = Entry(id: nat, remaining: int)
  const FREE := Entry(0, 0)

  datatype Report = Report(id: nat, filled: int, terminal: bool)

  ghost predicate HashInto(hash: nat -> nat, cap: nat) {
    forall k :: hash(k) < cap
  }

  /** How far a probe from `h` goes, from step `d` on, before it meets `id` or a free slot;
      the capacity if it meets neither. */
  ghost function Stop(es: seq<Entry>, h: nat, id: nat, d: nat): (r: nat)
    requires h < |es| && d <= |es|
    ensures d <= r <= |es|
    ensures r < |es| ==> es[At(h, r, |es|)].id in {id, 0}
    decreases |es| - d
  {
    if d == |es| || es[At(h, d, |es|)].id in {id, 0} then d else Stop(es, h, id, d + 1)
  }

  lemma {:induction false} StopIsFirst(es: seq<Entry>, h: nat, id: nat, d: nat, i: nat)
    requires h < |es| && d <= |es| && i < |es|
    requires d <= Dist(h, i, |es|) < Stop(es, h, id, d)
    ensures es[i].id != id && es[i].id != 0
    decreases |es| - d
  {
    if Dist(h, i, |es|) == d {
      assert i == At(h, d, |es|);
    } else {
      StopIsFirst(es, h, id, d + 1, i);
    }
  }

  /** No free slot before `j` on the probe path from `h`. */
  ghost predicate Reaches(es: seq<Entry>, h: nat, j: nat)
    requires h < |es| && j < |es|
  {
    forall i :: 0 <= i < |es| && Dist(h, i, |es|) < Dist(h, j, |es|) ==> es[i].id != 0
  }

  ghost predicate Settled(es: seq<Entry>, hash: nat -> nat, j: nat)
    requires HashInto(hash, |es|) && j < |es|
  {
    es[j].id != 0 ==> Reaches(es, hash(es[j].id), j)
  }

  ghost predicate Distinct(es: seq<Entry>) {
    forall i, j :: 0 <= i < j < |es| && es[i].id != 0 ==> es[i].id != es[j].id
  }

  /** The probe invariant. */
  ghost predicate TableInv(es: seq<Entry>, hash: nat -> nat) {
    && HashInto(hash, |es|) && Distinct(es)
    && forall j {:trigger Settled(es, hash, j)} :: 0 <= j < |es| ==> Settled(es, hash, j)
  }

  ghost function Ids(es: seq<Entry>): set<nat> {
    set j | 0 <= j < |es| && es[j].id != 0 :: es[j].id
  }

  ghost function SlotOf(es: seq<Entry>, id: nat): (j: nat)
    requires id in Ids(es)
    ensures j < |es| && es[j].id == id != 0
  {
    var j :| 0 <= j < |es| && es[j].id == id;
    j
  }

  /** The open orders and their remaining quantities. */
  ghost function Open(es: seq<Entry>): (m: map<nat, int>)
    ensures m.Keys == Ids(es)
  {
    map id | id in Ids(es) :: es[SlotOf(es, id)].remaining
  }

  lemma OpenAt(es: seq<Entry>, j: nat)
    requires Distinct(es) && j < |es| && es[j].id != 0
    ensures es[j].id in Open(es) && Open(es)[es[j].id] == es[j].remaining
    ensures SlotOf(es, es[j].id) == j
  {}

  /** The slot that `find` returns for `id`, or -1. */
  ghost function Found(es: seq<Entry>, hash: nat -> nat, id: nat): (slot: int)
    requires HashInto(hash, |es|)
    ensures -1 <= slot < |es|
  {
    var d := Stop(es, hash(id), id, 0);
    if d < |es| && es[At(hash(id), d, |es|)].id == id then At(hash(id), d, |es|) else -1
  }

  /** `find` sees an order exactly when no free slot cuts its probe path. */
  lemma FoundIff(es: seq<Entry>, hash: nat -> nat, j: nat)
    requires HashInto(hash, |es|) && Distinct(es) && j < |es| && es[j].id != 0
    ensures Found(es, hash, es[j].id) == if Reaches(es, hash(es[j].id), j) then j else -1
  {
    var h, id := hash(es[j].id), es[j].id;
    var d := Stop(es, h, id, 0);
    if d < Dist(h, j, |es|) {
      assert es[At(h, d, |es|)].id in {id, 0};
    } else {
      forall i | 0 <= i < |es| && Dist(h, i, |es|) < Dist(h, j, |es|) ensures es[i].id != 0 {
        StopIsFirst(es, h, id, 0, i);
      }
      if d > Dist(h, j, |es|) { StopIsFirst(es, h, id, 0, j); }
    }
  }

  /** Under the probe invariant, `find` is lookup in the map of open orders. */
  lemma FoundExact(es: seq<Entry>, hash: nat -> nat, id: nat)
    requires TableInv(es, hash) && id != 0
    ensures Found(es, hash, id) >= 0 <==> id in Open(es)
    ensures Found(es, hash, id) >= 0 ==> es[Found(es, hash, id)] == Entry(id, Open(es)[id])
  {
    if id in Ids(es) {
      var j := SlotOf(es, id);
      assert Settled(es, hash, j);
      FoundIff(es, hash, j);
    }
  }

  // ----- clearing a slot -----

  /** What a completing report leaves behind: another order stays findable if and only if
      its probe path avoids the cleared slot. */
  lemma ClearedFindable(es: seq<Entry>, hash: nat -> nat, s: nat, j: nat)
    requires TableInv(es, hash) && s < |es| && j < |es| && s != j && es[j].id != 0
    ensures var h := hash(es[j].id);
            Found(es[s := FREE], hash, es[j].id) ==
            if Dist(h, s, |es|) < Dist(h, j, |es|) then -1 else j
  {
    assert Settled(es, hash, j);
    var es' := es[s := FREE];
    var h := hash(es[j].id);
    if Dist(h, s, |es|) < Dist(h, j, |es|) {
      assert es'[s].id == 0;
    } else {
      assert Reaches(es', h, j);
    }
    FoundIff(es', hash, j);
  }

  // ----- repairing a cluster -----

  ghost function Occupied(es: seq<Entry>): set<nat> {
    set j: nat | j < |es| && es[j].id != 0
  }

  /** Total displacement of the first `n` slots from their home slots. */
  ghost function Spread(es: seq<Entry>, hash: nat -> nat, n: nat): nat
    requires HashInto(hash, |es|) && n <= |es|
  {
    if n == 0 then 0
    else Spread(es, hash, n - 1) + if es[n - 1].id == 0 then 0 else Dist(hash(es[n - 1].id), n - 1, |es|)
  }

  lemma {:induction false} SpreadSet(es: seq<Entry>, hash: nat -> nat, n: nat, j: nat, e: Entry)
    requires HashInto(hash, |es|) && n <= |es| && j < |es|
    ensures Spread(es[j := e], hash, n) ==
            if n <= j then Spread(es, hash, n)
            else Spread(es, hash, n) - (if es[j].id == 0 then 0 else Dist(hash(es[j].id), j, |es|))
                 + if e.id == 0 then 0 else Dist(hash(e.id), j, |es|)
  {
    if n > 0 { SpreadSet(es, hash, n - 1, j, e); }
  }

  /** One turn of the repair loop: lift the entry at `c` and put it where a fresh
      insertion would go. */
  ghost function Reseat(es: seq<Entry>, hash: nat -> nat, c: nat): (r: seq<Entry>)
    requires HashInto(hash, |es|) && c < |es| && es[c].id != 0
    ensures |r| == |es|
  {
    var lifted := es[c := FREE];
    lifted[Seat(es, hash, c) := es[c]]
  }

  /** Where that is: the first free slot of its probe path once `c` is free. */
  ghost function Seat(es: seq<Entry>, hash: nat -> nat, c: nat): (j: nat)
    requires HashInto(hash, |es|) && c < |es| && es[c].id != 0
    ensures j < |es| && Dist(hash(es[c].id), j, |es|) <= Dist(hash(es[c].id), c, |es|)
    ensures es[c := FREE][j].id in {es[c].id, 0}
  {
    var h, lifted := hash(es[c].id), es[c := FREE];
    var d := Stop(lifted, h, es[c].id, 0);
    assert d <= Dist(h, c, |es|) by {
      if d > Dist(h, c, |es|) { StopIsFirst(lifted, h, es[c].id, 0, c); }
    }
    At(h, d, |es|)
  }

  lemma SeatReached(es: seq<Entry>, hash: nat -> nat, c: nat)
    requires HashInto(hash, |es|) && c < |es| && es[c].id != 0
    ensures Reaches(es, hash(es[c].id), Seat(es, hash, c))
  {
    var h, j := hash(es[c].id), Seat(es, hash, c);
    forall i | 0 <= i < |es| && Dist(h, i, |es|) < Dist(h, j, |es|) ensures es[i].id != 0 {
      StopIsFirst(es[c := FREE], h, es[c].id, 0, i);
    }
  }

  /** A turn either drops a duplicate, or shortens some probe path, or leaves the table alone. */
  lemma ReseatMeasure(es: seq<Entry>, hash: nat -> nat, c: nat)
    requires HashInto(hash, |es|) && c < |es| && es[c].id != 0
    ensures var es' := Reseat(es, hash, c);
            || |Occupied(es')| < |Occupied(es)|
            || (|Occupied(es')| == |Occupied(es)| && Spread(es', hash, |es|) < Spread(es, hash, |es|))
            || es' == es
    ensures HasFree(es) ==> HasFree(Reseat(es, hash, c))
  {
    var es', j := Reseat(es, hash, c), Seat(es, hash, c);
    if j == c {
      assert es' == es;
      return;
    }
    assert es'[c].id == 0;
    if es[j].id == es[c].id {
      assert Occupied(es') == Occupied(es) - {c};
    } else {
      assert Occupied(es') == Occupied(es) - {c} + {j};
      SpreadSet(es, hash, |es|, c, FREE);
      SpreadSet(es[c := FREE], hash, |es|, j, es[c]);
    }
  }

  ghost predicate HasFree(es: seq<Entry>) {
    exists j :: 0 <= j < |es| && es[j].id == 0
  }

  /** Slots from `c` to the next free one. */
  ghost function Gap(es: seq<Entry>, c: nat): nat
    requires c < |es|
  {
    Stop(es, c, 0, 0)
  }

  lemma GapShrinks(es: seq<Entry>, c: nat)
    requires c < |es| && es[c].id != 0 && HasFree(es)
    ensures Gap(es, Next(c, |es|)) < Gap(es, c)
  {
    var g, n := Gap(es, c), Next(c, |es|);
    if g == |es| {
      var j :| 0 <= j < |es| && es[j].id == 0;
      StopIsFirst(es, c, 0, 0, j);
    }
    var j := At(c, g, |es|);
    assert Dist(n, j, |es|) == g - 1;
    if Gap(es, n) > g - 1 { StopIsFirst(es, n, 0, 0, j); }
  }

  /** The table after the repair loop has run from slot `c` to the next free slot. The
      loop ends on every table, broken or not. */
  ghost function Reinsert(es: seq<Entry>, hash: nat -> nat, c: nat): (r: seq<Entry>)
    requires HashInto(hash, |es|) && c < |es| && HasFree(es)
    ensures |r| == |es|
    decreases |Occupied(es)|, Spread(es, hash, |es|), Gap(es, c)
  {
    if es[c].id == 0 then es
    else
      ReseatMeasure(es, hash, c);
      GapShrinks(es, c);
      Reinsert(Reseat(es, hash, c), hash, Next(c, |es|))
  }

  /** Moving an entry to a free slot neither loses nor alters one. */
  lemma MoveKeeps(es: seq<Entry>, c: nat, j: nat)
    requires Distinct(es) && c < |es| && j < |es| && es[c].id != 0 && es[j].id == 0
    ensures var es' := es[c := FREE][j := es[c]]; Distinct(es') && Open(es') == Open(es)
  {
    var es' := es[c := FREE][j := es[c]];
    forall id | id in Open(es) ensures id in Open(es') && Open(es')[id] == Open(es)[id] {
      var i := SlotOf(es, id);
      OpenAt(es', if i == c then j else i);
    }
    forall id | id in Open(es') ensures id in Open(es) {
      var i := SlotOf(es', id);
      OpenAt(es, if i == j then c else i);
    }
  }

  lemma ReseatKeeps(es: seq<Entry>, hash: nat -> nat, c: nat)
    requires HashInto(hash, |es|) && c < |es| && es[c].id != 0 && Distinct(es)
    ensures Distinct(Reseat(es, hash, c)) && Open(Reseat(es, hash, c)) == Open(es)
    ensures es[Seat(es, hash, c)].id == 0 || Seat(es, hash, c) == c
  {
    var j := Seat(es, hash, c);
    if j != c {
      MoveKeeps(es, c, j);
    } else {
      assert Reseat(es, hash, c) == es;
    }
  }

  /** While the loop is at distance `n` from the emptied slot `s` and the next free slot
      is at distance `m`: entries in between are cut only by free slots already passed,
      all other entries are settled. */
  ghost predicate Repairing(es: seq<Entry>, hash: nat -> nat, s: nat, n: nat, m: nat) {
    && HashInto(hash, |es|) && Distinct(es)
    && s < |es| && 0 < n <= m < |es|
    && es[At(s, m, |es|)].id == 0
    && (forall j :: 0 <= j < |es| && n <= Dist(s, j, |es|) < m ==> es[j].id != 0)
    && (forall j {:trigger Settled(es, hash, j)} ::
          0 <= j < |es| && !(n <= Dist(s, j, |es|) < m) ==> Settled(es, hash, j))
    && (forall j {:trigger Passed(es, hash, s, n, j)} ::
          0 <= j < |es| && n <= Dist(s, j, |es|) < m ==> Passed(es, hash, s, n, j))
  }

  /** Every free slot on the probe path of the entry at `j` is less than `n` beyond `s`. */
  ghost predicate Passed(es: seq<Entry>, hash: nat -> nat, s: nat, n: nat, j: nat)
    requires HashInto(hash, |es|) && s < |es| && j < |es|
  {
    var h := hash(es[j].id);
    forall i :: 0 <= i < |es| && Dist(h, i, |es|) < Dist(h, j, |es|) && es[i].id == 0 ==> Dist(s, i, |es|) < n
  }

  lemma RepairStep(es: seq<Entry>, hash: nat -> nat, s: nat, n: nat, m: nat)
    requires Repairing(es, hash, s, n, m) && n < m
    ensures Repairing(Reseat(es, hash, At(s, n, |es|)), hash, s, n + 1, m)
  {
    var c := At(s, n, |es|);
    var es' := Reseat(es, hash, c);
    ReseatKeeps(es, hash, c);
    SeatBefore(es, hash, s, n, m);
    forall j | 0 <= j < |es| && n + 1 <= Dist(s, j, |es|) < m ensures Passed(es', hash, s, n + 1, j) {
      PassedAfter(es, hash, s, n, m, j);
    }
    forall j | 0 <= j < |es| && !(n + 1 <= Dist(s, j, |es|) < m) ensures Settled(es', hash, j) {
      SettledAfter(es, hash, s, n, m, j);
    }
  }

  /** The entry lifted next moves to a slot the loop has already passed, or stays. */
  lemma SeatBefore(es: seq<Entry>, hash: nat -> nat, s: nat, n: nat, m: nat)
    requires Repairing(es, hash, s, n, m) && n < m
    ensures Dist(s, Seat(es, hash, At(s, n, |es|)), |es|) <= n
  {
    var c := At(s, n, |es|);
    var j := Seat(es, hash, c);
    ReseatKeeps(es, hash, c);
    assert Passed(es, hash, s, n, c);
    if j != c { assert es[j].id == 0; }
  }

  lemma PassedAfter(es: seq<Entry>, hash: nat -> nat, s: nat, n: nat, m: nat, j: nat)
    requires Repairing(es, hash, s, n, m) && n < m && j < |es| && n + 1 <= Dist(s, j, |es|) < m
    ensures Passed(Reseat(es, hash, At(s, n, |es|)), hash, s, n + 1, j)
  {
    SeatBefore(es, hash, s, n, m);
    assert Passed(es, hash, s, n, j);
  }

  lemma SettledAfter(es: seq<Entry>, hash: nat -> nat, s: nat, n: nat, m: nat, j: nat)
    requires Repairing(es, hash, s, n, m) && n < m && j < |es| && !(n + 1 <= Dist(s, j, |es|) < m)
    ensures Settled(Reseat(es, hash, At(s, n, |es|)), hash, j)
  {
    var c := At(s, n, |es|);
    var seat := Seat(es, hash, c);
    var lifted := es[c := FREE];
    if j == seat {
      SeatReached(es, hash, c);
    } else if j != c {
      assert Settled(lifted, hash, j) by { NotCut(es, hash, s, n, m, j); }
    }
  }

  /** A settled entry outside the stretch under repair does not depend on the slot lifted next. */
  lemma NotCut(es: seq<Entry>, hash: nat -> nat, s: nat, n: nat, m: nat, j: nat)
    requires Repairing(es, hash, s, n, m) && n < m && j < |es| && !(n <= Dist(s, j, |es|) < m)
    ensures Settled(es[At(s, n, |es|) := FREE], hash, j)
  {
    assert Settled(es, hash, j);
    var e := At(s, m, |es|);
    assert es[e].id == 0;
  }

  lemma RepairDone(es: seq<Entry>, hash: nat -> nat, s: nat, m: nat)
    requires Repairing(es, hash, s, m, m)
    ensures TableInv(es, hash)
  {}

  lemma ReinsertUnfold(es: seq<Entry>, hash: nat -> nat, c: nat)
    requires HashInto(hash, |es|) && c < |es| && HasFree(es) && es[c].id != 0
    ensures var es' := Reseat(es, hash, c);
            HasFree(es') && Reinsert(es, hash, c) == Reinsert(es', hash, Next(c, |es|))
  {
    ReseatMeasure(es, hash, c);
  }

  /** With another free slot in the table, the repair restores the probe invariant. */
  lemma {:induction false} RepairRestores(es: seq<Entry>, hash: nat -> nat, s: nat, n: nat, m: nat)
    requires Repairing(es, hash, s, n, m) && HasFree(es)
    ensures TableInv(Reinsert(es, hash, At(s, n, |es|)), hash)
    ensures Open(Reinsert(es, hash, At(s, n, |es|))) == Open(es)
    decreases m - n
  {
    var c := At(s, n, |es|);
    if n < m {
      var es' := Reseat(es, hash, c);
      assert At(s, n + 1, |es|) == Next(c, |es|);
      ReseatKeeps(es, hash, c);
      ReinsertUnfold(es, hash, c);
      RepairStep(es, hash, s, n, m);
      RepairRestores(es', hash, s, n + 1, m);
    } else {
      RepairDone(es, hash, s, m);
    }
  }

  /** In a table whose only free slot is `r`: the `n` slots from `r` on hold settled entries. */
  ghost predicate Circling(es: seq<Entry>, hash: nat -> nat, r: nat, n: nat) {
    && HashInto(hash, |es|) && Distinct(es)
    && r < |es| && 0 < n <= |es| && es[r].id == 0
    && (forall j :: 0 <= j < |es| && j != r ==> es[j].id != 0)
    && (forall j {:trigger Settled(es, hash, j)} ::
          0 <= j < |es| && Dist(r, j, |es|) < n ==> Settled(es, hash, j))
  }

  /** A turn in such a table: either the entry keeps its place, and one more is settled, or
      it moves into the free slot and a new round starts. */
  lemma CircleStep(es: seq<Entry>, hash: nat -> nat, r: nat, n: nat)
    requires Circling(es, hash, r, n) && n < |es|
    ensures var c := At(r, n, |es|); var es' := Reseat(es, hash, c);
            || (es' == es && Circling(es, hash, r, n + 1))
            || (es' != es && Circling(es', hash, c, 1))
  {
    var c := At(r, n, |es|);
    var es', seat := Reseat(es, hash, c), Seat(es, hash, c);
    ReseatKeeps(es, hash, c);
    if seat == c {
      assert es' == es;
      SeatReached(es, hash, c);
      forall j | 0 <= j < |es| && Dist(r, j, |es|) < n + 1 ensures Settled(es, hash, j) {
        if Dist(r, j, |es|) == n { assert j == c; }
      }
    } else {
      assert seat == r && es'[c] == FREE;
      assert Settled(es', hash, c);
    }
  }

  lemma CircleDone(es: seq<Entry>, hash: nat -> nat, r: nat)
    requires Circling(es, hash, r, |es|)
    ensures TableInv(es, hash)
  {}

  ghost function Cursor(es: seq<Entry>, r: nat, n: nat): nat
    requires r < |es| && n <= |es|
  {
    if n == |es| then r else At(r, n, |es|)
  }

  /** In a table with no other free slot the loop circles until a full round moves nothing;
      it restores the invariant there too. */
  lemma {:induction false} CircleRestores(es: seq<Entry>, hash: nat -> nat, r: nat, n: nat)
    requires Circling(es, hash, r, n) && HasFree(es)
    ensures TableInv(Reinsert(es, hash, Cursor(es, r, n)), hash)
    ensures Open(Reinsert(es, hash, Cursor(es, r, n))) == Open(es)
    decreases |Occupied(es)|, Spread(es, hash, |es|), |es| - n
  {
    if n < |es| {
      var c := At(r, n, |es|);
      var es' := Reseat(es, hash, c);
      CircleStep(es, hash, r, n);
      ReseatKeeps(es, hash, c);
      ReseatMeasure(es, hash, c);
      ReinsertUnfold(es, hash, c);
      if es' == es {
        assert Next(c, |es|) == Cursor(es, r, n + 1);
        CircleRestores(es, hash, r, n + 1);
      } else {
        assert Next(c, |es|) == Cursor(es', c, 1);
        CircleRestores(es', hash, c, 1);
      }
    } else {
      CircleDone(es, hash, r);
    }
  }

  lemma ClearedOpen(es: seq<Entry>, s: nat)
    requires Distinct(es) && s < |es| && es[s].id != 0
    ensures Distinct(es[s := FREE]) && Open(es[s := FREE]) == Open(es) - {es[s].id}
  {
    var es' := es[s := FREE];
    forall id ensures id in Open(es') <==> id in Open(es) && id != es[s].id { ClearedIds(es, s, id); }
    forall id | id in Open(es') ensures Open(es')[id] == Open(es)[id] {
      ClearedIds(es, s, id);
      var j := SlotOf(es', id);
      OpenAt(es', j);
      OpenAt(es, j);
    }
  }

  lemma ClearedIds(es: seq<Entry>, s: nat, id: nat)
    requires Distinct(es) && s < |es| && es[s].id != 0
    ensures id in Ids(es[s := FREE]) <==> id in Ids(es) && id != es[s].id
    ensures Distinct(es[s := FREE])
  {
    var es' := es[s := FREE];
    if id in Ids(es') {
      var j := SlotOf(es', id);
      assert es[j] == es'[j] && j != s;
      OpenAt(es, j);
    }
    if id in Ids(es) && id != es[s].id {
      var j := SlotOf(es, id);
      assert es'[j].id == id;
    }
  }

  /** Cancelling a present order, on any table that meets the probe invariant, full or
      not: every other order stays findable with its remaining quantity. */
  lemma CancelRepairs(es: seq<Entry>, hash: nat -> nat, s: nat)
    requires TableInv(es, hash) && s < |es| && es[s].id != 0
    ensures var cleared := es[s := FREE];
            && HasFree(cleared)
            && TableInv(Reinsert(cleared, hash, Next(s, |es|)), hash)
            && Open(Reinsert(cleared, hash, Next(s, |es|))) == Open(es) - {es[s].id}
  {
    var cleared := es[s := FREE];
    assert cleared[s].id == 0;
    ClearedOpen(es, s);
    var n := Next(s, |es|);
    var m := Gap(cleared, n) + 1;
    forall j | 0 <= j < |es| && 0 < Dist(s, j, |es|) < m ensures cleared[j].id != 0 {
      StopIsFirst(cleared, n, 0, 0, j);
    }
    if m < |es| {
      StartRepair(es, hash, s, m);
      RepairRestores(cleared, hash, s, 1, m);
    } else {
      assert Settled(cleared, hash, s);
      CircleRestores(cleared, hash, s, 1);
    }
  }

  lemma StartRepair(es: seq<Entry>, hash: nat -> nat, s: nat, m: nat)
    requires TableInv(es, hash) && s < |es| && 0 < m < |es| && es[At(s, m, |es|)].id == 0
    requires forall j :: 0 <= j < |es| && 0 < Dist(s, j, |es|) < m ==> es[j].id != 0
    ensures Repairing(es[s := FREE], hash, s, 1, m)
  {
    var cleared := es[s := FREE];
    var e := At(s, m, |es|);
    forall j | 0 <= j < |es| ensures !(1 <= Dist(s, j, |es|) < m) ==> Settled(cleared, hash, j)
      ensures 1 <= Dist(s, j, |es|) < m ==> Passed(cleared, hash, s, 1, j)
    {
      assert Settled(es, hash, j);
      assert es[e].id == 0;
    }
  }

  lemma RegisterKeeps(es: seq<Entry>, hash: nat -> nat, id: nat, quantity: int)
    requires TableInv(es, hash) && id != 0
    ensures var d := Stop(es, hash(id), id, 0);
            && (d < |es| && es[At(hash(id), d, |es|)].id == 0 <==> id !in Open(es) && HasFree(es))
            && (d < |es| && es[At(hash(id), d, |es|)].id == 0 ==>
                  var es' := es[At(hash(id), d, |es|) := Entry(id, quantity)];
                  TableInv(es', hash) && Open(es') == Open(es)[id := quantity])
  {
    var h := hash(id);
    var d := Stop(es, h, id, 0);
    FoundExact(es, hash, id);
    if d == |es| {
      forall j | 0 <= j < |es| ensures es[j].id != 0 { StopIsFirst(es, h, id, 0, j); }
    } else if es[At(h, d, |es|)].id == 0 {
      InsertKeeps(es, hash, id, quantity);
    }
  }

  lemma InsertKeeps(es: seq<Entry>, hash: nat -> nat, id: nat, quantity: int)
    requires TableInv(es, hash) && id != 0 && id !in Open(es)
    requires Stop(es, hash(id), id, 0) < |es|
    requires es[At(hash(id), Stop(es, hash(id), id, 0), |es|)].id == 0
    ensures var es' := es[At(hash(id), Stop(es, hash(id), id, 0), |es|) := Entry(id, quantity)];
            TableInv(es', hash) && Open(es') == Open(es)[id := quantity]
  {
    var j := At(hash(id), Stop(es, hash(id), id, 0), |es|);
    var es' := es[j := Entry(id, quantity)];
    forall i | 0 <= i < |es| ensures Settled(es', hash, i) {
      assert Settled(es, hash, i);
      if i == j {
        forall k | 0 <= k < |es| && Dist(hash(id), k, |es|) < Dist(hash(id), j, |es|) ensures es[k].id != 0 {
          StopIsFirst(es, hash(id), id, 0, k);
        }
      }
    }
    assert forall i :: 0 <= i < |es| && es[i].id != 0 ==> es[i].id in Ids(es);
    SetOpen(es, es', j, id, quantity);
  }

  lemma SetOpen(es: seq<Entry>, es': seq<Entry>, j: nat, id: nat, quantity: int)
    requires Distinct(es) && Distinct(es') && j < |es| && id != 0 && es' == es[j := Entry(id, quantity)]
    requires es[j].id in {0, id}
    ensures Open(es') == Open(es)[id := quantity]
  {
    var m, m' := Open(es), Open(es');
    OpenAt(es', j);
    forall k | k != id ensures k in m' <==> k in m { OthersKept(es, es', j, id, k); }
    forall k | k in m && k != id ensures k in m' && m'[k] == m[k] { OthersKept(es, es', j, id, k); }
  }

  /** Changing the entry of one id leaves the others. */
  lemma OthersKept(es: seq<Entry>, es': seq<Entry>, j: nat, id: nat, k: nat)
    requires Distinct(es) && Distinct(es') && j < |es| && k != id && es[j].id in {0, id}
    requires |es'| == |es| && es'[j].id == id && forall i :: 0 <= i < |es| && i != j ==> es'[i] == es[i]
    ensures k in Open(es') <==> k in Open(es)
    ensures k in Open(es) ==> Open(es')[k] == Open(es)[k]
  {
    if k in Open(es) { OpenAt(es', SlotOf(es, k)); }
    if k in Open(es') { OpenAt(es, SlotOf(es', k)); }
  }

  lemma SetRemaining(es: seq<Entry>, hash: nat -> nat, j: nat, quantity: int)
    requires TableInv(es, hash) && j < |es| && es[j].id != 0
    ensures var es' := es[j := Entry(es[j].id, quantity)];
            TableInv(es', hash) && Open(es') == Open(es)[es[j].id := quantity]
  {
    var es' := es[j := Entry(es[j].id, quantity)];
    forall i | 0 <= i < |es| ensures Settled(es', hash, i) {
      assert Settled(es, hash, i);
    }
    SetOpen(es, es', j, es[j].id, quantity);
  }

  /** On any table without duplicate ids the repair loop loses and alters no order. */
  lemma {:induction false} ReinsertKeeps(es: seq<Entry>, hash: nat -> nat, c: nat)
    requires HashInto(hash, |es|) && c < |es| && HasFree(es) && Distinct(es)
    ensures Distinct(Reinsert(es, hash, c)) && Open(Reinsert(es, hash, c)) == Open(es)
    decreases |Occupied(es)|, Spread(es, hash, |es|), Gap(es, c)
  {
    if es[c].id != 0 {
      ReinsertUnfold(es, hash, c);
      ReseatMeasure(es, hash, c);
      GapShrinks(es, c);
      ReseatKeeps(es, hash, c);
      ReinsertKeeps(Reseat(es, hash, c), hash, Next(c, |es|));
    }
  }

  /** On a table that meets the probe invariant it changes nothing. */
  lemma {:induction false} SettledStays(es: seq<Entry>, hash: nat -> nat, c: nat)
    requires TableInv(es, hash) && c < |es| && HasFree(es)
    ensures Reinsert(es, hash, c) == es
    decreases Gap(es, c)
  {
    if es[c].id != 0 {
      var h, j := hash(es[c].id), Seat(es, hash, c);
      assert Settled(es, hash, c);
      assert j == c;
      assert Reseat(es, hash, c) == es;
      ReinsertUnfold(es, hash, c);
      GapShrinks(es, c);
      SettledStays(es, hash, Next(c, |es|));
    }
  }

  /** Another order's probe path crosses slot `s`. */
  ghost predicate Cuts(es: seq<Entry>, hash: nat -> nat, s: nat)
    requires HashInto(hash, |es|) && s < |es|
  {
    exists j {:trigger es[j]} :: 0 <= j < |es| && j != s && es[j].id != 0 &&
      Dist(hash(es[j].id), s, |es|) < Dist(hash(es[j].id), j, |es|)
  }

  /** A completing report keeps the probe invariant if and only if no other order's probe path
      crosses the slot it clears. */
  lemma ClearedSound(es: seq<Entry>, hash: nat -> nat, s: nat)
    requires TableInv(es, hash) && s < |es| && es[s].id != 0
    ensures TableInv(es[s := FREE], hash) <==> !Cuts(es, hash, s)
  {
    var es' := es[s := FREE];
    ClearedOpen(es, s);
    if Cuts(es, hash, s) {
      var j :| 0 <= j < |es| && j != s && es[j].id != 0 && Dist(hash(es[j].id), s, |es|) < Dist(hash(es[j].id), j, |es|);
      assert es'[j] == es[j] && es'[s].id == 0;
      assert !Settled(es', hash, j);
    } else {
      forall j | 0 <= j < |es'| ensures Settled(es', hash, j) { assert Settled(es, hash, j) && es[j] == es[j]; }
    }
  }
}
