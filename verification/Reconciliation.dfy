/** The reconciliation ledger as an object. Its methods are the operations of `LedgerRuns`, on
    every table; what they mean for the open orders is stated next to that. */
module Reconciliation {
  import opened Probing
  import opened Ledger
  import opened LedgerRuns

  class ReconciliationLedger {
    const entries: array<Entry>
    const hash: nat -> nat
    var open: int
    var mismatches: nat
    /** Successful cancels of id 0, each of which took one off the counter. */
    ghost var strays: nat

    ghost predicate Valid()
      reads this
    {
      entries.Length > 0 && HashInto(hash, entries.Length) && 0 <= open < U32
    }

    ghost function Now(): State
      reads this, entries
    {
      State(entries[..], open, strays)
    }

    constructor (capacity: nat, hash: nat -> nat)
      requires capacity > 0 && HashInto(hash, capacity)
      ensures Valid() && Whole(Now()) && TableInv(entries[..], hash) && Open(entries[..]) == map[] && strays == 0
      ensures this.hash == hash && entries.Length == capacity && open == 0 && mismatches == 0 && fresh(entries)
    {
      entries := new Entry[capacity](_ => FREE);
      this.hash, open, mismatches, strays := hash, 0, 0, 0;
      new;
      assert Ids(entries[..]) == {};
      assert Open(entries[..]) == map[];
      assert forall j :: 0 <= j < entries.Length ==> Settled(entries[..], hash, j);
    }

    /** Walks to the first slot that holds `id` or is free; -1 if there is none. */
    method FindOrEmpty(id: nat) returns (slot: int)
      requires Valid()
      ensures var d := Stop(entries[..], hash(id), id, 0);
              slot == if d < entries.Length then At(hash(id), d, entries.Length) else -1
    {
      ghost var es := entries[..];
      slot := hash(id);
      var probe := 0;
      while probe < entries.Length
        invariant probe <= |es| && (probe < |es| ==> slot == At(hash(id), probe, |es|))
        invariant Stop(es, hash(id), id, 0) == Stop(es, hash(id), id, probe)
      {
        if entries[slot].id == id || entries[slot].id == 0 { return; }
        slot, probe := Next(slot, entries.Length), probe + 1;
      }
      slot := -1;
    }

    method Find(id: nat) returns (slot: int)
      requires Valid()
      ensures slot == Found(entries[..], hash, id)
    {
      slot := FindOrEmpty(id);
      if slot >= 0 && entries[slot].id != id { slot := -1; }
    }

    /** What an operation means on any whole table. One on an order that is not hidden acts as on
        the map of open orders, and one on a hidden order is refused; the cancel of id 0 changes
        no order. The table stays whole but for the registration of a hidden id. It stays sound
        but for a completing report that clears a slot on another order's probe path. */
    static ghost predicate Means(was: State, hash: nat -> nat, op: Op, now: State, ok: bool)
      requires HashInto(hash, |was.es|)
    {
      var hidden := Hidden(was.es, hash, IdOf(op));
      && (!hidden && op != CancelOp(0) ==> (Open(now.es), ok) == DoMap(Open(was.es), op, |was.es|))
      && (hidden && !op.RegisterOp? ==> now.es == was.es && !ok)
      && (op == CancelOp(0) ==> (ok <==> HasFree(was.es)) && Open(now.es) == Open(was.es))
      && (Whole(now) <==> !Duplicates(was.es, hash, op))
      && (TableInv(was.es, hash) ==> (TableInv(now.es, hash) <==> !Cutting(was.es, hash, op)))
    }

    static lemma Meaning(was: State, hash: nat -> nat, op: Op, now: State, ok: bool)
      requires HashInto(hash, |was.es|) && Whole(was) && Step(was, hash, op, now, ok)
      ensures Means(was, hash, op, now, ok)
    {
      if op == CancelOp(0) { StepOfZero(was, hash, now, ok); }
      else if !Hidden(was.es, hash, IdOf(op)) { StepIsMapStep(was, hash, op, now, ok); }
      else if !op.RegisterOp? { StepOnHidden(was, hash, op, now, ok); }
      StaysWhole(was, hash, op, now, ok);
      if TableInv(was.es, hash) { StaysSound(was, hash, op, now, ok); }
    }

    /** Takes an id that is not found, if the quantity is positive and a slot is free. */
    method Register(id: nat, quantity: int) returns (ok: bool)
      requires Valid()
      modifies this, entries
      ensures Valid() && Step(old(Now()), hash, RegisterOp(id, quantity), Now(), ok) && mismatches == old(mismatches)
      ensures ok <==> id != 0 && quantity > 0 && old(Found(entries[..], hash, id)) < 0 && HasFree(old(entries[..]))
      ensures old(Whole(Now())) ==> Means(old(Now()), hash, RegisterOp(id, quantity), Now(), ok)
    {
      ghost var was, op := Now(), RegisterOp(id, quantity);
      if id != 0 { RegisterSlot(was.es, hash, id); }
      ok := false;
      if id != 0 && quantity > 0 {
        var slot := FindOrEmpty(id);
        if slot >= 0 && entries[slot].id == 0 {
          entries[slot] := Entry(id, quantity);
          open := (open + 1) % U32;
          ok := true;
          assert entries[..] == was.es[slot := Entry(id, quantity)];
        }
      }
      assert StepsTo(was, hash, op, Now(), ok, entries.Length);
      if Whole(was) { Meaning(was, hash, op, Now(), ok); }
    }

    /** Sets what is left of an order that is found. */
    method Replace(id: nat, quantity: int) returns (ok: bool)
      requires Valid()
      modifies entries
      ensures Valid() && Step(old(Now()), hash, ReplaceOp(id, quantity), Now(), ok)
      ensures ok <==> id != 0 && quantity > 0 && old(Found(entries[..], hash, id)) >= 0
      ensures old(Whole(Now())) ==> Means(old(Now()), hash, ReplaceOp(id, quantity), Now(), ok)
    {
      ghost var was, op := Now(), ReplaceOp(id, quantity);
      ok := false;
      if id != 0 && quantity > 0 {
        var slot := Find(id);
        if slot >= 0 {
          entries[slot] := Entry(id, quantity);
          ok := true;
          assert entries[..] == was.es[slot := Entry(id, quantity)];
        }
      }
      assert StepsTo(was, hash, op, Now(), ok, entries.Length);
      if Whole(was) { Meaning(was, hash, op, Now(), ok); }
    }

    /** A fill within what is left of a found order lowers it. A report that completes the order
        frees its slot and leaves the cluster behind it as it was. */
    method Apply(report: Report) returns (ok: bool)
      requires Valid()
      modifies this, entries
      ensures Valid() && Step(old(Now()), hash, ApplyOp(report), Now(), ok)
      ensures ok <==> Applies(old(entries[..]), hash, report)
      ensures mismatches == old(mismatches) + if ok || report.id == 0 || report.filled <= 0 then 0 else 1
      ensures old(Whole(Now())) ==> Means(old(Now()), hash, ApplyOp(report), Now(), ok)
    {
      ghost var was, op := Now(), ApplyOp(report);
      ok := false;
      if report.id != 0 && report.filled > 0 {
        var slot := Find(report.id);
        if slot < 0 || report.filled > entries[slot].remaining {
          mismatches := mismatches + 1;
        } else {
          entries[slot] := Entry(report.id, entries[slot].remaining - report.filled);
          if report.terminal || entries[slot].remaining == 0 {
            entries[slot] := FREE;
            open := (open - 1) % U32;
          }
          ok := true;
          assert entries[..] == was.es[slot := entries[slot]];
        }
      }
      assert StepsTo(was, hash, op, Now(), ok, entries.Length);
      if Whole(was) { Meaning(was, hash, op, Now(), ok); }
    }

    /** Frees the slot of a found order and repairs the cluster behind it. For id 0 the probe ends
        at a free slot, which counts as found. */
    method Cancel(id: nat) returns (ok: bool)
      requires Valid()
      modifies this, entries
      ensures Valid() && Step(old(Now()), hash, CancelOp(id), Now(), ok) && mismatches == old(mismatches)
      ensures ok <==> old(Found(entries[..], hash, id)) >= 0
      ensures old(Whole(Now())) ==> Means(old(Now()), hash, CancelOp(id), Now(), ok)
    {
      ghost var was := Now();
      ok := FreeAndRepair(id);
      if Whole(was) { Meaning(was, hash, CancelOp(id), Now(), ok); }
    }

    method FreeAndRepair(id: nat) returns (ok: bool)
      requires Valid()
      modifies this, entries
      ensures Valid() && Step(old(Now()), hash, CancelOp(id), Now(), ok) && mismatches == old(mismatches)
      ensures ok <==> old(Found(entries[..], hash, id)) >= 0
    {
      ghost var was := Now();
      var slot := Find(id);
      ok := slot >= 0;
      if ok {
        entries[slot] := FREE;
        open := (open - 1) % U32;
        if id == 0 { strays := strays + 1; }
        assert entries[..] == was.es[slot := FREE];
        ReinsertCluster(slot);
      }
      assert StepsTo(was, hash, CancelOp(id), Now(), ok, entries.Length);
    }

    method ReinsertCluster(removed: nat)
      requires Valid() && removed < entries.Length && entries[removed].id == 0
      modifies entries
      ensures HasFree(old(entries[..])) && entries[..] == Reinsert(old(entries[..]), hash, Next(removed, entries.Length))
    {
      ghost var start := entries[..];
      assert start[removed].id == 0;
      var slot: nat := Next(removed, entries.Length);
      while entries[slot].id != 0
        invariant slot < entries.Length && HasFree(start) && HasFree(entries[..])
        invariant Reinsert(entries[..], hash, slot) == Reinsert(start, hash, Next(removed, entries.Length))
        decreases |Occupied(entries[..])|, Spread(entries[..], hash, entries.Length), Gap(entries[..], slot)
      {
        ghost var es := entries[..];
        ReinsertUnfold(es, hash, slot);
        ReseatMeasure(es, hash, slot);
        GapShrinks(es, slot);
        var displaced := entries[slot];
        entries[slot] := FREE;
        assert entries[..] == es[slot := FREE];
        var destination := FindOrEmpty(displaced.id);
        entries[destination] := displaced;
        assert entries[..] == Reseat(es, hash, slot);
        slot := Next(slot, entries.Length);
      }
    }
  }
}
