/** The reconciliation table over whole runs, beside the map of open orders it stands for. */
module LedgerRuns {
  import opened Probing
  import opened Ledger
  import Finite

  datatype Op =
    | RegisterOp(id: nat, quantity: int)
    | ReplaceOp(id: nat, quantity: int)
    | ApplyOp(report: Report)
    | CancelOp(id: nat)

  function IdOf(op: Op): nat { if op.ApplyOp? then op.report.id else op.id }

  /** What an operation does to the table, and its answer. */
  ghost function Do(es: seq<Entry>, hash: nat -> nat, op: Op): (r: (seq<Entry>, bool))
    requires HashInto(hash, |es|)
    ensures |r.0| == |es| && (!r.1 ==> r.0 == es)
  {
    match op
    case RegisterOp(id, quantity) =>
      var d := Stop(es, hash(id), id, 0);
      if id == 0 || quantity <= 0 || d == |es| || es[At(hash(id), d, |es|)].id != 0 then (es, false)
      else (es[At(hash(id), d, |es|) := Entry(id, quantity)], true)
    case ReplaceOp(id, quantity) =>
      var s := Found(es, hash, id);
      if id == 0 || quantity <= 0 || s < 0 then (es, false) else (es[s := Entry(id, quantity)], true)
    case ApplyOp(report) =>
      if !Applies(es, hash, report) then (es, false)
      else
        var s := Found(es, hash, report.id);
        (es[s := if Completes(es, hash, report) then FREE else Entry(report.id, es[s].remaining - report.filled)], true)
    case CancelOp(id) =>
      var s := Found(es, hash, id);
      if s < 0 then (es, false)
      else
        assert es[s := FREE][s].id == 0;
        (Reinsert(es[s := FREE], hash, Next(s, |es|)), true)
  }

  /** The report is for an order the table finds, within what is left of it. */
  ghost predicate Applies(es: seq<Entry>, hash: nat -> nat, report: Report)
    requires HashInto(hash, |es|)
  {
    var s := Found(es, hash, report.id);
    report.id != 0 && report.filled > 0 && s >= 0 && report.filled <= es[s].remaining
  }

  ghost predicate Completes(es: seq<Entry>, hash: nat -> nat, report: Report)
    requires HashInto(hash, |es|) && Applies(es, hash, report)
  {
    report.terminal || report.filled == es[Found(es, hash, report.id)].remaining
  }

  /** The same on a map of at most `cap` open orders. */
  function DoMap(m: map<nat, int>, op: Op, cap: nat): (map<nat, int>, bool) {
    var id := IdOf(op);
    match op
    case RegisterOp(_, quantity) =>
      if id == 0 || quantity <= 0 || id in m || |m| >= cap then (m, false) else (m[id := quantity], true)
    case ReplaceOp(_, quantity) =>
      if id == 0 || quantity <= 0 || id !in m then (m, false) else (m[id := quantity], true)
    case ApplyOp(report) =>
      if id == 0 || report.filled <= 0 || id !in m || report.filled > m[id] then (m, false)
      else if report.terminal || report.filled == m[id] then (m - {id}, true)
      else (m[id := m[id] - report.filled], true)
    case CancelOp(_) =>
      if id !in m then (m, false) else (m - {id}, true)
  }

  // ----- one operation -----

  /** An open order that the table cannot find. */
  ghost predicate Hidden(es: seq<Entry>, hash: nat -> nat, id: nat)
    requires HashInto(hash, |es|)
  {
    id in Open(es) && Found(es, hash, id) < 0
  }

  /** What `find` returns is the order's slot. */
  lemma FoundSlot(es: seq<Entry>, hash: nat -> nat, id: nat)
    requires HashInto(hash, |es|) && Distinct(es) && id != 0
    ensures Found(es, hash, id) >= 0 <==> id in Open(es) && !Hidden(es, hash, id)
    ensures Found(es, hash, id) >= 0 ==> es[Found(es, hash, id)] == Entry(id, Open(es)[id])
  {
    var s := Found(es, hash, id);
    if s >= 0 { OpenAt(es, s); }
  }

  /** An order is hidden exactly when a free slot cuts its probe path. */
  lemma HiddenIffCut(es: seq<Entry>, hash: nat -> nat, j: nat)
    requires HashInto(hash, |es|) && Distinct(es) && j < |es| && es[j].id != 0
    ensures Hidden(es, hash, es[j].id) <==> !Reaches(es, hash(es[j].id), j)
  {
    OpenAt(es, j);
    FoundIff(es, hash, j);
  }

  /** The probe invariant says that nothing is hidden. */
  lemma SoundIffNoneHidden(es: seq<Entry>, hash: nat -> nat)
    requires HashInto(hash, |es|) && Distinct(es)
    ensures TableInv(es, hash) <==> forall id :: id in Open(es) ==> !Hidden(es, hash, id)
  {
    forall j | 0 <= j < |es| && es[j].id != 0
      ensures es[j].id in Open(es) && (Hidden(es, hash, es[j].id) <==> !Settled(es, hash, j))
    {
      OpenAt(es, j);
      HiddenIffCut(es, hash, j);
    }
    forall id | id in Open(es) ensures Hidden(es, hash, id) <==> !Settled(es, hash, SlotOf(es, id)) {
      var j := SlotOf(es, id);
      assert es[j].id == id;
    }
  }

  /** There is a free slot exactly when fewer orders are open than there are slots. */
  lemma RoomIff(es: seq<Entry>)
    requires Distinct(es)
    ensures HasFree(es) <==> |Open(es)| < |es|
  {
    OccupiedSize(es, |es|);
    Finite.SubsetSize(Taken(es, |es|), Finite.Range(|es|));
    if !HasFree(es) { assert Taken(es, |es|) == Finite.Range(|es|); }
    if HasFree(es) {
      var j :| 0 <= j < |es| && es[j].id == 0;
      assert j in Finite.Range(|es|) && j !in Taken(es, |es|);
    }
    assert IdsBelow(es, |es|) == Open(es).Keys;
  }

  ghost function Taken(es: seq<Entry>, n: nat): set<nat>
    requires n <= |es|
  {
    set j: nat | j < n && es[j].id != 0
  }

  ghost function IdsBelow(es: seq<Entry>, n: nat): set<nat>
    requires n <= |es|
  {
    set j: nat | j < n && es[j].id != 0 :: es[j].id
  }

  lemma NextId(es: seq<Entry>, n: nat)
    requires Distinct(es) && 0 < n <= |es|
    ensures es[n - 1].id == 0 ==> IdsBelow(es, n) == IdsBelow(es, n - 1)
    ensures es[n - 1].id != 0 ==> IdsBelow(es, n) == IdsBelow(es, n - 1) + {es[n - 1].id} && es[n - 1].id !in IdsBelow(es, n - 1)
  {}

  lemma {:induction false} OccupiedSize(es: seq<Entry>, n: nat)
    requires Distinct(es) && n <= |es|
    ensures |Taken(es, n)| == |IdsBelow(es, n)|
  {
    if n > 0 {
      OccupiedSize(es, n - 1);
      var more := es[n - 1].id != 0;
      assert Taken(es, n) == if more then Taken(es, n - 1) + {n - 1} else Taken(es, n - 1);
      NextId(es, n);
    }
  }

  /** On any table, registration succeeds for an id that is not found, if a slot is free. */
  lemma RegisterSlot(es: seq<Entry>, hash: nat -> nat, id: nat)
    requires HashInto(hash, |es|) && id != 0
    ensures var d := Stop(es, hash(id), id, 0);
            d < |es| && es[At(hash(id), d, |es|)].id == 0 <==> Found(es, hash, id) < 0 && HasFree(es)
  {
    var h := hash(id);
    var d := Stop(es, h, id, 0);
    if d == |es| {
      forall j | 0 <= j < |es| ensures es[j].id != 0 { StopIsFirst(es, h, id, 0, j); }
    }
  }

  lemma RegisterKept(es: seq<Entry>, hash: nat -> nat, id: nat, quantity: int)
    requires HashInto(hash, |es|) && Distinct(es) && !Hidden(es, hash, id)
    ensures var r := Do(es, hash, RegisterOp(id, quantity));
            Distinct(r.0) && (Open(r.0), r.1) == DoMap(Open(es), RegisterOp(id, quantity), |es|)
  {
    var r := Do(es, hash, RegisterOp(id, quantity));
    if id != 0 { RegisterSlot(es, hash, id); FoundSlot(es, hash, id); }
    RoomIff(es);
    if r.1 {
      var j := At(hash(id), Stop(es, hash(id), id, 0), |es|);
      assert forall i :: 0 <= i < |es| && es[i].id != 0 ==> es[i].id in Ids(es);
      SetOpen(es, r.0, j, id, quantity);
    }
  }

  lemma ReplaceKept(es: seq<Entry>, hash: nat -> nat, id: nat, quantity: int)
    requires HashInto(hash, |es|) && Distinct(es) && !Hidden(es, hash, id)
    ensures var r := Do(es, hash, ReplaceOp(id, quantity));
            Distinct(r.0) && (Open(r.0), r.1) == DoMap(Open(es), ReplaceOp(id, quantity), |es|)
  {
    var r := Do(es, hash, ReplaceOp(id, quantity));
    if id != 0 { FoundSlot(es, hash, id); }
    if r.1 { SetOpen(es, r.0, Found(es, hash, id), id, quantity); }
  }

  lemma ApplyKept(es: seq<Entry>, hash: nat -> nat, report: Report)
    requires HashInto(hash, |es|) && Distinct(es) && !Hidden(es, hash, report.id)
    ensures var r := Do(es, hash, ApplyOp(report));
            Distinct(r.0) && (Open(r.0), r.1) == DoMap(Open(es), ApplyOp(report), |es|)
  {
    var r, id := Do(es, hash, ApplyOp(report)), report.id;
    if id != 0 { FoundSlot(es, hash, id); }
    if r.1 {
      var s := Found(es, hash, id);
      if Completes(es, hash, report) { ClearedOpen(es, s); } else { SetOpen(es, r.0, s, id, es[s].remaining - report.filled); }
    }
  }

  lemma CancelKept(es: seq<Entry>, hash: nat -> nat, id: nat)
    requires HashInto(hash, |es|) && Distinct(es) && !Hidden(es, hash, id) && id != 0
    ensures var r := Do(es, hash, CancelOp(id));
            Distinct(r.0) && (Open(r.0), r.1) == DoMap(Open(es), CancelOp(id), |es|)
  {
    FoundSlot(es, hash, id);
    var s := Found(es, hash, id);
    if s >= 0 {
      ClearedOpen(es, s);
      assert es[s := FREE][s].id == 0;
      ReinsertKeeps(es[s := FREE], hash, Next(s, |es|));
    }
  }

  /** An operation on an order that is not hidden acts as on the map, whatever else is hidden. */
  lemma ActsAsMap(es: seq<Entry>, hash: nat -> nat, op: Op)
    requires HashInto(hash, |es|) && Distinct(es) && !Hidden(es, hash, IdOf(op)) && op != CancelOp(0)
    ensures Distinct(Do(es, hash, op).0)
    ensures (Open(Do(es, hash, op).0), Do(es, hash, op).1) == DoMap(Open(es), op, |es|)
  {
    match op
    case RegisterOp(id, quantity) => RegisterKept(es, hash, id, quantity);
    case ReplaceOp(id, quantity) => ReplaceKept(es, hash, id, quantity);
    case ApplyOp(report) => ApplyKept(es, hash, report);
    case CancelOp(id) => CancelKept(es, hash, id);
  }

  /** One on a hidden order is refused and changes nothing, though the map would take it. */
  lemma HiddenIsRefused(es: seq<Entry>, hash: nat -> nat, op: Op)
    requires HashInto(hash, |es|) && Hidden(es, hash, IdOf(op)) && !op.RegisterOp?
    ensures Do(es, hash, op) == (es, false)
    ensures DoMap(Open(es), ReplaceOp(IdOf(op), 1), |es|).1
  {}

  /** Registering an id the table holds but cannot find enters it a second time. */
  ghost predicate Duplicates(es: seq<Entry>, hash: nat -> nat, op: Op)
    requires HashInto(hash, |es|)
  {
    op.RegisterOp? && op.quantity > 0 && Hidden(es, hash, op.id) && HasFree(es)
  }

  /** Cancelling id 0, which no order has, is answered with success if there is a free slot; the
      repair it sets off loses nothing, and moves nothing on a table that meets the invariant. */
  lemma CancelOfZero(es: seq<Entry>, hash: nat -> nat)
    requires HashInto(hash, |es|) && Distinct(es)
    ensures var r := Do(es, hash, CancelOp(0));
            && (r.1 <==> HasFree(es)) && Distinct(r.0) && Open(r.0) == Open(es)
            && (TableInv(es, hash) ==> TableInv(r.0, hash) && forall j :: 0 <= j < |es| && es[j].id != 0 ==> r.0[j] == es[j])
  {
    var s := Found(es, hash, 0);
    var d := Stop(es, hash(0), 0, 0);
    if d == |es| {
      forall j | 0 <= j < |es| ensures es[j].id != 0 { StopIsFirst(es, hash(0), 0, 0, j); }
    } else {
      var es' := es[s := FREE];
      assert es'[s].id == 0 && es[s].id == 0;
      FreedAgain(es, s);
      ReinsertKeeps(es', hash, Next(s, |es|));
      if TableInv(es, hash) {
        forall j | 0 <= j < |es| ensures Settled(es', hash, j) { assert Settled(es, hash, j); }
        SettledStays(es', hash, Next(s, |es|));
      }
    }
  }

  lemma FreedAgain(es: seq<Entry>, s: nat)
    requires Distinct(es) && s < |es| && es[s].id == 0
    ensures Distinct(es[s := FREE]) && Open(es[s := FREE]) == Open(es)
  {
    var es' := es[s := FREE];
    forall id | id in Open(es) ensures id in Open(es') && Open(es')[id] == Open(es)[id] { OpenAt(es', SlotOf(es, id)); }
    forall id | id in Open(es') ensures id in Open(es) { OpenAt(es, SlotOf(es', id)); }
  }

  /** Nothing but the order of the operation changes, and only a registration adds one. */
  ghost predicate Touches(m: map<nat, int>, op: Op, m': map<nat, int>) {
    && (forall id :: id in m' ==> id in m || (op.RegisterOp? && id == op.id))
    && forall id :: id in m && id != IdOf(op) ==> id in m' && m'[id] == m[id]
  }

  lemma Duplicated(es: seq<Entry>, hash: nat -> nat, op: Op)
    requires HashInto(hash, |es|) && Distinct(es) && op.RegisterOp? && Hidden(es, hash, op.id)
    ensures if Duplicates(es, hash, op) then !Distinct(Do(es, hash, op).0) else Do(es, hash, op) == (es, false)
  {
    RegisterSlot(es, hash, op.id);
    if Duplicates(es, hash, op) {
      var i, j := SlotOf(es, op.id), At(hash(op.id), Stop(es, hash(op.id), op.id, 0), |es|);
      var es' := Do(es, hash, op).0;
      assert i != j && es'[i].id == op.id && es'[j].id == op.id;
    }
  }

  /** No operation loses or alters another order, and none is entered twice, except by the
      registration of an id that is hidden. */
  lemma NoneLost(es: seq<Entry>, hash: nat -> nat, op: Op)
    requires HashInto(hash, |es|) && Distinct(es)
    ensures Distinct(Do(es, hash, op).0) <==> !Duplicates(es, hash, op)
    ensures !Duplicates(es, hash, op) ==> Touches(Open(es), op, Open(Do(es, hash, op).0))
  {
    if op == CancelOp(0) {
      CancelOfZero(es, hash);
    } else if !Hidden(es, hash, IdOf(op)) {
      ActsAsMap(es, hash, op);
      MapTouches(Open(es), op, |es|);
    } else if op.RegisterOp? {
      Duplicated(es, hash, op);
    } else {
      HiddenIsRefused(es, hash, op);
    }
  }

  lemma MapTouches(m: map<nat, int>, op: Op, cap: nat)
    ensures Touches(m, op, DoMap(m, op, cap).0)
  {}

  /** A completing report clears a slot on another order's probe path. */
  ghost predicate Cutting(es: seq<Entry>, hash: nat -> nat, op: Op)
    requires HashInto(hash, |es|)
  {
    && op.ApplyOp? && Applies(es, hash, op.report) && Completes(es, hash, op.report)
    && Cuts(es, hash, Found(es, hash, op.report.id))
  }

  /** Only such a report ends the probe invariant. */
  lemma InvariantEnds(es: seq<Entry>, hash: nat -> nat, op: Op)
    requires TableInv(es, hash)
    ensures TableInv(Do(es, hash, op).0, hash) <==> !Cutting(es, hash, op)
  {
    match op
    case RegisterOp(id, quantity) =>
      if id != 0 { RegisterKeeps(es, hash, id, quantity); }
    case ReplaceOp(id, quantity) =>
      var s := Found(es, hash, id);
      if id != 0 && s >= 0 { SetRemaining(es, hash, s, quantity); }
    case ApplyOp(report) =>
      if Applies(es, hash, report) {
        var s := Found(es, hash, report.id);
        if Completes(es, hash, report) { ClearedSound(es, hash, s); } else { SetRemaining(es, hash, s, es[s].remaining - report.filled); }
      }
    case CancelOp(id) =>
      var s := Found(es, hash, id);
      if id == 0 { CancelOfZero(es, hash); } else if s >= 0 { CancelRepairs(es, hash, s); }
  }

  /** The table answers every operation but the cancel of id 0 as the map does. */
  ghost predicate AnswersAsMap(es: seq<Entry>, hash: nat -> nat)
    requires HashInto(hash, |es|)
  {
    forall op :: op != CancelOp(0) ==> Do(es, hash, op).1 == DoMap(Open(es), op, |es|).1
  }

  /** It does so exactly when it meets the probe invariant. */
  lemma SoundIffAnswers(es: seq<Entry>, hash: nat -> nat)
    requires HashInto(hash, |es|) && Distinct(es)
    ensures TableInv(es, hash) <==> AnswersAsMap(es, hash)
  {
    SoundIffNoneHidden(es, hash);
    if TableInv(es, hash) {
      forall op | op != CancelOp(0) ensures Do(es, hash, op).1 == DoMap(Open(es), op, |es|).1 {
        ActsAsMap(es, hash, op);
      }
    } else {
      var id :| id in Open(es) && Hidden(es, hash, id);
      HiddenIsRefused(es, hash, ReplaceOp(id, 1));
    }
  }

  /** What the operation does to the counter of open orders. */
  ghost function Counts(es: seq<Entry>, hash: nat -> nat, op: Op): int
    requires HashInto(hash, |es|)
  {
    if !Do(es, hash, op).1 then 0
    else match op
      case RegisterOp(_, _) => 1
      case ReplaceOp(_, _) => 0
      case ApplyOp(report) => if Completes(es, hash, report) then -1 else 0
      case CancelOp(_) => -1
  }

  /** The same read off the map. */
  function MapCounts(m: map<nat, int>, op: Op, cap: nat): int {
    if !DoMap(m, op, cap).1 then 0
    else match op
      case RegisterOp(_, _) => 1
      case ReplaceOp(_, _) => 0
      case ApplyOp(report) => if report.terminal || report.filled == m[report.id] then -1 else 0
      case CancelOp(_) => -1
  }

  lemma MapSize(m: map<nat, int>, op: Op, cap: nat)
    ensures |DoMap(m, op, cap).0| == |m| + MapCounts(m, op, cap)
  {
    match op
    case RegisterOp(id, quantity) => PutSize(m, id, quantity);
    case ReplaceOp(id, quantity) => PutSize(m, id, quantity);
    case ApplyOp(report) => FillSize(m, report, cap);
    case CancelOp(id) => DropSize(m, id);
  }

  lemma FillSize(m: map<nat, int>, report: Report, cap: nat)
    ensures |DoMap(m, ApplyOp(report), cap).0| == |m| + MapCounts(m, ApplyOp(report), cap)
  {
    if report.id in m {
      DropSize(m, report.id);
      PutSize(m, report.id, m[report.id] - report.filled);
    }
  }

  lemma PutSize(m: map<nat, int>, id: nat, quantity: int)
    ensures |m[id := quantity]| == if id in m then |m| else |m| + 1
  {
    assert m[id := quantity].Keys == m.Keys + {id};
  }

  lemma DropSize(m: map<nat, int>, id: nat)
    ensures |m - {id}| == if id in m then |m| - 1 else |m|
  {
    if id in m { assert m.Keys == (m - {id}).Keys + {id}; } else { assert m - {id} == m; }
  }

  /** The counter follows the number of open orders, but for cancels of id 0. */
  lemma CountFollows(es: seq<Entry>, hash: nat -> nat, op: Op)
    requires HashInto(hash, |es|) && Distinct(es) && !Duplicates(es, hash, op) && op != CancelOp(0)
    ensures |Open(Do(es, hash, op).0)| == |Open(es)| + Counts(es, hash, op)
  {
    if Hidden(es, hash, IdOf(op)) {
      if op.RegisterOp? { Duplicated(es, hash, op); } else { HiddenIsRefused(es, hash, op); }
    } else {
      ActsAsMap(es, hash, op);
      MapSize(Open(es), op, |es|);
      if op.ApplyOp? && op.report.id != 0 { FoundSlot(es, hash, op.report.id); }
    }
  }

  // ----- the table with its counter -----

  const U32 := 0x1_0000_0000

  /** `strays` counts the successful cancels of id 0, each of which took one off the counter. */
  datatype State = State(es: seq<Entry>, open: int, strays: nat)

  ghost predicate StepsTo(t: State, hash: nat -> nat, op: Op, t': State, ok: bool, cap: nat) {
    && cap == |t.es| && HashInto(hash, cap) && (t'.es, ok) == Do(t.es, hash, op)
    && t'.open == (t.open + Counts(t.es, hash, op)) % U32
    && t'.strays == if op == CancelOp(0) && ok then t.strays + 1 else t.strays
  }

  /** The operation, its answer and its effect on the counter; a proof unfolds it only where it
      mentions `StepsTo`. */
  ghost predicate Step(t: State, hash: nat -> nat, op: Op, t': State, ok: bool) {
    forall cap: nat {:trigger StepsTo(t, hash, op, t', ok, cap)} :: cap == |t.es| ==> StepsTo(t, hash, op, t', ok, cap)
  }

  /** Each open order has one entry, and the counter is right but for the strays. */
  ghost predicate Whole(t: State) {
    Distinct(t.es) && t.open == (|Open(t.es)| - t.strays) % U32
  }

  lemma Wraps(a: int, change: int)
    requires -1 <= change <= 1
    ensures (a % U32 + change) % U32 == (a + change) % U32
  {
    assert a == a / U32 * U32 + a % U32;
  }

  lemma StepCounts(t: State, hash: nat -> nat, op: Op, t': State, ok: bool) returns (change: int)
    requires HashInto(hash, |t.es|) && Distinct(t.es) && !Duplicates(t.es, hash, op) && Step(t, hash, op, t', ok)
    ensures -1 <= change <= 1 && t'.open == (t.open + change) % U32
    ensures |Open(t'.es)| - t'.strays == |Open(t.es)| - t.strays + change
  {
    change := Counts(t.es, hash, op);
    assert (t'.es, ok) == Do(t.es, hash, op) && t'.open == (t.open + change) % U32 by {
      assert StepsTo(t, hash, op, t', ok, |t.es|);
    }
    SizeFollows(t.es, hash, op, t'.es, ok, change);
    assert t'.strays == if op == CancelOp(0) && ok then t.strays + 1 else t.strays by {
      assert StepsTo(t, hash, op, t', ok, |t.es|);
    }
  }

  lemma SizeFollows(es: seq<Entry>, hash: nat -> nat, op: Op, es': seq<Entry>, ok: bool, change: int)
    requires HashInto(hash, |es|) && Distinct(es) && !Duplicates(es, hash, op)
    requires (es', ok) == Do(es, hash, op) && change == Counts(es, hash, op)
    ensures -1 <= change <= 1
    ensures |Open(es')| == |Open(es)| + change + if op == CancelOp(0) && ok then 1 else 0
  {
    if op == CancelOp(0) { CancelOfZero(es, hash); } else { CountFollows(es, hash, op); }
  }

  lemma StepDistinct(t: State, hash: nat -> nat, op: Op, t': State, ok: bool)
    requires HashInto(hash, |t.es|) && Distinct(t.es) && Step(t, hash, op, t', ok)
    ensures Distinct(t'.es) <==> !Duplicates(t.es, hash, op)
  {
    assert StepsTo(t, hash, op, t', ok, |t.es|);
    NoneLost(t.es, hash, op);
  }

  /** Every operation but the registration of a hidden id keeps the table whole, whatever is
      hidden. */
  lemma StaysWhole(t: State, hash: nat -> nat, op: Op, t': State, ok: bool)
    requires HashInto(hash, |t.es|) && Whole(t) && Step(t, hash, op, t', ok)
    ensures Whole(t') <==> !Duplicates(t.es, hash, op)
  {
    StepDistinct(t, hash, op, t', ok);
    if !Duplicates(t.es, hash, op) {
      var change := StepCounts(t, hash, op, t', ok);
      Wraps(|Open(t.es)| - t.strays, change);
    }
  }

  /** Every operation but a cutting report keeps the probe invariant. */
  lemma StaysSound(t: State, hash: nat -> nat, op: Op, t': State, ok: bool)
    requires TableInv(t.es, hash) && Step(t, hash, op, t', ok)
    ensures TableInv(t'.es, hash) <==> !Cutting(t.es, hash, op)
  {
    assert StepsTo(t, hash, op, t', ok, |t.es|);
    InvariantEnds(t.es, hash, op);
  }

  lemma StepOnHidden(t: State, hash: nat -> nat, op: Op, t': State, ok: bool)
    requires HashInto(hash, |t.es|) && Hidden(t.es, hash, IdOf(op)) && !op.RegisterOp? && Step(t, hash, op, t', ok)
    ensures t'.es == t.es && !ok
  {
    assert StepsTo(t, hash, op, t', ok, |t.es|);
    HiddenIsRefused(t.es, hash, op);
  }

  lemma StepOfZero(t: State, hash: nat -> nat, t': State, ok: bool)
    requires HashInto(hash, |t.es|) && Distinct(t.es) && Step(t, hash, CancelOp(0), t', ok)
    ensures (ok <==> HasFree(t.es)) && Open(t'.es) == Open(t.es)
  {
    assert StepsTo(t, hash, CancelOp(0), t', ok, |t.es|);
    CancelOfZero(t.es, hash);
  }

  lemma StepIsMapStep(t: State, hash: nat -> nat, op: Op, t': State, ok: bool)
    requires HashInto(hash, |t.es|) && Distinct(t.es) && !Hidden(t.es, hash, IdOf(op)) && op != CancelOp(0)
    requires Step(t, hash, op, t', ok)
    ensures (Open(t'.es), ok) == DoMap(Open(t.es), op, |t.es|)
  {
    assert StepsTo(t, hash, op, t', ok, |t.es|);
    ActsAsMap(t.es, hash, op);
  }

  // ----- runs -----

  /** The tables that a run of operations goes through, from the empty one. */
  ghost predicate Run(tables: seq<seq<Entry>>, hash: nat -> nat, ops: seq<Op>) {
    && |tables| == |ops| + 1 && tables[0] == seq(|tables[0]|, _ => FREE) && HashInto(hash, |tables[0]|)
    && forall i {:trigger ops[i]} :: 0 <= i < |ops| ==> Follows(tables[i], hash, ops[i], tables[i + 1])
  }

  ghost predicate Follows(es: seq<Entry>, hash: nat -> nat, op: Op, es': seq<Entry>) {
    HashInto(hash, |es|) && es' == Do(es, hash, op).0
  }

  /** What the same operations do to the map, from the empty one. */
  function MapRun(ops: seq<Op>, cap: nat): map<nat, int> {
    if ops == [] then map[] else DoMap(MapRun(ops[..|ops| - 1], cap), ops[|ops| - 1], cap).0
  }

  lemma Sizes(tables: seq<seq<Entry>>, hash: nat -> nat, ops: seq<Op>, n: nat)
    requires Run(tables, hash, ops) && n < |tables|
    ensures |tables[n]| == |tables[0]|
  {
    if n > 0 {
      Sizes(tables, hash, ops, n - 1);
      assert Follows(tables[n - 1], hash, ops[n - 1], tables[n]);
    }
  }

  lemma MapRunStep(ops: seq<Op>, cap: nat, n: nat)
    requires n < |ops|
    ensures MapRun(ops[..n + 1], cap) == DoMap(MapRun(ops[..n], cap), ops[n], cap).0
  {
    assert ops[..n + 1][..n] == ops[..n];
  }

  /** One operation on a table that meets the invariant. */
  lemma SoundStep(es: seq<Entry>, hash: nat -> nat, op: Op, es': seq<Entry>)
    requires TableInv(es, hash) && Follows(es, hash, op, es')
    ensures Open(es') == DoMap(Open(es), op, |es|).0 && Distinct(es') && HashInto(hash, |es'|)
    ensures TableInv(es', hash) <==> !Cutting(es, hash, op)
  {
    InvariantEnds(es, hash, op);
    SoundIffNoneHidden(es, hash);
    if op == CancelOp(0) { CancelOfZero(es, hash); } else { ActsAsMap(es, hash, op); }
  }

  lemma SomeHidden(es: seq<Entry>, hash: nat -> nat) returns (id: nat)
    requires HashInto(hash, |es|) && Distinct(es) && !TableInv(es, hash)
    ensures id in Open(es) && Do(es, hash, ReplaceOp(id, 1)) == (es, false)
  {
    SoundIffNoneHidden(es, hash);
    id :| id in Open(es) && Hidden(es, hash, id);
    HiddenIsRefused(es, hash, ReplaceOp(id, 1));
  }

  /** Until a completing report first cuts another order's path, the table is the map and gives
      its answers. */
  lemma {:induction false} TableIsMap(tables: seq<seq<Entry>>, hash: nat -> nat, ops: seq<Op>, n: nat)
    requires Run(tables, hash, ops) && n < |tables|
    requires forall i :: 0 <= i < n ==> !Cutting(tables[i], hash, ops[i])
    ensures TableInv(tables[n], hash) && Open(tables[n]) == MapRun(ops[..n], |tables[0]|)
    ensures AnswersAsMap(tables[n], hash)
  {
    if n == 0 {
      assert forall j :: 0 <= j < |tables[0]| ==> Settled(tables[0], hash, j);
      assert Open(tables[0]) == map[];
    } else {
      TableIsMap(tables, hash, ops, n - 1);
      Sizes(tables, hash, ops, n - 1);
      assert Follows(tables[n - 1], hash, ops[n - 1], tables[n]);
      SoundStep(tables[n - 1], hash, ops[n - 1], tables[n]);
      MapRunStep(ops, |tables[0]|, n - 1);
    }
    SoundIffAnswers(tables[n], hash);
  }

  /** The first such report leaves the right orders in the table, but there is one that the
      table no longer finds: replacing it is refused although it is open. */
  lemma FirstCutShows(tables: seq<seq<Entry>>, hash: nat -> nat, ops: seq<Op>, n: nat)
    requires Run(tables, hash, ops) && n < |ops|
    requires forall i :: 0 <= i < n ==> !Cutting(tables[i], hash, ops[i])
    requires |tables[n]| == |tables[0]| && Cutting(tables[n], hash, ops[n])
    ensures Open(tables[n + 1]) == MapRun(ops[..n + 1], |tables[0]|)
    ensures exists id :: id in Open(tables[n + 1]) && Do(tables[n + 1], hash, ReplaceOp(id, 1)) == (tables[n + 1], false)
    ensures !AnswersAsMap(tables[n + 1], hash)
  {
    TableIsMap(tables, hash, ops, n);
    Sizes(tables, hash, ops, n);
    assert Follows(tables[n], hash, ops[n], tables[n + 1]);
    SoundStep(tables[n], hash, ops[n], tables[n + 1]);
    MapRunStep(ops, |tables[0]|, n);
    var id := SomeHidden(tables[n + 1], hash);
    SoundIffAnswers(tables[n + 1], hash);
  }

  /** Such a report occurs whatever the hash, as soon as two ids collide: register both, then
      complete the first. The second is open and can no longer be found. */
  lemma CollisionHides(hash: nat -> nat, cap: nat, a: nat, p: int, b: nat, q: int, terminal: bool)
    returns (tables: seq<seq<Entry>>, ops: seq<Op>)
    requires HashInto(hash, cap) && 2 <= cap && 0 < a && 0 < b && a != b && hash(a) == hash(b) && 0 < p && 0 < q
    ensures ops == [RegisterOp(a, p), RegisterOp(b, q), ApplyOp(Report(a, p, terminal))]
    ensures Run(tables, hash, ops) && |tables[0]| == |tables[1]| == |tables[2]| == |tables[3]| == cap
    ensures !Cutting(tables[0], hash, ops[0]) && !Cutting(tables[1], hash, ops[1]) && Cutting(tables[2], hash, ops[2])
    ensures Hidden(tables[3], hash, b)
  {
    var h := hash(a);
    var n := Next(h, cap);
    var t0: seq<Entry> := seq(cap, _ => FREE);
    var t1 := t0[h := Entry(a, p)];
    var t2 := t1[n := Entry(b, q)];
    var t3 := t2[h := FREE];
    tables, ops := [t0, t1, t2, t3], [RegisterOp(a, p), RegisterOp(b, q), ApplyOp(Report(a, p, terminal))];
    RegisterAt(t0, hash, a, p, 0);
    RegisterAt(t1, hash, b, q, 1);
    CompleteAt(t2, hash, Report(a, p, terminal));
    assert Cuts(t2, hash, h) by { assert t2[n].id == b; }
    assert t3[n].id == b && b in Ids(t3);
  }

  lemma RegisterAt(es: seq<Entry>, hash: nat -> nat, id: nat, quantity: int, d: nat)
    requires HashInto(hash, |es|) && d < 2 <= |es| && 0 < id && 0 < quantity
    requires d == 1 ==> es[hash(id)].id !in {0, id}
    requires es[At(hash(id), d, |es|)].id == 0
    ensures Do(es, hash, RegisterOp(id, quantity)) == (es[At(hash(id), d, |es|) := Entry(id, quantity)], true)
  {
    assert At(hash(id), 0, |es|) == hash(id);
    assert Stop(es, hash(id), id, d) == d;
  }

  lemma CompleteAt(es: seq<Entry>, hash: nat -> nat, report: Report)
    requires HashInto(hash, |es|) && 0 < |es| && es[hash(report.id)] == Entry(report.id, report.filled)
    requires 0 < report.id && 0 < report.filled
    ensures Found(es, hash, report.id) == hash(report.id)
    ensures Do(es, hash, ApplyOp(report)) == (es[hash(report.id) := FREE], true)
  {
    assert At(hash(report.id), 0, |es|) == hash(report.id);
  }

  /** No id is registered while it is hidden, in the first `n` operations. */
  ghost predicate NoneTwice(tables: seq<seq<Entry>>, hash: nat -> nat, ops: seq<Op>, n: nat)
    requires Run(tables, hash, ops) && n <= |ops|
  {
    forall i {:trigger ops[i]} :: 0 <= i < n ==> Follows(tables[i], hash, ops[i], tables[i + 1]) && !Duplicates(tables[i], hash, ops[i])
  }

  /** Then, whatever was cut, each open order has one entry, and it is hidden exactly while a free
      slot lies on its probe path. */
  lemma {:induction false} NeverTwice(tables: seq<seq<Entry>>, hash: nat -> nat, ops: seq<Op>, n: nat)
    requires Run(tables, hash, ops) && n <= |ops| && NoneTwice(tables, hash, ops, n)
    ensures Distinct(tables[n]) && |tables[n]| == |tables[0]|
    ensures forall j :: 0 <= j < |tables[n]| && tables[n][j].id != 0 ==>
              (Hidden(tables[n], hash, tables[n][j].id) <==> !Reaches(tables[n], hash(tables[n][j].id), j))
  {
    Sizes(tables, hash, ops, n);
    if n > 0 {
      NeverTwice(tables, hash, ops, n - 1);
      assert Follows(tables[n - 1], hash, ops[n - 1], tables[n]) && !Duplicates(tables[n - 1], hash, ops[n - 1]);
      NoneLost(tables[n - 1], hash, ops[n - 1]);
    }
    forall j | 0 <= j < |tables[n]| && tables[n][j].id != 0
      ensures Hidden(tables[n], hash, tables[n][j].id) <==> !Reaches(tables[n], hash(tables[n][j].id), j)
    {
      HiddenIffCut(tables[n], hash, j);
    }
  }

  lemma StepTouches(tables: seq<seq<Entry>>, hash: nat -> nat, ops: seq<Op>, n: nat)
    requires Run(tables, hash, ops) && n < |ops| && NoneTwice(tables, hash, ops, n + 1)
    ensures Touches(Open(tables[n]), ops[n], Open(tables[n + 1]))
  {
    NeverTwice(tables, hash, ops, n);
    assert Follows(tables[n], hash, ops[n], tables[n + 1]) && !Duplicates(tables[n], hash, ops[n]);
    NoneLost(tables[n], hash, ops[n]);
  }

  /** An order stays open, with the quantity it has, through any stretch of operations on others. */
  lemma {:induction false} OrdersStay(tables: seq<seq<Entry>>, hash: nat -> nat, ops: seq<Op>, m: nat, n: nat, id: nat)
    requires Run(tables, hash, ops) && m <= n <= |ops| && NoneTwice(tables, hash, ops, n)
    requires id in Open(tables[m]) && forall i :: m <= i < n ==> IdOf(ops[i]) != id
    ensures id in Open(tables[n]) && Open(tables[n])[id] == Open(tables[m])[id]
  {
    if n > m {
      OrdersStay(tables, hash, ops, m, n - 1, id);
      StepTouches(tables, hash, ops, n - 1);
    }
  }

  /** The ids that the first `n` operations register. */
  ghost function Registered(ops: seq<Op>, n: nat): set<nat>
    requires n <= |ops|
  {
    set i | 0 <= i < n && ops[i].RegisterOp? :: ops[i].id
  }

  /** Ids that are never reused are enough for all this: open ids have been registered before, so
      no registration meets a hidden one. */
  lemma {:induction false} NewIdsSuffice(tables: seq<seq<Entry>>, hash: nat -> nat, ops: seq<Op>, n: nat)
    requires Run(tables, hash, ops) && n <= |ops|
    requires forall i {:trigger ops[i]} :: 0 <= i < n && ops[i].RegisterOp? ==> ops[i].id !in Registered(ops, i)
    ensures NoneTwice(tables, hash, ops, n) && Open(tables[n]).Keys <= Registered(ops, n)
  {
    if n == 0 {
      assert Ids(tables[0]) == {};
    } else {
      var es, op := tables[n - 1], ops[n - 1];
      NewIdsSuffice(tables, hash, ops, n - 1);
      assert Follows(es, hash, op, tables[n]) && !Duplicates(es, hash, op);
      assert NoneTwice(tables, hash, ops, n);
      StepTouches(tables, hash, ops, n - 1);
      assert Registered(ops, n - 1) <= Registered(ops, n);
      if op.RegisterOp? { assert op.id in Registered(ops, n); }
    }
  }
}
