/** The write-ahead log of order events and its replay into an unordered array of open
    orders, where a finished order is overwritten by the last one. */
module Recovery {
  import opened Finite

  datatype Option<T> = None | Some(value: T)

  datatype EventType = Add | Fill | Cancel | Ack | New | Replace | TerminalFill

  datatype Event = Event(kind: EventType, id: nat, qty: int, price: int, side: nat, timestamp: nat)

  /** A record on disk; `intact` stands for the magic, version and checksum tests. */
  datatype Record = Record(sequence: nat, event: Event, intact: bool)

  datatype Recovered = Recovered(id: nat, remaining: int, price: int, side: nat, timestamp: nat)

  // ----- replay into an array -----

  /** The index of the order with this id, or the length. */
  function Find(out: seq<Recovered>, id: nat, i: nat): (r: nat)
    requires i <= |out|
    ensures i <= r <= |out|
    decreases |out| - i
  {
    if i == |out| || out[i].id == id then i else Find(out, id, i + 1)
  }

  /** Removal overwrites with the last element. */
  function SwapRemove(out: seq<Recovered>, i: nat): seq<Recovered>
    requires i < |out|
  {
    out[i := out[|out| - 1]][..|out| - 1]
  }

  function ApplyEvent(out: seq<Recovered>, e: Event, capacity: nat): Option<seq<Recovered>> {
    var i := Find(out, e.id, 0);
    if e.kind == Add || e.kind == New then
      if i != |out| || |out| == capacity then None
      else Some(out + [Recovered(e.id, e.qty, e.price, e.side, e.timestamp)])
    else if i == |out| then None
    else match e.kind
      case TerminalFill =>
        if e.qty <= 0 || e.qty > out[i].remaining then None else Some(SwapRemove(out, i))
      case Fill =>
        if e.qty > out[i].remaining then None
        else if out[i].remaining - e.qty == 0 then Some(SwapRemove(out, i))
        else Some(out[i := out[i].(remaining := out[i].remaining - e.qty)])
      case Replace =>
        if e.qty <= 0 then None
        else Some(out[i := out[i].(remaining := e.qty, price := if e.price > 0 then e.price else out[i].price)])
      case Cancel => Some(SwapRemove(out, i))
      case Ack => None
      case Add => None
      case New => None
  }

  /** Replay of the first `n` records. */
  ghost function ReplayArray(log: seq<Record>, n: nat, capacity: nat): Option<seq<Recovered>>
    requires n <= |log|
  {
    if n == 0 then Some([])
    else match ReplayArray(log, n - 1, capacity)
      case None => None
      case Some(out) =>
        if !log[n - 1].intact || log[n - 1].sequence != n - 1 then None
        else ApplyEvent(out, log[n - 1].event, capacity)
  }

  // ----- replay into a map -----

  datatype Open = Open(remaining: int, price: int, side: nat)

  function MapEvent(m: map<nat, Open>, e: Event): Option<map<nat, Open>> {
    if e.kind == Add || e.kind == New then
      if e.id in m then None else Some(m[e.id := Open(e.qty, e.price, e.side)])
    else if e.id !in m then None
    else match e.kind
      case TerminalFill => if e.qty <= 0 || e.qty > m[e.id].remaining then None else Some(m - {e.id})
      case Fill =>
        if e.qty > m[e.id].remaining then None
        else if e.qty == m[e.id].remaining then Some(m - {e.id})
        else Some(m[e.id := m[e.id].(remaining := m[e.id].remaining - e.qty)])
      case Replace =>
        if e.qty <= 0 then None
        else Some(m[e.id := m[e.id].(remaining := e.qty, price := if e.price > 0 then e.price else m[e.id].price)])
      case Cancel => Some(m - {e.id})
      case Ack => None
      case Add => None
      case New => None
  }

  ghost function ReplayMap(log: seq<Record>, n: nat): Option<map<nat, Open>>
    requires n <= |log|
  {
    if n == 0 then Some(map[])
    else match ReplayMap(log, n - 1)
      case None => None
      case Some(m) =>
        if !log[n - 1].intact || log[n - 1].sequence != n - 1 then None else MapEvent(m, log[n - 1].event)
  }

  /** The map never holds more than `capacity` orders during the replay. */
  ghost predicate PeakWithin(log: seq<Record>, n: nat, capacity: nat)
    requires n <= |log|
  {
    forall i {:trigger FitsAt(log, i, capacity)} :: 0 <= i <= n ==> FitsAt(log, i, capacity)
  }

  ghost predicate FitsAt(log: seq<Record>, i: nat, capacity: nat)
    requires i <= |log|
  {
    ReplayMap(log, i).Some? ==> |ReplayMap(log, i).value| <= capacity
  }

  // ----- the array refines the map -----

  /** The array lists the orders of the map, each once, in any order. */
  ghost predicate Lists(out: seq<Recovered>, m: map<nat, Open>) {
    && |out| == |m|
    && (forall i, j :: 0 <= i < j < |out| ==> out[i].id != out[j].id)
    && (forall i {:trigger out[i]} :: 0 <= i < |out| ==> Listed(out[i], m))
  }

  ghost predicate Listed(r: Recovered, m: map<nat, Open>) {
    r.id in m && m[r.id] == Open(r.remaining, r.price, r.side)
  }

  lemma {:induction false} FindIs(out: seq<Recovered>, id: nat, i: nat)
    requires i <= |out|
    ensures var r := Find(out, id, i);
            (r < |out| ==> out[r].id == id) && forall j :: i <= j < r ==> out[j].id != id
    decreases |out| - i
  {
    if i < |out| && out[i].id != id { FindIs(out, id, i + 1); }
  }

  /** Searching the array decides membership in the map. */
  lemma FindDecides(out: seq<Recovered>, m: map<nat, Open>, id: nat)
    requires Lists(out, m)
    ensures Find(out, id, 0) < |out| <==> id in m
    ensures id in m ==> out[Find(out, id, 0)].id == id
  {
    FindIs(out, id, 0);
    var ids := seq(|out|, i requires 0 <= i < |out| => out[i].id);
    DistinctSize(ids);
    forall x | x in ids ensures x in m.Keys {
      var i :| 0 <= i < |ids| && ids[i] == x;
      assert Listed(out[i], m);
    }
    SubsetSize(Elems(ids), m.Keys);
    if id in m {
      assert id in Elems(ids);
      var i :| 0 <= i < |ids| && ids[i] == id;
      assert out[i].id == id;
    }
  }

  lemma SwapRemoveLists(out: seq<Recovered>, m: map<nat, Open>, i: nat)
    requires Lists(out, m) && i < |out|
    ensures Lists(SwapRemove(out, i), m - {out[i].id})
  {}

  lemma SetLists(out: seq<Recovered>, m: map<nat, Open>, i: nat, r: Recovered)
    requires Lists(out, m) && i < |out| && r.id == out[i].id
    ensures Lists(out[i := r], m[r.id := Open(r.remaining, r.price, r.side)])
  {}

  /** One record: the array step fails exactly when the map step does or the array is full,
      and otherwise lists the new map. */
  lemma EventRefines(out: seq<Recovered>, m: map<nat, Open>, e: Event, capacity: nat)
    requires Lists(out, m) && |out| <= capacity
    ensures ApplyEvent(out, e, capacity).Some? <==>
              MapEvent(m, e).Some? && |MapEvent(m, e).value| <= capacity
    ensures ApplyEvent(out, e, capacity).Some? ==>
              Lists(ApplyEvent(out, e, capacity).value, MapEvent(m, e).value)
  {
    FindDecides(out, m, e.id);
    var i := Find(out, e.id, 0);
    if i < |out| {
      assert Listed(out[i], m);
      SwapRemoveLists(out, m, i);
      SetLists(out, m, i, out[i].(remaining := out[i].remaining - e.qty));
      SetLists(out, m, i, out[i].(remaining := e.qty, price := if e.price > 0 then e.price else out[i].price));
    } else if e.kind == Add || e.kind == New {
      var r := Recovered(e.id, e.qty, e.price, e.side, e.timestamp);
      forall j | 0 <= j < |out| ensures out[j].id != e.id && Listed(out[j], m[e.id := Open(e.qty, e.price, e.side)]) {
        assert Listed(out[j], m);
      }
    }
  }

  /** Replay succeeds exactly when the log is well numbered, intact, replays as a map and
      never holds more orders than the array; it then lists exactly the map's orders. */
  lemma {:induction false} ReplayRefines(log: seq<Record>, n: nat, capacity: nat)
    requires n <= |log|
    ensures ReplayArray(log, n, capacity).Some? <==> ReplayMap(log, n).Some? && PeakWithin(log, n, capacity)
    ensures ReplayArray(log, n, capacity).Some? ==>
              Lists(ReplayArray(log, n, capacity).value, ReplayMap(log, n).value)
  {
    if n == 0 {
      assert ReplayMap(log, 0) == Some(map[]);
    } else {
      ReplayRefines(log, n - 1, capacity);
      assert PeakWithin(log, n, capacity) ==> PeakWithin(log, n - 1, capacity);
      assert ReplayMap(log, n).Some? ==> ReplayMap(log, n - 1).Some?;
      if ReplayArray(log, n - 1, capacity).Some? {
        var out, m := ReplayArray(log, n - 1, capacity).value, ReplayMap(log, n - 1).value;
        assert FitsAt(log, n - 1, capacity);
        EventRefines(out, m, log[n - 1].event, capacity);
        PeakStep(log, n, capacity);
      }
    }
  }

  lemma PeakStep(log: seq<Record>, n: nat, capacity: nat)
    requires 0 < n <= |log| && PeakWithin(log, n - 1, capacity)
    ensures PeakWithin(log, n, capacity) <==> FitsAt(log, n, capacity)
  {}

  /** Appending a record replays the old log first. */
  lemma {:induction false} ReplayPrefix(log: seq<Record>, more: seq<Record>, n: nat)
    requires n <= |log| <= |more| && more[..|log|] == log
    ensures ReplayMap(more, n) == ReplayMap(log, n)
  {
    if n > 0 {
      ReplayPrefix(log, more, n - 1);
      assert more[n - 1] == more[..|log|][n - 1];
    }
  }

  class RecoveryLedger {
    var log: seq<Record>
    var sequence: nat

    ghost predicate Valid()
      reads this
    {
      sequence == |log| && forall i :: 0 <= i < |log| ==> log[i].sequence == i && log[i].intact
    }

    constructor ()
      ensures Valid() && log == []
    {
      log, sequence := [], 0;
    }

    /** Appends one whole record or nothing; `written` is the outcome of write and fsync. */
    method Append(e: Event, written: bool) returns (ok: bool)
      requires Valid()
      modifies this
      ensures Valid()
      ensures ok <==> e.id != 0 && e.qty > 0 && written
      ensures log == if ok then old(log) + [Record(|old(log)|, e, true)] else old(log)
    {
      if e.id == 0 || e.qty <= 0 || !written { return false; }
      log := log + [Record(sequence, e, true)];
      sequence := sequence + 1;
      return true;
    }

    /** Replays the log into `output`, in place. */
    method Replay(output: array<Recovered>) returns (ok: bool, count: nat)
      modifies output
      ensures count <= output.Length
      ensures ok <==> output.Length > 0 && ReplayArray(log, |log|, output.Length).Some?
      ensures ok ==> output[..count] == ReplayArray(log, |log|, output.Length).value
    {
      count := 0;
      if output.Length == 0 { return false, 0; }
      var n := 0;
      while n < |log|
        invariant n <= |log| && count <= output.Length
        invariant ReplayArray(log, n, output.Length) == Some(output[..count])
      {
        if !log[n].intact || log[n].sequence != n {
          FailsOn(log, n + 1, output.Length);
          return false, count;
        }
        var applied;
        applied, count := ApplyTo(output, count, log[n].event);
        if !applied {
          FailsOn(log, n + 1, output.Length);
          return false, count;
        }
        n := n + 1;
      }
      ok := true;
    }

    static lemma {:induction false} FailsOn(log: seq<Record>, n: nat, capacity: nat)
      requires n <= |log| && ReplayArray(log, n, capacity).None?
      ensures ReplayArray(log, |log|, capacity).None?
      decreases |log| - n
    {
      if n < |log| { FailsOn(log, n + 1, capacity); }
    }

    method ApplyTo(output: array<Recovered>, count: nat, e: Event) returns (ok: bool, count': nat)
      requires count <= output.Length
      modifies output
      ensures count' <= output.Length
      ensures ok <==> ApplyEvent(old(output[..count]), e, output.Length).Some?
      ensures ok ==> output[..count'] == ApplyEvent(old(output[..count]), e, output.Length).value
    {
      ghost var out := output[..count];
      var i := 0;
      while i < count && output[i].id != e.id
        invariant i <= count && Find(out, e.id, 0) == Find(out, e.id, i)
      {
        i := i + 1;
      }
      count' := count;
      if e.kind == Add || e.kind == New {
        if i != count || count == output.Length { return false, count; }
        output[count] := Recovered(e.id, e.qty, e.price, e.side, e.timestamp);
        return true, count + 1;
      }
      if i == count { return false, count; }
      match e.kind {
        case TerminalFill =>
          if e.qty <= 0 || e.qty > output[i].remaining { return false, count; }
          count' := RemoveAt(output, count, i);
          ok := true;
        case Fill =>
          if e.qty > output[i].remaining { return false, count; }
          var left := output[i].remaining - e.qty;
          if left == 0 {
            count' := RemoveAt(output, count, i);
          } else {
            output[i] := output[i].(remaining := left);
          }
          ok := true;
        case Replace =>
          if e.qty <= 0 { return false, count; }
          output[i] := output[i].(remaining := e.qty, price := if e.price > 0 then e.price else output[i].price);
          ok := true;
        case Cancel =>
          count' := RemoveAt(output, count, i);
          ok := true;
        case Ack => ok := false;
        case Add => ok := false;
        case New => ok := false;
      }
    }

    method RemoveAt(output: array<Recovered>, count: nat, i: nat) returns (count': nat)
      requires i < count <= output.Length
      modifies output
      ensures count' == count - 1 && output[..count'] == SwapRemove(old(output[..count]), i)
    {
      output[i] := output[count - 1];
      count' := count - 1;
    }
  }
}
