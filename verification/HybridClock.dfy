/** Regions stamping log entries with hybrid logical clocks, over a network that may delay,
    reorder, duplicate and lose entries, with arbitrary physical clocks. */
module HybridClock {
  datatype Event = Event(orderId: nat, kind: nat, price: nat, qty: nat)

  datatype Entry = Entry(term: nat, index: nat, origin: nat, physical: nat, clock: nat, event: Event)

  /** The fields of a region besides its log and the acknowledgements it keeps. */
  datatype Region = Region(id: nat, term: nat, leader: nat, commit: nat, logged: nat, clock: nat)

  const LOG_CAPACITY: nat := 512

  function NewRegion(id: nat): Region { Region(id, 1, 0, 0, 0, 0) }

  function Max(a: nat, b: nat): nat { if a < b then b else a }

  predicate CanAppend(r: Region) { r.logged < LOG_CAPACITY }

  function NextEntry(r: Region, e: Event, now: nat): Entry {
    Entry(r.term, r.commit + 1, r.id, now, Max(r.clock + 1, now), e)
  }

  function Append(r: Region, now: nat): Region {
    if CanAppend(r)
    then r.(clock := Max(r.clock + 1, now), commit := r.commit + 1, logged := r.logged + 1)
    else r
  }

  predicate Stale(r: Region, e: Entry) { e.term < r.term }

  /** The clock moves past every entry that is not stale, whether or not it is next in line. */
  function Replicate(r: Region, e: Entry, now: nat): Region {
    if Stale(r, e) then r
    else
      var r := if e.term > r.term then r.(term := e.term, leader := e.origin) else r;
      var r := r.(clock := Max(Max(r.clock, now), e.clock) + 1);
      if e.index == r.commit + 1 then r.(commit := e.index, logged := r.logged + 1) else r
  }

  // ----- runs -----

  datatype Cluster = Cluster(regions: seq<Region>, sent: set<Entry>)

  datatype Step = AppendEvent(at: nat, event: Event, now: nat) | Deliver(at: nat, entry: Entry, now: nat)

  /** Regions may start in different terms, with any clocks and logs. */
  ghost predicate Start(c: Cluster) {
    c.sent == {} && forall i {:trigger c.regions[i]} :: 0 <= i < |c.regions| ==> c.regions[i].id == i
  }

  predicate Enabled(c: Cluster, a: Step) {
    a.at < |c.regions| && (a.Deliver? ==> a.entry in c.sent)
  }

  function Do(c: Cluster, a: Step): Cluster
    requires Enabled(c, a)
  {
    var r := c.regions[a.at];
    match a
    case AppendEvent(at, e, now) =>
      Cluster(c.regions[at := Append(r, now)], if CanAppend(r) then c.sent + {NextEntry(r, e, now)} else c.sent)
    case Deliver(at, e, now) =>
      c.(regions := c.regions[at := Replicate(r, e, now)])
  }

  ghost predicate Run(states: seq<Cluster>, steps: seq<Step>) {
    && |states| == |steps| + 1 && Start(states[0])
    && forall i {:trigger steps[i]} :: 0 <= i < |steps| ==>
         Enabled(states[i], steps[i]) && states[i + 1] == Do(states[i], steps[i])
  }

  /** Step `i` logs a new entry at region `r`. */
  ghost predicate Appends(states: seq<Cluster>, steps: seq<Step>, i: nat, r: nat)
    requires Run(states, steps)
  {
    i < |steps| && steps[i].AppendEvent? && steps[i].at == r && CanAppend(states[i].regions[r])
  }

  ghost function EntryOf(states: seq<Cluster>, steps: seq<Step>, i: nat): Entry
    requires Run(states, steps) && i < |steps| && Appends(states, steps, i, steps[i].at)
  {
    NextEntry(states[i].regions[steps[i].at], steps[i].event, steps[i].now)
  }

  /** Step `k` hands entry `e` to region `r`, which does not reject it as stale. */
  ghost predicate Accepts(states: seq<Cluster>, steps: seq<Step>, k: nat, r: nat, e: Entry)
    requires Run(states, steps)
  {
    k < |steps| && steps[k].Deliver? && steps[k].at == r && steps[k].entry == e && !Stale(states[k].regions[r], e)
  }

  /** The entry of step `i` could have influenced that of step `j`: the region that made the
      latter had made or accepted the former. */
  ghost predicate Influences(states: seq<Cluster>, steps: seq<Step>, i: nat, j: nat)
    requires Run(states, steps)
  {
    && i < j < |steps| && Appends(states, steps, i, steps[i].at) && Appends(states, steps, j, steps[j].at)
    && (|| steps[i].at == steps[j].at
        || exists k :: i < k < j && Accepts(states, steps, k, steps[j].at, EntryOf(states, steps, i)))
  }

  /** A chain of influences over any number of regions. */
  ghost predicate Causal(states: seq<Cluster>, steps: seq<Step>, path: seq<nat>)
    requires Run(states, steps)
  {
    && (forall n :: 0 <= n < |path| ==> path[n] < |steps| && Appends(states, steps, path[n], steps[path[n]].at))
    && forall n {:trigger path[n]} :: 0 < n < |path| ==> Influences(states, steps, path[n - 1], path[n])
  }

  // ----- causality -----

  /** No step changes the number of regions or moves a clock back. */
  lemma {:induction false} ClockNeverFalls(states: seq<Cluster>, steps: seq<Step>, i: nat, j: nat, r: nat)
    requires Run(states, steps) && i <= j < |states| && r < |states[i].regions|
    ensures |states[j].regions| == |states[i].regions| && states[i].regions[r].clock <= states[j].regions[r].clock
    decreases j - i
  {
    if i < j {
      ClockNeverFalls(states, steps, i, j - 1, r);
      assert states[j - 1 + 1] == Do(states[j - 1], steps[j - 1]);
    }
  }

  /** A region's clock is strictly larger after each entry it makes or accepts. */
  lemma ClockRises(states: seq<Cluster>, steps: seq<Step>, i: nat, r: nat, e: Entry)
    requires Run(states, steps) && i < |steps|
    requires Appends(states, steps, i, r) || Accepts(states, steps, i, r, e)
    ensures r < |states[i].regions| == |states[i + 1].regions|
    ensures states[i].regions[r].clock < states[i + 1].regions[r].clock
    ensures Accepts(states, steps, i, r, e) ==> e.clock < states[i + 1].regions[r].clock
  {}

  /** An entry made after another was made or accepted at the same region has the larger clock. */
  lemma InfluenceOrdersClocks(states: seq<Cluster>, steps: seq<Step>, i: nat, j: nat)
    requires Run(states, steps) && Influences(states, steps, i, j)
    ensures EntryOf(states, steps, i).clock < EntryOf(states, steps, j).clock
  {
    var e, r := EntryOf(states, steps, i), steps[j].at;
    if steps[i].at == r {
      ClockRises(states, steps, i, r, e);
      assert states[i + 1] == Do(states[i], steps[i]);
      assert states[i + 1].regions[r].clock == e.clock;
      ClockNeverFalls(states, steps, i + 1, j, r);
    } else {
      var k :| i < k < j && Accepts(states, steps, k, r, e);
      ClockRises(states, steps, k, r, e);
      ClockNeverFalls(states, steps, k + 1, j, r);
    }
  }

  lemma {:induction false} Climbs(clocks: seq<nat>, m: nat, n: nat)
    requires m < n < |clocks| && forall k {:trigger clocks[k]} :: 0 < k < |clocks| ==> clocks[k - 1] < clocks[k]
    ensures clocks[m] < clocks[n]
  {
    if m < n - 1 { Climbs(clocks, m, n - 1); }
  }

  /** Along every chain of influences, over any number of hops, clocks strictly increase. */
  lemma ClocksRespectCausality(states: seq<Cluster>, steps: seq<Step>, path: seq<nat>, m: nat, n: nat)
    requires Run(states, steps) && Causal(states, steps, path) && m < n < |path|
    ensures EntryOf(states, steps, path[m]).clock < EntryOf(states, steps, path[n]).clock
  {
    var clocks := seq(|path|, k requires 0 <= k < |path| => EntryOf(states, steps, path[k]).clock);
    forall k {:trigger clocks[k]} | 0 < k < |path| ensures clocks[k - 1] < clocks[k] {
      InfluenceOrdersClocks(states, steps, path[k - 1], path[k]);
    }
    Climbs(clocks, m, n);
  }

  // ----- physical time -----

  /** No step before `n` happens later than `t`, and no clock starts beyond it. */
  ghost predicate NoLaterThan(states: seq<Cluster>, steps: seq<Step>, n: nat, t: nat)
    requires n <= |steps| && 0 < |states|
  {
    && (forall i :: 0 <= i < n ==> steps[i].now <= t)
    && forall r {:trigger states[0].regions[r]} :: 0 <= r < |states[0].regions| ==> states[0].regions[r].clock <= t
  }

  ghost predicate ClocksWithin(c: Cluster, t: nat) {
    && (forall r {:trigger c.regions[r]} :: 0 <= r < |c.regions| ==> c.regions[r].clock <= t)
    && forall e :: e in c.sent ==> e.clock <= t
  }

  /** An entry's clock is the physical time of its region or one more than the clock there, whichever
      is later; the clock after an accepted entry is one more than the latest of the three. */
  lemma ClockIsLatest(r: Region, event: Event, e: Entry, now: nat)
    ensures var c := NextEntry(r, event, now).clock; c >= now && c >= r.clock + 1 && (c == now || c == r.clock + 1)
    ensures NextEntry(r, event, now).physical == now
    ensures CanAppend(r) ==> Append(r, now).clock == NextEntry(r, event, now).clock
    ensures !Stale(r, e) ==>
              var c := Replicate(r, e, now).clock;
              c > now && c > r.clock && c > e.clock && (c == now + 1 || c == r.clock + 1 || c == e.clock + 1)
  {}

  /** Clocks stay near physical time: after `n` steps none is more than `n` ahead of the latest. */
  lemma {:induction false} ClocksStayNear(states: seq<Cluster>, steps: seq<Step>, n: nat, t: nat)
    requires Run(states, steps) && n <= |steps| && NoLaterThan(states, steps, n, t)
    ensures ClocksWithin(states[n], t + n)
  {
    if n > 0 {
      ClocksStayNear(states, steps, n - 1, t);
      assert Enabled(states[n - 1], steps[n - 1]) && states[n - 1 + 1] == Do(states[n - 1], steps[n - 1]);
    }
  }

  /** Every entry of a run is stamped at or after its physical time, and at most one ahead of it for
      each step before. */
  lemma StampIsNear(states: seq<Cluster>, steps: seq<Step>, i: nat, t: nat)
    requires Run(states, steps) && i < |steps| && Appends(states, steps, i, steps[i].at)
    requires NoLaterThan(states, steps, i + 1, t)
    ensures steps[i].now == EntryOf(states, steps, i).physical <= EntryOf(states, steps, i).clock <= t + i + 1
  {
    ClocksStayNear(states, steps, i, t);
  }

  // ----- stale entries -----

  ghost predicate SameTerm(c: Cluster, term: nat) {
    && (forall i {:trigger c.regions[i]} :: 0 <= i < |c.regions| ==> c.regions[i].term == term)
    && forall e :: e in c.sent ==> e.term == term
  }

  lemma {:induction false} TermNeverMoves(states: seq<Cluster>, steps: seq<Step>, n: nat, term: nat)
    requires Run(states, steps) && n < |states| && SameTerm(states[0], term)
    ensures SameTerm(states[n], term)
  {
    if n > 0 {
      TermNeverMoves(states, steps, n - 1, term);
      assert states[n - 1 + 1] == Do(states[n - 1], steps[n - 1]);
    }
  }

  /** Regions that start in one term, as fresh ones do, reject no entry as stale. */
  lemma NeverStaleInOneTerm(states: seq<Cluster>, steps: seq<Step>, k: nat, term: nat)
    requires Run(states, steps) && k < |steps| && steps[k].Deliver? && SameTerm(states[0], term)
    ensures Accepts(states, steps, k, steps[k].at, steps[k].entry)
  {
    TermNeverMoves(states, steps, k, term);
    assert Enabled(states[k], steps[k]);
  }

  /** The proviso is needed: region 1, a term ahead, is handed an entry it rejects as stale, and
      what it appends next has the smaller clock. */
  lemma StaleEntryOrdersNothing() returns (states: seq<Cluster>, steps: seq<Step>)
    ensures Run(states, steps) && |steps| == 3 && Appends(states, steps, 0, 0) && Appends(states, steps, 2, 1)
    ensures steps[1] == Deliver(1, EntryOf(states, steps, 0), 0) && !Accepts(states, steps, 1, 1, EntryOf(states, steps, 0))
    ensures EntryOf(states, steps, 2).clock < EntryOf(states, steps, 0).clock
  {
    var event := Event(1, 1, 1, 1);
    var s0 := Cluster([NewRegion(0), NewRegion(1).(term := 2)], {});
    var a := AppendEvent(0, event, 5);
    var s1 := Do(s0, a);
    var e := NextEntry(s0.regions[0], event, 5);
    var d := Deliver(1, e, 0);
    var s2 := Do(s1, d);
    var b := AppendEvent(1, event, 0);
    states, steps := [s0, s1, s2, Do(s2, b)], [a, d, b];
    assert Start(s0) && Stale(s1.regions[1], e);
    assert forall i {:trigger steps[i]} :: 0 <= i < 3 ==>
      Enabled(states[i], steps[i]) && states[i + 1] == Do(states[i], steps[i]);
  }

  // ----- the commit index -----

  const REGIONS: nat := 5

  /** How many regions have acknowledged index `v`. */
  ghost function Acked(acks: seq<nat>, v: nat): nat {
    if acks == [] then 0
    else Acked(acks[..|acks| - 1], v) + if acks[|acks| - 1] >= v then 1 else 0
  }

  /** `g` is the greatest index that three regions have acknowledged. */
  ghost predicate MajorityIndex(acks: seq<nat>, g: nat) {
    Acked(acks, g) >= 3 && forall v {:trigger Acked(acks, v)} :: v > g ==> Acked(acks, v) < 3
  }

  ghost predicate Sorted(s: seq<nat>) {
    forall i, j :: 0 <= i < j < |s| ==> s[i] <= s[j]
  }

  lemma {:induction false} AckedAppend(a: seq<nat>, b: seq<nat>, v: nat)
    ensures Acked(a + b, v) == Acked(a, v) + Acked(b, v)
  {
    if b == [] {
      assert a + b == a;
    } else {
      assert (a + b)[..|a + b| - 1] == a + b[..|b| - 1];
      AckedAppend(a, b[..|b| - 1], v);
    }
  }

  lemma {:induction false} AckedNone(s: seq<nat>, v: nat)
    requires forall i :: 0 <= i < |s| ==> s[i] < v
    ensures Acked(s, v) == 0
  {
    if s != [] { AckedNone(s[..|s| - 1], v); }
  }

  lemma {:induction false} AckedAtMost(s: seq<nat>, v: nat)
    ensures Acked(s, v) <= |s|
    ensures (forall i :: 0 <= i < |s| ==> s[i] >= v) ==> Acked(s, v) == |s|
  {
    if s != [] { AckedAtMost(s[..|s| - 1], v); }
  }

  /** Inserting an acknowledgement anywhere counts it once. */
  lemma AckedInsert(s: seq<nat>, i: nat, x: nat, v: nat)
    requires i <= |s|
    ensures Acked(s[..i] + [x] + s[i..], v) == Acked(s + [x], v)
  {
    assert s == s[..i] + s[i..];
    AckedAppend(s[..i], s[i..], v);
    AckedAppend(s[..i], [x], v);
    AckedAppend(s[..i] + [x], s[i..], v);
    AckedAppend(s, [x], v);
  }

  /** The middle of five sorted acknowledgements is the majority index. */
  lemma MedianIsMajority(s: seq<nat>)
    requires Sorted(s) && |s| == REGIONS
    ensures MajorityIndex(s, s[2])
  {
    assert s == s[..2] + s[2..];
    AckedAppend(s[..2], s[2..], s[2]);
    AckedAtMost(s[2..], s[2]);
    forall v {:trigger Acked(s, v)} | v > s[2] ensures Acked(s, v) < 3 {
      assert s == s[..3] + s[3..];
      AckedAppend(s[..3], s[3..], v);
      AckedNone(s[..3], v);
      AckedAtMost(s[3..], v);
    }
  }

  method InsertAck(s: seq<nat>, x: nat) returns (r: seq<nat>)
    requires Sorted(s)
    ensures Sorted(r) && |r| == |s| + 1 && forall v {:trigger Acked(r, v)} :: Acked(r, v) == Acked(s + [x], v)
  {
    var i := 0;
    while i < |s| && s[i] < x
      invariant 0 <= i <= |s| && forall j :: 0 <= j < i ==> s[j] < x
    {
      i := i + 1;
    }
    r := s[..i] + [x] + s[i..];
    forall v {:trigger Acked(r, v)} ensures Acked(r, v) == Acked(s + [x], v) { AckedInsert(s, i, x, v); }
  }

  method SortAcks(acks: seq<nat>) returns (r: seq<nat>)
    ensures Sorted(r) && |r| == |acks| && forall v {:trigger Acked(r, v)} :: Acked(r, v) == Acked(acks, v)
  {
    r := [];
    var i := 0;
    assert acks[..0] == [];
    while i < |acks|
      invariant 0 <= i <= |acks| && Sorted(r) && |r| == i
      invariant forall v {:trigger Acked(r, v)} :: Acked(r, v) == Acked(acks[..i], v)
    {
      ghost var r0 := r;
      r := InsertAck(r, acks[i]);
      forall v {:trigger Acked(r, v)} ensures Acked(r, v) == Acked(acks[..i + 1], v) {
        assert Acked(r0, v) == Acked(acks[..i], v);
        AckedAppend(r0, [acks[i]], v);
        AckedAppend(acks[..i], [acks[i]], v);
        assert acks[..i + 1] == acks[..i] + [acks[i]];
      }
      i := i + 1;
    }
    assert acks[..i] == acks;
  }
}

module RegionNode {
  import opened HybridClock

  /** One region's node, with its log ring and what it knows of the others' progress. */
  class MultiRegionRaftCluster {
    const id: nat
    var term: nat
    var leader: nat
    var commit: nat
    var logged: nat
    var clock: nat
    var acks: seq<nat>
    var globalCommit: nat
    const log: array<Entry>

    ghost function State(): Region
      reads this
    {
      Region(id, term, leader, commit, logged, clock)
    }

    ghost predicate Valid()
      reads this
    {
      log.Length == LOG_CAPACITY && id < REGIONS && |acks| == REGIONS && MajorityIndex(acks, globalCommit)
    }

    constructor (id: nat, blank: Entry)
      requires id < REGIONS
      ensures Valid() && fresh(log) && State() == NewRegion(id) == Region(id, 1, 0, 0, 0, 0) && acks == [0, 0, 0, 0, 0]
    {
      this.id, term, leader, commit, logged, clock := id, 1, 0, 0, 0, 0;
      acks, globalCommit := [0, 0, 0, 0, 0], 0;
      log := new Entry[LOG_CAPACITY](_ => blank);
      new;
      MedianIsMajority([0, 0, 0, 0, 0]);
    }

    method UpdateGlobalCommitIndex()
      requires |acks| == REGIONS
      modifies this`globalCommit
      ensures MajorityIndex(acks, globalCommit)
    {
      var s := SortAcks(acks);
      MedianIsMajority(s);
      globalCommit := s[2];
      assert Acked(s, s[2]) == Acked(acks, s[2]);
      forall v {:trigger Acked(acks, v)} | v > s[2] ensures Acked(acks, v) < 3 { assert Acked(s, v) < 3; }
    }

    method OnPeerHeartbeat(from: nat, acked: nat)
      requires Valid()
      modifies this`acks, this`globalCommit
      ensures Valid() && acks == if from < REGIONS then old(acks)[from := acked] else old(acks)
    {
      if from >= REGIONS {
        return;
      }
      acks := acks[from := acked];
      UpdateGlobalCommitIndex();
    }

    method AppendOrderEvent(e: Event, now: nat) returns (ok: bool, entry: Entry)
      requires Valid()
      modifies this, log
      ensures Valid() && ok == CanAppend(old(State())) && State() == Append(old(State()), now)
      ensures !ok ==> acks == old(acks) && log[..] == old(log[..])
      ensures ok ==> entry == NextEntry(old(State()), e, now) && acks == old(acks)[id := entry.index] &&
                     log[..] == old(log[..])[entry.index % LOG_CAPACITY := entry]
    {
      entry := NextEntry(Region(id, term, leader, commit, logged, clock), e, now);
      if logged >= LOG_CAPACITY {
        return false, entry;
      }
      clock := Max(clock + 1, now);
      log[entry.index % LOG_CAPACITY] := entry;
      commit := entry.index;
      acks := acks[id := entry.index];
      logged := logged + 1;
      UpdateGlobalCommitIndex();
      ok := true;
    }

    method ReplicateFromRemote(e: Entry, now: nat) returns (ok: bool)
      requires Valid() && e.origin < REGIONS
      modifies this, log
      ensures Valid() && State() == Replicate(old(State()), e, now)
      ensures ok <==> !Stale(old(State()), e) && e.index == old(commit) + 1
      ensures !ok ==> acks == old(acks) && log[..] == old(log[..])
      ensures ok ==> acks == old(acks)[id := e.index][e.origin := e.index] &&
                     log[..] == old(log[..])[e.index % LOG_CAPACITY := e]
    {
      if e.term < term {
        return false;
      }
      if e.term > term {
        term := e.term;
        leader := e.origin;
      }
      clock := Max(Max(clock, now), e.clock) + 1;
      if e.index == commit + 1 {
        log[e.index % LOG_CAPACITY] := e;
        commit := e.index;
        acks := acks[id := e.index][e.origin := e.index];
        logged := logged + 1;
        UpdateGlobalCommitIndex();
        return true;
      }
      return false;
    }
  }
}
