/** A hot-standby pair: one step of a replica, and the pair over a network that may delay,
    reorder, duplicate and lose entries, with arbitrary clocks. */
module HotStandby {
  datatype Role = Follower | Candidate | Leader

  datatype EventType = Heartbeat | OrderInserted | OrderCanceled | TradeExecuted

  datatype Event = Event(kind: EventType, symbol: nat, side: nat, orderId: nat, price: int, qty: int, timestamp: nat)

  datatype Entry = Entry(term: nat, index: nat, event: Event)

  /** The fields of a replica besides its log. */
  datatype Node = Node(role: Role, term: nat, commit: nat, lastHeartbeat: nat, applied: nat)

  const HEARTBEAT_TIMEOUT: nat := 20_000_000

  const LOG_CAPACITY: nat := 4096

  function NewNode(role: Role): Node { Node(role, 1, 0, 0, 0) }

  function NextEntry(n: Node, e: Event): Entry { Entry(n.term, n.commit + 1, e) }

  function Append(n: Node, e: Event): Node {
    if n.role == Leader then n.(commit := n.commit + 1, lastHeartbeat := e.timestamp) else n
  }

  /** An entry is applied exactly when it is not stale, not a heartbeat and next in line. */
  predicate Applies(n: Node, e: Entry) {
    e.term >= n.term && e.event.kind != Heartbeat && e.index == n.commit + 1
  }

  function Receive(n: Node, e: Entry, now: nat): Node {
    if e.term < n.term then n
    else
      var n := if e.term > n.term then n.(term := e.term, role := Follower) else n;
      var n := n.(lastHeartbeat := now);
      if Applies(n, e) then n.(commit := e.index, applied := n.applied + 1) else n
  }

  predicate Overdue(n: Node, now: nat) {
    n.role != Leader && now > n.lastHeartbeat + HEARTBEAT_TIMEOUT
  }

  function CheckFailover(n: Node, now: nat): Node {
    if Overdue(n, now) then n.(role := Leader, term := n.term + 1) else n
  }

  // ----- the pair -----

  /** An entry in flight, with the replica that made it. */
  datatype Message = Message(from: nat, entry: Entry)

  /** `led` records which replica took the lead in which term; no step reads it. */
  datatype Pair = Pair(nodes: seq<Node>, sent: set<Message>, led: set<(nat, nat)>)

  datatype Step =
    | LeaderAppend(at: nat, event: Event)
    | Deliver(at: nat, message: Message, now: nat)
    | Timer(at: nat, now: nat)

  ghost predicate Start(p: Pair) {
    && p.sent == {}
    && (|| (p.nodes == [NewNode(Leader), NewNode(Follower)] && p.led == {(1, 0)})
        || (p.nodes == [NewNode(Follower), NewNode(Leader)] && p.led == {(1, 1)}))
  }

  predicate Enabled(p: Pair, a: Step) {
    |p.nodes| == 2 && a.at < 2 && (a.Deliver? ==> a.message in p.sent)
  }

  /** A delivered message stays in the network: it may be delivered again, to either replica. */
  function Do(p: Pair, a: Step): Pair
    requires Enabled(p, a)
  {
    var n := p.nodes[a.at];
    match a
    case LeaderAppend(at, e) =>
      p.(nodes := p.nodes[at := Append(n, e)],
         sent := if n.role == Leader then p.sent + {Message(at, NextEntry(n, e))} else p.sent)
    case Deliver(at, m, now) =>
      p.(nodes := p.nodes[at := Receive(n, m.entry, now)])
    case Timer(at, now) =>
      p.(nodes := p.nodes[at := CheckFailover(n, now)],
         led := if Overdue(n, now) then p.led + {(n.term + 1, at)} else p.led)
  }

  // ----- the invariant -----

  /** In the same term exactly one leads; one term apart, both do. */
  ghost predicate Roles(a: Node, b: Node) {
    || (a.term == b.term && (a.role == Leader <==> b.role != Leader))
    || (a.term == b.term + 1 && a.role == Leader && b.role == Leader)
    || (b.term == a.term + 1 && a.role == Leader && b.role == Leader)
  }

  ghost predicate LedOk(p: Pair, x: (nat, nat))
    requires |p.nodes| == 2
  {
    x.1 < 2 && x.0 <= p.nodes[x.1].term
  }

  /** No two replicas led the same term, and every leader is on record. */
  ghost predicate Leadership(p: Pair)
    requires |p.nodes| == 2
  {
    && (forall x {:trigger LedOk(p, x)} :: x in p.led ==> LedOk(p, x))
    && (forall x, y :: x in p.led && y in p.led && x.0 == y.0 ==> x == y)
    && (forall i {:trigger p.nodes[i]} :: 0 <= i < 2 && p.nodes[i].role == Leader ==> (p.nodes[i].term, i) in p.led)
  }

  /** An entry was made by the leader of its term, at or below what that leader has committed. */
  ghost predicate SentOk(p: Pair, m: Message)
    requires |p.nodes| == 2
  {
    && m.from < 2 && (m.entry.term, m.from) in p.led && m.entry.term <= p.nodes[m.from].term
    && (m.entry.term == p.nodes[m.from].term ==> m.entry.index <= p.nodes[m.from].commit)
  }

  ghost predicate Network(p: Pair)
    requires |p.nodes| == 2
  {
    && (forall m {:trigger SentOk(p, m)} :: m in p.sent ==> SentOk(p, m))
    && forall m, m' :: m in p.sent && m' in p.sent && m.entry.term == m'.entry.term && m.entry.index == m'.entry.index
         ==> m == m'
  }

  ghost predicate Inv(p: Pair) {
    |p.nodes| == 2 && Roles(p.nodes[0], p.nodes[1]) && Leadership(p) && Network(p)
  }

  lemma AppendKeeps(p: Pair, a: Step)
    requires Inv(p) && Enabled(p, a) && a.LeaderAppend?
    ensures Inv(Do(p, a))
  {
    var p', n := Do(p, a), p.nodes[a.at];
    if n.role == Leader {
      var m := Message(a.at, NextEntry(n, a.event));
      forall x | x in p'.led ensures LedOk(p', x) { assert LedOk(p, x); }
      assert (n.term, a.at) in p.led;
      forall m1 | m1 in p'.sent ensures SentOk(p', m1) {
        if m1 != m { assert SentOk(p, m1); }
      }
      forall m1 | m1 in p.sent && m1.entry.term == m.entry.term ensures m1.entry.index < m.entry.index {
        assert SentOk(p, m1);
        assert (m1.entry.term, m1.from) == (n.term, a.at);
      }
    } else {
      assert p' == p;
    }
  }

  lemma DeliverKeeps(p: Pair, a: Step)
    requires Inv(p) && Enabled(p, a) && a.Deliver?
    ensures Inv(Do(p, a))
  {
    var p' := Do(p, a);
    var i, j := a.at, 1 - a.at;
    assert SentOk(p, a.message) && LedOk(p, (a.message.entry.term, a.message.from));
    assert a.message.entry.term <= p.nodes[i].term || a.message.entry.term <= p.nodes[j].term;
    assert Roles(p'.nodes[0], p'.nodes[1]);
    forall x | x in p'.led ensures LedOk(p', x) { assert LedOk(p, x); }
    forall k {:trigger p'.nodes[k]} | 0 <= k < 2 && p'.nodes[k].role == Leader ensures (p'.nodes[k].term, k) in p.led {
      assert p.nodes[k].role == Leader && p'.nodes[k].term == p.nodes[k].term;
    }
    forall m | m in p'.sent ensures SentOk(p', m) { assert SentOk(p, m); }
  }

  lemma TimerKeeps(p: Pair, a: Step)
    requires Inv(p) && Enabled(p, a) && a.Timer?
    ensures Inv(Do(p, a))
  {
    var p', n := Do(p, a), p.nodes[a.at];
    if Overdue(n, a.now) {
      assert p.nodes[0].term == p.nodes[1].term;
      forall x | x in p'.led ensures LedOk(p', x) {
        if x in p.led { assert LedOk(p, x); }
      }
      forall x | x in p.led ensures x.0 < n.term + 1 { assert LedOk(p, x); }
      forall k {:trigger p'.nodes[k]} | 0 <= k < 2 && p'.nodes[k].role == Leader
        ensures (p'.nodes[k].term, k) in p'.led
      {
        if k != a.at { assert p'.nodes[k] == p.nodes[k]; }
      }
      forall m | m in p'.sent ensures SentOk(p', m) { assert SentOk(p, m); }
    } else {
      assert p' == p;
    }
  }

  lemma StepKeeps(p: Pair, a: Step)
    requires Inv(p) && Enabled(p, a)
    ensures Inv(Do(p, a))
  {
    match a
    case LeaderAppend(_, _) => AppendKeeps(p, a);
    case Deliver(_, _, _) => DeliverKeeps(p, a);
    case Timer(_, _) => TimerKeeps(p, a);
  }

  // ----- runs -----

  ghost predicate Run(states: seq<Pair>, steps: seq<Step>) {
    && |states| == |steps| + 1 && Start(states[0])
    && forall i {:trigger steps[i]} :: 0 <= i < |steps| ==>
         Enabled(states[i], steps[i]) && states[i + 1] == Do(states[i], steps[i])
  }

  lemma {:induction false} RunInv(states: seq<Pair>, steps: seq<Step>, n: nat)
    requires Run(states, steps) && n < |states|
    ensures Inv(states[n])
  {
    if n == 0 {
      assert Inv(states[0]);
    } else {
      RunInv(states, steps, n - 1);
      assert states[n - 1 + 1] == Do(states[n - 1], steps[n - 1]);
      StepKeeps(states[n - 1], steps[n - 1]);
    }
  }

  /** The record of leaders and the network only grow. */
  lemma {:induction false} HistoryGrows(states: seq<Pair>, steps: seq<Step>, i: nat, j: nat)
    requires Run(states, steps) && i <= j < |states|
    ensures states[i].led <= states[j].led && states[i].sent <= states[j].sent
    decreases j - i
  {
    if i < j {
      HistoryGrows(states, steps, i, j - 1);
      assert states[j - 1 + 1] == Do(states[j - 1], steps[j - 1]);
    }
  }

  /** Every reachable state has a leader, never two in one term, and terms at most one apart. */
  lemma AlwaysOneLeaderPerTerm(states: seq<Pair>, steps: seq<Step>, n: nat)
    requires Run(states, steps) && n < |states|
    ensures |states[n].nodes| == 2
    ensures states[n].nodes[0].role == Leader || states[n].nodes[1].role == Leader
    ensures states[n].nodes[0].role == Leader && states[n].nodes[1].role == Leader ==>
              states[n].nodes[0].term != states[n].nodes[1].term
    ensures -1 <= states[n].nodes[0].term - states[n].nodes[1].term <= 1
  {
    RunInv(states, steps, n);
  }

  /** Over a whole run, at most one replica ever leads a given term. */
  lemma TermHasOneLeader(states: seq<Pair>, steps: seq<Step>, i: nat, a: nat, j: nat, b: nat)
    requires Run(states, steps) && i <= j < |states| && a < 2 && b < 2
    requires |states[i].nodes| == 2 && |states[j].nodes| == 2
    requires states[i].nodes[a].role == Leader && states[j].nodes[b].role == Leader
    requires states[i].nodes[a].term == states[j].nodes[b].term
    ensures a == b
  {
    RunInv(states, steps, i);
    RunInv(states, steps, j);
    HistoryGrows(states, steps, i, j);
    assert (states[i].nodes[a].term, a) in states[i].led && (states[j].nodes[b].term, b) in states[j].led;
  }

  /** Step `k` shows replica `n` a sign of life: an entry that is not stale, or one of its own. */
  ghost predicate Hears(states: seq<Pair>, steps: seq<Step>, k: nat, n: nat)
    requires Run(states, steps) && k < |steps|
  {
    && steps[k].at == n
    && ((steps[k].Deliver? && steps[k].message.entry.term >= states[k].nodes[n].term)
        || (steps[k].LeaderAppend? && states[k].nodes[n].role == Leader))
  }

  function TimeOf(a: Step): nat { if a.LeaderAppend? then a.event.timestamp else a.now }

  lemma {:induction false} LastSignOfLife(states: seq<Pair>, steps: seq<Step>, k: nat, j: nat, n: nat)
    requires Run(states, steps) && k < j < |states| && n < 2 && Hears(states, steps, k, n)
    requires forall i {:trigger Hears(states, steps, i, n)} :: k < i < j ==> !Hears(states, steps, i, n)
    ensures |states[j].nodes| == 2 && states[j].nodes[n].lastHeartbeat == TimeOf(steps[k])
    decreases j - k
  {
    assert states[j - 1 + 1] == Do(states[j - 1], steps[j - 1]);
    if k < j - 1 {
      LastSignOfLife(states, steps, k, j - 1, n);
      assert !Hears(states, steps, j - 1, n);
    }
  }

  /** A replica takes over only when its last sign of life is older than the timeout. */
  lemma TakeoverNeedsSilence(states: seq<Pair>, steps: seq<Step>, k: nat, j: nat)
    requires Run(states, steps) && k < j < |steps| && steps[j].Timer? && Hears(states, steps, k, steps[j].at)
    requires forall i {:trigger Hears(states, steps, i, steps[j].at)} :: k < i < j ==> !Hears(states, steps, i, steps[j].at)
    ensures states[j + 1].led != states[j].led ==> steps[j].now > TimeOf(steps[k]) + HEARTBEAT_TIMEOUT
  {
    assert Enabled(states[j], steps[j]) && states[j + 1] == Do(states[j], steps[j]);
    LastSignOfLife(states, steps, k, j, steps[j].at);
  }

  /** The takeover itself: a replica that does not lead, and whose last sign of life was at `heard`,
      leads a new term of its own exactly when 20 ms have passed since. */
  lemma TakesOver(p: Pair, a: Step, heard: nat)
    requires Inv(p) && Enabled(p, a) && a.Timer? && p.nodes[a.at].role != Leader && p.nodes[a.at].lastHeartbeat == heard
    ensures var n := Do(p, a).nodes[a.at];
            if a.now > heard + 20_000_000
            then n.role == Leader && n.term == p.nodes[a.at].term + 1 && Do(p, a).led == p.led + {(n.term, a.at)}
            else Do(p, a) == p
  {}

  /** A silent leader is replaced: a replica that does not lead takes over at a check made more than
      20 ms after its last sign of life, and at no other check. */
  lemma SilenceBringsTakeover(states: seq<Pair>, steps: seq<Step>, k: nat, j: nat)
    requires Run(states, steps) && k < j < |steps| && steps[j].Timer? && Hears(states, steps, k, steps[j].at)
    requires forall i {:trigger Hears(states, steps, i, steps[j].at)} :: k < i < j ==> !Hears(states, steps, i, steps[j].at)
    requires |states[j].nodes| == 2 && states[j].nodes[steps[j].at].role != Leader
    ensures |states[j + 1].nodes| == 2
    ensures states[j + 1].nodes[steps[j].at].role == Leader <==> steps[j].now > TimeOf(steps[k]) + 20_000_000
    ensures states[j + 1].nodes[steps[j].at].role == Leader ==>
              states[j + 1].nodes[steps[j].at].term == states[j].nodes[steps[j].at].term + 1
  {
    RunInv(states, steps, j);
    assert Enabled(states[j], steps[j]) && states[j + 1] == Do(states[j], steps[j]);
    LastSignOfLife(states, steps, k, j, steps[j].at);
    TakesOver(states[j], steps[j], TimeOf(steps[k]));
  }

  /** A replica without any sign of life counts from time 0. */
  lemma {:induction false} NeverHeard(states: seq<Pair>, steps: seq<Step>, j: nat, n: nat)
    requires Run(states, steps) && j < |states| && n < 2
    requires forall i {:trigger Hears(states, steps, i, n)} :: 0 <= i < j ==> !Hears(states, steps, i, n)
    ensures |states[j].nodes| == 2 && states[j].nodes[n].lastHeartbeat == 0
  {
    if j > 0 {
      NeverHeard(states, steps, j - 1, n);
      assert states[j - 1 + 1] == Do(states[j - 1], steps[j - 1]);
      assert !Hears(states, steps, j - 1, n);
    }
  }

  // ----- catching up -----

  /** A replica handed entries one after the other. */
  ghost function ReceiveAll(n: Node, entries: seq<Entry>, times: seq<nat>): Node
    requires |entries| == |times|
  {
    if entries == [] then n
    else Receive(ReceiveAll(n, entries[..|entries| - 1], times[..|times| - 1]), entries[|entries| - 1], times[|times| - 1])
  }

  /** What a leader makes after index `from`: consecutive indices, terms that do not fall. */
  ghost predicate InOrder(entries: seq<Entry>, from: nat, term: nat) {
    && (forall i {:trigger entries[i]} :: 0 <= i < |entries| ==>
          entries[i].index == from + 1 + i && entries[i].term >= term)
    && forall i, j :: 0 <= i < j < |entries| ==> entries[i].term <= entries[j].term
  }

  /** How many entries come before the first heartbeat. */
  function BeforeHeartbeat(entries: seq<Entry>): nat {
    if entries == [] || entries[0].event.kind == Heartbeat then 0 else 1 + BeforeHeartbeat(entries[1..])
  }

  lemma {:induction false} BeforeHeartbeatPush(entries: seq<Entry>, e: Entry)
    ensures BeforeHeartbeat(entries) <= |entries|
    ensures BeforeHeartbeat(entries + [e]) ==
            BeforeHeartbeat(entries) + if BeforeHeartbeat(entries) == |entries| && e.event.kind != Heartbeat then 1 else 0
  {
    if entries != [] {
      BeforeHeartbeatPush(entries[1..], e);
      assert (entries + [e])[1..] == entries[1..] + [e];
    }
  }

  /** A replica handed a leader's entries in order applies those before the first heartbeat and none
      after it: a heartbeat takes an index that followers never commit, so every later entry looks out
      of line. */
  lemma {:induction false} HeartbeatStallsFollower(n: Node, entries: seq<Entry>, times: seq<nat>)
    requires |entries| == |times| && InOrder(entries, n.commit, n.term)
    ensures var n' := ReceiveAll(n, entries, times);
            && n'.commit == n.commit + BeforeHeartbeat(entries) && n'.applied == n.applied + BeforeHeartbeat(entries)
            && n'.term == (if entries == [] then n.term else entries[|entries| - 1].term)
            && (entries != [] ==> n'.lastHeartbeat == times[|times| - 1])
  {
    if entries != [] {
      var m := |entries| - 1;
      var front, e := entries[..m], entries[m];
      HeartbeatStallsFollower(n, front, times[..m]);
      BeforeHeartbeatPush(front, e);
      assert front + [e] == entries;
      var n1 := ReceiveAll(n, front, times[..m]);
      assert n1.term <= e.term by {
        if m > 0 { assert front[m - 1] == entries[m - 1] && entries[m - 1].term <= entries[m].term; }
      }
      ReceiveInOrder(n1, e, times[m]);
    }
  }

  lemma ReceiveInOrder(n: Node, e: Entry, now: nat)
    requires e.term >= n.term && e.index > n.commit
    ensures var n' := Receive(n, e, now);
            && n'.term == e.term && n'.lastHeartbeat == now
            && (if e.event.kind != Heartbeat && e.index == n.commit + 1
                then n'.commit == n.commit + 1 && n'.applied == n.applied + 1
                else n'.commit == n.commit && n'.applied == n.applied)
  {}

  /** Without heartbeats it applies them all. */
  lemma {:induction false} NoHeartbeatNoStall(entries: seq<Entry>)
    ensures BeforeHeartbeat(entries) == |entries| <==>
            forall i :: 0 <= i < |entries| ==> entries[i].event.kind != Heartbeat
  {
    if entries != [] {
      NoHeartbeatNoStall(entries[1..]);
      if entries[0].event.kind != Heartbeat {
        assert forall i :: 1 <= i < |entries| ==> entries[i] == entries[1..][i - 1];
      }
      BeforeHeartbeatPush(entries[..|entries| - 1], entries[|entries| - 1]);
    }
  }

  /** Over a whole run, a term and an index name at most one entry. */
  lemma EntryIsUnique(states: seq<Pair>, steps: seq<Step>, i: nat, m: Message, j: nat, m': Message)
    requires Run(states, steps) && i <= j < |states| && m in states[i].sent && m' in states[j].sent
    requires m.entry.term == m'.entry.term && m.entry.index == m'.entry.index
    ensures m == m'
  {
    RunInv(states, steps, j);
    HistoryGrows(states, steps, i, j);
    assert m in states[j].sent;
  }
}

module HotStandbyNode {
  import opened HotStandby

  /** A replica updating its fields and its log ring in place. */
  class HotStandbyReplica {
    var role: Role
    var term: nat
    var commit: nat
    var lastHeartbeat: nat
    var applied: nat
    const log: array<Entry>

    ghost function State(): Node
      reads this
    {
      Node(role, term, commit, lastHeartbeat, applied)
    }

    ghost predicate Valid() { log.Length == LOG_CAPACITY }

    constructor (initial: Role, blank: Entry)
      ensures Valid() && fresh(log) && State() == NewNode(initial) == Node(initial, 1, 0, 0, 0)
    {
      role, term, commit, lastHeartbeat, applied := initial, 1, 0, 0, 0;
      log := new Entry[LOG_CAPACITY](_ => blank);
    }

    method LeaderAppend(e: Event) returns (ok: bool, entry: Entry)
      requires Valid()
      modifies this, log
      ensures State() == Append(old(State()), e) && ok == (old(role) == Leader)
      ensures ok ==> entry == NextEntry(old(State()), e) &&
                     log[..] == old(log[..])[entry.index % LOG_CAPACITY := entry]
      ensures !ok ==> log[..] == old(log[..])
    {
      entry := Entry(term, commit + 1, e);
      if role != Leader {
        return false, entry;
      }
      log[entry.index % LOG_CAPACITY] := entry;
      commit := entry.index;
      lastHeartbeat := e.timestamp;
      ok := true;
    }

    method FollowerApply(e: Entry, now: nat) returns (ok: bool)
      requires Valid()
      modifies this, log
      ensures State() == Receive(old(State()), e, now)
      ensures ok <==> e.term >= old(term) && (e.event.kind == Heartbeat || e.index == old(commit) + 1)
      ensures log[..] == if Applies(old(State()), e) then old(log[..])[e.index % LOG_CAPACITY := e] else old(log[..])
    {
      if e.term < term {
        return false;
      }
      if e.term > term {
        term := e.term;
        role := Follower;
      }
      lastHeartbeat := now;
      if e.event.kind == Heartbeat {
        return true;
      }
      if e.index == commit + 1 {
        log[e.index % LOG_CAPACITY] := e;
        commit := e.index;
        applied := applied + 1;
        return true;
      }
      return false;
    }

    method CheckFailover(now: nat) returns (promoted: bool)
      modifies this
      ensures State() == HotStandby.CheckFailover(old(State()), now)
      ensures promoted == Overdue(old(State()), now)
    {
      if role == Leader {
        return false;
      }
      if now > lastHeartbeat + HEARTBEAT_TIMEOUT {
        role := Leader;
        term := term + 1;
        return true;
      }
      return false;
    }
  }
}
