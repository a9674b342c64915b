/** The logs of a hot-standby pair over whole runs: when they agree, and when they stop. */
module StandbyLogs {
  import opened HotStandby

  datatype Option<T> = None | Some(value: T)

  /** What step `k` writes into the log of replica `r`: an entry it makes as leader or applies. */
  ghost function Writes(states: seq<Pair>, steps: seq<Step>, k: nat, r: nat): Option<Entry>
    requires Run(states, steps) && k < |steps| && r < 2
  {
    if steps[k].at != r then None
    else if steps[k].LeaderAppend? && states[k].nodes[r].role == Leader
    then Some(NextEntry(states[k].nodes[r], steps[k].event))
    else if steps[k].Deliver? && Applies(states[k].nodes[r], steps[k].message.entry)
    then Some(steps[k].message.entry)
    else None
  }

  /** The log of replica `r` after `n` steps. */
  ghost function Log(states: seq<Pair>, steps: seq<Step>, n: nat, r: nat): seq<Entry>
    requires Run(states, steps) && n <= |steps| && r < 2
  {
    if n == 0 then []
    else
      var w := Writes(states, steps, n - 1, r);
      if w.Some? then Log(states, steps, n - 1, r) + [w.value] else Log(states, steps, n - 1, r)
  }

  /** A log has no gaps: it holds as many entries as are committed, each at its own index, and every
      one of them was made by some leader. */
  lemma {:induction false} LogIsDense(states: seq<Pair>, steps: seq<Step>, n: nat, r: nat)
    requires Run(states, steps) && n <= |steps| && r < 2
    ensures |states[n].nodes| == 2 && |Log(states, steps, n, r)| == states[n].nodes[r].commit
    ensures forall i {:trigger Log(states, steps, n, r)[i]} :: 0 <= i < |Log(states, steps, n, r)| ==>
              var e := Log(states, steps, n, r)[i];
              e.index == i + 1 && exists from :: Message(from, e) in states[n].sent
  {
    if n > 0 {
      LogIsDense(states, steps, n - 1, r);
      var s, a, log := states[n - 1], steps[n - 1], Log(states, steps, n - 1, r);
      assert Enabled(s, a) && states[n - 1 + 1] == Do(s, a);
      HistoryGrows(states, steps, n - 1, n);
      var w := Writes(states, steps, n - 1, r);
      if w.Some? {
        var from := if a.LeaderAppend? then r else a.message.from;
        assert Message(from, w.value) in states[n].sent;
      }
      forall i | 0 <= i < |log| ensures exists from :: Message(from, log[i]) in states[n].sent {
        var from :| Message(from, log[i]) in s.sent;
        assert Message(from, log[i]) in states[n].sent;
      }
    }
  }

  /** Two logs agree at an index exactly if the entries there are of the same term. */
  lemma AgreeIffSameTerm(states: seq<Pair>, steps: seq<Step>, n: nat, i: nat)
    requires Run(states, steps) && n <= |steps|
    requires i < |Log(states, steps, n, 0)| && i < |Log(states, steps, n, 1)|
    ensures Log(states, steps, n, 0)[i] == Log(states, steps, n, 1)[i] <==>
            Log(states, steps, n, 0)[i].term == Log(states, steps, n, 1)[i].term
  {
    LogIsDense(states, steps, n, 0);
    LogIsDense(states, steps, n, 1);
    var e, e' := Log(states, steps, n, 0)[i], Log(states, steps, n, 1)[i];
    var from :| Message(from, e) in states[n].sent;
    var from' :| Message(from', e') in states[n].sent;
    if e.term == e'.term { EntryIsUnique(states, steps, n, Message(from, e), n, Message(from', e')); }
  }

  /** No replica but the first leader has led so far. */
  ghost predicate NoTakeover(states: seq<Pair>, n: nat)
    requires n < |states|
  {
    states[n].led == states[0].led
  }

  /** Until a replica takes over, one log is a prefix of the other. */
  lemma LogsAgreeUntilTakeover(states: seq<Pair>, steps: seq<Step>, n: nat)
    requires Run(states, steps) && n <= |steps| && NoTakeover(states, n)
    ensures Log(states, steps, n, 0) <= Log(states, steps, n, 1) || Log(states, steps, n, 1) <= Log(states, steps, n, 0)
  {
    RunInv(states, steps, n);
    var a, b := Log(states, steps, n, 0), Log(states, steps, n, 1);
    LogIsDense(states, steps, n, 0);
    LogIsDense(states, steps, n, 1);
    forall i | 0 <= i < |a| && i < |b| ensures a[i] == b[i] {
      var from :| Message(from, a[i]) in states[n].sent;
      var from' :| Message(from', b[i]) in states[n].sent;
      assert SentOk(states[n], Message(from, a[i])) && SentOk(states[n], Message(from', b[i]));
      AgreeIffSameTerm(states, steps, n, i);
    }
    assert |a| <= |b| ==> b[..|a|] == a;
    assert |b| <= |a| ==> a[..|b|] == b;
  }

  // ----- exactly when the logs agree -----

  ghost predicate Prefixes(a: seq<Entry>, b: seq<Entry>) { a <= b || b <= a }

  ghost predicate Agree(states: seq<Pair>, steps: seq<Step>, n: nat)
    requires Run(states, steps) && n <= |steps|
  {
    Prefixes(Log(states, steps, n, 0), Log(states, steps, n, 1))
  }

  /** At step `k` a leader appends although it has committed less than the other replica. */
  ghost predicate AppendsBehind(states: seq<Pair>, steps: seq<Step>, k: nat)
    requires Run(states, steps) && k < |steps|
  {
    var r := steps[k].at;
    && steps[k].LeaderAppend? && r < 2 && |states[k].nodes| == 2
    && states[k].nodes[r].role == Leader && states[k].nodes[r].commit < states[k].nodes[1 - r].commit
  }

  lemma {:induction false} SentIsLogged(states: seq<Pair>, steps: seq<Step>, n: nat, m: Message)
    requires Run(states, steps) && n <= |steps| && m in states[n].sent
    ensures m.from < 2 && 1 <= m.entry.index <= |Log(states, steps, n, m.from)|
    ensures Log(states, steps, n, m.from)[m.entry.index - 1] == m.entry
  {
    assert n > 0;
    var s, a := states[n - 1], steps[n - 1];
    assert Enabled(s, a) && states[n - 1 + 1] == Do(s, a);
    if m in s.sent {
      SentIsLogged(states, steps, n - 1, m);
    } else {
      LogIsDense(states, steps, n - 1, a.at);
    }
  }

  /** A leader has committed every entry of its term. */
  lemma OwnTermIsCommitted(p: Pair, r: nat, m: Message)
    requires Inv(p) && r < 2 && p.nodes[r].role == Leader && m in p.sent
    ensures m.entry.term == p.nodes[r].term ==> m.entry.index <= p.nodes[r].commit
  {
    assert SentOk(p, m) && (p.nodes[r].term, r) in p.led;
  }

  /** A leader that is behind makes an entry the other does not hold at that index. */
  lemma BehindSplits(states: seq<Pair>, steps: seq<Step>, k: nat)
    requires Run(states, steps) && k < |steps| && AppendsBehind(states, steps, k)
    ensures !Agree(states, steps, k + 1)
  {
    var s, r := states[k], steps[k].at;
    var e := NextEntry(s.nodes[r], steps[k].event);
    RunInv(states, steps, k);
    LogIsDense(states, steps, k, r);
    LogIsDense(states, steps, k, 1 - r);
    var mine, other := Log(states, steps, k, r), Log(states, steps, k, 1 - r);
    var from :| Message(from, other[|mine|]) in s.sent;
    OwnTermIsCommitted(s, r, Message(from, other[|mine|]));
    assert Log(states, steps, k + 1, r) == mine + [e] && Log(states, steps, k + 1, 1 - r) == other;
    assert (mine + [e])[|mine|] == e;
  }

  /** Two logs of which one is a prefix stay so when one gains what the other already has there, if
      anything. */
  lemma PrefixStep(a: seq<Entry>, b: seq<Entry>, e: Entry)
    requires Prefixes(a, b) && (|a| < |b| ==> b[|a|] == e)
    ensures Prefixes(a + [e], b)
  {
    if |a| < |b| { assert a + [e] <= b; }
  }

  /** Every other step keeps the agreement. */
  lemma AgreementKept(states: seq<Pair>, steps: seq<Step>, k: nat)
    requires Run(states, steps) && k < |steps| && Agree(states, steps, k) && !AppendsBehind(states, steps, k)
    ensures Agree(states, steps, k + 1)
  {
    var s, a := states[k], steps[k];
    assert Enabled(s, a);
    var r := a.at;
    LogIsDense(states, steps, k, r);
    LogIsDense(states, steps, k, 1 - r);
    var mine, other := Log(states, steps, k, r), Log(states, steps, k, 1 - r);
    var w := Writes(states, steps, k, r);
    assert Log(states, steps, k + 1, 1 - r) == other;
    if w.None? {
      assert Log(states, steps, k + 1, r) == mine;
    } else {
      assert Log(states, steps, k + 1, r) == mine + [w.value];
      if a.Deliver? {
        SentIsLogged(states, steps, k, a.message);
        assert a.message.from == 1 - r;
      }
      assert Prefixes(mine, other);
      PrefixStep(mine, other, w.value);
    }
  }

  lemma SplitStays(states: seq<Pair>, steps: seq<Step>, k: nat)
    requires Run(states, steps) && k < |steps| && Agree(states, steps, k + 1)
    ensures Agree(states, steps, k)
  {
    assert Enabled(states[k], steps[k]);
    var r := steps[k].at;
    var mine, other, w := Log(states, steps, k, r), Log(states, steps, k, 1 - r), Writes(states, steps, k, r);
    assert Log(states, steps, k + 1, 1 - r) == other;
    assert Log(states, steps, k + 1, r) == if w.Some? then mine + [w.value] else mine;
    if w.Some? && |mine| < |other| { assert mine + [w.value] <= other; }
  }

  ghost predicate NeverBehind(states: seq<Pair>, steps: seq<Step>, n: nat)
    requires Run(states, steps) && n <= |steps|
  {
    forall k :: 0 <= k < n ==> !AppendsBehind(states, steps, k)
  }

  lemma AgreeStep(states: seq<Pair>, steps: seq<Step>, k: nat)
    requires Run(states, steps) && k < |steps|
    ensures Agree(states, steps, k + 1) <==> Agree(states, steps, k) && !AppendsBehind(states, steps, k)
  {
    if !Agree(states, steps, k) {
      if Agree(states, steps, k + 1) { SplitStays(states, steps, k); }
    } else if AppendsBehind(states, steps, k) {
      BehindSplits(states, steps, k);
    } else {
      AgreementKept(states, steps, k);
    }
  }

  /** One log is a prefix of the other exactly until a leader appends while it is behind; then they
      are split for good. */
  lemma {:induction false} LogsAgreeExactly(states: seq<Pair>, steps: seq<Step>, n: nat)
    requires Run(states, steps) && n <= |steps|
    ensures Agree(states, steps, n) <==> NeverBehind(states, steps, n)
  {
    if n > 0 {
      LogsAgreeExactly(states, steps, n - 1);
      AgreeStep(states, steps, n - 1);
    }
  }

  function OrderAt(orderId: nat, time: nat): Event { Event(OrderInserted, 0, 0, orderId, 0, 0, time) }

  /** The entry the old leader does not get through, and the two the new one makes. */
  const LOST := Entry(1, 1, OrderAt(1, 1))
  const FIRST := Entry(2, 1, OrderAt(2, 2))
  const SECOND := Entry(2, 2, OrderAt(3, 3))

  lemma TakeoverRun() returns (states: seq<Pair>, steps: seq<Step>)
    ensures Run(states, steps) && |steps| == 5
    ensures Writes(states, steps, 0, 0) == Some(LOST) && Writes(states, steps, 0, 1) == None
    ensures Writes(states, steps, 1, 0) == None && Writes(states, steps, 1, 1) == None
    ensures Writes(states, steps, 2, 0) == None && Writes(states, steps, 2, 1) == Some(FIRST)
    ensures Writes(states, steps, 3, 0) == None && Writes(states, steps, 3, 1) == Some(SECOND)
    ensures Writes(states, steps, 4, 0) == Some(SECOND) && Writes(states, steps, 4, 1) == None
  {
    var s0 := Pair([NewNode(Leader), NewNode(Follower)], {}, {(1, 0)});
    var a0 := LeaderAppend(0, LOST.event);
    var s1 := Do(s0, a0);
    var a1 := Timer(1, 20_000_001);
    var s2 := Do(s1, a1);
    var a2 := LeaderAppend(1, FIRST.event);
    var s3 := Do(s2, a2);
    var a3 := LeaderAppend(1, SECOND.event);
    var s4 := Do(s3, a3);
    var m := Message(1, SECOND);
    var a4 := Deliver(0, m, 4);
    assert s1.nodes == [Node(Leader, 1, 1, 1, 0), NewNode(Follower)] && s2.nodes == [s1.nodes[0], Node(Leader, 2, 0, 0, 0)];
    assert s3.nodes == [s1.nodes[0], Node(Leader, 2, 1, 2, 0)] && s4.nodes == [s1.nodes[0], Node(Leader, 2, 2, 3, 0)];
    assert m in s4.sent;
    states, steps := [s0, s1, s2, s3, s4, Do(s4, a4)], [a0, a1, a2, a3, a4];
    forall i {:trigger steps[i]} | 0 <= i < |steps|
      ensures Enabled(states[i], steps[i]) && states[i + 1] == Do(states[i], steps[i])
    {
      assert i == 0 || i == 1 || i == 2 || i == 3 || i == 4;
    }
  }

  lemma LogStep(states: seq<Pair>, steps: seq<Step>, n: nat, a: seq<Entry>, b: seq<Entry>)
    requires Run(states, steps) && n < |steps| && Log(states, steps, n, 0) == a && Log(states, steps, n, 1) == b
    ensures Log(states, steps, n + 1, 0) ==
            (var w := Writes(states, steps, n, 0); if w.Some? then a + [w.value] else a)
    ensures Log(states, steps, n + 1, 1) ==
            (var w := Writes(states, steps, n, 1); if w.Some? then b + [w.value] else b)
  {}

  /** A takeover can split the logs for good, and agreement at an index does not reach back: the old
      leader's undelivered entry 1 stays beside the new leader's, although both then hold the same
      entry 2. */
  lemma LogsSplitAfterTakeover() returns (states: seq<Pair>, steps: seq<Step>)
    ensures Run(states, steps)
    ensures var a, b := Log(states, steps, |steps|, 0), Log(states, steps, |steps|, 1);
            |a| == 2 && |b| == 2 && a[0] != b[0] && a[1] == b[1]
  {
    states, steps := TakeoverRun();
    LogStep(states, steps, 0, [], []);
    LogStep(states, steps, 1, [LOST], []);
    LogStep(states, steps, 2, [LOST], []);
    LogStep(states, steps, 3, [LOST], [FIRST]);
    LogStep(states, steps, 4, [LOST], [FIRST, SECOND]);
  }
}
