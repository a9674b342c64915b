/** The logs, terms and leaders of a cluster's regions over whole runs. */
module RegionLogs {
  import opened HybridClock

  datatype Option<T> = None | Some(value: T)

  /** What step `k` writes into the log of region `r`: an entry it makes, or one it is handed that is
      not stale and next in line. */
  ghost function Writes(states: seq<Cluster>, steps: seq<Step>, k: nat, r: nat): Option<Entry>
    requires Run(states, steps) && k < |steps| && r < |states[k].regions|
  {
    if steps[k].at != r then None
    else match steps[k]
      case AppendEvent(_, e, now) =>
        if states[k].regions[r].logged < 512 then Some(NextEntry(states[k].regions[r], e, now)) else None
      case Deliver(_, e, _) =>
        if e.term >= states[k].regions[r].term && e.index == states[k].regions[r].commit + 1 then Some(e) else None
  }

  /** The number of regions does not change. */
  lemma {:induction false} SameRegions(states: seq<Cluster>, steps: seq<Step>, n: nat)
    requires Run(states, steps) && n <= |steps|
    ensures |states[n].regions| == |states[0].regions|
    ensures forall r :: 0 <= r < |states[n].regions| ==> states[n].regions[r].id == r
  {
    if n > 0 {
      SameRegions(states, steps, n - 1);
      assert Enabled(states[n - 1], steps[n - 1]) && states[n - 1 + 1] == Do(states[n - 1], steps[n - 1]);
    }
  }

  /** The log of region `r` after `n` steps. */
  ghost function Log(states: seq<Cluster>, steps: seq<Step>, n: nat, r: nat): seq<Entry>
    requires Run(states, steps) && n <= |steps| && r < |states[0].regions|
  {
    if n == 0 then []
    else
      SameRegions(states, steps, n - 1);
      var w := Writes(states, steps, n - 1, r);
      if w.Some? then Log(states, steps, n - 1, r) + [w.value] else Log(states, steps, n - 1, r)
  }

  /** All regions start with an empty log. */
  ghost predicate Fresh(c: Cluster) {
    forall r {:trigger c.regions[r]} :: 0 <= r < |c.regions| ==> c.regions[r].commit == 0 && c.regions[r].logged == 0
  }

  /** A log has no gaps: it holds as many entries as are committed and counted, each at its own
      index, and all were made by some region. */
  lemma {:induction false} LogIsDense(states: seq<Cluster>, steps: seq<Step>, n: nat, r: nat)
    requires Run(states, steps) && n <= |steps| && r < |states[0].regions| && Fresh(states[0])
    ensures |states[n].regions| == |states[0].regions|
    ensures |Log(states, steps, n, r)| == states[n].regions[r].commit == states[n].regions[r].logged
    ensures forall i {:trigger Log(states, steps, n, r)[i]} :: 0 <= i < |Log(states, steps, n, r)| ==>
              Log(states, steps, n, r)[i].index == i + 1 && Log(states, steps, n, r)[i] in states[n].sent
  {
    SameRegions(states, steps, n);
    if n > 0 {
      SameRegions(states, steps, n - 1);
      LogIsDense(states, steps, n - 1, r);
      assert Enabled(states[n - 1], steps[n - 1]) && states[n - 1 + 1] == Do(states[n - 1], steps[n - 1]);
    }
  }

  /** An entry stands in the log of the region that made it, at its index, under that region's id. */
  lemma {:induction false} SentIsLogged(states: seq<Cluster>, steps: seq<Step>, n: nat, e: Entry)
    requires Run(states, steps) && n <= |steps| && Fresh(states[0]) && e in states[n].sent
    ensures e.origin < |states[0].regions| && 1 <= e.index <= |Log(states, steps, n, e.origin)|
    ensures Log(states, steps, n, e.origin)[e.index - 1] == e
  {
    assert n > 0;
    var s, a := states[n - 1], steps[n - 1];
    assert Enabled(s, a) && states[n - 1 + 1] == Do(s, a);
    SameRegions(states, steps, n - 1);
    if e in s.sent {
      SentIsLogged(states, steps, n - 1, e);
    } else {
      LogIsDense(states, steps, n - 1, a.at);
    }
  }

  /** Two logs agree at an index exactly if the same region made the entries there; a region's own
      entries are where it put them in every log that has them. */
  lemma AgreeIffSameOrigin(states: seq<Cluster>, steps: seq<Step>, n: nat, r: nat, q: nat, i: nat)
    requires Run(states, steps) && n <= |steps| && Fresh(states[0])
    requires r < |states[0].regions| && q < |states[0].regions|
    requires i < |Log(states, steps, n, r)| && i < |Log(states, steps, n, q)|
    ensures Log(states, steps, n, r)[i] == Log(states, steps, n, q)[i] <==>
            Log(states, steps, n, r)[i].origin == Log(states, steps, n, q)[i].origin
  {
    LogIsDense(states, steps, n, r);
    LogIsDense(states, steps, n, q);
    SentIsLogged(states, steps, n, Log(states, steps, n, r)[i]);
    SentIsLogged(states, steps, n, Log(states, steps, n, q)[i]);
  }

  /** A region appends exactly as long as its log holds fewer than 512 entries. */
  lemma AppendsBelowCapacity(states: seq<Cluster>, steps: seq<Step>, k: nat)
    requires Run(states, steps) && k < |steps| && Fresh(states[0]) && steps[k].AppendEvent?
    requires steps[k].at < |states[0].regions|
    ensures Appends(states, steps, k, steps[k].at) <==> |Log(states, steps, k, steps[k].at)| < 512
    ensures |Log(states, steps, k + 1, steps[k].at)| ==
            |Log(states, steps, k, steps[k].at)| + if |Log(states, steps, k, steps[k].at)| < 512 then 1 else 0
  {
    LogIsDense(states, steps, k, steps[k].at);
  }

  // ----- terms and leaders -----

  /** Step `k` hands region `r` an entry of a term it has not reached. */
  ghost predicate Raises(states: seq<Cluster>, steps: seq<Step>, k: nat, r: nat)
    requires Run(states, steps)
  {
    && k < |steps| && r < |states[k].regions|
    && steps[k].Deliver? && steps[k].at == r && steps[k].entry.term > states[k].regions[r].term
  }

  ghost predicate KeptSince(states: seq<Cluster>, steps: seq<Step>, k: nat, n: nat, r: nat)
    requires Run(states, steps) && k <= n <= |steps| && r < |states[0].regions|
  {
    forall j {:trigger Raises(states, steps, j, r)} :: k <= j < n ==> !Raises(states, steps, j, r)
  }

  /** Without a newer term, term and leader stay. */
  lemma {:induction false} TermStays(states: seq<Cluster>, steps: seq<Step>, k: nat, n: nat, r: nat)
    requires Run(states, steps) && k <= n <= |steps| && r < |states[0].regions| && KeptSince(states, steps, k, n, r)
    ensures r < |states[k].regions| && r < |states[n].regions|
    ensures states[n].regions[r].term == states[k].regions[r].term && states[n].regions[r].leader == states[k].regions[r].leader
    decreases n - k
  {
    SameRegions(states, steps, n);
    SameRegions(states, steps, k);
    if k < n {
      TermStays(states, steps, k, n - 1, r);
      SameRegions(states, steps, n - 1);
      assert Enabled(states[n - 1], steps[n - 1]) && states[n - 1 + 1] == Do(states[n - 1], steps[n - 1]);
      assert !Raises(states, steps, n - 1, r);
    }
  }

  /** A region follows whoever last raised its term: after the last entry of a newer term it has that
      entry's term, and its maker for leader. */
  lemma FollowsLastRaise(states: seq<Cluster>, steps: seq<Step>, k: nat, n: nat, r: nat)
    requires Run(states, steps) && k < n <= |steps| && r < |states[0].regions|
    requires Raises(states, steps, k, r) && KeptSince(states, steps, k + 1, n, r)
    ensures r < |states[n].regions|
    ensures states[n].regions[r].term == steps[k].entry.term && states[n].regions[r].leader == steps[k].entry.origin
  {
    assert Enabled(states[k], steps[k]) && states[k + 1] == Do(states[k], steps[k]);
    TermStays(states, steps, k + 1, n, r);
  }
}
