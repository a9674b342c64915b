/** The lock-free block pool: a free list of indices behind a tagged head, changed by
    compare-and-swap. Every shared load, store and CAS is one step; any number of threads
    interleave. A weak CAS may also fail spuriously. */
module Mempool {
  import opened Finite

  const NONE: int := -1

  datatype Head = Head(index: int, tag: nat)

  /** Where a thread is inside `allocate` or `deallocate`. */
  datatype Pc =
    | Idle
    | Loaded(seen: Head)
    | Peeked(seen: Head, next: int)
    | Returning(block: nat, seen: Head)
    | Linked(block: nat, seen: Head)

  datatype State = State(head: Head, next: seq<int>, threads: map<nat, Pc>, owner: map<nat, nat>)

  function PcOf(s: State, t: nat): Pc {
    if t in s.threads then s.threads[t] else Idle
  }

  function At(s: State, t: nat, pc: Pc): State {
    s.(threads := s.threads[t := pc])
  }

  // ----- steps -----

  datatype Action =
    | AllocLoad(t: nat)                  // load the head
    | AllocFail(t: nat)                  // the loaded head was empty: return null
    | AllocPeek(t: nat)                  // read the free-list entry of the loaded head
    | AllocSwap(t: nat)                  // CAS succeeds: the block is handed out
    | AllocRetry(t: nat)                 // CAS fails and reloads the head
    | FreeLoad(t: nat, block: nat)       // give up ownership, load the head
    | FreeLink(t: nat)                   // write the free-list entry of the block
    | FreeSwap(t: nat)                   // CAS succeeds: the block is free
    | FreeRetry(t: nat)                  // CAS fails and reloads the head
    | Hand(block: nat, to: nat)          // an owner passes a block on

  predicate Enabled(s: State, a: Action) {
    match a
    case AllocLoad(t) => PcOf(s, t).Idle?
    case AllocFail(t) => PcOf(s, t).Loaded? && PcOf(s, t).seen.index == NONE
    case AllocPeek(t) => PcOf(s, t).Loaded? && 0 <= PcOf(s, t).seen.index < |s.next|
    case AllocSwap(t) => PcOf(s, t).Peeked? && s.head == PcOf(s, t).seen
    case AllocRetry(t) => PcOf(s, t).Peeked?
    case FreeLoad(t, b) => PcOf(s, t).Idle? && b in s.owner && s.owner[b] == t
    case FreeLink(t) => PcOf(s, t).Returning? && PcOf(s, t).block < |s.next|
    case FreeSwap(t) => PcOf(s, t).Linked? && s.head == PcOf(s, t).seen
    case FreeRetry(t) => PcOf(s, t).Linked?
    case Hand(b, to) => b in s.owner
  }

  function Do(s: State, a: Action): State
    requires Enabled(s, a)
  {
    match a
    case AllocLoad(t) => At(s, t, Loaded(s.head))
    case AllocFail(t) => At(s, t, Idle)
    case AllocPeek(t) => At(s, t, Peeked(PcOf(s, t).seen, s.next[PcOf(s, t).seen.index]))
    case AllocSwap(t) =>
      var pc := PcOf(s, t);
      var s' := At(s, t, Idle).(head := Head(pc.next, pc.seen.tag + 1));
      if pc.seen.index >= 0 then s'.(owner := s.owner[pc.seen.index as nat := t]) else s'
    case AllocRetry(t) => At(s, t, Loaded(s.head))
    case FreeLoad(t, b) => At(s, t, Returning(b, s.head)).(owner := s.owner - {b})
    case FreeLink(t) =>
      var pc := PcOf(s, t);
      At(s, t, Linked(pc.block, pc.seen)).(next := s.next[pc.block := pc.seen.index])
    case FreeSwap(t) =>
      At(s, t, Idle).(head := Head(PcOf(s, t).block, PcOf(s, t).seen.tag + 1))
    case FreeRetry(t) => At(s, t, Returning(PcOf(s, t).block, s.head))
    case Hand(b, to) => s.(owner := s.owner[b := to])
  }

  /** A fresh pool: every block on the chain 0, 1, 2, ... */
  predicate Init(s: State) {
    && |s.next| > 0 && s.head == Head(0, 0) && s.threads == map[] && s.owner == map[]
    && forall i :: 0 <= i < |s.next| ==> s.next[i] == if i + 1 < |s.next| then i + 1 else NONE
  }

  // ----- invariant -----

  datatype Where = Free | Owned(t: nat) | InFlight(t: nat)

  function FirstOf(free: seq<nat>): int {
    if free == [] then NONE else free[0]
  }

  /** The chain from the head visits exactly `free`. */
  ghost predicate Chained(s: State, free: seq<nat>) {
    && Distinct(free) && s.head.index == FirstOf(free)
    && (forall i :: 0 <= i < |free| ==> free[i] < |s.next|)
    && forall i {:trigger ChainedAt(s, free, i)} :: 0 <= i < |free| ==> ChainedAt(s, free, i)
  }

  ghost predicate ChainedAt(s: State, free: seq<nat>, i: nat)
    requires i < |free|
  {
    free[i] < |s.next| && s.next[free[i]] == FirstOf(free[i + 1..])
  }

  /** `place` puts every block in exactly one place, and says the truth about it. */
  ghost predicate Placed(s: State, free: seq<nat>, place: map<nat, Where>) {
    && (forall b :: b in place <==> 0 <= b < |s.next|)
    && (forall b :: b in free ==> b in place && place[b] == Free)
    && (forall b :: b in s.owner ==> b in place && place[b] == Owned(s.owner[b]))
    && (forall b {:trigger TellsTruth(s, free, place, b)} :: b in place ==> TellsTruth(s, free, place, b))
  }

  ghost predicate TellsTruth(s: State, free: seq<nat>, place: map<nat, Where>, b: nat)
    requires b in place
  {
    match place[b]
    case Free => b in free
    case Owned(t) => b in s.owner && s.owner[b] == t
    case InFlight(t) => (PcOf(s, t).Returning? || PcOf(s, t).Linked?) && PcOf(s, t).block == b
  }

  /** What a thread in mid-operation may rely on. A snapshot with the current tag is current:
      that is what rules out the ABA problem. */
  ghost predicate Local(s: State, place: map<nat, Where>, t: nat) {
    match PcOf(s, t)
    case Idle => true
    case Loaded(seen) => Snapshot(s, seen)
    case Peeked(seen, next) =>
      Snapshot(s, seen) && 0 <= seen.index < |s.next| && (seen.tag == s.head.tag ==> next == s.next[seen.index])
    case Returning(b, seen) => Snapshot(s, seen) && b in place && place[b] == InFlight(t)
    case Linked(b, seen) =>
      Snapshot(s, seen) && b in place && place[b] == InFlight(t) && b < |s.next| && s.next[b] == seen.index
  }

  predicate Snapshot(s: State, seen: Head) {
    seen.tag <= s.head.tag && (seen.tag == s.head.tag ==> seen == s.head) && (seen.index == NONE || 0 <= seen.index < |s.next|)
  }

  ghost predicate Inv(s: State, free: seq<nat>, place: map<nat, Where>) {
    && Chained(s, free) && Placed(s, free, place)
    && forall t {:trigger Local(s, place, t)} :: Local(s, place, t)
  }

  /** The chain and the places after a step. */
  ghost function NextFree(s: State, free: seq<nat>, a: Action): seq<nat>
    requires Enabled(s, a)
  {
    match a
    case AllocSwap(t) => if free == [] then [] else free[1..]
    case FreeSwap(t) => [PcOf(s, t).block] + free
    case _ => free
  }

  ghost function NextPlace(s: State, place: map<nat, Where>, a: Action): map<nat, Where>
    requires Enabled(s, a)
  {
    match a
    case AllocSwap(t) => if PcOf(s, t).seen.index >= 0 then place[PcOf(s, t).seen.index as nat := Owned(t)] else place
    case FreeLoad(t, b) => place[b := InFlight(t)]
    case FreeSwap(t) => place[PcOf(s, t).block := Free]
    case Hand(b, to) => place[b := Owned(to)]
    case _ => place
  }

  lemma InitInv(s: State) returns (free: seq<nat>, place: map<nat, Where>)
    requires Init(s)
    ensures Inv(s, free, place)
  {
    free := seq(|s.next|, i requires 0 <= i => i);
    place := map b | b in Range(|s.next|) :: Free;
    forall i | 0 <= i < |free| ensures ChainedAt(s, free, i) {
      assert free[i + 1..] != [] ==> free[i + 1..][0] == i + 1;
    }
    forall b | b in place ensures TellsTruth(s, free, place, b) {
      assert free[b] == b;
    }
  }

  /** A step that changes neither head, free list nor ownership: loads, reads, retries. */
  lemma QuietStep(s: State, free: seq<nat>, place: map<nat, Where>, t: nat, pc: Pc)
    requires Inv(s, free, place)
    requires Local(At(s, t, pc), place, t)
    requires forall b :: b in place && place[b] == InFlight(t) ==> (pc.Returning? || pc.Linked?) && pc.block == b
    ensures Inv(At(s, t, pc), free, place)
  {
    var s' := At(s, t, pc);
    forall i | 0 <= i < |free| ensures ChainedAt(s', free, i) { assert ChainedAt(s, free, i); }
    forall b | b in place ensures TellsTruth(s', free, place, b) { assert TellsTruth(s, free, place, b); }
    forall u ensures Local(s', place, u) {
      assert Local(s, place, u);
    }
  }

  lemma AllocSwapStep(s: State, free: seq<nat>, place: map<nat, Where>, t: nat)
    requires Inv(s, free, place) && Enabled(s, AllocSwap(t))
    ensures Inv(Do(s, AllocSwap(t)), NextFree(s, free, AllocSwap(t)), NextPlace(s, place, AllocSwap(t)))
    ensures 0 <= PcOf(s, t).seen.index < |s.next| && place[PcOf(s, t).seen.index] == Free
  {
    assert Local(s, place, t);
    var s', free', place' := Do(s, AllocSwap(t)), NextFree(s, free, AllocSwap(t)), NextPlace(s, place, AllocSwap(t));
    assert ChainedAt(s, free, 0);
    forall i | 0 <= i < |free'| ensures ChainedAt(s', free', i) {
      assert ChainedAt(s, free, i + 1);
      assert free'[i + 1..] == free[i + 2..];
    }
    forall b | b in place' ensures TellsTruth(s', free', place', b) {
      assert TellsTruth(s, free, place, b);
    }
    forall u ensures Local(s', place', u) {
      assert Local(s, place, u);
    }
  }

  lemma FreeLoadStep(s: State, free: seq<nat>, place: map<nat, Where>, t: nat, b: nat)
    requires Inv(s, free, place) && Enabled(s, FreeLoad(t, b))
    ensures Inv(Do(s, FreeLoad(t, b)), free, NextPlace(s, place, FreeLoad(t, b)))
  {
    var s', place' := Do(s, FreeLoad(t, b)), NextPlace(s, place, FreeLoad(t, b));
    assert Local(s, place, t);
    forall i | 0 <= i < |free| ensures ChainedAt(s', free, i) { assert ChainedAt(s, free, i); }
    forall c | c in place' ensures TellsTruth(s', free, place', c) {
      assert TellsTruth(s, free, place, c);
    }
    forall u ensures Local(s', place', u) {
      assert Local(s, place, u);
    }
  }

  lemma FreeLinkStep(s: State, free: seq<nat>, place: map<nat, Where>, t: nat)
    requires Inv(s, free, place) && Enabled(s, FreeLink(t))
    ensures Inv(Do(s, FreeLink(t)), free, place)
  {
    var s' := Do(s, FreeLink(t));
    var b := PcOf(s, t).block;
    assert Local(s, place, t);
    assert b !in free;
    forall i | 0 <= i < |free| ensures ChainedAt(s', free, i) {
      assert ChainedAt(s, free, i) && free[i] in free;
    }
    forall c | c in place ensures TellsTruth(s', free, place, c) { assert TellsTruth(s, free, place, c); }
    forall u ensures Local(s', place, u) {
      assert Local(s, place, u);
      if PcOf(s, u).Peeked? && PcOf(s, u).seen.tag == s.head.tag {
        assert free != [] && free[0] in free;
      }
    }
  }

  lemma FreeSwapStep(s: State, free: seq<nat>, place: map<nat, Where>, t: nat)
    requires Inv(s, free, place) && Enabled(s, FreeSwap(t))
    ensures Inv(Do(s, FreeSwap(t)), NextFree(s, free, FreeSwap(t)), NextPlace(s, place, FreeSwap(t)))
  {
    var s', free', place' := Do(s, FreeSwap(t)), NextFree(s, free, FreeSwap(t)), NextPlace(s, place, FreeSwap(t));
    var b := PcOf(s, t).block;
    assert Local(s, place, t);
    assert b !in free;
    forall i | 0 <= i < |free'| ensures ChainedAt(s', free', i) {
      if i > 0 { assert ChainedAt(s, free, i - 1); }
      assert free'[i + 1..] == free[i..];
    }
    forall c | c in place' ensures TellsTruth(s', free', place', c) { assert TellsTruth(s, free, place, c); }
    forall u ensures Local(s', place', u) {
      assert Local(s, place, u);
    }
  }

  lemma HandStep(s: State, free: seq<nat>, place: map<nat, Where>, b: nat, to: nat)
    requires Inv(s, free, place) && Enabled(s, Hand(b, to))
    ensures Inv(Do(s, Hand(b, to)), free, NextPlace(s, place, Hand(b, to)))
  {
    var s', place' := Do(s, Hand(b, to)), NextPlace(s, place, Hand(b, to));
    forall i | 0 <= i < |free| ensures ChainedAt(s', free, i) { assert ChainedAt(s, free, i); }
    forall c | c in place' ensures TellsTruth(s', free, place', c) { assert TellsTruth(s, free, place, c); }
    forall u ensures Local(s', place', u) { assert Local(s, place, u); }
  }

  /** Every step keeps every block in exactly one place. */
  lemma StepKeeps(s: State, free: seq<nat>, place: map<nat, Where>, a: Action)
    requires Inv(s, free, place) && Enabled(s, a)
    ensures Inv(Do(s, a), NextFree(s, free, a), NextPlace(s, place, a))
  {
    match a
    case AllocLoad(t) => Quiet(s, free, place, t, Loaded(s.head));
    case AllocFail(t) => Quiet(s, free, place, t, Idle);
    case AllocPeek(t) => Quiet(s, free, place, t, Peeked(PcOf(s, t).seen, s.next[PcOf(s, t).seen.index]));
    case AllocSwap(t) => AllocSwapStep(s, free, place, t);
    case AllocRetry(t) => Quiet(s, free, place, t, Loaded(s.head));
    case FreeLoad(t, b) => FreeLoadStep(s, free, place, t, b);
    case FreeLink(t) => FreeLinkStep(s, free, place, t);
    case FreeSwap(t) => FreeSwapStep(s, free, place, t);
    case FreeRetry(t) => Quiet(s, free, place, t, Returning(PcOf(s, t).block, s.head));
    case Hand(b, to) => HandStep(s, free, place, b, to);
  }

  lemma Quiet(s: State, free: seq<nat>, place: map<nat, Where>, t: nat, pc: Pc)
    requires Inv(s, free, place)
    requires Local(s, place, t) ==> Local(At(s, t, pc), place, t)
    requires if PcOf(s, t).Returning? || PcOf(s, t).Linked?
             then (pc.Returning? || pc.Linked?) && pc.block == PcOf(s, t).block
             else !pc.Returning? && !pc.Linked?
    ensures Inv(At(s, t, pc), free, place)
  {
    assert Local(s, place, t);
    forall b | b in place && place[b] == InFlight(t) ensures (pc.Returning? || pc.Linked?) && pc.block == b {
      assert TellsTruth(s, free, place, b);
    }
    QuietStep(s, free, place, t, pc);
  }

  // ----- runs -----

  ghost predicate IsRun(run: seq<State>, actions: seq<Action>) {
    && |run| == |actions| + 1 && Init(run[0])
    && forall i {:trigger Moves(run, actions, i)} :: 0 <= i < |actions| ==> Moves(run, actions, i)
  }

  ghost predicate Moves(run: seq<State>, actions: seq<Action>, i: nat)
    requires |run| == |actions| + 1 && i < |actions|
  {
    Enabled(run[i], actions[i]) && run[i + 1] == Do(run[i], actions[i])
  }

  lemma {:induction false} RunInv(run: seq<State>, actions: seq<Action>, n: nat) returns (free: seq<nat>, place: map<nat, Where>)
    requires IsRun(run, actions) && n < |run|
    ensures Inv(run[n], free, place)
  {
    if n == 0 {
      free, place := InitInv(run[0]);
    } else {
      var f, p := RunInv(run, actions, n - 1);
      assert Moves(run, actions, n - 1);
      StepKeeps(run[n - 1], f, p, actions[n - 1]);
      free, place := NextFree(run[n - 1], f, actions[n - 1]), NextPlace(run[n - 1], p, actions[n - 1]);
    }
  }

  /** In every interleaving, a block that `allocate` hands out is owned by nobody, and no
      other thread is giving it back: no block is ever handed out twice. */
  lemma NeverHandedOutTwice(run: seq<State>, actions: seq<Action>, n: nat)
    requires IsRun(run, actions) && n < |actions| && actions[n].AllocSwap?
    ensures Moves(run, actions, n)
    ensures var b := PcOf(run[n], actions[n].t).seen.index;
            && 0 <= b < |run[n].next| && b !in run[n].owner
            && (forall u :: (PcOf(run[n], u).Returning? || PcOf(run[n], u).Linked?) ==> PcOf(run[n], u).block != b)
            && run[n + 1].owner == run[n].owner[b as nat := actions[n].t]
  {
    var s, t := run[n], actions[n].t;
    assert Moves(run, actions, n);
    var free, place := RunInv(run, actions, n);
    AllocSwapStep(s, free, place, t);
    forall u | PcOf(s, u).Returning? || PcOf(s, u).Linked? ensures PcOf(s, u).block != PcOf(s, t).seen.index {
      assert Local(s, place, u);
    }
  }

  /** In every reachable state the free chain is acyclic and the blocks not on it are exactly
      those owned by a thread or on their way back, each by one thread. */
  lemma BlocksAccountedFor(run: seq<State>, actions: seq<Action>, n: nat) returns (free: seq<nat>)
    requires IsRun(run, actions) && n < |run|
    ensures Chained(run[n], free)
    ensures forall b :: 0 <= b < |run[n].next| ==>
              (b in free || b in run[n].owner || InTransit(run[n], b))
    ensures forall b :: b in free ==> b !in run[n].owner && !InTransit(run[n], b)
    ensures forall b :: b in run[n].owner ==> !InTransit(run[n], b)
    ensures forall t, u :: Carries(run[n], t) && Carries(run[n], u) && t != u ==> PcOf(run[n], t).block != PcOf(run[n], u).block
  {
    var place;
    var s := run[n];
    free, place := RunInv(run, actions, n);
    forall b | 0 <= b < |s.next| ensures b in free || b in s.owner || InTransit(s, b) {
      assert TellsTruth(s, free, place, b);
      if place[b].InFlight? { assert Carries(s, place[b].t); }
    }
    forall t | Carries(s, t) ensures PcOf(s, t).block in place && place[PcOf(s, t).block] == InFlight(t) {
      assert Local(s, place, t);
    }
  }

  ghost predicate Carries(s: State, t: nat) {
    PcOf(s, t).Returning? || PcOf(s, t).Linked?
  }

  ghost predicate InTransit(s: State, b: nat) {
    exists t :: Carries(s, t) && PcOf(s, t).block == b
  }

  /** A load that finds no head finds no free block. */
  lemma ExhaustedMeansNoneFree(run: seq<State>, actions: seq<Action>, n: nat)
    requires IsRun(run, actions) && n < |run| && run[n].head.index == NONE
    ensures forall b :: 0 <= b < |run[n].next| ==> b in run[n].owner || InTransit(run[n], b)
  {
    var free := BlocksAccountedFor(run, actions, n);
  }

  /** The step is thread `t`'s own. */
  predicate IsStepOf(a: Action, t: nat) {
    !a.Hand? && a.t == t
  }

  predicate IsLoadOf(a: Action, t: nat) {
    a == AllocLoad(t) || a == AllocRetry(t)
  }

  /** Where a thread got the head that it is looking at. */
  lemma {:induction false} LoadedAt(run: seq<State>, actions: seq<Action>, n: nat, t: nat) returns (m: nat)
    requires IsRun(run, actions) && n < |run| && PcOf(run[n], t).Loaded?
    ensures m < n && IsLoadOf(actions[m], t) && PcOf(run[n], t).seen == run[m].head
    ensures forall k :: m < k < n ==> !IsStepOf(actions[k], t)
  {
    assert n > 0;
    assert Moves(run, actions, n - 1);
    if IsLoadOf(actions[n - 1], t) {
      m := n - 1;
    } else {
      assert PcOf(run[n - 1], t) == PcOf(run[n], t) && !IsStepOf(actions[n - 1], t);
      m := LoadedAt(run, actions, n - 1, t);
    }
  }

  /** `allocate` gives up only if, at the moment it last loaded the head, no block was free: each
      was owned by a thread or on its way back. */
  lemma GivesUpOnlyWhenNoneFree(run: seq<State>, actions: seq<Action>, n: nat) returns (m: nat)
    requires IsRun(run, actions) && n < |actions| && actions[n].AllocFail?
    ensures m < n && IsLoadOf(actions[m], actions[n].t) && forall k :: m < k < n ==> !IsStepOf(actions[k], actions[n].t)
    ensures forall b :: 0 <= b < |run[m].next| ==> b in run[m].owner || InTransit(run[m], b)
  {
    assert Moves(run, actions, n);
    m := LoadedAt(run, actions, n, actions[n].t);
    ExhaustedMeansNoneFree(run, actions, m);
  }

  /** And it is never stuck: a thread that has loaded a head goes on exactly as that head says. */
  lemma LoadedGoesOn(run: seq<State>, actions: seq<Action>, n: nat, t: nat)
    requires IsRun(run, actions) && n < |run| && PcOf(run[n], t).Loaded?
    ensures if PcOf(run[n], t).seen.index == NONE then Enabled(run[n], AllocFail(t)) && !Enabled(run[n], AllocPeek(t))
            else Enabled(run[n], AllocPeek(t)) && !Enabled(run[n], AllocFail(t))
  {
    var free, place := RunInv(run, actions, n);
    assert Local(run[n], place, t);
  }

  /** A thread that runs alone gets a block whenever one is free: load, read, swap. */
  lemma AllocatesAlone(run: seq<State>, actions: seq<Action>, n: nat, t: nat)
    requires IsRun(run, actions) && n < |run| && PcOf(run[n], t).Idle?
    requires exists b :: 0 <= b < |run[n].next| && b !in run[n].owner && !InTransit(run[n], b)
    ensures Enabled(run[n], AllocLoad(t))
    ensures var s1 := Do(run[n], AllocLoad(t));
            && Enabled(s1, AllocPeek(t))
            && var s2 := Do(s1, AllocPeek(t));
               && Enabled(s2, AllocSwap(t))
               && var s3 := Do(s2, AllocSwap(t));
                  && 0 <= run[n].head.index < |run[n].next| && s3.owner == run[n].owner[run[n].head.index as nat := t]
                  && s3.head.index == run[n].next[run[n].head.index] && PcOf(s3, t).Idle?
  {
    var free := BlocksAccountedFor(run, actions, n);
  }

  /** And gives one back: load, link, swap; the block is then the first to be handed out. */
  lemma ReturnsAlone(run: seq<State>, actions: seq<Action>, n: nat, t: nat, b: nat)
    requires IsRun(run, actions) && n < |run| && PcOf(run[n], t).Idle? && b in run[n].owner && run[n].owner[b] == t
    ensures Enabled(run[n], FreeLoad(t, b))
    ensures var s1 := Do(run[n], FreeLoad(t, b));
            && Enabled(s1, FreeLink(t))
            && var s2 := Do(s1, FreeLink(t));
               && Enabled(s2, FreeSwap(t))
               && var s3 := Do(s2, FreeSwap(t));
                  b < |s3.next| && s3.head.index == b && s3.next[b] == run[n].head.index && b !in s3.owner && PcOf(s3, t).Idle?
  {
    var free, place := RunInv(run, actions, n);
  }
}
