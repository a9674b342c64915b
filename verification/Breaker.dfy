/** The circuit breaker, used sequentially: closed, open, and half-open with a probe budget. */
module Breaker {

  const U32: nat := 0x1_0000_0000

  datatype Phase = Closed | Open | HalfOpen

  datatype Config = Config(maxFailures: nat, coolDown: nat, halfOpen: bool, maxProbes: nat, successesNeeded: nat,
                           maxRejections: nat, maxRate: nat, window: nat)

  datatype State = State(phase: Phase, tripTime: nat, failures: nat, rejections: nat,
                         probes: nat, successes: nat, windowStart: nat, windowCount: nat)

  const INITIAL := State(Closed, 0, 0, 0, 0, 0, 0, 0)

  function Trip(s: State, now: nat): State {
    s.(phase := Open, tripTime := now)
  }

  /** `reset` leaves the rate window alone. */
  function Reset(s: State): State {
    s.(phase := Closed, tripTime := 0, failures := 0, rejections := 0, probes := 0, successes := 0)
  }

  /** A failure while half-open reopens at once; otherwise it counts towards the limit. */
  function RecordFailure(c: Config, s: State, now: nat): State {
    if s.phase == HalfOpen then Trip(s, now)
    else
      var counted := if s.failures < c.maxFailures then s.(failures := s.failures + 1) else s;
      if s.failures + 1 >= c.maxFailures then Trip(counted, now) else counted
  }

  function RecordRejection(c: Config, s: State, now: nat): State {
    if c.maxRejections == 0 then RecordFailure(c, s, now)
    else
      var counted := s.(rejections := (s.rejections + 1) % U32);
      if counted.rejections >= c.maxRejections then Trip(counted, now) else RecordFailure(c, counted, now)
  }

  function RecordSuccess(c: Config, s: State): State {
    match s.phase
    case HalfOpen =>
      var counted := s.(successes := (s.successes + 1) % U32);
      if counted.successes >= c.successesNeeded then Reset(counted) else counted
    case Closed => s.(failures := 0, rejections := 0)
    case Open => s
  }

  predicate CooledDown(c: Config, s: State, now: nat) {
    c.coolDown > 0 && now > 0 && now >= s.tripTime && now - s.tripTime >= c.coolDown
  }

  /** Issues a probe if the budget of this episode allows; the counter wraps at 32 bits. */
  function Probe(c: Config, s: State): (bool, State) {
    (s.probes < c.maxProbes, s.(probes := (s.probes + 1) % U32))
  }

  function Allow(c: Config, s: State, now: nat): (bool, State) {
    match s.phase
    case Closed =>
      if c.maxRate > 0 && c.window > 0 && now > 0 then
        if now < s.windowStart || now - s.windowStart >= c.window then
          (true, s.(windowStart := now, windowCount := 1))
        else
          var counted := s.(windowCount := (s.windowCount + 1) % U32);
          if counted.windowCount > c.maxRate then (false, Trip(counted, now)) else (true, counted)
      else (true, s)
    case Open =>
      if !CooledDown(c, s, now) then (false, s)
      else if c.halfOpen then Probe(c, s.(phase := HalfOpen, probes := 0, successes := 0))
      else (true, Reset(s))
    case HalfOpen => Probe(c, s)
  }

  // ----- runs -----

  datatype Op = FailureOp(now: nat) | RejectionOp(now: nat) | SuccessOp | TripOp(now: nat) | AllowOp(now: nat) | ResetOp

  function Apply(c: Config, s: State, op: Op): State {
    match op
    case FailureOp(now) => RecordFailure(c, s, now)
    case RejectionOp(now) => RecordRejection(c, s, now)
    case SuccessOp => RecordSuccess(c, s)
    case TripOp(now) => Trip(s, now)
    case AllowOp(now) => Allow(c, s, now).1
    case ResetOp => Reset(s)
  }

  /** The state after the first `n` operations. */
  ghost function After(c: Config, s: State, ops: seq<Op>, n: nat): State
    requires n <= |ops|
  {
    if n == 0 then s else Apply(c, After(c, s, ops, n - 1), ops[n - 1])
  }

  /** Operation `i` of the run is a request that gets through. */
  ghost predicate Allowed(c: Config, s: State, ops: seq<Op>, i: nat)
    requires i < |ops|
  {
    ops[i].AllowOp? && Allow(c, After(c, s, ops, i), ops[i].now).0
  }

  // ----- opening -----

  /** Failures since the last success, rejections among them. */
  function Streak(ops: seq<Op>, n: nat): nat
    requires n <= |ops|
  {
    if n == 0 || ops[n - 1].SuccessOp? then 0
    else Streak(ops, n - 1) + if ops[n - 1].FailureOp? || ops[n - 1].RejectionOp? then 1 else 0
  }

  function Rejections(ops: seq<Op>, n: nat): nat
    requires n <= |ops|
  {
    if n == 0 || ops[n - 1].SuccessOp? then 0 else Rejections(ops, n - 1) + if ops[n - 1].RejectionOp? then 1 else 0
  }

  /** Neither the failures nor the rejections of any part of the run reach their limit. */
  ghost predicate BelowLimits(c: Config, ops: seq<Op>, n: nat)
    requires n <= |ops|
  {
    forall k {:trigger Streak(ops, k)} :: 0 <= k <= n ==>
      Streak(ops, k) < c.maxFailures && (c.maxRejections > 0 ==> Rejections(ops, k) < c.maxRejections)
  }

  /** Reports and requests, without an explicit trip or reset. */
  predicate IsReport(op: Op) { op.FailureOp? || op.RejectionOp? || op.SuccessOp? || op.AllowOp? }

  /** A fresh breaker without a rate limit stays closed, and lets every request through, as long as
      failures and rejections in a row stay below their limits. */
  lemma {:induction false} ClosedBelowLimits(c: Config, ops: seq<Op>, n: nat)
    requires n <= |ops| && (c.maxRate == 0 || c.window == 0) && c.maxRejections < U32
    requires (forall i :: 0 <= i < n ==> IsReport(ops[i])) && BelowLimits(c, ops, n)
    ensures var s := After(c, INITIAL, ops, n);
            && s.phase == Closed && s.failures == Streak(ops, n)
            && (c.maxRejections > 0 ==> s.rejections == Rejections(ops, n))
    ensures forall i {:trigger Allowed(c, INITIAL, ops, i)} :: 0 <= i < n && ops[i].AllowOp? ==> Allowed(c, INITIAL, ops, i)
  {
    if n > 0 {
      assert BelowLimits(c, ops, n - 1);
      ClosedBelowLimits(c, ops, n - 1);
      assert Streak(ops, n) < c.maxFailures && IsReport(ops[n - 1]);
      StaysBelow(c, After(c, INITIAL, ops, n - 1), ops[n - 1]);
    }
  }

  /** One report or request that keeps below the limits. */
  lemma StaysBelow(c: Config, s: State, op: Op)
    requires s.phase == Closed && IsReport(op) && (c.maxRate == 0 || c.window == 0) && c.maxRejections < U32
    requires op.FailureOp? || op.RejectionOp? ==> s.failures + 1 < c.maxFailures
    requires op.RejectionOp? && c.maxRejections > 0 ==> s.rejections + 1 < c.maxRejections
    ensures var s' := Apply(c, s, op);
            && s'.phase == Closed
            && s'.failures == (if op.SuccessOp? then 0 else if op.AllowOp? then s.failures else s.failures + 1)
            && (c.maxRejections > 0 ==>
                s'.rejections == (if op.SuccessOp? then 0 else if op.RejectionOp? then s.rejections + 1 else s.rejections))
    ensures op.AllowOp? ==> Allow(c, s, op.now).0
  {}

  /** The report that reaches a limit opens it, at its own time. */
  lemma OpensAtTheLimit(c: Config, ops: seq<Op>, n: nat)
    requires n < |ops| && (c.maxRate == 0 || c.window == 0) && c.maxRejections < U32
    requires (forall i :: 0 <= i <= n ==> IsReport(ops[i])) && BelowLimits(c, ops, n) && !BelowLimits(c, ops, n + 1)
    ensures (ops[n].FailureOp? || ops[n].RejectionOp?)
    ensures After(c, INITIAL, ops, n + 1).phase == Open && After(c, INITIAL, ops, n + 1).tripTime == ops[n].now
  {
    ClosedBelowLimits(c, ops, n);
    assert Streak(ops, n) < c.maxFailures;
    assert Streak(ops, n + 1) >= c.maxFailures || (c.maxRejections > 0 && Rejections(ops, n + 1) >= c.maxRejections);
    assert IsReport(ops[n]);
    AtTheLimit(c, After(c, INITIAL, ops, n), ops[n]);
  }

  lemma AtTheLimit(c: Config, s: State, op: Op)
    requires s.phase == Closed && (op.FailureOp? || op.RejectionOp?) && c.maxRejections < U32 && s.failures < c.maxFailures
    requires c.maxRejections > 0 ==> s.rejections < c.maxRejections
    requires s.failures + 1 == c.maxFailures || (op.RejectionOp? && c.maxRejections == s.rejections + 1)
    ensures Apply(c, s, op).phase == Open && Apply(c, s, op).tripTime == op.now
  {}

  /** The requests of one window of a closed breaker, which the first of them opens. */
  ghost predicate OneWindow(c: Config, s: State, ops: seq<Op>, n: nat)
    requires n <= |ops|
  {
    && s.phase == Closed && 0 < n && 0 < c.maxRate < U32 && 0 < c.window
    && ops[0].AllowOp? && 0 < ops[0].now && (ops[0].now < s.windowStart || ops[0].now - s.windowStart >= c.window)
    && forall i :: 0 <= i < n ==> ops[i].AllowOp? && ops[0].now <= ops[i].now < ops[0].now + c.window
  }

  /** The window counts its requests, and up to `maxRate` of them pass. */
  lemma {:induction false} RateCounts(c: Config, s: State, ops: seq<Op>, n: nat)
    requires n <= |ops| && OneWindow(c, s, ops, n) && n <= c.maxRate
    ensures var s' := After(c, s, ops, n); s'.phase == Closed && s'.windowStart == ops[0].now && s'.windowCount == n
    ensures Allowed(c, s, ops, n - 1)
  {
    if n > 1 {
      RateCounts(c, s, ops, n - 1);
      assert ops[n - 1].AllowOp?;
    } else {
      assert After(c, s, ops, 0) == s;
    }
  }

  /** The request after those is refused and opens the breaker, except that a limit of 2^32 - 1 is
      never seen to be exceeded: the 32-bit count wraps to 0. */
  lemma RateOpens(c: Config, s: State, ops: seq<Op>, n: nat)
    requires n <= |ops| && OneWindow(c, s, ops, n) && n == c.maxRate + 1
    ensures Allowed(c, s, ops, n - 1) <==> c.maxRate == U32 - 1
    ensures After(c, s, ops, n).phase == Open <==> c.maxRate < U32 - 1
    ensures c.maxRate < U32 - 1 ==> After(c, s, ops, n).tripTime == ops[n - 1].now
  {
    RateCounts(c, s, ops, n - 1);
    assert ops[n - 1].AllowOp?;
  }

  /** A half-open breaker closes with the last of the successes it needs, and not before. */
  lemma {:induction false} SuccessesClose(c: Config, s: State, ops: seq<Op>, n: nat)
    requires s.phase == HalfOpen && s.successes == 0 && n <= |ops| && n <= c.successesNeeded && 0 < c.successesNeeded < U32
    requires forall i :: 0 <= i < n ==> ops[i].SuccessOp?
    ensures n < c.successesNeeded ==> After(c, s, ops, n).phase == HalfOpen && After(c, s, ops, n).successes == n
    ensures n == c.successesNeeded ==>
              var s' := After(c, s, ops, n); s'.phase == Closed && s'.failures == 0 && s'.rejections == 0 && s'.tripTime == 0
  {
    if n > 0 { SuccessesClose(c, s, ops, n - 1); }
  }

  /** Without a cool-down an open breaker stays open, and lets nothing through, until an
      explicit reset, whatever else happens. */
  lemma {:induction false} OpenStaysOpen(c: Config, s: State, ops: seq<Op>, n: nat)
    requires c.coolDown == 0 && s.phase == Open && n <= |ops|
    requires forall i :: 0 <= i < n ==> ops[i] != ResetOp
    ensures After(c, s, ops, n).phase == Open
    ensures forall i :: 0 <= i < n ==> !Allowed(c, s, ops, i)
  {
    if n > 0 {
      OpenStaysOpen(c, s, ops, n - 1);
      NoCoolDown(c, After(c, s, ops, n - 1), ops[n - 1]);
    }
  }

  lemma NoCoolDown(c: Config, s: State, op: Op)
    requires c.coolDown == 0 && s.phase == Open && op != ResetOp
    ensures Apply(c, s, op).phase == Open && (op.AllowOp? ==> !Allow(c, s, op.now).0)
  {}

  /** Operation `i`, if a request, comes before the end of the cool-down then in force. */
  ghost predicate TooEarly(c: Config, s: State, ops: seq<Op>, i: nat)
    requires i < |ops|
  {
    ops[i].AllowOp? ==> ops[i].now < After(c, s, ops, i).tripTime + c.coolDown
  }

  /** With a cool-down, nothing gets through before the latest trip time plus the cool-down:
      while every request comes too early for the trip that is then in force, the breaker
      stays open and refuses it. */
  lemma {:induction false} QuietUntilCooledDown(c: Config, s: State, ops: seq<Op>, n: nat)
    requires s.phase == Open && n <= |ops|
    requires forall i :: 0 <= i < n ==> ops[i] != ResetOp
    requires forall i {:trigger TooEarly(c, s, ops, i)} :: 0 <= i < n ==> TooEarly(c, s, ops, i)
    ensures After(c, s, ops, n).phase == Open
    ensures forall i {:trigger Allowed(c, s, ops, i)} :: 0 <= i < n ==> !Allowed(c, s, ops, i)
  {
    if n > 0 {
      QuietUntilCooledDown(c, s, ops, n - 1);
      assert TooEarly(c, s, ops, n - 1);
      StillHot(c, After(c, s, ops, n - 1), ops[n - 1]);
    }
  }

  /** A trip without a time counts from 0, as the gateway's does after a report that fails to
      reconcile: its cool-down is over as soon as the clock has reached the cool-down itself, however
      recent the trip. */
  lemma TimelessTripIsCold(c: Config, s: State, now: nat)
    ensures Allow(c, Trip(s, 0), now).0 <==> 0 < c.coolDown <= now && (c.halfOpen ==> 0 < c.maxProbes)
  {}

  lemma StillHot(c: Config, s: State, op: Op)
    requires s.phase == Open && op != ResetOp && (op.AllowOp? ==> op.now < s.tripTime + c.coolDown)
    ensures Apply(c, s, op).phase == Open && (op.AllowOp? ==> !Allow(c, s, op.now).0)
  {}

  /** How many requests a run makes, and how many get through. */
  ghost function Requests(ops: seq<Op>, n: nat): nat
    requires n <= |ops|
  {
    if n == 0 then 0 else Requests(ops, n - 1) + if ops[n - 1].AllowOp? then 1 else 0
  }

  ghost function Passed(c: Config, s: State, ops: seq<Op>, n: nat): nat
    requires n <= |ops|
  {
    if n == 0 then 0 else Passed(c, s, ops, n - 1) + if Allowed(c, s, ops, n - 1) then 1 else 0
  }

  /** All states of the run up to step `n` are half-open: one episode. */
  ghost predicate Episode(c: Config, s: State, ops: seq<Op>, n: nat)
    requires n <= |ops|
  {
    forall i {:trigger After(c, s, ops, i)} :: 0 <= i <= n ==> After(c, s, ops, i).phase == HalfOpen
  }

  /** Within an episode the n-th request after the opening one passes if and only if the
      32-bit probe counter, which counts them all, is below the budget. */
  lemma {:induction false} ProbeCounter(c: Config, s: State, ops: seq<Op>, n: nat)
    requires s.phase == HalfOpen && n <= |ops| && s.probes < U32 && Episode(c, s, ops, n)
    ensures After(c, s, ops, n).probes == (s.probes + Requests(ops, n)) % U32
  {
    if n > 0 {
      assert Episode(c, s, ops, n - 1);
      ProbeCounter(c, s, ops, n - 1);
      var before := After(c, s, ops, n - 1);
      assert before.phase == HalfOpen && After(c, s, ops, n).phase == HalfOpen;
      if ops[n - 1].AllowOp? {
        WrapStep(s.probes + Requests(ops, n - 1));
      }
    }
  }

  lemma WrapStep(k: nat)
    ensures (k % U32 + 1) % U32 == (k + 1) % U32
  {}

  /** How many of `k` requests find the wrapping counter below the budget. */
  function Granted(k: nat, budget: nat): nat {
    (k / U32) * budget + if k % U32 < budget then k % U32 else budget
  }

  lemma GrantedStep(k: nat, budget: nat)
    requires budget < U32
    ensures Granted(k + 1, budget) == Granted(k, budget) + if k % U32 < budget then 1 else 0
  {
    if k % U32 == U32 - 1 {
      assert (k + 1) / U32 == k / U32 + 1 && (k + 1) % U32 == 0;
    } else {
      assert (k + 1) / U32 == k / U32 && (k + 1) % U32 == k % U32 + 1;
    }
  }

  /** An episode entered with its first probe lets through, in each round of the counter, the
      first `maxProbes` requests, and no others. */
  lemma {:induction false} EpisodeBudget(c: Config, s: State, ops: seq<Op>, n: nat)
    requires s.phase == HalfOpen && s.probes == 1 && n <= |ops| && Episode(c, s, ops, n)
    requires 1 <= c.maxProbes < U32
    ensures 1 + Passed(c, s, ops, n) == Granted(1 + Requests(ops, n), c.maxProbes)
  {
    if n > 0 {
      assert Episode(c, s, ops, n - 1);
      EpisodeBudget(c, s, ops, n - 1);
      if ops[n - 1].AllowOp? {
        var k := 1 + Requests(ops, n - 1);
        GrantedStep(k, c.maxProbes);
        PassesBelowBudget(c, s, ops, n - 1, k);
      }
    }
  }

  /** The counter, wrapped, decides whether a request passes. */
  lemma PassesBelowBudget(c: Config, s: State, ops: seq<Op>, n: nat, k: nat)
    requires s.phase == HalfOpen && s.probes == 1 && n < |ops| && Episode(c, s, ops, n + 1) && ops[n].AllowOp?
    requires k == 1 + Requests(ops, n)
    ensures Allowed(c, s, ops, n) <==> k % U32 < c.maxProbes
  {
    assert Episode(c, s, ops, n);
    ProbeCounter(c, s, ops, n);
    assert After(c, s, ops, n).phase == HalfOpen && After(c, s, ops, n + 1).phase == HalfOpen;
  }

  /** So the budget of an episode is exceeded if and only if the counter wraps in it. */
  lemma BudgetHoldsUntilWrap(c: Config, s: State, ops: seq<Op>, n: nat)
    requires s.phase == HalfOpen && s.probes == 1 && n <= |ops| && Episode(c, s, ops, n)
    requires 1 <= c.maxProbes < U32
    ensures 1 + Passed(c, s, ops, n) > c.maxProbes <==> 1 + Requests(ops, n) > U32
  {
    EpisodeBudget(c, s, ops, n);
    GrantedBeyond(1 + Requests(ops, n), c.maxProbes);
  }

  /** The budget is exceeded exactly by the first request after the wrap. */
  lemma GrantedBeyond(k: nat, maxProbes: nat)
    requires 1 <= maxProbes < U32
    ensures Granted(k, maxProbes) > maxProbes <==> k > U32
  {
    if k > U32 {
      assert (k / U32) * maxProbes >= maxProbes by { Multiply(k / U32, maxProbes); }
      if k / U32 >= 2 { assert (k / U32) * maxProbes >= 2 * maxProbes by { Multiply(k / U32 - 1, maxProbes); } }
    } else if k < U32 {
      assert k / U32 == 0;
    }
  }

  lemma Multiply(q: nat, m: nat)
    requires q >= 1
    ensures q * m >= m && (q + 1) * m == q * m + m
  {
    assert q * m == m + (q - 1) * m;
  }

  /** Requests alone never end an episode, so 2^32 of them after the opening one exceed the budget. */
  lemma WrapExceedsBudget(c: Config, s: State, ops: seq<Op>)
    requires s.phase == HalfOpen && s.probes == 1 && 1 <= c.maxProbes < U32
    requires |ops| >= U32 && forall i :: 0 <= i < |ops| ==> ops[i].AllowOp?
    ensures 1 + Passed(c, s, ops, |ops|) > c.maxProbes
  {
    forall i | 0 <= i <= |ops| ensures After(c, s, ops, i).phase == HalfOpen { RequestsOnly(c, s, ops, i); }
    RequestsOnly(c, s, ops, |ops|);
    BudgetHoldsUntilWrap(c, s, ops, |ops|);
  }

  lemma {:induction false} RequestsOnly(c: Config, s: State, ops: seq<Op>, n: nat)
    requires s.phase == HalfOpen && n <= |ops| && forall i :: 0 <= i < |ops| ==> ops[i].AllowOp?
    ensures After(c, s, ops, n).phase == HalfOpen && Requests(ops, n) == n
  {
    if n > 0 { RequestsOnly(c, s, ops, n - 1); }
  }

  /** An episode starts with a cooled-down request and a fresh budget; a failure in it reopens. */
  lemma EpisodeEdges(c: Config, s: State, now: nat, later: nat)
    requires c.halfOpen && c.maxProbes >= 1
    ensures s.phase == Open && CooledDown(c, s, now) ==>
              var (ok, s') := Allow(c, s, now); ok && s'.phase == HalfOpen && s'.probes == 1 && s'.successes == 0
    ensures s.phase == HalfOpen ==>
              RecordFailure(c, s, later).phase == Open && RecordFailure(c, s, later).tripTime == later
    ensures s.phase == Open && Allow(c, s, now).0 ==> c.coolDown > 0 && now >= s.tripTime + c.coolDown
  {}
}

/** The breaker object, field by field; its atomics are plain fields here. */
module CircuitBreakers {
  import opened B = Breaker

  class CircuitBreaker {
    const config: Config
    var phase: Phase
    var tripTime: nat
    var failures: nat
    var rejections: nat
    var probes: nat
    var successes: nat
    var windowStart: nat
    var windowCount: nat

    ghost function Now(): State
      reads this
    {
      State(phase, tripTime, failures, rejections, probes, successes, windowStart, windowCount)
    }

    constructor (c: Config)
      requires c.maxFailures > 0
      ensures config == c && Now() == INITIAL
    {
      config, phase, tripTime, failures, rejections := c, Closed, 0, 0, 0;
      probes, successes, windowStart, windowCount := 0, 0, 0, 0;
    }

    method Trip(now: nat)
      modifies this
      ensures Now() == B.Trip(old(Now()), now)
    {
      tripTime := now;
      phase := Open;
    }

    method Reset()
      modifies this
      ensures Now() == B.Reset(old(Now()))
    {
      failures, rejections, probes, successes := 0, 0, 0, 0;
      tripTime := 0;
      phase := Closed;
    }

    method RecordFailure(now: nat)
      modifies this
      ensures Now() == B.RecordFailure(config, old(Now()), now)
    {
      if phase == HalfOpen {
        Trip(now);
        return;
      }
      var seen := failures;
      if seen < config.maxFailures { failures := seen + 1; }
      if seen + 1 >= config.maxFailures { Trip(now); }
    }

    method RecordRejection(now: nat)
      modifies this
      ensures Now() == B.RecordRejection(config, old(Now()), now)
    {
      if config.maxRejections > 0 {
        rejections := (rejections + 1) % U32;
        if rejections >= config.maxRejections {
          Trip(now);
          return;
        }
      }
      RecordFailure(now);
    }

    method RecordSuccess()
      modifies this
      ensures Now() == B.RecordSuccess(config, old(Now()))
    {
      if phase == HalfOpen {
        successes := (successes + 1) % U32;
        if successes >= config.successesNeeded { Reset(); }
      } else if phase == Closed {
        failures, rejections := 0, 0;
      }
    }

    method Allow(now: nat) returns (ok: bool)
      modifies this
      ensures (ok, Now()) == B.Allow(config, old(Now()), now)
    {
      if phase == Closed {
        if config.maxRate > 0 && config.window > 0 && now > 0 {
          if now < windowStart || now - windowStart >= config.window {
            windowStart, windowCount := now, 1;
          } else {
            windowCount := (windowCount + 1) % U32;
            if windowCount > config.maxRate {
              Trip(now);
              return false;
            }
          }
        }
        return true;
      }
      if phase == Open && config.coolDown > 0 && now > 0 {
        if now >= tripTime && now - tripTime >= config.coolDown {
          if !config.halfOpen {
            Reset();
            return true;
          }
          phase, probes, successes := HalfOpen, 0, 0;
        }
      }
      if phase == HalfOpen {
        var issued := probes;
        probes := (probes + 1) % U32;
        return issued < config.maxProbes;
      }
      return false;
    }
  }
}
