/** The dark pool: resting orders in a fixed array, and the crossing of an incoming order
    against them in price, display, time priority. */
module DarkPool {
  import opened Finite

  datatype Mode = Displayed | Hidden | MidpointPeg

  datatype DarkOrder = DarkOrder(id: nat, firm: nat, symbol: nat, side: nat, mode: Mode, price: int,
                                 qty: int, minQty: int, timestamp: nat, active: bool)

  datatype Taker = Taker(id: nat, firm: nat, symbol: nat, side: nat, price: int, qty: int)

  datatype MatchFill = MatchFill(maker: nat, taker: nat, symbol: nat, price: int, qty: int, midpoint: bool)

  const BUY: nat := 0

  function Min(a: int, b: int): int { if a < b then a else b }

  /** Half of the sum, rounded towards zero. */
  function Midpoint(bid: int, ask: int): (mid: int)
    ensures if bid + ask >= 0 then 2 * mid <= bid + ask <= 2 * mid + 1 else 2 * mid - 1 <= bid + ask <= 2 * mid
  {
    if bid + ask >= 0 then (bid + ask) / 2 else -((-(bid + ask)) / 2)
  }

  function EffectivePrice(o: DarkOrder, mid: int): int {
    if o.mode == MidpointPeg then mid else o.price
  }

  /** The resting order is on the other side of the same symbol, belongs to another firm and
      is within the taker's limit. */
  predicate Crosses(o: DarkOrder, t: Taker, mid: int) {
    && o.active && o.symbol == t.symbol && o.side != t.side && o.firm != t.firm
    && if t.side == BUY then t.price >= EffectivePrice(o, mid) else t.price <= EffectivePrice(o, mid)
  }

  function DisplayRank(o: DarkOrder): int {
    if o.mode == Displayed then 0 else 1
  }

  /** `a` has strict priority over `b`: better price for the taker, then displayed, then older. */
  predicate Before(a: DarkOrder, b: DarkOrder, side: nat, mid: int) {
    var pa, pb := EffectivePrice(a, mid), EffectivePrice(b, mid);
    if pa != pb then (if side == BUY then pa < pb else pa > pb)
    else if DisplayRank(a) != DisplayRank(b) then DisplayRank(a) < DisplayRank(b)
    else a.timestamp < b.timestamp
  }

  /** A maker that insists on more than it would get. */
  predicate Blocked(o: DarkOrder, remaining: int) {
    o.minQty > 0 && Min(remaining, o.qty) < o.minQty
  }

  /** No later candidate has priority over an earlier one. */
  ghost predicate InPriority(os: seq<DarkOrder>, cs: seq<nat>, side: nat, mid: int) {
    && (forall i :: 0 <= i < |cs| ==> cs[i] < |os|)
    && forall i, j :: 0 <= i < j < |cs| ==> !Before(os[cs[j]], os[cs[i]], side, mid)
  }

  ghost function FillSum(fs: seq<MatchFill>): int {
    if fs == [] then 0 else FillSum(fs[..|fs| - 1]) + fs[|fs| - 1].qty
  }

  ghost predicate PositiveQty(os: seq<DarkOrder>) {
    forall i :: 0 <= i < |os| && os[i].active ==> os[i].qty > 0
  }

  /** Fill `f` against the order that was at slot `i`: within its quantity, at its price,
      inside the taker's limit, not with the taker's own firm, not below its minimum. */
  ghost predicate FillOk(was: DarkOrder, now: DarkOrder, t: Taker, mid: int, f: MatchFill) {
    && Crosses(was, t, mid)
    && 0 < f.qty <= was.qty && (was.minQty > 0 ==> f.qty >= was.minQty)
    && now == was.(qty := was.qty - f.qty, active := was.qty != f.qty)
    && f == MatchFill(was.id, t.id, t.symbol, EffectivePrice(was, mid), f.qty, was.mode == MidpointPeg)
  }

  /** What a crossing run promises, from the resting orders before and after, the fills and
      the slots they hit. */
  ghost predicate Crossed(was: seq<DarkOrder>, now: seq<DarkOrder>, t: Taker, mid: int,
                          fills: seq<MatchFill>, makers: seq<nat>, remaining: int) {
    && |now| == |was| && |fills| == |makers| && Distinct(makers)
    && (forall k :: 0 <= k < |makers| ==> makers[k] < |was|)
    && (forall k {:trigger fills[k]} :: 0 <= k < |fills| ==> FillOk(was[makers[k]], now[makers[k]], t, mid, fills[k]))
    && (forall i :: 0 <= i < |was| && i !in makers ==> now[i] == was[i])
    && FillSum(fills) + remaining == t.qty && remaining >= 0
    && InPriority(was, makers, t.side, mid)
  }

  // ----- sorting the candidates -----

  method InsertByPriority(os: seq<DarkOrder>, cs: seq<nat>, c: nat, side: nat, mid: int) returns (r: seq<nat>)
    requires InPriority(os, cs, side, mid) && c < |os| && c !in cs && Distinct(cs)
    ensures InPriority(os, r, side, mid) && Elems(r) == Elems(cs) + {c} && Distinct(r)
  {
    var i := |cs|;
    while i > 0 && Before(os[c], os[cs[i - 1]], side, mid)
      invariant 0 <= i <= |cs| && forall j :: i <= j < |cs| ==> Before(os[c], os[cs[j]], side, mid)
    {
      i := i - 1;
    }
    r := cs[..i] + [c] + cs[i..];
    InsertElems(cs, i, c);
    InsertKeepsPriority(os, cs, i, c, side, mid);
  }

  lemma InsertKeepsPriority(os: seq<DarkOrder>, cs: seq<nat>, i: nat, c: nat, side: nat, mid: int)
    requires InPriority(os, cs, side, mid) && c < |os| && i <= |cs|
    requires i == 0 || !Before(os[c], os[cs[i - 1]], side, mid)
    requires forall j :: i <= j < |cs| ==> Before(os[c], os[cs[j]], side, mid)
    ensures InPriority(os, cs[..i] + [c] + cs[i..], side, mid)
  {
    var r := cs[..i] + [c] + cs[i..];
    assert forall j :: 0 <= j < |r| ==> r[j] == if j < i then cs[j] else if j == i then c else cs[j - 1];
    forall j, k | 0 <= j < k < |r| ensures !Before(os[r[k]], os[r[j]], side, mid) {
      if j < i && k == i && j < i - 1 {
        assert !Before(os[cs[i - 1]], os[cs[j]], side, mid) && !Before(os[c], os[cs[i - 1]], side, mid);
      }
    }
  }

  method SortByPriority(os: seq<DarkOrder>, cs: seq<nat>, side: nat, mid: int) returns (r: seq<nat>)
    requires Distinct(cs) && forall i :: 0 <= i < |cs| ==> cs[i] < |os|
    ensures InPriority(os, r, side, mid) && Elems(r) == Elems(cs) && Distinct(r)
  {
    r := [];
    var i := 0;
    while i < |cs|
      invariant 0 <= i <= |cs| && InPriority(os, r, side, mid) && Elems(r) == Elems(cs[..i]) && Distinct(r)
    {
      assert cs[i] !in r by { assert cs[i] !in Elems(cs[..i]); }
      r := InsertByPriority(os, r, cs[i], side, mid);
      assert cs[..i + 1] == cs[..i] + [cs[i]];
      i := i + 1;
    }
    assert cs[..i] == cs;
  }

  // ----- crossing the candidates -----

  /** Nothing more can be taken from the order. */
  predicate Settled(o: DarkOrder, remaining: int) {
    !o.active || Blocked(o, remaining)
  }

  /** The first `c` candidates have been dealt with. */
  ghost predicate Progress(was: seq<DarkOrder>, now: seq<DarkOrder>, t: Taker, mid: int, cs: seq<nat>, c: nat,
                           fills: seq<MatchFill>, makers: seq<nat>, remaining: int) {
    && Crossed(was, now, t, mid, fills, makers, remaining)
    && c <= |cs| && (forall i :: 0 <= i < |cs| ==> cs[i] < |was|)
    && (forall k :: 0 <= k < |makers| ==> makers[k] in cs[..c])
    && forall j {:trigger cs[j]} :: 0 <= j < c ==>
         || Settled(now[cs[j]], remaining)
         || (remaining == 0 && makers != [] && cs[j] == makers[|makers| - 1])
  }

  ghost predicate Candidates(os: seq<DarkOrder>, t: Taker, mid: int, cs: seq<nat>) {
    && Distinct(cs) && InPriority(os, cs, t.side, mid)
    && forall j :: 0 <= j < |cs| ==> Crosses(os[cs[j]], t, mid)
  }

  lemma SkipStep(was: seq<DarkOrder>, now: seq<DarkOrder>, t: Taker, mid: int, cs: seq<nat>, c: nat,
                 fills: seq<MatchFill>, makers: seq<nat>, remaining: int)
    requires Progress(was, now, t, mid, cs, c, fills, makers, remaining)
    requires c < |cs| && remaining > 0 && Blocked(now[cs[c]], remaining)
    ensures Progress(was, now, t, mid, cs, c + 1, fills, makers, remaining)
  {}

  /** The candidate at `c` has not been filled yet. */
  lemma Untouched(was: seq<DarkOrder>, now: seq<DarkOrder>, t: Taker, mid: int, cs: seq<nat>, c: nat,
                  fills: seq<MatchFill>, makers: seq<nat>, remaining: int)
    requires Progress(was, now, t, mid, cs, c, fills, makers, remaining)
    requires c < |cs| && Distinct(cs)
    ensures cs[c] !in makers && now[cs[c]] == was[cs[c]]
  {}

  lemma FillStep(was: seq<DarkOrder>, now: seq<DarkOrder>, t: Taker, mid: int, cs: seq<nat>, c: nat,
                 fills: seq<MatchFill>, makers: seq<nat>, remaining: int, f: MatchFill, now': seq<DarkOrder>)
    requires Progress(was, now, t, mid, cs, c, fills, makers, remaining)
    requires c < |cs| && remaining > 0 && Candidates(was, t, mid, cs)
    requires now[cs[c]].qty > 0 && !Blocked(now[cs[c]], remaining)
    requires f.qty == Min(remaining, now[cs[c]].qty)
    requires now' == now[cs[c] := now[cs[c]].(qty := now[cs[c]].qty - f.qty, active := now[cs[c]].qty != f.qty)]
    requires cs[c] !in makers && now[cs[c]] == was[cs[c]]
    requires FillOk(was[cs[c]], now'[cs[c]], t, mid, f)
    ensures Progress(was, now', t, mid, cs, c + 1, fills + [f], makers + [cs[c]], remaining - f.qty)
  {
    var makers' := makers + [cs[c]];
    assert cs[..c + 1] == cs[..c] + [cs[c]];
    assert (fills + [f])[..|fills|] == fills;
    assert InPriority(was, makers', t.side, mid) by { InPriorityExtends(was, cs, c, makers, t.side, mid); }
    forall j | 0 <= j <= c
      ensures Settled(now'[cs[j]], remaining - f.qty) ||
              (remaining - f.qty == 0 && cs[j] == makers'[|makers'| - 1])
    {
      if j < c {
        assert cs[j] != cs[c] && Settled(now[cs[j]], remaining);
      }
    }
    FillCrossed(was, now, now', t, mid, fills, makers, cs[c], f);
  }

  /** The orders that were not filled are as before, and those that were match their fills. */
  lemma FillCrossed(was: seq<DarkOrder>, now: seq<DarkOrder>, now': seq<DarkOrder>, t: Taker, mid: int,
                    fills: seq<MatchFill>, makers: seq<nat>, i: nat, f: MatchFill)
    requires |was| == |now| == |now'| && |fills| == |makers| && i < |was| && i !in makers && Distinct(makers)
    requires forall k :: 0 <= k < |makers| ==> makers[k] < |was|
    requires forall j :: 0 <= j < |was| && j != i ==> now'[j] == now[j]
    requires forall k {:trigger fills[k]} :: 0 <= k < |fills| ==> FillOk(was[makers[k]], now[makers[k]], t, mid, fills[k])
    requires forall j :: 0 <= j < |was| && j !in makers ==> now[j] == was[j]
    requires FillOk(was[i], now'[i], t, mid, f)
    ensures Distinct(makers + [i])
    ensures forall k {:trigger (fills + [f])[k]} :: 0 <= k < |fills + [f]| ==>
              FillOk(was[(makers + [i])[k]], now'[(makers + [i])[k]], t, mid, (fills + [f])[k])
    ensures forall j :: 0 <= j < |was| && j !in makers + [i] ==> now'[j] == was[j]
  {}

  lemma InPriorityExtends(os: seq<DarkOrder>, cs: seq<nat>, c: nat, makers: seq<nat>, side: nat, mid: int)
    requires InPriority(os, cs, side, mid) && c < |cs| && InPriority(os, makers, side, mid)
    requires forall k :: 0 <= k < |makers| ==> makers[k] in cs[..c]
    ensures InPriority(os, makers + [cs[c]], side, mid)
  {}

  // ----- priority -----

  /** What the taker still wants before fill `k`. */
  ghost function Left(t: Taker, fills: seq<MatchFill>, k: nat): int
    requires k <= |fills|
  {
    t.qty - FillSum(fills[..k])
  }

  /** Fill `k` takes all it can from its maker, and every order with strict priority over that
      maker had been filled before it or insisted on more than was left at that moment. */
  ghost predicate InTurn(was: seq<DarkOrder>, t: Taker, mid: int, fills: seq<MatchFill>, makers: seq<nat>, k: nat)
    requires k < |fills| == |makers| && makers[k] < |was|
  {
    && fills[k].qty == Min(Left(t, fills, k), was[makers[k]].qty) && !Blocked(was[makers[k]], Left(t, fills, k))
    && forall i :: 0 <= i < |was| && Crosses(was[i], t, mid) && Before(was[i], was[makers[k]], t.side, mid) ==>
         i in makers[..k] || Blocked(was[i], Left(t, fills, k))
  }

  ghost predicate NoPriorityBroken(was: seq<DarkOrder>, t: Taker, mid: int, fills: seq<MatchFill>, makers: seq<nat>) {
    && |fills| == |makers| && (forall k :: 0 <= k < |makers| ==> makers[k] < |was|)
    && forall k {:trigger InTurn(was, t, mid, fills, makers, k)} :: 0 <= k < |fills| ==>
         InTurn(was, t, mid, fills, makers, k)
  }

  /** Each candidate passed so far has been filled, or insists on more than is left now. */
  ghost predicate Passed(was: seq<DarkOrder>, cs: seq<nat>, c: nat, makers: seq<nat>, left: int)
    requires c <= |cs| && forall i :: 0 <= i < |cs| ==> cs[i] < |was|
  {
    forall j {:trigger cs[j]} :: 0 <= j < c ==> cs[j] in makers || Blocked(was[cs[j]], left)
  }

  ghost predicate AllCandidates(os: seq<DarkOrder>, t: Taker, mid: int, cs: seq<nat>) {
    Candidates(os, t, mid, cs) && forall i :: 0 <= i < |os| && Crosses(os[i], t, mid) ==> i in cs
  }

  /** The fill of candidate `c` is in turn. */
  lemma NextInTurn(was: seq<DarkOrder>, t: Taker, mid: int, cs: seq<nat>, c: nat, fills: seq<MatchFill>,
                   makers: seq<nat>, f: MatchFill)
    requires AllCandidates(was, t, mid, cs) && c < |cs| && |fills| == |makers|
    requires Passed(was, cs, c, makers, Left(t, fills, |fills|))
    requires f.qty == Min(Left(t, fills, |fills|), was[cs[c]].qty) && !Blocked(was[cs[c]], Left(t, fills, |fills|))
    ensures InTurn(was, t, mid, fills + [f], makers + [cs[c]], |fills|)
  {
    var fills', makers', k := fills + [f], makers + [cs[c]], |fills|;
    assert fills'[..k] == fills[..k] && makers'[..k] == makers;
    forall i | 0 <= i < |was| && Crosses(was[i], t, mid) && Before(was[i], was[cs[c]], t.side, mid)
      ensures i in makers'[..k] || Blocked(was[i], Left(t, fills', k))
    {
      var p :| 0 <= p < |cs| && cs[p] == i;
      assert p < c;
    }
  }

  /** One more fill leaves the earlier ones in turn. */
  lemma StillInTurn(was: seq<DarkOrder>, t: Taker, mid: int, fills: seq<MatchFill>, makers: seq<nat>,
                    f: MatchFill, m: nat, k: nat)
    requires k < |fills| == |makers| && makers[k] < |was| && InTurn(was, t, mid, fills, makers, k)
    ensures InTurn(was, t, mid, fills + [f], makers + [m], k)
  {
    assert (fills + [f])[..k] == fills[..k] && (makers + [m])[..k] == makers[..k];
  }

  /** A fill keeps priority: all fills are in turn, and all candidates up to it are dealt with. */
  lemma PriorityKept(was: seq<DarkOrder>, t: Taker, mid: int, cs: seq<nat>, c: nat, fills: seq<MatchFill>,
                     makers: seq<nat>, f: MatchFill)
    requires AllCandidates(was, t, mid, cs) && c < |cs| && NoPriorityBroken(was, t, mid, fills, makers)
    requires Passed(was, cs, c, makers, Left(t, fills, |fills|)) && f.qty > 0
    requires f.qty == Min(Left(t, fills, |fills|), was[cs[c]].qty) && !Blocked(was[cs[c]], Left(t, fills, |fills|))
    ensures NoPriorityBroken(was, t, mid, fills + [f], makers + [cs[c]])
    ensures Passed(was, cs, c + 1, makers + [cs[c]], Left(t, fills + [f], |fills| + 1))
  {
    var fills', makers' := fills + [f], makers + [cs[c]];
    forall k | 0 <= k < |fills'| ensures InTurn(was, t, mid, fills', makers', k) {
      if k < |fills| {
        assert InTurn(was, t, mid, fills, makers, k);
        StillInTurn(was, t, mid, fills, makers, f, cs[c], k);
      } else {
        NextInTurn(was, t, mid, cs, c, fills, makers, f);
      }
    }
    assert fills'[..|fills'|] == fills' && fills'[..|fills|] == fills == fills[..|fills|];
    assert makers'[|makers|] == cs[c];
  }

  /** The state of the sweep after `c` candidates. */
  ghost predicate Swept(was: seq<DarkOrder>, now: seq<DarkOrder>, t: Taker, mid: int, cs: seq<nat>, c: nat,
                        fills: seq<MatchFill>, makers: seq<nat>, left: int) {
    && Progress(was, now, t, mid, cs, c, fills, makers, left)
    && NoPriorityBroken(was, t, mid, fills, makers) && Passed(was, cs, c, makers, left)
  }

  /** The next candidate rests in the pool and crosses. */
  lemma NextCrosses(was: seq<DarkOrder>, now: seq<DarkOrder>, t: Taker, mid: int, cs: seq<nat>, c: nat,
                    fills: seq<MatchFill>, makers: seq<nat>, left: int)
    requires Swept(was, now, t, mid, cs, c, fills, makers, left) && AllCandidates(was, t, mid, cs) && c < |cs|
    ensures cs[c] < |now| && Crosses(now[cs[c]], t, mid)
  {
    Untouched(was, now, t, mid, cs, c, fills, makers, left);
  }

  lemma SweptSkip(was: seq<DarkOrder>, now: seq<DarkOrder>, t: Taker, mid: int, cs: seq<nat>, c: nat,
                  fills: seq<MatchFill>, makers: seq<nat>, left: int)
    requires Swept(was, now, t, mid, cs, c, fills, makers, left) && AllCandidates(was, t, mid, cs)
    requires c < |cs| && left > 0 && Blocked(now[cs[c]], left)
    ensures Swept(was, now, t, mid, cs, c + 1, fills, makers, left)
  {
    SkipStep(was, now, t, mid, cs, c, fills, makers, left);
    Untouched(was, now, t, mid, cs, c, fills, makers, left);
  }

  lemma SweptFill(was: seq<DarkOrder>, now: seq<DarkOrder>, t: Taker, mid: int, cs: seq<nat>, c: nat,
                  fills: seq<MatchFill>, makers: seq<nat>, left: int, f: MatchFill, now': seq<DarkOrder>)
    requires Swept(was, now, t, mid, cs, c, fills, makers, left) && AllCandidates(was, t, mid, cs)
    requires c < |cs| && left > 0 && now[cs[c]].qty > 0 && !Blocked(now[cs[c]], left)
    requires f.qty == Min(left, now[cs[c]].qty)
    requires now' == now[cs[c] := now[cs[c]].(qty := now[cs[c]].qty - f.qty, active := now[cs[c]].qty != f.qty)]
    requires FillOk(now[cs[c]], now'[cs[c]], t, mid, f)
    ensures Swept(was, now', t, mid, cs, c + 1, fills + [f], makers + [cs[c]], left - f.qty)
  {
    assert fills[..|fills|] == fills && (fills + [f])[..|fills| + 1] == fills + [f];
    Untouched(was, now, t, mid, cs, c, fills, makers, left);
    FillStep(was, now, t, mid, cs, c, fills, makers, left, f, now');
    PriorityKept(was, t, mid, cs, c, fills, makers, f);
  }

  /** With quantity and room left over, every resting order that still crosses holds out for
      more than is left. */
  lemma NothingLeftToTake(was: seq<DarkOrder>, now: seq<DarkOrder>, t: Taker, mid: int, cs: seq<nat>,
                          fills: seq<MatchFill>, makers: seq<nat>, remaining: int, i: nat)
    requires Progress(was, now, t, mid, cs, |cs|, fills, makers, remaining) && remaining > 0
    requires forall i :: 0 <= i < |was| && Crosses(was[i], t, mid) ==> i in cs
    requires i < |was| && Crosses(now[i], t, mid)
    ensures Blocked(now[i], remaining)
  {}

  // ----- the law in plain prices -----

  /** The order can trade with the taker at this price. */
  ghost predicate Tradable(o: DarkOrder, t: Taker, mid: int, price: int) {
    && o.active && o.symbol == t.symbol && o.side != t.side && o.firm != t.firm
    && (o.mode == MidpointPeg ==> price == mid) && (o.mode != MidpointPeg ==> price == o.price)
    && (t.side == 0 ==> price <= t.price) && (t.side != 0 ==> price >= t.price)
  }

  /** It would be content with what is left for it. */
  ghost predicate Content(o: DarkOrder, left: int) {
    o.minQty <= 0 || (o.minQty <= left && o.minQty <= o.qty)
  }

  /** Fill `k` is at a tradable price of its maker, for as much as both sides allow; and of all
      orders that were still to be had it has the best price for the taker, at equal price is
      displayed if any is, and at equal price and display is one of the oldest. */
  ghost predicate FairFill(was: seq<DarkOrder>, t: Taker, mid: int, fills: seq<MatchFill>, makers: seq<nat>, k: nat)
    requires k < |fills| == |makers| && makers[k] < |was|
  {
    var m, left := was[makers[k]], Left(t, fills, k);
    && Tradable(m, t, mid, fills[k].price) && Content(m, left)
    && fills[k].qty <= left && fills[k].qty <= m.qty && (fills[k].qty == left || fills[k].qty == m.qty)
    && forall i, price {:trigger Tradable(was[i], t, mid, price)} ::
         0 <= i < |was| && i !in makers[..k] && Tradable(was[i], t, mid, price) && Content(was[i], left) ==>
           && (t.side == 0 ==> fills[k].price <= price) && (t.side != 0 ==> fills[k].price >= price)
           && (price == fills[k].price && was[i].mode == Displayed ==> m.mode == Displayed)
           && (price == fills[k].price && (was[i].mode == Displayed <==> m.mode == Displayed) ==> m.timestamp <= was[i].timestamp)
  }

  /** Every fill is fair. */
  ghost predicate Fair(was: seq<DarkOrder>, t: Taker, mid: int, fills: seq<MatchFill>, makers: seq<nat>) {
    && |fills| == |makers| && (forall k :: 0 <= k < |makers| ==> makers[k] < |was|)
    && forall k {:trigger FairFill(was, t, mid, fills, makers, k)} :: 0 <= k < |fills| ==> FairFill(was, t, mid, fills, makers, k)
  }

  lemma FillIsFair(was: seq<DarkOrder>, now: seq<DarkOrder>, t: Taker, mid: int, fills: seq<MatchFill>, makers: seq<nat>,
                   remaining: int, k: nat)
    requires Crossed(was, now, t, mid, fills, makers, remaining) && k < |fills| && InTurn(was, t, mid, fills, makers, k)
    ensures FairFill(was, t, mid, fills, makers, k)
  {
    assert FillOk(was[makers[k]], now[makers[k]], t, mid, fills[k]);
  }

  lemma FillsAreFair(was: seq<DarkOrder>, now: seq<DarkOrder>, t: Taker, mid: int, fills: seq<MatchFill>, makers: seq<nat>,
                     remaining: int)
    requires Crossed(was, now, t, mid, fills, makers, remaining) && NoPriorityBroken(was, t, mid, fills, makers)
    ensures Fair(was, t, mid, fills, makers)
  {
    forall k | 0 <= k < |fills| ensures FairFill(was, t, mid, fills, makers, k) {
      assert InTurn(was, t, mid, fills, makers, k);
      FillIsFair(was, now, t, mid, fills, makers, remaining, k);
    }
  }

  // ----- the engine -----

  ghost function ActiveSlots(os: seq<DarkOrder>): set<nat> {
    set i: nat | i < |os| && os[i].active
  }

  lemma ActivateSize(os: seq<DarkOrder>, i: nat, o: DarkOrder)
    requires i < |os|
    ensures |ActiveSlots(os[i := o])| ==
            |ActiveSlots(os)| + (if o.active then 1 else 0) - (if os[i].active then 1 else 0)
  {
    var a, b := ActiveSlots(os), ActiveSlots(os[i := o]);
    assert a - {i} == b - {i};
    assert |a| == |a - {i}| + if i in a then 1 else 0;
    assert |b| == |b - {i}| + if i in b then 1 else 0;
  }

  lemma FullMeansActive(os: seq<DarkOrder>)
    ensures |ActiveSlots(os)| <= |os|
    ensures |ActiveSlots(os)| == |os| <==> forall i :: 0 <= i < |os| ==> os[i].active
  {
    assert (forall i :: 0 <= i < |os| ==> os[i].active) ==> ActiveSlots(os) == Range(|os|);
    SubsetSize(ActiveSlots(os), Range(|os|));
    if |ActiveSlots(os)| == |os| {
      forall i | 0 <= i < |os| ensures os[i].active { assert i in Range(|os|); }
    }
  }

  class DarkPoolEngine {
    const orders: array<DarkOrder>
    var count: nat

    ghost predicate Valid()
      reads this, orders
    {
      PositiveQty(orders[..]) && count == |ActiveSlots(orders[..])|
    }

    constructor (capacity: nat)
      ensures Valid() && fresh(orders) && orders.Length == capacity && count == 0
    {
      orders := new DarkOrder[capacity](_ => DarkOrder(0, 0, 0, 0, Displayed, 0, 0, 0, 0, false));
      count := 0;
      new;
      assert ActiveSlots(orders[..]) == {};
    }

    /** Refuses only a quantity that is not positive or a full pool. */
    method AddOrder(o: DarkOrder) returns (ok: bool)
      requires Valid()
      modifies this, orders
      ensures Valid()
      ensures ok <==> o.qty > 0 && old(count) < orders.Length
      ensures !ok ==> orders[..] == old(orders[..]) && count == old(count)
      ensures ok ==> exists i :: 0 <= i < orders.Length && !old(orders[i].active) &&
                                 orders[..] == old(orders[..])[i := o.(active := true)]
    {
      FullMeansActive(orders[..]);
      if count >= orders.Length || o.qty <= 0 {
        return false;
      }
      var i := 0;
      while i < orders.Length
        invariant 0 <= i <= orders.Length && orders[..] == old(orders[..]) && count == old(count)
        invariant forall j :: 0 <= j < i ==> orders[j].active
      {
        if !orders[i].active {
          ActivateSize(orders[..], i, o.(active := true));
          orders[i] := o.(active := true);
          count := count + 1;
          assert orders[..] == old(orders[..])[i := o.(active := true)];
          return true;
        }
        i := i + 1;
      }
      return false;
    }

    method CancelOrder(id: nat) returns (ok: bool)
      requires Valid()
      modifies this, orders
      ensures Valid()
      ensures ok <==> exists i :: 0 <= i < orders.Length && old(orders[i].active) && old(orders[i].id) == id
      ensures !ok ==> orders[..] == old(orders[..]) && count == old(count)
      ensures ok ==> exists i :: 0 <= i < orders.Length && old(orders[i].active) && old(orders[i].id) == id &&
                                 orders[..] == old(orders[..])[i := old(orders[i]).(active := false)]
    {
      var i := 0;
      while i < orders.Length
        invariant 0 <= i <= orders.Length && orders[..] == old(orders[..]) && count == old(count)
        invariant forall j :: 0 <= j < i ==> !(orders[j].active && orders[j].id == id)
      {
        if orders[i].active && orders[i].id == id {
          var o := orders[i].(active := false);
          assert i in ActiveSlots(orders[..]);
          ActivateSize(orders[..], i, o);
          orders[i] := o;
          count := count - 1;
          assert orders[..] == old(orders[..])[i := old(orders[i]).(active := false)];
          return true;
        }
        i := i + 1;
      }
      return false;
    }

    /** The slots of the orders the taker could trade with. */
    method Collect(t: Taker, mid: int) returns (cs: seq<nat>)
      ensures Distinct(cs) && (forall k :: 0 <= k < |cs| ==> cs[k] < orders.Length && Crosses(orders[cs[k]], t, mid))
      ensures forall i :: 0 <= i < orders.Length && Crosses(orders[i], t, mid) ==> i in cs
    {
      cs := [];
      var i := 0;
      while i < orders.Length
        invariant 0 <= i <= orders.Length && Distinct(cs)
        invariant forall k :: 0 <= k < |cs| ==> cs[k] < i && Crosses(orders[cs[k]], t, mid)
        invariant forall j :: 0 <= j < i && Crosses(orders[j], t, mid) ==> j in cs
      {
        if Crosses(orders[i], t, mid) {
          cs := cs + [i];
          assert cs[|cs| - 1] == i;
        }
        i := i + 1;
      }
    }

    method FillOne(t: Taker, mid: int, i: nat, remaining: int) returns (f: MatchFill)
      requires Valid() && i < orders.Length && Crosses(orders[i], t, mid)
      requires remaining > 0 && !Blocked(orders[i], remaining)
      modifies this, orders
      ensures Valid() && f.qty == Min(remaining, old(orders[i].qty))
      ensures orders[..] == old(orders[..])[i := old(orders[i]).(qty := old(orders[i].qty) - f.qty,
                                                                  active := old(orders[i].qty) != f.qty)]
      ensures FillOk(old(orders[i]), orders[i], t, mid, f)
    {
      var maker := orders[i];
      assert orders[..][i].qty > 0;
      var q := Min(remaining, maker.qty);
      f := MatchFill(maker.id, t.id, t.symbol, EffectivePrice(maker, mid), q, maker.mode == MidpointPeg);
      var left := maker.(qty := maker.qty - q, active := maker.qty != q);
      ghost var os := orders[..];
      ActivateSize(os, i, left);
      assert i in ActiveSlots(os);
      orders[i] := left;
      if left.qty == 0 {
        count := count - 1;
      }
      assert orders[..] == os[i := left];
    }

    /** Offers what is left to one candidate. */
    method Offer(ghost was: seq<DarkOrder>, t: Taker, mid: int, cs: seq<nat>, c: nat, fills: seq<MatchFill>,
                 ghost makers: seq<nat>, left: int)
      returns (fills': seq<MatchFill>, ghost makers': seq<nat>, left': int)
      requires Valid() && AllCandidates(was, t, mid, cs) && c < |cs| && left > 0
      requires Swept(was, orders[..], t, mid, cs, c, fills, makers, left)
      modifies this, orders
      ensures Valid() && |fills'| <= |fills| + 1
      ensures Swept(was, orders[..], t, mid, cs, c + 1, fills', makers', left')
    {
      var i := cs[c];
      ghost var now := orders[..];
      NextCrosses(was, now, t, mid, cs, c, fills, makers, left);
      assert orders[i] == now[i];
      if Blocked(orders[i], left) {
        SweptSkip(was, now, t, mid, cs, c, fills, makers, left);
        fills', makers', left' := fills, makers, left;
      } else {
        var f := FillOne(t, mid, i, left);
        SweptFill(was, now, t, mid, cs, c, fills, makers, left, f, orders[..]);
        fills', makers', left' := fills + [f], makers + [i], left - f.qty;
      }
    }

    method Sweep(t: Taker, mid: int, cs: seq<nat>, room: nat)
      returns (fills: seq<MatchFill>, ghost makers: seq<nat>, ghost remaining: int, ghost done: nat)
      requires Valid() && t.qty > 0 && AllCandidates(orders[..], t, mid, cs)
      modifies this, orders
      ensures Valid() && |fills| <= room
      ensures Swept(old(orders[..]), orders[..], t, mid, cs, done, fills, makers, remaining)
      ensures |fills| == room || remaining == 0 || done == |cs|
    {
      fills, makers := [], [];
      var left := t.qty;
      var c := 0;
      ghost var was := orders[..];
      while c < |cs| && |fills| < room && left > 0
        invariant Valid() && |fills| <= room && 0 <= c <= |cs|
        invariant Swept(was, orders[..], t, mid, cs, c, fills, makers, left)
      {
        fills, makers, left := Offer(was, t, mid, cs, c, fills, makers, left);
        c := c + 1;
      }
      remaining, done := left, c;
    }

    /** Crosses an incoming order against the pool. */
    method MatchCross(t: Taker, bid: int, ask: int, maxFills: nat)
      returns (fills: seq<MatchFill>, ghost makers: seq<nat>, ghost remaining: int)
      requires Valid()
      modifies this, orders
      ensures Valid() && |fills| <= maxFills
      ensures t.qty <= 0 || maxFills == 0 ==> fills == [] && orders[..] == old(orders[..])
      ensures t.qty > 0 ==> Crossed(old(orders[..]), orders[..], t, Midpoint(bid, ask), fills, makers, remaining)
      ensures t.qty > 0 ==> NoPriorityBroken(old(orders[..]), t, Midpoint(bid, ask), fills, makers)
      ensures t.qty > 0 ==> Fair(old(orders[..]), t, Midpoint(bid, ask), fills, makers)
      ensures t.qty > 0 && remaining > 0 && |fills| < maxFills ==>
                forall i, price :: 0 <= i < orders.Length && Tradable(orders[i], t, Midpoint(bid, ask), price) ==>
                  !Content(orders[i], remaining)
    {
      fills, makers, remaining := [], [], t.qty;
      if maxFills == 0 || t.qty <= 0 {
        return;
      }
      var mid := Midpoint(bid, ask);
      var found := Collect(t, mid);
      ghost var was := orders[..];
      assert forall i :: 0 <= i < |was| ==> was[i] == orders[i];
      var cs := SortByPriority(orders[..], found, t.side, mid);
      forall j | 0 <= j < |cs| ensures Crosses(was[cs[j]], t, mid) { assert cs[j] in Elems(cs); }
      forall i | 0 <= i < |was| && Crosses(was[i], t, mid) ensures i in cs { assert i in Elems(found); }
      ghost var done: nat;
      fills, makers, remaining, done := Sweep(t, mid, cs, maxFills);
      if remaining > 0 && |fills| < maxFills {
        forall i | 0 <= i < orders.Length && Crosses(orders[i], t, mid) ensures Blocked(orders[i], remaining) {
          NothingLeftToTake(was, orders[..], t, mid, cs, fills, makers, remaining, i);
        }
        forall i, price | 0 <= i < orders.Length && Tradable(orders[i], t, mid, price) ensures !Content(orders[i], remaining) {
          assert Crosses(orders[i], t, mid);
        }
      }
      FillsAreFair(was, orders[..], t, mid, fills, makers, remaining);
    }
  }
}
