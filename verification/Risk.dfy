/** Pre-trade risk: the branch-free evaluation of an order intent against limits and state. */
module Risk {

  const MIN_I64: int := -0x8000_0000_0000_0000
  const MAX_I64: int := 0x7FFF_FFFF_FFFF_FFFF
  const U64: int := 0x1_0000_0000_0000_0000
  const MAX_U32: int := 0xFFFF_FFFF

  predicate InI64(x: int) {
    MIN_I64 <= x <= MAX_I64
  }

  datatype Limits = Limits(maxOrderQty: int, maxAbsPosition: int, maxAlphaAge: int, minPrice: int, maxPrice: int,
                           referencePrice: int, collarPct: int, maxGrossLoss: int, maxRejections: nat)

  datatype RiskState = RiskState(net: int, gross: int, drawdown: int, orderCount: nat, rejectCount: nat, halted: bool)

  datatype Intent = Intent(symbol: nat, sell: bool, qty: int, price: int, alphaTime: nat, now: nat, id: nat)

  datatype Reject = BadQty | BadPosition | StaleAlpha | Halted | BadPrice

  datatype Decision = Decision(pass: bool, rejects: set<Reject>)

  /** Buys count up, sells down. */
  function Signed(sell: bool, qty: int): int {
    if sell then -qty else qty
  }

  function Abs(x: int): int {
    if x < 0 then -x else x
  }

  /** The collar compares unsigned 64-bit quantities; the product wraps. */
  predicate CollarOk(l: Limits, price: int) {
    l.referencePrice > 0 && l.collarPct > 0 ==>
      var p, reference := price % U64, l.referencePrice;
      Abs(p - reference) <= ((reference * l.collarPct) % U64) / 100
  }

  function Evaluate(l: Limits, r: RiskState, i: Intent): Decision {
    var qtyOk := 0 < i.qty <= l.maxOrderQty;
    var safeQty := if qtyOk then i.qty else 0;
    var projected := r.net + Signed(i.sell, safeQty);
    var posOk := InI64(projected) && l.maxAbsPosition >= 0 && Abs(projected) <= l.maxAbsPosition;
    var alphaOk := i.now >= i.alphaTime && i.now - i.alphaTime <= l.maxAlphaAge;
    var priceInRange := i.price >= (if l.minPrice > 0 then l.minPrice else 1) &&
                        i.price % U64 <= (if l.maxPrice > 0 then l.maxPrice else MAX_U32) && i.price % U64 <= MAX_U32;
    var priceOk := priceInRange && CollarOk(l, i.price);
    var lossOk := l.maxGrossLoss <= 0 || r.drawdown <= l.maxGrossLoss;
    var notional := i.price * safeQty;
    var notionalOk := priceOk && InI64(notional) && InI64(r.gross + notional) && r.gross >= 0;
    var pass := qtyOk && posOk && alphaOk && !r.halted && priceOk && notionalOk && lossOk;
    Decision(pass,
             if pass then {} else
               (if qtyOk then {} else {BadQty}) + (if posOk then {} else {BadPosition}) +
               (if alphaOk then {} else {StaleAlpha}) + (if !r.halted && lossOk then {} else {Halted}) +
               (if priceOk && notionalOk then {} else {BadPrice}))
  }

  /** Position and exposure fit 64 bits, and the position is within its limit. */
  predicate RiskIsSafe(l: Limits, r: RiskState) {
    InI64(r.net) && Abs(r.net) <= l.maxAbsPosition && 0 <= r.gross && InI64(r.gross)
  }

  /** An accepted intent is within every limit, and neither of the additions made on
      acceptance can overflow 64 bits. */
  lemma AcceptedIsSafe(l: Limits, r: RiskState, i: Intent)
    requires Evaluate(l, r, i).pass && InI64(i.price)
    ensures 0 < i.qty <= l.maxOrderQty && 1 <= i.price <= MAX_U32 && !r.halted
    ensures InI64(i.price * i.qty) && 0 <= r.gross
    ensures RiskIsSafe(l, r.(net := r.net + (if i.sell then -i.qty else i.qty), gross := r.gross + i.price * i.qty))
  {}

  /** On 64-bit inputs the overflow guards refuse nothing by themselves: an intent passes
      exactly when, in unbounded arithmetic, it is within every limit. */
  lemma PassesExactlyWithinLimits(l: Limits, r: RiskState, i: Intent)
    requires InI64(i.price) && InI64(l.maxAbsPosition) && InI64(l.maxPrice) && l.maxAlphaAge >= 0
    ensures Evaluate(l, r, i).pass <==>
              && 0 < i.qty <= l.maxOrderQty
              && -l.maxAbsPosition <= r.net + (if i.sell then -i.qty else i.qty) <= l.maxAbsPosition
              && i.alphaTime <= i.now <= i.alphaTime + l.maxAlphaAge && !r.halted
              && 1 <= i.price <= MAX_U32 && l.minPrice <= i.price && (l.maxPrice > 0 ==> i.price <= l.maxPrice)
              && CollarOk(l, i.price) && 0 <= r.gross && r.gross + i.price * i.qty <= MAX_I64
              && (l.maxGrossLoss > 0 ==> r.drawdown <= l.maxGrossLoss)
  {}

  /** The collar is the percentage band around the reference, unless the product wraps. */
  lemma CollarIsBand(l: Limits, price: int)
    requires 0 <= price < U64 && 0 < l.referencePrice && 0 < l.collarPct && l.referencePrice * l.collarPct < U64
    ensures CollarOk(l, price) <==>
              -(l.referencePrice * l.collarPct) <= 100 * (price - l.referencePrice) <= l.referencePrice * l.collarPct
  {
    var band, d := l.referencePrice * l.collarPct, Abs(price - l.referencePrice);
    Unwrapped(band);
    Unwrapped(price);
    Hundredths(d, band);
    assert CollarOk(l, price) <==> d <= band / 100;
  }

  lemma Unwrapped(x: int)
    requires 0 <= x < U64
    ensures x % U64 == x
  {}

  lemma Hundredths(d: int, x: int)
    ensures d <= x / 100 <==> 100 * d <= x
  {}

  /** The reasons are exact: none for an accepted intent, at least one for a refused one, and each
      names a limit that is not met. */
  lemma RejectsExplain(l: Limits, r: RiskState, i: Intent)
    ensures Evaluate(l, r, i).pass <==> Evaluate(l, r, i).rejects == {}
    ensures BadQty in Evaluate(l, r, i).rejects <==> !(0 < i.qty <= l.maxOrderQty)
    ensures StaleAlpha in Evaluate(l, r, i).rejects <==> !(i.alphaTime <= i.now && i.now - i.alphaTime <= l.maxAlphaAge)
    ensures Halted in Evaluate(l, r, i).rejects <==> r.halted || (0 < l.maxGrossLoss < r.drawdown)
    ensures 0 < i.qty <= l.maxOrderQty && InI64(l.maxAbsPosition) ==>
              (BadPosition in Evaluate(l, r, i).rejects <==>
               !(-l.maxAbsPosition <= r.net + (if i.sell then -i.qty else i.qty) <= l.maxAbsPosition))
    ensures 0 < i.qty <= l.maxOrderQty && InI64(i.price) && InI64(l.maxPrice) ==>
              (BadPrice in Evaluate(l, r, i).rejects <==>
               !(&& 1 <= i.price <= MAX_U32 && l.minPrice <= i.price && (l.maxPrice > 0 ==> i.price <= l.maxPrice)
                 && CollarOk(l, i.price) && 0 <= r.gross && r.gross + i.price * i.qty <= MAX_I64))
  {}

  // ----- the branch-free helpers, on two's-complement words -----

  function SignedQtyDelta(side: bv64, qty: bv64): bv64 {
    var mask := 0 - (side & 1);
    (qty ^ mask) - mask
  }

  function AbsI64(v: bv64): bv64 {
    var sign := v >> 63;
    (v ^ (0 - sign)) + sign
  }

  /** The mask trick negates for an odd side and is the identity for an even one. */
  lemma SignedQtyDeltaIs(side: bv64, qty: bv64)
    ensures SignedQtyDelta(side, qty) == if side & 1 == 1 then 0 - qty else qty
  {
    assert side & 1 == 0 || side & 1 == 1;
  }

  lemma NegationCancels(qty: bv64)
    ensures (0 - qty) + qty == 0
  {}

  /** On words a buy counts as it is, and a sell cancels a buy of the same quantity. */
  lemma WordsCancel(qty: bv64)
    ensures SignedQtyDelta(0, qty) == qty && SignedQtyDelta(1, qty) + qty == 0
  {
    SignedQtyDeltaIs(0, qty);
    SignedQtyDeltaIs(1, qty);
    NegationCancels(qty);
  }

  /** The word operation and the signed quantity obey the same law, which determines them. */
  lemma DeltaIsSigned(qty: bv64, q: int)
    ensures SignedQtyDelta(0, qty) == qty && Signed(false, q) == q
    ensures SignedQtyDelta(1, qty) + qty == 0 && Signed(true, q) + q == 0
  {
    WordsCancel(qty);
  }

  lemma AbsI64Is(v: bv64)
    ensures AbsI64(v) == if v >> 63 == 1 then 0 - v else v
  {
    assert v >> 63 == 0 || v >> 63 == 1;
  }
}
