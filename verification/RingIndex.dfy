/** Arithmetic of 64-bit ring indices: they wrap at 2^64 and are masked to a power-of-two size. */
module RingIndex {
  function Pow2(e: nat): (r: nat)
    ensures r >= 1
  {
    if e == 0 then 1 else 2 * Pow2(e - 1)
  }

  /** Indices are counted modulo 2^64. */
  const WRAP: nat := 0x1_0000_0000_0000_0000

  /** A ring size: a power of two below 2^32. */
  ghost predicate RingSize(cap: nat) {
    exists e: nat :: e < 32 && cap == Pow2(e)
  }

  function Min(a: nat, b: nat): nat { if a < b then a else b }

  /** Unsigned 64-bit addition and subtraction. */
  function Add(a: nat, b: nat): nat { (a + b) % WRAP }

  function Sub(a: nat, b: nat): nat
    requires b < WRAP
  {
    (a + (WRAP - b)) % WRAP
  }

  lemma {:induction false} Pow2Adds(a: nat, b: nat)
    ensures Pow2(a + b) == Pow2(a) * Pow2(b)
  {
    if a > 0 {
      Pow2Adds(a - 1, b);
      assert Pow2(a) * Pow2(b) == 2 * (Pow2(a - 1) * Pow2(b));
    }
  }

  lemma Squares(e: nat, half: nat, v: nat)
    requires e == half + half && Pow2(half) == v
    ensures Pow2(e) == v * v
  {
    Pow2Adds(half, half);
  }

  lemma WrapIsPow2(e: nat)
    requires e == 64
    ensures Pow2(e) == WRAP
  {
    var a: nat, b: nat, c: nat := 8, 16, 32;
    Squares(a, 4, 0x10);
    Squares(b, a, 0x100);
    Squares(c, b, 0x1_0000);
    Squares(e, c, 0x1_0000_0000);
  }

  lemma SmallerDivides(e: nat, total: nat)
    requires e < total
    ensures Pow2(total) == Pow2(e) * Pow2(total - e) && Pow2(e) < Pow2(total)
  {
    Pow2Adds(e, total - e);
    Scale(Pow2(e), Pow2(total - e) - 1);
  }

  /** Ring sizes are positive, smaller than the index range and divide it. */
  lemma SizeDivides(cap: nat) returns (k: nat)
    requires RingSize(cap)
    ensures 0 < cap < WRAP && WRAP == cap * k
  {
    var e: nat :| e < 32 && cap == Pow2(e);
    var total: nat := e + (64 - e);
    k := Pow2(total - e);
    SmallerDivides(e, total);
    WrapIsPow2(total);
  }

  lemma SizeFits(cap: nat)
    requires RingSize(cap)
    ensures 0 < cap < WRAP
  {
    var k := SizeDivides(cap);
  }

  /** What is free of a ring that holds `n`. */
  lemma RoomLeft(cap: nat, n: nat)
    requires n <= cap < WRAP
    ensures Sub(cap, n) == cap - n
  {
    ModOnce(cap - n, WRAP);
    assert cap + (WRAP - n) == (cap - n) + WRAP;
  }

  /** Adding multiples of `c` leaves the remainder alone. */
  lemma {:induction false} ModShift(a: nat, c: nat, m: nat)
    requires c > 0
    ensures (a + c * m) % c == a % c
  {
    if m > 0 {
      ModShift(a, c, m - 1);
      assert a + c * m == (a + c * (m - 1)) + c;
      ModOnce(a + c * (m - 1), c);
    }
  }

  lemma ModOnce(a: nat, c: nat)
    requires c > 0
    ensures (a + c) % c == a % c
  {
    assert a + c == c * (a / c + 1) + a % c by { assert a == c * (a / c) + a % c; }
    ModUnique(a + c, c, a / c + 1, a % c);
  }

  lemma ModUnique(x: int, c: nat, q: int, r: nat)
    requires c > 0 && x == c * q + r && r < c
    ensures x % c == r
  {
    var q', r' := x / c, x % c;
    assert x == c * q' + r';
    assert c * (q - q') == r' - r;
    assert q == q' by {
      if q > q' { assert c * (q - q') >= c by { Scale(c, q - q'); } }
      if q < q' { assert c * (q' - q) >= c by { Scale(c, q' - q); } }
    }
  }

  lemma Scale(c: nat, d: nat)
    requires d >= 1
    ensures c * d >= c
  {}

  /** Wrapping at 2^64 before masking changes nothing. */
  lemma MaskOfWrap(x: nat, cap: nat)
    requires RingSize(cap)
    ensures cap > 0 && (x % WRAP) % cap == x % cap
  {
    var k := SizeDivides(cap);
    var q, r := x / WRAP, x % WRAP;
    assert x == r + cap * (k * q) by { assert x == WRAP * q + r; assert WRAP * q == cap * (k * q); }
    ModShift(r, cap, k * q);
  }

  /** Wrapped counters advance as the true counts do. */
  lemma WrapAdd(x: nat, n: nat)
    ensures Add(x % WRAP, n) == (x + n) % WRAP
  {}

  /** The difference of the wrapped counters is the true difference. */
  lemma WrapSub(h: nat, t: nat)
    requires t <= h < t + WRAP
    ensures Sub(h % WRAP, t % WRAP) == h - t
  {}

  /** Positions less than a ring apart have different slots. */
  lemma SlotsDiffer(i: nat, j: nat, cap: nat)
    requires cap > 0 && i < j < i + cap
    ensures i % cap != j % cap
  {
    if i % cap + (j - i) < cap {
      assert j == cap * (i / cap) + (i % cap + (j - i)) by { assert i == cap * (i / cap) + i % cap; }
      ModUnique(j, cap, i / cap, i % cap + (j - i));
    } else {
      assert j == cap * (i / cap + 1) + (i % cap + (j - i) - cap) by { assert i == cap * (i / cap) + i % cap; }
      ModUnique(j, cap, i / cap + 1, i % cap + (j - i) - cap);
    }
  }

  /** A wrapped index masked to a slot. */
  function Slot(cap: nat, index: nat): (i: nat)
    requires cap > 0
    ensures i < cap
  {
    index % cap
  }

  /** The slot of the item a given distance behind a wrapped index. */
  lemma SlotOf(cap: nat, n: nat, d: nat)
    requires RingSize(cap)
    ensures cap > 0 && Slot(cap, Add(n % WRAP, d)) == Slot(cap, n + d)
  {
    WrapAdd(n, d);
    MaskOfWrap(n + d, cap);
  }
}
