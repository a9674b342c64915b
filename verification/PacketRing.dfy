/** The packet ring as an object: bursts in and out of a masked buffer. */
module PacketRing {
  import opened RingIndex

  datatype PacketDescriptor = PacketDescriptor(data: nat, length: nat, capacity: nat, timestamp: nat,
                                               queue: nat, port: nat, flags: nat)

  /** One packet at a time: a packet that finds the ring full is dropped. */
  ghost function PushAll<T>(q: seq<T>, cap: nat, packets: seq<T>): seq<T>
    decreases |packets|
  {
    if packets == [] then q
    else PushAll(if |q| < cap then q + [packets[0]] else q, cap, packets[1..])
  }

  /** A burst has the effect of offering its packets one by one. */
  lemma {:induction false} BurstIsRepeatedPush<T>(q: seq<T>, cap: nat, packets: seq<T>)
    requires |q| <= cap
    ensures PushAll(q, cap, packets) == q + packets[..Min(|packets|, cap - |q|)]
    decreases |packets|
  {
    if packets == [] {
    } else if |q| < cap {
      BurstIsRepeatedPush(q + [packets[0]], cap, packets[1..]);
      var n := Min(|packets|, cap - |q|);
      assert packets[..n] == [packets[0]] + packets[1..][..n - 1];
    } else {
      BurstIsRepeatedPush(q, cap, packets[1..]);
    }
  }

  /** The items lie in consecutive slots, from the slot of position `base` on. */
  ghost predicate Laid<T>(cells: seq<T>, base: nat, items: seq<T>) {
    && 0 < |cells| && |items| <= |cells|
    && forall j {:trigger items[j]} :: 0 <= j < |items| ==> cells[Slot(|cells|, base + j)] == items[j]
  }

  lemma LaidPut<T>(cells: seq<T>, base: nat, items: seq<T>, x: T)
    requires Laid(cells, base, items) && |items| < |cells|
    ensures Laid(cells[Slot(|cells|, base + |items|) := x], base, items + [x])
  {
    forall j {:trigger (items + [x])[j]} | 0 <= j < |items| + 1
      ensures cells[Slot(|cells|, base + |items|) := x][Slot(|cells|, base + j)] == (items + [x])[j]
    {
      if j < |items| {
        assert (items + [x])[j] == items[j];
        SlotsDiffer(base + j, base + |items|, |cells|);
      }
    }
  }

  lemma LaidDrop<T>(cells: seq<T>, base: nat, items: seq<T>, n: nat)
    requires Laid(cells, base, items) && n <= |items|
    ensures Laid(cells, base + n, items[n..])
  {
    forall j {:trigger items[n..][j]} | 0 <= j < |items| - n
      ensures cells[Slot(|cells|, base + n + j)] == items[n..][j]
    {
      assert items[n..][j] == items[n + j] && base + (n + j) == base + n + j;
    }
  }

  class ZeroCopyPacketRing {
    const ring: array<PacketDescriptor>
    var head: nat
    var tail: nat
    ghost var items: seq<PacketDescriptor>
    ghost var consumed: nat

    ghost predicate Valid()
      reads this, ring
    {
      && RingSize(ring.Length) && Laid(ring[..], consumed, items)
      && head == (consumed + |items|) % WRAP && tail == consumed % WRAP
    }

    constructor (cap: nat, blank: PacketDescriptor)
      requires RingSize(cap)
      ensures Valid() && fresh(ring) && ring.Length == cap && items == []
    {
      ring := new PacketDescriptor[cap](_ => blank);
      head, tail := 0, 0;
      items, consumed := [], 0;
      new;
      SizeFits(cap);
    }

    lemma Occupied()
      requires Valid()
      ensures head < WRAP && tail < WRAP && Sub(head, tail) == |items|
      ensures Sub(ring.Length, Sub(head, tail)) == ring.Length - |items|
    {
      SizeFits(ring.Length);
      WrapSub(consumed + |items|, consumed);
      RoomLeft(ring.Length, |items|);
    }

    /** Slots are written in place one after the other, and only then published. */
    method BurstEnqueue(packets: seq<PacketDescriptor>) returns (n: nat)
      requires Valid()
      modifies this, ring
      ensures Valid() && n == Min(|packets|, ring.Length - old(|items|))
      ensures items == old(items) + packets[..n] && consumed == old(consumed)
      ensures items == PushAll(old(items), ring.Length, packets)
    {
      BurstIsRepeatedPush(items, ring.Length, packets);
      Occupied();
      if |packets| == 0 {
        return 0;
      }
      n := Min(|packets|, Sub(ring.Length, Sub(head, tail)));
      WriteSlots(packets, n);
      WrapAdd(consumed + |items|, n);
      head := Add(head, n);
      items := items + packets[..n];
    }

    method WriteSlots(packets: seq<PacketDescriptor>, n: nat)
      requires RingSize(ring.Length) && Laid(ring[..], consumed, items) && head == (consumed + |items|) % WRAP
      requires n <= |packets| && |items| + n <= ring.Length
      modifies ring
      ensures Laid(ring[..], consumed, items + packets[..n])
    {
      var i := 0;
      assert items + packets[..0] == items;
      while i < n
        invariant 0 <= i <= n && Laid(ring[..], consumed, items + packets[..i])
      {
        SlotOf(ring.Length, consumed + |items|, i);
        LaidPut(ring[..], consumed, items + packets[..i], packets[i]);
        assert items + packets[..i + 1] == items + packets[..i] + [packets[i]];
        ghost var cells := ring[..];
        var at := Slot(ring.Length, Add(head, i));
        ring[at] := packets[i];
        assert ring[..] == cells[at := packets[i]];
        i := i + 1;
      }
    }

    /** Packets come out in the order they went in. */
    method BurstDequeue(max: nat) returns (out: seq<PacketDescriptor>)
      requires Valid()
      modifies this
      ensures Valid() && |out| == Min(max, old(|items|))
      ensures out + items == old(items) && consumed == old(consumed) + |out|
    {
      Occupied();
      out := [];
      if max == 0 {
        return;
      }
      var n := Min(max, Sub(head, tail));
      out := ReadSlots(n);
      Publish(n);
    }

    method Publish(n: nat)
      requires Valid() && n <= |items|
      modifies this
      ensures Valid() && items == old(items)[n..] && consumed == old(consumed) + n
    {
      WrapAdd(consumed, n);
      tail := Add(tail, n);
      LaidDrop(ring[..], consumed, items, n);
      assert consumed + |items| == (consumed + n) + |items[n..]|;
      items, consumed := items[n..], consumed + n;
    }

    method ReadSlots(n: nat) returns (out: seq<PacketDescriptor>)
      requires RingSize(ring.Length) && Laid(ring[..], consumed, items) && tail == consumed % WRAP
      requires n <= |items|
      ensures out == items[..n]
    {
      out := [];
      while |out| < n
        invariant |out| <= n && out == items[..|out|]
      {
        SlotOf(ring.Length, consumed, |out|);
        assert ring[..][Slot(ring.Length, consumed + |out|)] == items[|out|];
        out := out + [ring[Slot(ring.Length, Add(tail, |out|))]];
      }
    }
  }
}
