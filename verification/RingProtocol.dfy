/** A producer and a consumer sharing a ring, interleaved at every load, slot access and store. */
module RingProtocol {
  import opened RingIndex

  datatype Producer<T> = Ready | Writing(batch: seq<T>, room: nat, written: nat)

  datatype Consumer<T> = Waiting | Reading(count: nat, got: seq<T>)

  /** `sent` and `received` record what has been published and consumed; no step reads them. */
  datatype State<T> = State(slots: seq<T>, head: nat, tail: nat, producer: Producer<T>, consumer: Consumer<T>,
                            sent: seq<T>, received: seq<T>)

  ghost predicate Start<T>(cap: nat, s: State<T>) {
    && |s.slots| == cap && s.head == 0 && s.tail == 0
    && s.producer == Ready && s.consumer == Waiting && s.sent == [] && s.received == []
  }

  datatype Step<T> =
    | LoadTail(batch: seq<T>)  // the producer looks at the tail and sizes its burst
    | Write                    // the producer fills one more slot
    | PublishHead              // the producer stores the new head
    | LoadHead(max: nat)       // the consumer looks at the head and sizes its burst
    | Read                     // the consumer copies one more slot
    | PublishTail              // the consumer stores the new tail

  /** The step is the thread's next one. */
  predicate Enabled<T>(s: State<T>, a: Step<T>) {
    match a
    case LoadTail(_) => s.producer.Ready?
    case Write => s.producer.Writing? && s.producer.written < s.producer.room <= |s.producer.batch|
    case PublishHead => s.producer.Writing? && s.producer.written == s.producer.room <= |s.producer.batch|
    case LoadHead(_) => s.consumer.Waiting?
    case Read => s.consumer.Reading? && |s.consumer.got| < s.consumer.count
    case PublishTail => s.consumer.Reading? && |s.consumer.got| == s.consumer.count
  }

  function Do<T>(cap: nat, s: State<T>, a: Step<T>): State<T>
    requires cap > 0 && |s.slots| == cap && s.tail < WRAP && s.head < WRAP && Enabled(s, a)
  {
    match a
    case LoadTail(batch) =>
      s.(producer := Writing(batch, Min(|batch|, Sub(cap, Sub(s.head, s.tail))), 0))
    case Write =>
      var i := Slot(cap, Add(s.head, s.producer.written));
      s.(slots := s.slots[i := s.producer.batch[s.producer.written]],
         producer := s.producer.(written := s.producer.written + 1))
    case PublishHead =>
      s.(head := Add(s.head, s.producer.room), sent := s.sent + s.producer.batch[..s.producer.room],
         producer := Ready)
    case LoadHead(max) =>
      s.(consumer := Reading(Min(max, Sub(s.head, s.tail)), []))
    case Read =>
      s.(consumer := s.consumer.(got := s.consumer.got + [s.slots[Slot(cap, Add(s.tail, |s.consumer.got|))]]))
    case PublishTail =>
      s.(tail := Add(s.tail, s.consumer.count), received := s.received + s.consumer.got, consumer := Waiting)
  }

  // ----- the invariant -----

  /** The published, unread items sit in the slots their positions map to. */
  ghost predicate Stored<T>(cap: nat, slots: seq<T>, from: nat, sent: seq<T>)
    requires |slots| == cap > 0
  {
    forall j {:trigger sent[j]} :: from <= j < |sent| ==> slots[Slot(cap, j)] == sent[j]
  }

  /** The items written and not yet published sit in the slots after those. */
  ghost predicate Staged<T>(cap: nat, slots: seq<T>, head: nat, batch: seq<T>, written: nat)
    requires |slots| == cap > 0 && written <= |batch|
  {
    forall j {:trigger batch[j]} :: 0 <= j < written ==> slots[Slot(cap, head + j)] == batch[j]
  }

  ghost predicate ProducerOk<T>(cap: nat, s: State<T>)
    requires |s.slots| == cap > 0
  {
    s.producer.Writing? ==>
      && s.producer.written <= s.producer.room <= |s.producer.batch|
      && |s.sent| + s.producer.room <= |s.received| + cap
      && Staged(cap, s.slots, |s.sent|, s.producer.batch, s.producer.written)
  }

  ghost predicate ConsumerOk<T>(s: State<T>) {
    s.consumer.Reading? ==>
      && |s.consumer.got| <= s.consumer.count && |s.received| + s.consumer.count <= |s.sent|
      && s.received + s.consumer.got <= s.sent
  }

  ghost predicate Inv<T>(cap: nat, s: State<T>) {
    && RingSize(cap) && |s.slots| == cap > 0
    && s.head == |s.sent| % WRAP && s.tail == |s.received| % WRAP
    && s.received <= s.sent && |s.sent| <= |s.received| + cap
    && Stored(cap, s.slots, |s.received|, s.sent)
    && ProducerOk(cap, s) && ConsumerOk(s)
  }

  lemma StartInv<T>(cap: nat, s: State<T>)
    requires RingSize(cap) && Start(cap, s)
    ensures Inv(cap, s)
  {}

  /** What the producer loads as free is at most what is free: the tail only moves forward. */
  lemma Occupancy<T>(cap: nat, s: State<T>)
    requires Inv(cap, s)
    ensures s.head < WRAP && s.tail < WRAP && Sub(s.head, s.tail) == |s.sent| - |s.received| <= cap
    ensures Sub(cap, Sub(s.head, s.tail)) == cap - (|s.sent| - |s.received|)
  {
    SizeFits(cap);
    WrapSub(|s.sent|, |s.received|);
    RoomLeft(cap, |s.sent| - |s.received|);
  }

  /** The producer never touches a slot that holds an unread or a staged item. */
  lemma WriteIsClear<T>(cap: nat, s: State<T>, j: nat)
    requires Inv(cap, s) && Enabled(s, Write)
    requires |s.received| <= j < |s.sent| + s.producer.written
    ensures Slot(cap, Add(s.head, s.producer.written)) != Slot(cap, j)
  {
    SlotOf(cap, |s.sent|, s.producer.written);
    SlotsDiffer(j, |s.sent| + s.producer.written, cap);
  }

  lemma WriteKeeps<T>(cap: nat, s: State<T>, s': State<T>)
    requires Inv(cap, s) && Enabled(s, Write) && s.head < WRAP && s.tail < WRAP && s' == Do(cap, s, Write)
    ensures Inv(cap, s')
  {
    var h, w := |s.sent|, s.producer.written;
    SlotOf(cap, h, w);
    forall j {:trigger s.sent[j]} | |s.received| <= j < h ensures s'.slots[Slot(cap, j)] == s.sent[j] {
      WriteIsClear(cap, s, j);
    }
    forall j {:trigger s.producer.batch[j]} | 0 <= j <= w ensures s'.slots[Slot(cap, h + j)] == s.producer.batch[j] {
      if j < w { WriteIsClear(cap, s, h + j); }
    }
  }

  lemma PublishHeadKeeps<T>(cap: nat, s: State<T>, s': State<T>)
    requires Inv(cap, s) && Enabled(s, PublishHead) && s.head < WRAP && s.tail < WRAP && s' == Do(cap, s, PublishHead)
    ensures Inv(cap, s')
  {
    var h, batch := |s.sent|, s.producer.batch;
    WrapAdd(h, s.producer.room);
    forall j {:trigger s'.sent[j]} | |s.received| <= j < |s'.sent| ensures s'.slots[Slot(cap, j)] == s'.sent[j] {
      if j < h {
        assert s'.sent[j] == s.sent[j];
      } else {
        assert s'.sent[j] == batch[j - h];
        assert h + (j - h) == j;
      }
    }
  }

  lemma ReadKeeps<T>(cap: nat, s: State<T>, s': State<T>)
    requires Inv(cap, s) && Enabled(s, Read) && s.head < WRAP && s.tail < WRAP && s' == Do(cap, s, Read)
    ensures Inv(cap, s')
  {
    var n: nat := |s.received| + |s.consumer.got|;
    SlotOf(cap, |s.received|, |s.consumer.got|);
    assert s.slots[Slot(cap, n)] == s.sent[n];
    assert s'.received + s'.consumer.got == (s.received + s.consumer.got) + [s.sent[n]];
    assert s.received + s.consumer.got == s.sent[..n];
  }

  lemma PublishTailKeeps<T>(cap: nat, s: State<T>, s': State<T>)
    requires Inv(cap, s) && Enabled(s, PublishTail) && s.head < WRAP && s.tail < WRAP && s' == Do(cap, s, PublishTail)
    ensures Inv(cap, s')
  {
    WrapAdd(|s.received|, s.consumer.count);
  }

  lemma StepKeeps<T>(cap: nat, s: State<T>, a: Step<T>)
    requires Inv(cap, s) && Enabled(s, a)
    ensures s.head < WRAP && s.tail < WRAP && Inv(cap, Do(cap, s, a))
  {
    Occupancy(cap, s);
    var s' := Do(cap, s, a);
    match a
    case LoadTail(_) =>
    case Write => WriteKeeps(cap, s, s');
    case PublishHead => PublishHeadKeeps(cap, s, s');
    case LoadHead(_) =>
    case Read => ReadKeeps(cap, s, s');
    case PublishTail => PublishTailKeeps(cap, s, s');
  }

  // ----- runs -----

  ghost predicate Moves<T>(cap: nat, s: State<T>, a: Step<T>, s': State<T>) {
    && |s.slots| == cap > 0 && s.head < WRAP && s.tail < WRAP
    && Enabled(s, a) && s' == Do(cap, s, a)
  }

  ghost predicate Path<T>(cap: nat, states: seq<State<T>>, steps: seq<Step<T>>) {
    && |states| == |steps| + 1
    && forall i {:trigger steps[i]} :: 0 <= i < |steps| ==> Moves(cap, states[i], steps[i], states[i + 1])
  }

  /** `states` is an interleaving of the two threads. */
  ghost predicate Run<T>(cap: nat, states: seq<State<T>>, steps: seq<Step<T>>) {
    Path(cap, states, steps) && Start(cap, states[0])
  }

  lemma {:induction false} RunInv<T>(cap: nat, states: seq<State<T>>, steps: seq<Step<T>>, n: nat)
    requires RingSize(cap) && Run(cap, states, steps) && n < |states|
    ensures Inv(cap, states[n])
  {
    if n == 0 {
      StartInv(cap, states[0]);
    } else {
      RunInv(cap, states, steps, n - 1);
      assert Moves(cap, states[n - 1], steps[n - 1], states[n - 1 + 1]);
      StepKeeps(cap, states[n - 1], steps[n - 1]);
    }
  }

  /** At every moment of every interleaving the consumer has received exactly the first items
      sent, in order; what it holds half-read follows them; and never more than a ring is unread. */
  lemma FirstInFirstOut<T>(cap: nat, states: seq<State<T>>, steps: seq<Step<T>>, n: nat)
    requires RingSize(cap) && Run(cap, states, steps) && n < |states|
    ensures states[n].received <= states[n].sent
    ensures |states[n].sent| - |states[n].received| <= cap
    ensures states[n].consumer.Reading? ==> states[n].received + states[n].consumer.got <= states[n].sent
    ensures states[n].head == states[n].tail ==> states[n].received == states[n].sent
  {
    RunInv(cap, states, steps, n);
    Occupancy(cap, states[n]);
  }

  /** A burst is cut short only if the ring was full up to it when the producer looked, and a
      read only if the ring was empty behind it. */
  lemma BurstSizes<T>(cap: nat, s: State<T>, batch: seq<T>, max: nat)
    requires Inv(cap, s)
    ensures s.head < WRAP && s.tail < WRAP && cap > 0 && |s.slots| == cap
    ensures var free := cap - (|s.sent| - |s.received|);
            s.producer.Ready? ==>
              Do(cap, s, LoadTail(batch)).producer == Writing(batch, if |batch| <= free then |batch| else free, 0)
    ensures var unread := |s.sent| - |s.received|;
            s.consumer.Waiting? ==>
              Do(cap, s, LoadHead(max)).consumer == Reading(if max <= unread then max else unread, [])
  {
    Occupancy(cap, s);
    var free, unread := cap - (|s.sent| - |s.received|), |s.sent| - |s.received|;
    assert Min(|batch|, free) == if |batch| <= free then |batch| else free;
    assert Min(max, unread) == if max <= unread then max else unread;
  }

  // ----- progress -----

  lemma Prepend<T>(cap: nat, s: State<T>, a: Step<T>, states: seq<State<T>>, steps: seq<Step<T>>)
    requires Path(cap, states, steps) && Moves(cap, s, a, states[0])
    ensures Path(cap, [s] + states, [a] + steps)
  {
    var states', steps' := [s] + states, [a] + steps;
    forall i {:trigger steps'[i]} | 0 <= i < |steps'|
      ensures Moves(cap, states'[i], steps'[i], states'[i + 1])
    {
      if i > 0 { assert steps'[i] == steps[i - 1] && states'[i] == states[i - 1] && states'[i + 1] == states[i - 1 + 1]; }
    }
  }

  /** A burst that is under way can be finished by the producer alone, and publishes all of it. */
  lemma {:induction false} FinishPush<T>(cap: nat, s: State<T>) returns (states: seq<State<T>>, steps: seq<Step<T>>)
    requires Inv(cap, s) && s.producer.Writing?
    ensures Path(cap, states, steps) && states[0] == s && forall a :: a in steps ==> a.Write? || a.PublishHead?
    ensures var s' := states[|states| - 1];
            && s'.producer == Ready && s.producer.room <= |s.producer.batch|
            && s'.sent == s.sent + s.producer.batch[..s.producer.room]
            && s'.received == s.received && s'.consumer == s.consumer
    decreases s.producer.room - s.producer.written
  {
    var a := if s.producer.written < s.producer.room then Write else PublishHead;
    StepKeeps(cap, s, a);
    var s' := Do(cap, s, a);
    var states', steps' := [s'], [];
    if a.Write? {
      states', steps' := FinishPush(cap, s');
    } else {
      assert Path(cap, [s'], []);
    }
    Prepend(cap, s, a, states', steps');
    states, steps := [s] + states', [a] + steps';
  }

  /** So a producer left alone sends as much of its batch as there is room for. */
  lemma PushAlone<T>(cap: nat, s: State<T>, batch: seq<T>) returns (states: seq<State<T>>, steps: seq<Step<T>>)
    requires Inv(cap, s) && s.producer.Ready?
    ensures Path(cap, states, steps) && states[0] == s
    ensures var s', free := states[|states| - 1], cap - (|s.sent| - |s.received|);
            && s'.producer == Ready && s'.received == s.received
            && s'.sent == s.sent + if |batch| <= free then batch else batch[..free]
  {
    StepKeeps(cap, s, LoadTail(batch));
    BurstSizes(cap, s, batch, 0);
    states, steps := FinishPush(cap, Do(cap, s, LoadTail(batch)));
    Prepend(cap, s, LoadTail(batch), states, steps);
    assert batch[..|batch|] == batch;
    states, steps := [s] + states, [LoadTail(batch)] + steps;
  }

  /** A read that is under way can be finished by the consumer alone, with the next items sent. */
  lemma {:induction false} FinishPop<T>(cap: nat, s: State<T>) returns (states: seq<State<T>>, steps: seq<Step<T>>)
    requires Inv(cap, s) && s.consumer.Reading?
    ensures Path(cap, states, steps) && states[0] == s && forall a :: a in steps ==> a.Read? || a.PublishTail?
    ensures var s' := states[|states| - 1];
            && s'.consumer == Waiting && |s.received| + s.consumer.count <= |s.sent|
            && s'.received == s.sent[..|s.received| + s.consumer.count]
            && s'.sent == s.sent && s'.producer == s.producer
    decreases s.consumer.count - |s.consumer.got|
  {
    var a := if |s.consumer.got| < s.consumer.count then Read else PublishTail;
    StepKeeps(cap, s, a);
    var s' := Do(cap, s, a);
    var states', steps' := [s'], [];
    if a.Read? {
      states', steps' := FinishPop(cap, s');
    } else {
      assert Path(cap, [s'], []);
      assert s'.received == s.received + s.consumer.got;
    }
    Prepend(cap, s, a, states', steps');
    states, steps := [s] + states', [a] + steps';
  }

  /** So a consumer left alone receives all that is unread, up to what it asks for. */
  lemma PopAlone<T>(cap: nat, s: State<T>, max: nat) returns (states: seq<State<T>>, steps: seq<Step<T>>)
    requires Inv(cap, s) && s.consumer.Waiting?
    ensures Path(cap, states, steps) && states[0] == s
    ensures var s' := states[|states| - 1];
            && s'.consumer == Waiting && s'.sent == s.sent
            && s'.received == if |s.received| + max <= |s.sent| then s.sent[..|s.received| + max] else s.sent
  {
    StepKeeps(cap, s, LoadHead(max));
    BurstSizes(cap, s, [], max);
    states, steps := FinishPop(cap, Do(cap, s, LoadHead(max)));
    Prepend(cap, s, LoadHead(max), states, steps);
    assert s.sent[..|s.sent|] == s.sent;
    states, steps := [s] + states, [LoadHead(max)] + steps;
  }
}
