/** The single-producer single-consumer ring (lock_free_queue.h), at the granularity of its loads and stores. */
module SpscQueue {

  /** Where the producer stands inside push: after loading tail, before re-reading head (Check), before
      storing the item (Write), before publishing tail (Publish). */
  datatype Producer<T> =
    | PushIdle
    | PushCheck(item: T, t: nat)
    | PushWrite(item: T, t: nat)
    | PushPublish(item: T, t: nat)

  /** Where the consumer stands inside pop. */
  datatype Consumer<T> = PopIdle | PopCheck(h: nat) | PopRead(h: nat) | PopPublish(h: nat, item: T)

  /** The shared ring and both threads' private state. pushed and popped record the items whose publication
      has happened; seenHead and seenTail are how many pops and pushes the cached indices stand for. None of
      the four is read by the algorithm. */
  datatype State<T> = State(
    buffer: seq<T>, head: nat, tail: nat, cachedHead: nat, cachedTail: nat,
    producer: Producer<T>, consumer: Consumer<T>,
    pushed: seq<T>, popped: seq<T>, seenHead: nat, seenTail: nat)

  /** One atomic step of one thread; a label that does not apply leaves the state alone. */
  datatype Label<T> = Push(item: T) | ProducerStep | Pop | ConsumerStep

  function Start<T>(buffer: seq<T>): State<T> {
    State(buffer, 0, 0, 0, 0, PushIdle, PopIdle, [], [], 0, 0)
  }

  /** (i + 1) & (Capacity - 1) on an index below the capacity, which is a power of two. */
  function Following(i: nat, capacity: nat): nat {
    if i + 1 == capacity then 0 else i + 1
  }

  function Step<T>(s: State<T>, l: Label<T>): State<T>
    requires |s.buffer| > 0
  {
    match l
    case Push(item) =>
      if !s.producer.PushIdle? then s
      else if Following(s.tail, |s.buffer|) == s.cachedHead then s.(producer := PushCheck(item, s.tail))
      else s.(producer := PushWrite(item, s.tail))
    case ProducerStep => (
      match s.producer
      case PushIdle => s
      case PushCheck(item, t) =>
        var s' := s.(cachedHead := s.head, seenHead := |s.popped|);
        if Following(t, |s.buffer|) == s.head then s'.(producer := PushIdle) else s'.(producer := PushWrite(item, t))
      case PushWrite(item, t) =>
        if t >= |s.buffer| then s else s.(buffer := s.buffer[t := item], producer := PushPublish(item, t))
      case PushPublish(item, t) =>
        s.(tail := Following(t, |s.buffer|), pushed := s.pushed + [item], producer := PushIdle))
    case Pop =>
      if !s.consumer.PopIdle? then s
      else if s.head == s.cachedTail then s.(consumer := PopCheck(s.head))
      else s.(consumer := PopRead(s.head))
    case ConsumerStep => (
      match s.consumer
      case PopIdle => s
      case PopCheck(h) =>
        var s' := s.(cachedTail := s.tail, seenTail := |s.pushed|);
        if h == s.tail then s'.(consumer := PopIdle) else s'.(consumer := PopRead(h))
      case PopRead(h) =>
        if h >= |s.buffer| then s else s.(consumer := PopPublish(h, s.buffer[h]))
      case PopPublish(h, item) =>
        s.(head := Following(h, |s.buffer|), popped := s.popped + [item], consumer := PopIdle))
  }

  function Run<T>(buffer: seq<T>, ls: seq<Label<T>>): State<T>
    requires |buffer| > 0
    ensures |Run(buffer, ls).buffer| == |buffer|
  {
    if ls == [] then Start(buffer) else Step(Run(buffer, ls[..|ls| - 1]), ls[|ls| - 1])
  }

  /** The slot of the i-th item: i modulo the capacity. */
  function Slot(i: nat, c: nat): (r: nat)
    requires c > 0
    ensures r < c
  {
    if i < c then i else Slot(i - c, c)
  }

  lemma {:induction false} SlotStep(i: nat, c: nat)
    requires c > 0
    ensures Following(Slot(i, c), c) == Slot(i + 1, c)
  {
    if i >= c { SlotStep(i - c, c); }
  }

  lemma LapAround(a: nat, c: nat)
    requires c > 0
    ensures Slot(a + c, c) == Slot(a, c)
  {}

  /** Within one lap of the ring an index is determined by its slot, and slots count the distance. */
  lemma {:induction false} SameSlot(a: nat, z: nat, c: nat)
    requires c > 0 && a <= z < a + c
    ensures Slot(a, c) == Slot(z, c) <==> a == z
    ensures SizeOf(Slot(z, c), Slot(a, c), c) == z - a
  {
    if a >= c { SameSlot(a - c, z - c, c); }
  }

  /** size() on loaded indices: (t - h) & (Capacity - 1). */
  function SizeOf(t: nat, h: nat, capacity: nat): nat
    requires t < capacity && h < capacity
  {
    if t >= h then t - h else t + capacity - h
  }

  // ---- the invariant ----

  /** Items pushed and not yet popped sit unread in their slots, in order, fewer than the capacity. */
  predicate RingOk<T(==)>(s: State<T>) {
    var a, z, c := |s.popped|, |s.pushed|, |s.buffer|;
    && c > 0 && a <= z < a + c && s.popped == s.pushed[..a]
    && s.head == Slot(a, c) && s.tail == Slot(z, c)
    && (forall i :: a <= i < z ==> s.buffer[Slot(i, c)] == s.pushed[i])
  }

  /** The cached indices lag behind, and only in the safe direction. */
  predicate CachesOk<T(==)>(s: State<T>)
    requires |s.buffer| > 0
  {
    && s.seenHead <= |s.popped| && |s.pushed| < s.seenHead + |s.buffer| && s.cachedHead == Slot(s.seenHead, |s.buffer|)
    && |s.popped| <= s.seenTail <= |s.pushed| && s.cachedTail == Slot(s.seenTail, |s.buffer|)
  }

  predicate ThreadsOk<T(==)>(s: State<T>)
    requires |s.buffer| > 0
  {
    && (match s.producer
        case PushIdle => true
        case PushCheck(item, t) => t == s.tail
        case PushWrite(item, t) => t == s.tail && |s.pushed| + 1 < s.seenHead + |s.buffer|
        case PushPublish(item, t) =>
          t == s.tail && |s.pushed| + 1 < s.seenHead + |s.buffer| && t < |s.buffer| && s.buffer[t] == item)
    && (match s.consumer
        case PopIdle => true
        case PopCheck(h) => h == s.head
        case PopRead(h) => h == s.head && |s.popped| < s.seenTail
        case PopPublish(h, item) =>
          h == s.head && |s.popped| < s.seenTail && |s.popped| < |s.pushed| && item == s.pushed[|s.popped|])
  }

  predicate Inv<T(==)>(s: State<T>) {
    RingOk(s) && CachesOk(s) && ThreadsOk(s)
  }

  lemma StepKeepsInv<T>(s: State<T>, l: Label<T>)
    requires Inv(s)
    ensures Inv(Step(s, l))
  {
    match l
    case Push(item) => PushStarts(s, item);
    case ProducerStep => ProducerKeepsInv(s);
    case Pop => PopStarts(s);
    case ConsumerStep => ConsumerKeepsInv(s);
  }

  // The cached head is trusted only when it leaves room for one more item.
  lemma PushStarts<T>(s: State<T>, item: T)
    requires Inv(s)
    ensures Inv(Step(s, Push(item)))
  {
    hide Slot;
    SlotStep(|s.pushed|, |s.buffer|);
    LapAround(s.seenHead, |s.buffer|);
  }

  lemma PopStarts<T>(s: State<T>)
    requires Inv(s)
    ensures Inv(Step(s, Pop))
  {
    hide Slot;
    SameSlot(|s.popped|, s.seenTail, |s.buffer|);
  }

  lemma ProducerKeepsInv<T>(s: State<T>)
    requires Inv(s)
    ensures Inv(Step(s, ProducerStep))
  {
    hide Inv, Step;
    match s.producer
    case PushIdle => IdleKeepsInv(s);
    case PushCheck(item, t) => CheckKeepsInv(s);
    case PushWrite(item, t) => WriteKeepsInv(s);
    case PushPublish(item, t) => PublishKeepsInv(s);
  }

  lemma IdleKeepsInv<T>(s: State<T>)
    requires Inv(s) && s.producer.PushIdle?
    ensures Inv(Step(s, ProducerStep))
  {
    hide Slot, RingOk, CachesOk, ThreadsOk;
    RingNotEmpty(s);
  }

  lemma RingNotEmpty<T>(s: State<T>)
    requires Inv(s)
    ensures |s.buffer| > 0
  {}

  lemma CheckKeepsInv<T>(s: State<T>)
    requires Inv(s) && s.producer.PushCheck?
    ensures Inv(Step(s, ProducerStep))
  {
    hide Slot;
    SlotStep(|s.pushed|, |s.buffer|);
    LapAround(|s.popped|, |s.buffer|);
  }

  lemma WriteKeepsInv<T>(s: State<T>)
    requires Inv(s) && s.producer.PushWrite?
    ensures Inv(Step(s, ProducerStep))
  {
    hide Slot;
    var a, z, c, t := |s.popped|, |s.pushed|, |s.buffer|, s.producer.t;
    forall i | a <= i < z ensures Slot(i, c) != t { SameSlot(i, z, c); }
  }

  lemma PublishKeepsInv<T>(s: State<T>)
    requires Inv(s) && s.producer.PushPublish?
    ensures Inv(Step(s, ProducerStep))
  {
    hide Slot;
    var a, z, c := |s.popped|, |s.pushed|, |s.buffer|;
    SlotStep(z, c);
    var s' := Step(s, ProducerStep);
    assert s' == s.(tail := Slot(z + 1, c), pushed := s.pushed + [s.producer.item], producer := PushIdle);
    hide Step, Following;
    forall i | a <= i < z + 1 ensures s'.buffer[Slot(i, c)] == s'.pushed[i] {
      if i < z { assert s'.pushed[i] == s.pushed[i]; }
    }
    assert s'.pushed[..a] == s.pushed[..a];
  }

  lemma ConsumerKeepsInv<T>(s: State<T>)
    requires Inv(s)
    ensures Inv(Step(s, ConsumerStep))
  {
    hide Slot;
    var a, z, c := |s.popped|, |s.pushed|, |s.buffer|;
    match s.consumer
    case PopIdle =>
    case PopCheck(h) => SameSlot(a, z, c);
    case PopRead(h) => assert s.buffer[Slot(a, c)] == s.pushed[a];
    case PopPublish(h, item) =>
      SlotStep(a, c);
      assert s.pushed[..a + 1] == s.pushed[..a] + [s.pushed[a]];
  }

  /** In every interleaving: popped items are a prefix of pushed items in order, and at most Capacity - 1 are held. */
  lemma {:induction false} RunIsFifo<T>(buffer: seq<T>, ls: seq<Label<T>>)
    requires |buffer| > 0
    ensures Inv(Run(buffer, ls))
    ensures var s := Run(buffer, ls); s.popped <= s.pushed && |s.pushed| - |s.popped| <= |buffer| - 1
  {
    if ls != [] {
      RunIsFifo(buffer, ls[..|ls| - 1]);
      StepKeepsInv(Run(buffer, ls[..|ls| - 1]), ls[|ls| - 1]);
    }
  }

  /** push reports full exactly when, at its load of head, Capacity - 1 items are held; pop reports empty
      exactly when, at its load of tail, none is. */
  lemma RefusesOnlyAtLimits<T>(s: State<T>)
    requires Inv(s)
    ensures s.producer.PushCheck? ==>
      (Step(s, ProducerStep).producer.PushIdle? <==> |s.pushed| - |s.popped| == |s.buffer| - 1)
    ensures s.consumer.PopCheck? ==>
      (Step(s, ConsumerStep).consumer.PopIdle? <==> |s.pushed| == |s.popped|)
  {
    hide Slot;
    var a, z, c := |s.popped|, |s.pushed|, |s.buffer|;
    SlotStep(z, c);
    SameSlot(a, z, c);
    if z + 1 < a + c { SameSlot(a, z + 1, c); } else { LapAround(a, c); }
  }

  /** No store of the producer touches a slot that still holds an unread item. */
  lemma NeverOverwritesUnread<T>(s: State<T>, i: nat)
    requires Inv(s) && s.producer.PushWrite? && |s.popped| <= i < |s.pushed|
    ensures Slot(i, |s.buffer|) != s.producer.t
  {
    SameSlot(i, |s.pushed|, |s.buffer|);
  }

  /** size() loads tail (in state s) before head (in a later state s'). It is the number of items held when head is
      loaded exactly if tail stands where it was, and the number held when tail is loaded exactly if head does. */
  lemma SizeIsExactIff<T>(s: State<T>, s': State<T>)
    requires Inv(s) && Inv(s') && |s.buffer| == |s'.buffer|
    ensures s.tail < |s.buffer| && s'.head < |s.buffer|
    ensures SizeOf(s.tail, s'.head, |s.buffer|) == |s'.pushed| - |s'.popped| <==> s.tail == s'.tail
    ensures SizeOf(s.tail, s'.head, |s.buffer|) == |s.pushed| - |s.popped| <==> s.head == s'.head
  {
    hide Slot;
    SameSlot(|s.popped|, |s.pushed|, |s.buffer|);
    SameSlot(|s'.popped|, |s'.pushed|, |s.buffer|);
  }

  /** What it reports otherwise: with pops that have not passed the loaded tail, the items of then left now; with
      d pops past it, less than a lap, Capacity - d. */
  lemma SizeReported<T>(s: State<T>, s': State<T>)
    requires Inv(s) && Inv(s') && |s.buffer| == |s'.buffer| && |s.popped| <= |s'.popped| < |s.pushed| + |s.buffer|
    ensures s.tail < |s.buffer| && s'.head < |s.buffer|
    ensures |s'.popped| <= |s.pushed| ==> SizeOf(s.tail, s'.head, |s.buffer|) == |s.pushed| - |s'.popped|
    ensures |s'.popped| > |s.pushed| ==>
      SizeOf(s.tail, s'.head, |s.buffer|) == |s.buffer| - (|s'.popped| - |s.pushed|)
  {
    hide Slot;
    if |s'.popped| <= |s.pushed| {
      SameSlot(|s'.popped|, |s.pushed|, |s.buffer|);
    } else {
      SameSlot(|s.pushed|, |s'.popped|, |s.buffer|);
    }
  }

  lemma RunSnoc<T>(buffer: seq<T>, ls: seq<Label<T>>, l: Label<T>)
    requires |buffer| > 0
    ensures Run(buffer, ls + [l]) == Step(Run(buffer, ls), l)
  {
    assert (ls + [l])[..|ls|] == ls;
  }

  /** One push and one pop between the two loads: size() reports a full ring, and the ring is empty. */
  lemma SizeReportsFullOnEmpty<T>(buffer: seq<T>, x: T)
    requires |buffer| >= 2
    ensures var push: seq<Label<T>> := [Push(x)] + [ProducerStep] + [ProducerStep];
      var s, s' := Run(buffer, []), Run(buffer, push + [Pop] + [ConsumerStep] + [ConsumerStep] + [ConsumerStep]);
      && s.tail < |buffer| && s'.head < |buffer| && SizeOf(s.tail, s'.head, |buffer|) == |buffer| - 1
      && s'.pushed == s'.popped == [x]
  {
    var push: seq<Label<T>> := [Push(x)] + [ProducerStep] + [ProducerStep];
    assert [] + [Push(x)] == [Push(x)];
    RunSnoc(buffer, [], Push(x));
    RunSnoc(buffer, [Push(x)], ProducerStep);
    RunSnoc(buffer, [Push(x)] + [ProducerStep], ProducerStep);
    RunSnoc(buffer, push, Pop);
    RunSnoc(buffer, push + [Pop], ConsumerStep);
    RunSnoc(buffer, push + [Pop] + [ConsumerStep], ConsumerStep);
    RunSnoc(buffer, push + [Pop] + [ConsumerStep] + [ConsumerStep], ConsumerStep);
    hide Run;
    var s3 := Run(buffer, push);
    assert s3.tail == 1 && s3.head == 0 && s3.pushed == [x] && s3.buffer[0] == x && s3.consumer.PopIdle?;
  }

  /** push, uninterrupted, as a single change of state. */
  function PushCall<T>(s: State<T>, item: T): State<T> {
    var next := Following(s.tail, |s.buffer|);
    var s' := if next == s.cachedHead then s.(cachedHead := s.head, seenHead := |s.popped|) else s;
    if next == s'.cachedHead || s.tail >= |s.buffer| then s'
    else s'.(buffer := s.buffer[s.tail := item], tail := next, pushed := s.pushed + [item])
  }

  /** pop, uninterrupted, as a single change of state. */
  function PopCall<T>(s: State<T>): State<T> {
    var s' := if s.head == s.cachedTail then s.(cachedTail := s.tail, seenTail := |s.pushed|) else s;
    if s.head == s'.cachedTail || s.head >= |s.buffer| then s'
    else s'.(head := Following(s.head, |s.buffer|), popped := s.popped + [s.buffer[s.head]])
  }

  lemma WholePush<T>(s: State<T>, item: T)
    requires Inv(s) && s.producer.PushIdle?
    ensures s.tail < |s.buffer| && Inv(PushCall(s, item))
    ensures PushCall(s, item).pushed ==
      if |s.pushed| - |s.popped| < |s.buffer| - 1 then s.pushed + [item] else s.pushed
  {
    hide Slot, Inv;
    InBounds(s);
    var s1 := Step(s, Push(item));
    StepKeepsInv(s, Push(item));
    var s2 := if s1.producer.PushCheck? then Step(s1, ProducerStep) else s1;
    if s1.producer.PushCheck? {
      StepKeepsInv(s1, ProducerStep);
      RefusesOnlyAtLimits(s1);
    }
    if !s2.producer.PushIdle? {
      InBounds(s2);
      StepKeepsInv(s2, ProducerStep);
      StepKeepsInv(Step(s2, ProducerStep), ProducerStep);
      assert PushCall(s, item) == Step(Step(s2, ProducerStep), ProducerStep);
    } else {
      assert PushCall(s, item) == s2;
    }
  }

  lemma InBounds<T>(s: State<T>)
    requires Inv(s)
    ensures |s.buffer| > 0 && s.tail < |s.buffer| && s.head < |s.buffer| && s.popped <= s.pushed
    ensures s.producer.PushWrite? ==> |s.pushed| - |s.popped| < |s.buffer| - 1
    ensures s.consumer.PopRead? ==> |s.popped| < |s.pushed| && s.buffer[s.head] == s.pushed[|s.popped|]
  {
    hide Slot;
  }

  lemma WholePop<T>(s: State<T>)
    requires Inv(s) && s.consumer.PopIdle?
    ensures s.head < |s.buffer| && Inv(PopCall(s))
    ensures |s.pushed| == |s.popped| ==> PopCall(s).popped == s.popped
    ensures |s.pushed| > |s.popped| ==>
      PopCall(s).popped == s.popped + [s.buffer[s.head]] && s.buffer[s.head] == s.pushed[|s.popped|]
  {
    hide Slot, Inv;
    InBounds(s);
    var s1 := Step(s, Pop);
    StepKeepsInv(s, Pop);
    var s2 := if s1.consumer.PopCheck? then Step(s1, ConsumerStep) else s1;
    if s1.consumer.PopCheck? {
      StepKeepsInv(s1, ConsumerStep);
      RefusesOnlyAtLimits(s1);
    }
    if !s2.consumer.PopIdle? {
      InBounds(s2);
      StepKeepsInv(s2, ConsumerStep);
      StepKeepsInv(Step(s2, ConsumerStep), ConsumerStep);
      assert PopCall(s) == Step(Step(s2, ConsumerStep), ConsumerStep);
    } else {
      assert PopCall(s) == s2;
    }
  }

  /** The queue as one thread at a time uses it: the same loads and stores, on its own memory. */
  class LockFreeQueue<T(0, ==)> {
    const buffer: array<T>
    var head: nat
    var tail: nat
    var cachedHead: nat
    var cachedTail: nat
    ghost var pushed: seq<T>
    ghost var popped: nat
    ghost var seenHead: nat
    ghost var seenTail: nat

    /** The queue between two calls, as a state of the interleaved model. */
    ghost function Quiet(): State<T>
      reads this, buffer
      requires popped <= |pushed|
    {
      State(buffer[..], head, tail, cachedHead, cachedTail, PushIdle, PopIdle, pushed, pushed[..popped],
            seenHead, seenTail)
    }

    ghost predicate Valid()
      reads this, buffer
    {
      popped <= |pushed| && Inv(Quiet())
    }

    ghost function Contents(): seq<T>
      reads this
      requires popped <= |pushed|
    {
      pushed[popped..]
    }

    constructor (capacity: nat)
      requires capacity > 0
      ensures Valid() && fresh(buffer) && buffer.Length == capacity && Contents() == []
    {
      buffer := new T[capacity];
      head, tail, cachedHead, cachedTail := 0, 0, 0, 0;
      pushed, popped, seenHead, seenTail := [], 0, 0, 0;
    }

    method Push(item: T) returns (ok: bool)
      requires Valid()
      modifies this, buffer
      ensures Valid()
      ensures ok <==> |old(Contents())| < buffer.Length - 1
      ensures Contents() == if ok then old(Contents()) + [item] else old(Contents())
    {
      hide Inv;
      ghost var s := Quiet();
      WholePush(s, item);
      InBounds(s);
      var t := tail;
      var next := Following(t, buffer.Length);
      if next == cachedHead {
        cachedHead, seenHead := head, popped;
        if next == cachedHead {
          return false;
        }
      }
      buffer[t] := item;
      tail, pushed := next, pushed + [item];
      assert buffer[..] == s.buffer[t := item];
      assert popped == |s.popped| && pushed[..popped] == s.pushed[..popped];
      assert Quiet() == PushCall(s, item);
      assert pushed[popped..] == s.pushed[popped..] + [item];
      return true;
    }

    method Pop() returns (ok: bool, item: T)
      requires Valid()
      modifies this
      ensures Valid()
      ensures ok <==> |old(Contents())| > 0
      ensures ok ==> item == old(Contents())[0] && Contents() == old(Contents())[1..]
      ensures !ok ==> Contents() == old(Contents())
    {
      hide Inv;
      ghost var s := Quiet();
      WholePop(s);
      InBounds(s);
      var h := head;
      item := buffer[h];
      if h == cachedTail {
        cachedTail, seenTail := tail, |pushed|;
        if h == cachedTail {
          return false, item;
        }
      }
      head, popped := Following(h, buffer.Length), popped + 1;
      assert Quiet() == PopCall(s);
      return true, item;
    }
  }
}
