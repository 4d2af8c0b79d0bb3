/** The matching book inside the slot protocol: what the reference book does to one order is one of the
    engine runs the protocol covers, with the same resting orders and the same slots recycled in order. */
module EngineRefinement {
  import opened Orders
  import opened ReferenceBook
  import opened SlotProtocol

  /** The shard after an engine's own steps, and the slots it has recycled. */
  datatype Trace = Trace(shard: Shard, recycled: seq<nat>)

  function Engine(t: Trace, l: Label): Trace {
    if l.Recycle? then
      if t.shard.held.Just? then Trace(t.shard.(held := Nothing), t.recycled + [t.shard.held.value]) else t
    else Trace(MatchStep(t.shard, l), t.recycled)
  }

  function EngineRun(t: Trace, ls: seq<Label>): Trace
    decreases |ls|
  {
    if ls == [] then t else EngineRun(Engine(t, ls[0]), ls[1..])
  }

  lemma {:induction false} EngineRunSum(t: Trace, a: seq<Label>, b: seq<Label>)
    ensures EngineRun(t, a + b) == EngineRun(EngineRun(t, a), b)
    decreases |a|
  {
    if a == [] {
      assert a + b == b;
    } else {
      assert (a + b)[1..] == a[1..] + b;
      EngineRunSum(Engine(t, a[0]), a[1..], b);
    }
  }

  lemma OneRun(t: Trace, l: Label)
    ensures EngineRun(t, [l]) == Engine(t, l)
  {
    assert EngineRun(Engine(t, l), []) == Engine(t, l);
  }

  lemma NoneFreed()
    ensures FreedSlots([]) == []
  {}

  lemma TwoSteps(t: Trace, l: Label, k: Label)
    ensures EngineRun(t, [l, k]) == Engine(Engine(t, l), k)
  {
    assert [l, k][1..] == [k] && [k][1..] == [];
    assert EngineRun(Engine(t, l), [k]) == EngineRun(Engine(Engine(t, l), k), []);
  }

  /** The slots freed by a sequence of messages, in order. */
  function FreedSlots(es: seq<Event>): seq<nat> {
    if es == [] then [] else (if es[0].Freed? then [es[0].id] else []) + FreedSlots(es[1..])
  }

  lemma {:induction false} FreedSum(a: seq<Event>, b: seq<Event>)
    ensures FreedSlots(a + b) == FreedSlots(a) + FreedSlots(b)
  {
    if a == [] {
      assert a + b == b;
    } else {
      hide FreedSlots;
      assert (a + b)[1..] == a[1..] + b;
      FreedCons(a);
      FreedCons(a + b);
      FreedSum(a[1..], b);
    }
  }

  lemma FreedCons(es: seq<Event>)
    requires es != []
    ensures FreedSlots(es) == (if es[0].Freed? then [es[0].id] else []) + FreedSlots(es[1..])
  {}

  predicate NothingFreed(es: seq<Event>) {
    forall i :: 0 <= i < |es| ==> !es[i].Freed?
  }

  lemma {:induction false} FreedNone(es: seq<Event>, id: nat)
    requires NothingFreed(es)
    ensures FreedSlots(es) == [] && FreedSlots(es + [Freed(id)]) == [id]
  {
    if es == [] {
      assert [] + [Freed(id)] == [Freed(id)] && [Freed(id)][1..] == [];
      assert FreedSlots([Freed(id)]) == [id] + FreedSlots([]);
    } else {
      FreedNone(es[1..], id);
      assert (es + [Freed(id)])[1..] == es[1..] + [Freed(id)];
    }
  }

  /** The engine steps of one reference match. */
  function MatchLabels(b: Book, o: Order, s: nat): seq<Label>
    decreases |b|
  {
    if o.qty == 0 then [Finish(s), Recycle(s)] else
      var i := Best(b, o.side.Other());
      if i == -1 || !Crosses(o, b[i].price) then [Rest(s, o.qty)]
      else if b[i].client == o.client then [Finish(s), Recycle(s)]
      else if o.qty >= b[i].qty then
        [FillResting(s, b[i].id), Recycle(s)] + MatchLabels(Without(b, i), o.(qty := o.qty - b[i].qty), s)
      else [ReduceResting(s, b[i].id, b[i].qty - o.qty), Recycle(s)]
  }

  /** The shard's table is this book's orders plus those of its other books. */
  predicate HasBook(sh: Shard, b: Book, others: map<nat, Order>) {
    others.Keys !! ById(b).Keys && sh.resting == others + ById(b)
  }

  lemma {:induction false} MatchIsEngineRun(
      b: Book, o: Order, s: nat, sh: Shard, others: map<nat, Order>, recycled: seq<nat>)
    requires WellFormed(b) && (forall i :: 0 <= i < |b| ==> b[i].id != o.id && b[i].inst == o.inst)
    requires HasBook(sh, b, others) && o.id !in others
    requires sh.held.Nothing? && sh.current.Just? && sh.current.value.(qty := o.qty) == o
    ensures var r := EngineRun(Trace(sh, recycled), MatchLabels(b, o, s)); var m := Match(b, o);
      && HasBook(r.shard, m.book, others) && r.shard.current.Nothing? && r.shard.held.Nothing?
      && r.recycled == recycled + FreedSlots(m.events)
    decreases |b|
  {
    hide ById, FillEvents, FreedSlots, EngineRun, Best, HasBook, Engine;
    NotById(b, o.id);
    var t := Trace(sh, recycled);
    var i := Best(b, o.side.Other());
    if o.qty == 0 {
      FinishIsEngineRun(b, o, [], s, sh, others, recycled);
      assert [] + [Freed(o.id)] == [Freed(o.id)];
    } else if i == -1 || !Crosses(o, b[i].price) {
      RestIsEngineRun(b, o, s, sh, others, recycled);
    } else if b[i].client == o.client {
      FinishIsEngineRun(b, o, [RejectEvents(o)[0]], s, sh, others, recycled);
      assert RejectEvents(o) == [RejectEvents(o)[0]] + [Freed(o.id)];
    } else {
      TradeIsEngineRun(b, o, i, s, sh, others, recycled);
      if o.qty >= b[i].qty {
        var o', b' := o.(qty := o.qty - b[i].qty), Without(b, i);
        var mid := EngineRun(t, [FillResting(s, b[i].id), Recycle(s)]);
        WithoutIsWellFormed(b, i);
        WithoutAt(b, i);
        MatchIsEngineRun(b', o', s, mid.shard, others, mid.recycled);
        EngineRunSum(t, [FillResting(s, b[i].id), Recycle(s)], MatchLabels(b', o', s));
        FreedSum(FillEvents(o, b[i]) + [Freed(b[i].id)], Match(b', o').events);
      }
    }
  }

  lemma FinishIsEngineRun(
      b: Book, o: Order, es: seq<Event>, s: nat, sh: Shard, others: map<nat, Order>, recycled: seq<nat>)
    requires HasBook(sh, b, others) && NothingFreed(es)
    requires sh.held.Nothing? && sh.current.Just? && sh.current.value.(qty := o.qty) == o
    ensures var r := EngineRun(Trace(sh, recycled), [Finish(s), Recycle(s)]);
      && HasBook(r.shard, b, others) && r.shard.current.Nothing? && r.shard.held.Nothing?
      && r.recycled == recycled + FreedSlots(es + [Freed(o.id)])
  {
    hide ById, FreedSlots, EngineRun;
    TwoSteps(Trace(sh, recycled), Finish(s), Recycle(s));
    FreedNone(es, o.id);
  }

  lemma RestIsEngineRun(b: Book, o: Order, s: nat, sh: Shard, others: map<nat, Order>, recycled: seq<nat>)
    requires o.id !in ById(b) && HasBook(sh, b, others) && o.id !in others
    requires sh.held.Nothing? && sh.current.Just? && sh.current.value.(qty := o.qty) == o
    ensures var r := EngineRun(Trace(sh, recycled), [Rest(s, o.qty)]);
      && HasBook(r.shard, b + [o], others) && r.shard.current.Nothing? && r.shard.held.Nothing?
      && r.recycled == recycled + FreedSlots(RestEvents(o))
  {
    hide ById;
    ByIdWith(b, o);
    var t := Trace(sh, recycled);
    assert EngineRun(t, [Rest(s, o.qty)]) == EngineRun(Engine(t, Rest(s, o.qty)), []);
    FreedNone(RestEvents(o), 0);
    assert (others + ById(b))[o.id := o] == others + ById(b)[o.id := o];
  }

  lemma TradeIsEngineRun(b: Book, o: Order, i: nat, s: nat, sh: Shard, others: map<nat, Order>, recycled: seq<nat>)
    requires WellFormed(b) && i < |b| && o.id !in ById(b) && b[i].inst == o.inst
    requires HasBook(sh, b, others) && o.id !in others
    requires sh.held.Nothing? && sh.current.Just? && sh.current.value.(qty := o.qty) == o
    ensures o.qty >= b[i].qty ==>
      var r := EngineRun(Trace(sh, recycled), [FillResting(s, b[i].id), Recycle(s)]);
      && HasBook(r.shard, Without(b, i), others) && r.shard.held.Nothing? && r.shard.current == sh.current
      && r.recycled == recycled + FreedSlots(FillEvents(o, b[i]) + [Freed(b[i].id)])
    ensures o.qty < b[i].qty ==>
      var r := EngineRun(Trace(sh, recycled), [ReduceResting(s, b[i].id, b[i].qty - o.qty), Recycle(s)]);
      && HasBook(r.shard, b[i := b[i].(qty := b[i].qty - o.qty)], others)
      && r.shard.held.Nothing? && r.shard.current.Nothing?
      && r.recycled == recycled + FreedSlots(FillEvents(o, b[i]) + [Freed(o.id)])
  {
    hide ById, FreedSlots, EngineRun;
    ByIdAt(b, i);
    var t := Trace(sh, recycled);
    if o.qty >= b[i].qty {
      ByIdWithout(b, i);
      TwoSteps(t, FillResting(s, b[i].id), Recycle(s));
      FreedNone(FillEvents(o, b[i]), b[i].id);
      assert others + ById(b) - {b[i].id} == others + (ById(b) - {b[i].id});
    } else {
      var r := b[i].(qty := b[i].qty - o.qty);
      ByIdUpdated(b, i, r);
      TwoSteps(t, ReduceResting(s, b[i].id, b[i].qty - o.qty), Recycle(s));
      FreedNone(FillEvents(o, b[i]), o.id);
      assert (others + ById(b))[r.id := r] == others + ById(b)[r.id := r];
    }
  }

  /** The engine steps of one submission. */
  function SubmitLabels(b: Book, o: Order, s: nat): seq<Label> {
    if o.id >= POOL_CAPACITY || o.price >= MAX_PRICE then [Finish(s), Recycle(s)] else MatchLabels(b, o, s)
  }

  /** A submission, silent discards included. */
  lemma SubmitIsEngineRun(b: Book, o: Order, s: nat, sh: Shard, others: map<nat, Order>, recycled: seq<nat>)
    requires WellFormed(b) && (forall i :: 0 <= i < |b| ==> b[i].id != o.id && b[i].inst == o.inst)
    requires HasBook(sh, b, others) && o.id !in others && sh.held.Nothing? && sh.current == Just(o)
    ensures var r := EngineRun(Trace(sh, recycled), SubmitLabels(b, o, s)); var m := Submit(b, o);
      && HasBook(r.shard, m.book, others) && r.shard.current.Nothing? && r.shard.held.Nothing?
      && r.recycled == recycled + FreedSlots(m.events)
  {
    hide EngineRun, FreedSlots, HasBook, Match, MatchLabels;
    if o.id >= POOL_CAPACITY || o.price >= MAX_PRICE {
      FinishIsEngineRun(b, o, [], s, sh, others, recycled);
      assert [] + [Freed(o.id)] == [Freed(o.id)];
    } else {
      MatchIsEngineRun(b, o, s, sh, others, recycled);
    }
  }

  /** A popped cancel: the reference cancel if the slot still holds the order with that token, nothing otherwise. */
  lemma CancelIsEngineRun(b: Book, task: Task, s: nat, sh: Shard, others: map<nat, Order>, recycled: seq<nat>)
    requires WellFormed(b) && HasBook(sh, b, others) && sh.held.Nothing?
    requires task.Cancel? && task.id !in others
    ensures var r := EngineRun(Trace(TaskStep(sh, task), recycled), [Recycle(s)]); var i := IndexOf(b, task.id);
      var m := if i != -1 && b[i].token == task.token then ReferenceBook.Cancel(b, task.id) else Outcome(b, []);
      && HasBook(r.shard, m.book, others) && r.shard.held.Nothing? && r.shard.current == sh.current
      && r.recycled == recycled + FreedSlots(m.events)
  {
    hide ById, Without, EngineRun, FreedSlots, WellFormed;
    var t, i := Trace(TaskStep(sh, task), recycled), IndexOf(b, task.id);
    OneRun(t, Recycle(s));
    NoneFreed();
    if i == -1 {
      NotById(b, task.id);
    } else {
      ByIdAt(b, i);
      ByIdWithout(b, i);
      FreedNone(CancelEvents(b[i])[..2], b[i].id);
      assert CancelEvents(b[i]) == CancelEvents(b[i])[..2] + [Freed(b[i].id)];
      assert others + ById(b) - {task.id} == others + (ById(b) - {task.id});
    }
  }
}
