/** The orders that engines have popped and that rest in their books, traced back to what their clients entered. */
module ServedOrders {
  import opened Orders
  import opened SlotProtocol
  import opened Entered
  import opened ServedRuns
  import opened ShardReference
  import R = ReferenceBook
  import SlotInvariants

  /** Every order an engine has popped was entered as it stands, and is at home with the worker that read it. */
  ghost predicate DoneTraced(ls: seq<Label>, w: World) {
    forall s <- w.control :: TasksTraced(ls, w.st.home, w.control[s].done)
  }

  ghost predicate TasksTraced(ls: seq<Label>, home: map<nat, nat>, done: seq<Task>) {
    forall t <- done :: t.New? ==> WasEntered(ls, t.order) && AtHome(home, t.order)
  }

  predicate AtHome(home: map<nat, nat>, o: Order) {
    o.client in home && home[o.client] == o.worker
  }

  lemma TasksTracedLater(ls: seq<Label>, l: Label, home: map<nat, nat>, home': map<nat, nat>, done: seq<Task>)
    requires TasksTraced(ls, home, done) && forall k <- home :: k in home' && home'[k] == home[k]
    ensures TasksTraced(ls + [l], home', done)
  {
    EnteredLater(ls, l);
    hide WasEntered;
  }

  /** Identities are never taken back. */
  lemma HomeGrows(c: Config, st: State, l: Label)
    requires SlotInvariants.Inv(c, st)
    ensures forall k <- st.home :: k in Step(c, st, l).home && Step(c, st, l).home[k] == st.home[k]
  {
    hide SlotInvariants.LanesOk, SlotInvariants.ShardsOk, SlotInvariants.SessionsOk, TakeSlot, PassesRisk;
    hide MatchStep, TaskStep, Config.Owner;
  }

  lemma PoppedTraced(c: Config, ls: seq<Label>, st: State, s: nat, w: nat)
    requires SlotInvariants.Inv(c, st) && Traced(ls, st) && s < NUM_SHARDS && w < c.workers
    requires st.lanes[(s, w)].queue != []
    ensures TasksTraced(ls, st.home, [st.lanes[(s, w)].queue[0]])
  {
    hide SlotInvariants.Inv, WasEntered, WasAsked;
    ShapeOf(c, st);
    SlotInvariants.PoppedTaskOk(c, st, s, w);
    assert LaneTraced(ls, w, st.lanes[(s, w)]);
    assert TaskTraced(ls, w, st.lanes[(s, w)].queue[0]);
  }

  lemma NextTraced(c: Config, ls: seq<Label>, w: World, l: Label)
    requires ServedRuns.Inv(c, w) && c.Valid() && Traced(ls, w.st) && DoneTraced(ls, w)
    ensures Traced(ls + [l], Next(c, w, l).st) && DoneTraced(ls + [l], Next(c, w, l))
  {
    hide SlotInvariants.Inv, Step, OnTrack, OfOwner, TasksTraced, Traced, Program;
    TracedLater(ls, l, w.st);
    HomeGrows(c, w.st, l);
    ShapeOf(c, w.st);
    if ByWorker(l) { WorkerTraced(c, ls, w.st, l); } else { EngineTraced(c, ls, w.st, l); }
    var w' := Next(c, w, l);
    forall s <- w.control
      ensures TasksTraced(ls + [l], w.st.home, w.control[s].done)
      ensures TasksTraced(ls + [l], Step(c, w.st, l).home, w.control[s].done)
    {
      TasksTracedLater(ls, l, w.st.home, w.st.home, w.control[s].done);
      TasksTracedLater(ls, l, w.st.home, Step(c, w.st, l).home, w.control[s].done);
    }
    if l.Take? && w' != w {
      var s := l.s;
      PoppedTraced(c, ls, w.st, s, l.w);
      TasksTracedLater(ls, l, w.st.home, Step(c, w.st, l).home, [w.st.lanes[(s, l.w)].queue[0]]);
      TasksJoin(ls + [l], Step(c, w.st, l).home, w.control[s].done, [w.st.lanes[(s, l.w)].queue[0]]);
    }
  }

  lemma TasksJoin(ls: seq<Label>, home: map<nat, nat>, a: seq<Task>, b: seq<Task>)
    requires TasksTraced(ls, home, a) && TasksTraced(ls, home, b)
    ensures TasksTraced(ls, home, a + b)
  {
    hide WasEntered, AtHome;
  }

  /** In every run with engines that run the book, every order popped was entered by its client as it stands: worker,
      token, price, quantity, instrument and side. */
  lemma {:induction false} ServedTraced(c: Config, ls: seq<Label>)
    requires c.Valid()
    ensures Traced(ls, Served(c, ls).st) && DoneTraced(ls, Served(c, ls))
  {
    hide Next, ServedRuns.Inv, Traced, DoneTraced;
    if ls == [] {
      BeginTraced(c);
    } else {
      var n := |ls| - 1;
      assert ls == ls[..n] + [ls[n]];
      ServedTraced(c, ls[..n]);
      EveryRunIsServed(c, ls[..n]);
      NextTraced(c, ls[..n], Served(c, ls[..n]), ls[n]);
    }
  }

  lemma BeginTraced(c: Config)
    requires c.Valid()
    ensures Traced([], Begin(c).st) && DoneTraced([], Begin(c))
  {
    hide Traced;
    StartTraced(c);
  }

  // ---- resting orders ----

  /** r is what is left of o. */
  predicate LeftOf(r: Order, o: Order) {
    r == o.(qty := r.qty) && r.qty <= o.qty
  }

  /** Every order of a book is what is left of one of some orders. */
  ghost predicate AllLeftOf(b: R.Book, os: set<Order>) {
    forall k :: 0 <= k < |b| ==> IsLeft(b[k], os)
  }

  ghost predicate IsLeft(r: Order, os: set<Order>) {
    exists o :: o in os && LeftOf(r, o)
  }

  lemma {:induction false} MatchLeaves(b: R.Book, o: Order, entered: Order, os: set<Order>)
    requires AllLeftOf(b, os) && entered in os && LeftOf(o, entered)
    ensures AllLeftOf(R.Match(b, o).book, os)
    decreases |b|
  {
    hide R.Match, R.Best, R.FillEvents, R.RestEvents, R.RejectEvents;
    R.MatchUnfolds(b, o);
    var i := R.Best(b, o.side.Other());
    if o.qty > 0 && i != -1 && R.Crosses(o, b[i].price) && b[i].client != o.client {
      if o.qty >= b[i].qty {
        FewerOrders(b, i, os);
        MatchLeaves(R.Without(b, i), o.(qty := o.qty - b[i].qty), entered, os);
      } else {
        assert IsLeft(b[i], os);
        var e :| e in os && LeftOf(b[i], e);
        assert LeftOf(b[i].(qty := b[i].qty - o.qty), e);
      }
    }
  }

  function OrdersOf(tasks: seq<Task>): set<Order> {
    set t <- tasks | t.New? :: t.order
  }

  /** Every order resting in a shard's book is what is left of an order the engine popped. */
  lemma {:induction false} BookLeaves(tasks: seq<Task>, i: nat)
    ensures AllLeftOf(BookAfter(tasks, i).book, OrdersOf(tasks))
  {
    if tasks != [] {
      hide R.Match;
      var n := |tasks| - 1;
      var front := tasks[..n];
      var b := BookAfter(front, i).book;
      BookLeaves(front, i);
      assert OrdersOf(front) <= OrdersOf(tasks) by { assert forall t <- front :: t in tasks; }
      MoreOrders(b, OrdersOf(front), OrdersOf(tasks));
      hide OrdersOf, AllLeftOf;
      match tasks[n]
      case New(o) =>
        if o.inst == i {
          LastOrder(tasks);
          MatchLeaves(b, o, o, OrdersOf(tasks));
        }
      case Cancel(id, _, _) => if R.IndexOf(b, id) != -1 { FewerOrders(b, R.IndexOf(b, id), OrdersOf(tasks)); }
    }
  }

  lemma LastOrder(tasks: seq<Task>)
    requires tasks != [] && tasks[|tasks| - 1].New?
    ensures tasks[|tasks| - 1].order in OrdersOf(tasks)
  {
    assert tasks[|tasks| - 1] in tasks;
  }

  lemma MoreOrders(b: R.Book, os: set<Order>, more: set<Order>)
    requires AllLeftOf(b, os) && os <= more
    ensures AllLeftOf(b, more)
  {
    forall k | 0 <= k < |b| ensures IsLeft(b[k], more) {
      assert IsLeft(b[k], os);
      var o :| o in os && LeftOf(b[k], o);
      assert o in more;
    }
  }

  lemma FewerOrders(b: R.Book, i: nat, os: set<Order>)
    requires AllLeftOf(b, os) && i < |b|
    ensures AllLeftOf(R.Without(b, i), os)
  {
    R.WithoutAt(b, i);
    hide IsLeft;
  }

  /** Between tasks, every order resting in a shard was entered by its client: as it stands, but for a quantity that was
      at least what is left. */
  lemma RestingWasEntered(c: Config, ls: seq<Label>, s: nat, id: nat)
    requires c.Valid() && s < NUM_SHARDS
    requires var w := Served(c, ls);
      s in w.control && s in w.st.shards && w.control[s].todo == [] && id in w.st.shards[s].resting
    ensures var r := Served(c, ls).st.shards[s].resting[id]; exists o :: WasEntered(ls, o) && LeftOf(r, o)
  {
    hide ServedRuns.Inv, Served, WasEntered, BookAfter, AllDeliverable, OfOwner, ShardLog, R.ById;
    var w := Served(c, ls);
    var done, r := w.control[s].done, w.st.shards[s].resting[id];
    EveryRunIsServed(c, ls);
    assert ServedUpTo(c, w, s);
    ServedTraced(c, ls);
    var b := BookAfter(done, r.inst).book;
    assert R.ById(b) == OfInst(w.st.shards[s].resting, r.inst);
    R.ByIdKeys(b, id);
    var k :| 0 <= k < |b| && b[k].id == id && b[k] == R.ById(b)[id];
    BookLeaves(done, r.inst);
    assert IsLeft(b[k], OrdersOf(done));
    var o :| o in OrdersOf(done) && LeftOf(b[k], o);
    var t :| t in done && t.New? && t.order == o;
    assert TasksTraced(ls, w.st.home, done);
  }

  // ---- nothing is lost, repeated or reordered between a worker and an engine ----

  /** What a step puts on worker w's lane into shard s: the order in its hand once recorded, or the cancel it holds. */
  function Submits(st: State, l: Label, s: nat, w: nat): seq<Task> {
    if w !in st.hands then []
    else if l == SubmitNew(w) && st.hands[w].Recorded? && ShardOf(st.hands[w].order.inst) == s
    then [Task.New(st.hands[w].order)]
    else if l == SubmitCancel(w) && st.hands[w].Cancelling? && st.hands[w].shard == s
    then [Cancel(st.hands[w].id, st.hands[w].token, st.hands[w].sender)]
    else []
  }

  /** All that worker w has submitted to shard s in a run. */
  function Submitted(c: Config, ls: seq<Label>, s: nat, w: nat): seq<Task>
    requires c.Valid()
  {
    if ls == [] then [] else
      var n := |ls| - 1;
      Submitted(c, ls[..n], s, w) + Submits(Served(c, ls[..n]).st, ls[n], s, w)
  }

  /** The tasks that a poll of w's lane adds to those of engine s. */
  function Polls(before: World, l: Label, after: World, s: nat, w: nat): seq<Task> {
    if l == Take(s, w) && s in before.control && s in after.control && before.control[s].done < after.control[s].done
    then after.control[s].done[|before.control[s].done|..]
    else []
  }

  /** All that engine s has popped from worker w's lane in a run. */
  function Polled(c: Config, ls: seq<Label>, s: nat, w: nat): seq<Task>
    requires c.Valid()
  {
    if ls == [] then [] else
      var n := |ls| - 1;
      Polled(c, ls[..n], s, w) + Polls(Served(c, ls[..n]), ls[n], Served(c, ls), s, w)
  }

  lemma WorkerSubmits(c: Config, st: State, l: Label, s: nat, v: nat)
    requires c.Valid() && Shaped(c, st) && ByWorker(l) && s < NUM_SHARDS && v < c.workers
    ensures (s, v) in Step(c, st, l).lanes
    ensures Step(c, st, l).lanes[(s, v)].queue == st.lanes[(s, v)].queue + Submits(st, l, s, v)
  {
    hide PassesRisk;
  }

  lemma EngineKeepsQueues(c: Config, st: State, l: Label, s: nat, v: nat)
    requires c.Valid() && Shaped(c, st) && !ByWorker(l) && l != Take(s, v) && s < NUM_SHARDS && v < c.workers
    ensures (s, v) in Step(c, st, l).lanes && Step(c, st, l).lanes[(s, v)].queue == st.lanes[(s, v)].queue
    ensures Submits(st, l, s, v) == []
  {
    hide MatchStep, TaskStep, Config.Owner;
  }

  lemma TakePops(c: Config, st: State, s: nat, v: nat)
    requires c.Valid() && Shaped(c, st) && s < NUM_SHARDS && v < c.workers
    requires st.shards[s].current.Nothing? && st.shards[s].held.Nothing? && st.lanes[(s, v)].queue != []
    ensures (s, v) in Step(c, st, Take(s, v)).lanes
    ensures Step(c, st, Take(s, v)).lanes[(s, v)].queue == st.lanes[(s, v)].queue[1..]
  {
    hide TaskStep;
  }

  lemma TakePolls(c: Config, w: World, s: nat, v: nat)
    requires c.Valid() && Shaped(c, w.st) && s in w.control && s < NUM_SHARDS && v < c.workers
    requires w.control[s].todo == [] ==> w.st.shards[s].current.Nothing? && w.st.shards[s].held.Nothing?
    ensures var w' := Next(c, w, Take(s, v));
      (s, v) in w'.st.lanes
      && w.st.lanes[(s, v)].queue == Polls(w, Take(s, v), w', s, v) + w'.st.lanes[(s, v)].queue
  {
    hide Program, Step;
    if w.control[s].todo == [] && w.st.lanes[(s, v)].queue != [] { TakePops(c, w.st, s, v); }
  }

  lemma LaneStep(c: Config, w: World, l: Label, s: nat, v: nat)
    requires ServedRuns.Inv(c, w) && c.Valid() && s < NUM_SHARDS && v < c.workers
    ensures var w' := Next(c, w, l);
      (s, v) in w.st.lanes && (s, v) in w'.st.lanes
      && w.st.lanes[(s, v)].queue + Submits(w.st, l, s, v) == Polls(w, l, w', s, v) + w'.st.lanes[(s, v)].queue
  {
    hide SlotInvariants.Inv, OnTrack, OfOwner, Program, Step, HasBooks, AllVetted;
    ShapeOf(c, w.st);
    if ByWorker(l) {
      WorkerSubmits(c, w.st, l, s, v);
    } else if l == Take(s, v) {
      if w.control[s].todo == [] { IdleOnTrack(w.st.shards[s], w.control[s]); }
      TakePolls(c, w, s, v);
    } else {
      EngineKeepsQueues(c, w.st, l, s, v);
    }
  }

  /** In every run of workers and engines: what an engine has popped from a worker's lane, followed by what is still
      queued there, is exactly what that worker has submitted to it, in order. */
  lemma {:induction false} LanesAreFifo(c: Config, ls: seq<Label>, s: nat, w: nat)
    requires c.Valid() && s < NUM_SHARDS && w < c.workers
    ensures (s, w) in Served(c, ls).st.lanes
    ensures Submitted(c, ls, s, w) == Polled(c, ls, s, w) + Served(c, ls).st.lanes[(s, w)].queue
  {
    if ls == [] {
      hide Range, LaneKeys;
      assert (s, w) in LaneKeys(c);
      assert Served(c, ls).st.lanes[(s, w)].queue == [];
    } else {
      hide ServedRuns.Inv, Next, Submits, Polls;
      var n := |ls| - 1;
      var front := ls[..n];
      LanesAreFifo(c, front, s, w);
      EveryRunIsServed(c, front);
      var was, now := Served(c, front), Served(c, ls);
      LaneStep(c, was, ls[n], s, w);
      Moved(Polled(c, front, s, w), was.st.lanes[(s, w)].queue, Submits(was.st, ls[n], s, w),
            Polls(was, ls[n], now, s, w), now.st.lanes[(s, w)].queue);
    }
  }

  lemma Moved<T>(out: seq<T>, q: seq<T>, add: seq<T>, take: seq<T>, q': seq<T>)
    requires q + add == take + q'
    ensures out + q + add == out + take + q'
  {
    assert out + q + add == out + (q + add);
    assert out + take + q' == out + (take + q');
  }
}
