/** What a client enters is what the engine gets: every order and cancel in the step system goes back to the step that
    read it from its client, field by field, and what a client enters arrives (tcp_server.h:501-555, 570-590). */
module Entered {
  import opened Orders
  import opened SlotProtocol

  // ---- nothing else arrives ----

  /** A client entered exactly this order, apart from the slot it was given. */
  ghost predicate WasEntered(ls: seq<Label>, o: Order) {
    exists k :: 0 <= k < |ls| && ls[k] == Allocate(o.worker, o.client, o.token, o.price, o.qty, o.inst, o.side)
  }

  /** The same, up to the quantity that is left of it. */
  ghost predicate WasEnteredAtSomeSize(ls: seq<Label>, o: Order) {
    exists q: nat :: WasEntered(ls, o.(qty := q))
  }

  /** That client asked to cancel that token. */
  ghost predicate WasAsked(ls: seq<Label>, w: nat, client: nat, token: nat) {
    exists k :: 0 <= k < |ls| && ls[k] == LookUp(w, client, token)
  }

  ghost predicate TaskTraced(ls: seq<Label>, w: nat, t: Task) {
    match t
    case New(o) => o.worker == w && WasEntered(ls, o)
    case Cancel(_, token, sender) => WasAsked(ls, w, sender, token)
  }

  ghost predicate HandTraced(ls: seq<Label>, w: nat, h: Hand) {
    match h
    case Free => true
    case Built(o) => o.worker == w && WasEntered(ls, o)
    case Recorded(o) => o.worker == w && WasEntered(ls, o)
    case Cancelling(_, _, token, sender) => WasAsked(ls, w, sender, token)
  }

  ghost predicate LaneTraced(ls: seq<Label>, w: nat, lane: Lane) {
    forall t <- lane.queue :: TaskTraced(ls, w, t)
  }

  ghost predicate ShardTraced(ls: seq<Label>, sh: Shard) {
    && (sh.current.Just? ==> WasEntered(ls, sh.current.value))
    && (forall id <- sh.resting :: WasEnteredAtSomeSize(ls, sh.resting[id]))
  }

  ghost predicate Traced(ls: seq<Label>, st: State) {
    && (forall w <- st.hands :: HandTraced(ls, w, st.hands[w]))
    && (forall key <- st.lanes :: LaneTraced(ls, key.1, st.lanes[key]))
    && (forall s <- st.shards :: ShardTraced(ls, st.shards[s]))
  }

  lemma EnteredLater(ls: seq<Label>, l: Label)
    ensures forall o :: WasEntered(ls, o) ==> WasEntered(ls + [l], o)
    ensures forall o :: WasEnteredAtSomeSize(ls, o) ==> WasEnteredAtSomeSize(ls + [l], o)
    ensures forall w, client, token :: WasAsked(ls, w, client, token) ==> WasAsked(ls + [l], w, client, token)
  {
    forall o | WasEntered(ls, o) ensures WasEntered(ls + [l], o) {
      var k :| 0 <= k < |ls| && ls[k] == Allocate(o.worker, o.client, o.token, o.price, o.qty, o.inst, o.side);
      assert (ls + [l])[k] == ls[k];
    }
    forall w, client, token | WasAsked(ls, w, client, token) ensures WasAsked(ls + [l], w, client, token) {
      var k :| 0 <= k < |ls| && ls[k] == LookUp(w, client, token);
      assert (ls + [l])[k] == ls[k];
    }
  }

  lemma TracedLater(ls: seq<Label>, l: Label, st: State)
    requires Traced(ls, st)
    ensures Traced(ls + [l], st)
  {
    EnteredLater(ls, l);
    hide WasEntered, WasEnteredAtSomeSize, WasAsked;
  }

  lemma LastEntered(ls: seq<Label>, o: Order)
    ensures WasEntered(ls + [Allocate(o.worker, o.client, o.token, o.price, o.qty, o.inst, o.side)], o)
  {
    assert (ls + [Allocate(o.worker, o.client, o.token, o.price, o.qty, o.inst, o.side)])[|ls|].Allocate?;
  }

  lemma LastAsked(ls: seq<Label>, w: nat, client: nat, token: nat)
    ensures WasAsked(ls + [LookUp(w, client, token)], w, client, token)
  {
    assert (ls + [LookUp(w, client, token)])[|ls|].LookUp?;
  }

  lemma WorkerTraced(c: Config, ls: seq<Label>, st: State, l: Label)
    requires c.Valid() && Traced(ls, st) && ByWorker(l)
    ensures Traced(ls + [l], Step(c, st, l))
  {
    TracedLater(ls, l, st);
    if l.Allocate? {
      forall slot: nat ensures
        var o := Order(slot, l.token, l.client, l.price, l.qty, l.inst, l.w, l.side); WasEntered(ls + [l], o)
      {
        LastEntered(ls, Order(slot, l.token, l.client, l.price, l.qty, l.inst, l.w, l.side));
      }
    } else if l.LookUp? {
      LastAsked(ls, l.w, l.client, l.token);
    }
    hide WasEntered, WasEnteredAtSomeSize, WasAsked, PassesRisk;
  }

  lemma Resized(ls: seq<Label>, r: Order, q: nat)
    requires WasEntered(ls, r) || WasEnteredAtSomeSize(ls, r)
    ensures WasEnteredAtSomeSize(ls, r.(qty := q))
  {
    hide WasEntered;
    if WasEntered(ls, r) {
      assert r.(qty := q).(qty := r.qty) == r;
    } else {
      var e: nat :| WasEntered(ls, r.(qty := e));
      assert r.(qty := q).(qty := e) == r.(qty := e);
    }
  }

  lemma MatchStepTraced(ls: seq<Label>, sh: Shard, l: Label)
    requires ShardTraced(ls, sh)
    ensures ShardTraced(ls, MatchStep(sh, l))
  {
    hide WasEntered, WasEnteredAtSomeSize;
    if l.Rest? && sh.current.Just? {
      Resized(ls, sh.current.value, l.qty);
    } else if l.ReduceResting? && l.id in sh.resting {
      Resized(ls, sh.resting[l.id], l.qty);
    }
  }

  lemma TaskStepTraced(ls: seq<Label>, w: nat, sh: Shard, t: Task)
    requires ShardTraced(ls, sh) && TaskTraced(ls, w, t)
    ensures ShardTraced(ls, TaskStep(sh, t))
  {
    hide WasEntered, WasEnteredAtSomeSize, WasAsked;
  }

  lemma EngineTraced(c: Config, ls: seq<Label>, st: State, l: Label)
    requires c.Valid() && Traced(ls, st) && !ByWorker(l)
    ensures Traced(ls + [l], Step(c, st, l))
  {
    TracedLater(ls, l, st);
    forall s <- st.shards ensures ShardTraced(ls + [l], MatchStep(st.shards[s], l)) {
      MatchStepTraced(ls + [l], st.shards[s], l);
    }
    if l.Take? && (l.s, l.w) in st.lanes && l.s in st.shards && st.lanes[(l.s, l.w)].queue != [] {
      assert LaneTraced(ls + [l], l.w, st.lanes[(l.s, l.w)]);
      TaskStepTraced(ls + [l], l.w, st.shards[l.s], st.lanes[(l.s, l.w)].queue[0]);
    }
    hide WasEntered, WasEnteredAtSomeSize, WasAsked, MatchStep, TaskStep, Config.Owner;
  }

  /** In every interleaving: every order in a worker's hand, in a queue or being matched was entered by its client as it
      stands, every resting order up to its quantity, and every cancel was asked for by its sender. */
  lemma {:induction false} RunTraced(c: Config, ls: seq<Label>)
    requires c.Valid()
    ensures Traced(ls, Run(c, ls))
  {
    hide Step, Traced;
    if ls == [] {
      StartTraced(c);
    } else {
      var n := |ls| - 1;
      var front, l := ls[..n], ls[n];
      assert ls == front + [l];
      RunTraced(c, front);
      if ByWorker(l) { WorkerTraced(c, front, Run(c, front), l); } else { EngineTraced(c, front, Run(c, front), l); }
    }
  }

  lemma StartTraced(c: Config)
    requires c.Valid()
    ensures Traced([], Start(c))
  {
    hide Range, LaneKeys;
  }

  // ---- and what is entered arrives ----

  /** A connection is at home with the worker that accepted it. */
  lemma AcceptRegisters(c: Config, st: State, w: nat)
    requires c.Valid() && w < c.workers
    ensures var st' := Step(c, st, Accept(w));
      st' == st.(home := st.home[st.nextClient := w], nextClient := st.nextClient + 1)
  {}

  /** The worker is free to read a message of that client. */
  predicate Ready(c: Config, st: State, w: nat, client: nat) {
    && w in st.hands && st.hands[w].Free? && client in st.home && st.home[client] == w
    && forall s :: 0 <= s < NUM_SHARDS ==> (s, w) in st.lanes
  }

  /** An order that passes the checks and finds a slot: its three steps put exactly it on the lane of its instrument's
      shard, and make it the order its token names. Nothing else changes but the pool. */
  lemma EntryArrives(c: Config, st: State, w: nat, client: nat, token: nat, price: nat, qty: nat, inst: nat, side: Side)
    requires c.Valid() && Ready(c, st, w, client) && PassesRisk(token, price, qty, inst)
    requires TakeSlot(c, st.lanes[(ShardOf(inst), w)], w).Just?
    ensures var taken := TakeSlot(c, st.lanes[(ShardOf(inst), w)], w).value;
      var st1 := Step(c, st, Allocate(w, client, token, price, qty, inst, side));
      var st' := Step(c, Step(c, st1, Record(w)), SubmitNew(w));
      var queue := taken.1.queue + [Task.New(Order(taken.0, token, client, price, qty, inst, w, side))];
      st' == st.(lanes := st.lanes[(ShardOf(inst), w) := taken.1.(queue := queue)],
                 session := st.session[token := Session(taken.0, inst, client)])
  {
    hide TakeSlot, PassesRisk;
    var key := (ShardOf(inst), w);
    var taken := TakeSlot(c, st.lanes[key], w).value;
    var o := Order(taken.0, token, client, price, qty, inst, w, side);
    var st1 := Step(c, st, Allocate(w, client, token, price, qty, inst, side));
    assert st1 == st.(lanes := st.lanes[key := taken.1], hands := st.hands[w := Built(o)]);
    var st2 := Step(c, st1, Record(w));
    assert st2.session == st.session[token := Session(o.id, inst, client)] && st2.hands == st1.hands[w := Recorded(o)];
    var st3 := Step(c, st2, SubmitNew(w));
    assert st3.hands == st.hands;
    assert st3.lanes == st.lanes[key := taken.1.(queue := taken.1.queue + [Task.New(o)])];
  }

  /** An order that fails the checks, or finds no slot, changes nothing. */
  lemma EntryRefused(c: Config, st: State, w: nat, client: nat, token: nat, price: nat, qty: nat, inst: nat, side: Side)
    requires c.Valid() && Ready(c, st, w, client)
    requires !PassesRisk(token, price, qty, inst) || TakeSlot(c, st.lanes[(ShardOf(inst), w)], w).Nothing?
    ensures Step(c, st, Allocate(w, client, token, price, qty, inst, side)) == st
  {}

  /** A cancel by the client that the token is recorded for: its two steps put it, with the recorded slot, on the lane
      of the recorded instrument's shard. A cancel by anyone else changes nothing. */
  lemma CancelArrives(c: Config, st: State, w: nat, client: nat, token: nat)
    requires c.Valid() && Ready(c, st, w, client) && token < MAX_CLIENT_ORDERS
    ensures var st1 := Step(c, st, LookUp(w, client, token)); var st2 := Step(c, st1, SubmitCancel(w));
      if token in st.session && st.session[token].client == client then
        var e := st.session[token]; var key := (ShardOf(e.inst), w);
        var queue := st.lanes[key].queue + [Cancel(e.id, token, client)];
        st2 == st.(lanes := st.lanes[key := st.lanes[key].(queue := queue)])
      else st1 == st
  {
    if token in st.session && st.session[token].client == client {
      var st2 := Step(c, Step(c, st, LookUp(w, client, token)), SubmitCancel(w));
      assert st2.hands == st.hands;
    }
  }

  /** An idle engine that pops a cancel takes the order out if the slot still holds that token, and lets its slot go. */
  lemma CancelRemoves(c: Config, st: State, s: nat, w: nat)
    requires c.Valid() && (s, w) in st.lanes && s in st.shards
    requires st.shards[s].current.Nothing? && st.shards[s].held.Nothing?
    requires st.lanes[(s, w)].queue != [] && st.lanes[(s, w)].queue[0].Cancel?
    ensures var t, sh, sh' := st.lanes[(s, w)].queue[0], st.shards[s], Step(c, st, Take(s, w)).shards[s];
      if t.id in sh.resting && sh.resting[t.id].token == t.token
      then sh'.resting == sh.resting - {t.id} && sh'.held == Just(t.id)
      else sh' == sh
  {}

  /** A client that cancels its resting order while nothing else is queued: after the worker's two steps and the
      engine's two, the order is out of the book and its slot is back with its owner. */
  lemma CancelWorks(c: Config, st: State, s: nat, o: Order)
    requires c.Valid() && Ready(c, st, o.worker, o.client) && s in st.shards && s < NUM_SHARDS
    requires ShardOf(o.inst) == s && c.Owner(o.id) == o.worker && o.token < MAX_CLIENT_ORDERS
    requires o.id in st.shards[s].resting && st.shards[s].resting[o.id] == o
    requires o.token in st.session && st.session[o.token] == Session(o.id, o.inst, o.client)
    requires st.shards[s].current.Nothing? && st.shards[s].held.Nothing? && st.lanes[(s, o.worker)].queue == []
    ensures var w := o.worker;
      var st2 := Step(c, Step(c, st, LookUp(w, o.client, o.token)), SubmitCancel(w));
      var st4 := Step(c, Step(c, st2, Take(s, w)), Recycle(s));
      && st4.shards[s] == st.shards[s].(resting := st.shards[s].resting - {o.id})
      && st4.lanes[(s, w)] == st.lanes[(s, w)].(recycle := st.lanes[(s, w)].recycle + [o.id])
  {
    hide Config.Owner;
    CancelArrives(c, st, o.worker, o.client, o.token);
    var w := o.worker;
    var st2 := Step(c, Step(c, st, LookUp(w, o.client, o.token)), SubmitCancel(w));
    assert st2.lanes[(s, w)].queue == [Cancel(o.id, o.token, o.client)];
    CancelRemoves(c, st2, s, w);
  }
}
