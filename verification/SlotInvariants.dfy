/** What every step of the slot protocol keeps, and what follows for every reachable state. */
module SlotInvariants {
  import opened Orders
  import opened SlotProtocol

  // ---- where the slots of one worker's slice are ----

  function NewIds(q: seq<Task>): seq<nat> {
    if q == [] then [] else (if q[0].New? then [q[0].order.id] else []) + NewIds(q[1..])
  }

  lemma {:induction false} NewIdsAppend(q: seq<Task>, t: Task)
    ensures NewIds(q + [t]) == NewIds(q) + (if t.New? then [t.order.id] else [])
  {
    hide NewIds;
    NewIdsCons(q + [t]);
    if q == [] {
      assert (q + [t])[1..] == [] && q + [t] == [t];
      NewIdsNone();
    } else {
      assert (q + [t])[1..] == q[1..] + [t];
      NewIdsCons(q);
      NewIdsAppend(q[1..], t);
    }
  }

  lemma NewIdsCons(q: seq<Task>)
    requires q != []
    ensures NewIds(q) == (if q[0].New? then [q[0].order.id] else []) + NewIds(q[1..])
  {}

  lemma NewIdsNone()
    ensures NewIds([]) == []
  {}

  lemma {:induction false} NewIdsMember(q: seq<Task>, i: nat)
    requires i < |q| && q[i].New?
    ensures q[i].order.id in NewIds(q)
  {
    if i > 0 { NewIdsMember(q[1..], i - 1); }
  }

  function HandSlot(h: Hand, s: nat): multiset<nat> {
    if (h.Built? || h.Recorded?) && ShardOf(h.order.inst) == s then multiset{h.order.id} else multiset{}
  }

  function Mine(c: Config, w: nat, slot: nat): multiset<nat>
    requires c.Valid()
  {
    if c.Owner(slot) == w then multiset{slot} else multiset{}
  }

  function EngineSlots(c: Config, w: nat, sh: Shard): multiset<nat>
    requires c.Valid()
  {
    (if sh.current.Just? then Mine(c, w, sh.current.value.id) else multiset{})
    + (if sh.held.Just? then Mine(c, w, sh.held.value) else multiset{})
  }

  function RestingSlots(c: Config, w: nat, sh: Shard): set<nat>
    requires c.Valid()
  {
    set k | k in sh.resting && c.Owner(k) == w
  }

  /** Every place that can hold a slot of worker w's slice of shard s, with multiplicity: never issued,
      recycled, in the worker's hand, in an in-flight NEW, resting, in the engine's hand. */
  function LaneSlots(c: Config, s: nat, w: nat, lane: Lane, hand: Hand, sh: Shard): multiset<nat>
    requires c.Valid()
  {
    multiset(Range(lane.highWater, c.High(w))) + multiset(lane.recycle) + multiset(NewIds(lane.queue))
    + HandSlot(hand, s) + multiset(RestingSlots(c, w, sh)) + EngineSlots(c, w, sh)
  }

  /** The slots of the slice, each once. */
  function Full(c: Config, w: nat): multiset<nat>
    requires c.Valid()
  {
    multiset(Range(c.First(w), c.High(w)))
  }

  lemma FullOwner(c: Config, w: nat, k: nat)
    requires c.Valid() && k in Full(c, w)
    ensures c.Owner(k) == w && k > 0
  {
    OwnerOfSlice(c, w, k);
    SlicePositive(c);
    if w > 0 { Multiples(1, w, c.Slice()); }
    hide Config.Owner, Config.Slice;
    assert k in Range(c.First(w), c.High(w));
  }

  // ---- what orders, tasks and sessions look like ----

  predicate OrderOk(c: Config, s: nat, w: nat, o: Order, home: map<nat, nat>)
    requires c.Valid()
  {
    && ShardOf(o.inst) == s && o.inst < MAX_INSTRUMENTS && o.worker == w && c.Owner(o.id) == w
    && o.client in home && home[o.client] == w
  }

  /** If o is the order that (id, token) names, it is client's. */
  predicate Agrees(o: Order, id: nat, token: nat, client: nat) {
    o.id == id && o.token == token ==> o.client == client
  }

  predicate EngineAgrees(sh: Shard, id: nat, token: nat, client: nat) {
    && (id in sh.resting ==> Agrees(sh.resting[id], id, token, client))
    && (sh.current.Just? ==> Agrees(sh.current.value, id, token, client))
  }

  predicate QueueAgrees(q: seq<Task>, id: nat, token: nat, client: nat) {
    forall j :: 0 <= j < |q| && q[j].New? ==> Agrees(q[j].order, id, token, client)
  }

  predicate TaskOk(c: Config, s: nat, w: nat, q: seq<Task>, i: nat, sh: Shard, home: map<nat, nat>)
    requires c.Valid() && i < |q|
  {
    match q[i]
    case New(o) => OrderOk(c, s, w, o, home) && Vetted(o)
    case Cancel(id, token, sender) =>
      && c.Owner(id) == w && sender in home && home[sender] == w
      && EngineAgrees(sh, id, token, sender) && QueueAgrees(q[..i], id, token, sender)
  }

  predicate HandOk(c: Config, s: nat, w: nat, q: seq<Task>, hand: Hand, sh: Shard, home: map<nat, nat>)
    requires c.Valid()
  {
    match hand
    case Free => true
    case Built(o) => ShardOf(o.inst) == s ==> OrderOk(c, s, w, o, home) && Vetted(o)
    case Recorded(o) => ShardOf(o.inst) == s ==> OrderOk(c, s, w, o, home) && Vetted(o)
    case Cancelling(s', id, token, sender) => s' == s ==>
      && c.Owner(id) == w && sender in home && home[sender] == w
      && EngineAgrees(sh, id, token, sender) && QueueAgrees(q, id, token, sender)
  }

  ghost predicate LaneOk(c: Config, s: nat, w: nat, lane: Lane, hand: Hand, sh: Shard, home: map<nat, nat>)
    requires c.Valid()
  {
    && LaneSlots(c, s, w, lane, hand, sh) == Full(c, w)
    && (forall i :: 0 <= i < |lane.queue| ==> TaskOk(c, s, w, lane.queue, i, sh, home))
    && HandOk(c, s, w, lane.queue, hand, sh, home)
  }

  ghost predicate ShardOk(c: Config, s: nat, sh: Shard, home: map<nat, nat>)
    requires c.Valid()
  {
    && (forall id :: id in sh.resting ==>
          sh.resting[id].id == id && c.Owner(id) < c.workers && OrderOk(c, s, c.Owner(id), sh.resting[id], home))
    && (sh.current.Just? ==> c.Owner(sh.current.value.id) < c.workers)
    && (sh.current.Just? ==> OrderOk(c, s, c.Owner(sh.current.value.id), sh.current.value, home))
    && (sh.held.Just? ==> c.Owner(sh.held.value) < c.workers)
  }

  predicate RecordedAgrees(h: Hand, s: nat, id: nat, token: nat, client: nat) {
    h.Recorded? && ShardOf(h.order.inst) == s ==> Agrees(h.order, id, token, client)
  }

  /** A session entry names its own client's slot, and any live order of that slot with that token is that
      client's. */
  predicate SessionOk(c: Config, token: nat, e: Session, lane: Lane, hand: Hand, sh: Shard, home: map<nat, nat>)
    requires c.Valid()
  {
    && e.client in home && c.Owner(e.id) == home[e.client] && e.inst < MAX_INSTRUMENTS
    && EngineAgrees(sh, e.id, token, e.client) && QueueAgrees(lane.queue, e.id, token, e.client)
    && RecordedAgrees(hand, ShardOf(e.inst), e.id, token, e.client)
  }

  ghost predicate HomeOk(c: Config, st: State) {
    forall k :: k in st.home ==> st.home[k] < c.workers && k < st.nextClient
  }

  ghost predicate LanesOk(c: Config, st: State)
    requires c.Valid() && Shaped(c, st)
  {
    forall s, w :: 0 <= s < NUM_SHARDS && 0 <= w < c.workers ==>
      LaneOk(c, s, w, st.lanes[(s, w)], st.hands[w], st.shards[s], st.home)
  }

  ghost predicate ShardsOk(c: Config, st: State)
    requires c.Valid() && Shaped(c, st)
  {
    forall s :: 0 <= s < NUM_SHARDS ==> ShardOk(c, s, st.shards[s], st.home)
  }

  /** The session entry of token t, against the lane, hand and shard it is about. */
  ghost predicate EntryOk(c: Config, st: State, t: nat)
    requires c.Valid() && Shaped(c, st) && HomeOk(c, st) && t in st.session
  {
    st.session[t].client in st.home &&
    var e := st.session[t]; var w, s := st.home[e.client], ShardOf(e.inst);
    SessionOk(c, t, e, st.lanes[(s, w)], st.hands[w], st.shards[s], st.home)
  }

  ghost predicate SessionsOk(c: Config, st: State)
    requires c.Valid() && Shaped(c, st) && HomeOk(c, st)
  {
    forall t :: t in st.session ==> EntryOk(c, st, t)
  }

  ghost predicate Inv(c: Config, st: State) {
    c.Valid() && Shaped(c, st) && HomeOk(c, st) && LanesOk(c, st) && ShardsOk(c, st) && SessionsOk(c, st)
  }

  lemma LaneAt(c: Config, st: State, s: nat, w: nat)
    requires Inv(c, st) && s < NUM_SHARDS && w < c.workers
    ensures LaneOk(c, s, w, st.lanes[(s, w)], st.hands[w], st.shards[s], st.home)
  {
    hide LaneOk, ShardsOk, SessionsOk;
  }

  lemma ShardAt(c: Config, st: State, s: nat)
    requires Inv(c, st) && s < NUM_SHARDS
    ensures ShardOk(c, s, st.shards[s], st.home)
  {
    hide ShardOk, LanesOk, SessionsOk;
  }

  lemma EntryAt(c: Config, st: State, t: nat)
    requires Inv(c, st) && t in st.session
    ensures EntryOk(c, st, t)
  {
    hide EntryOk, LanesOk, ShardsOk;
  }

  lemma EntriesOk(c: Config, st: State)
    requires c.Valid() && Shaped(c, st) && HomeOk(c, st) && forall t :: t in st.session ==> EntryOk(c, st, t)
    ensures SessionsOk(c, st)
  {
    hide EntryOk;
  }

  // ---- a slot has one place ----

  /** A slot in the worker's hand is in no NEW, not resting, and not being matched. */
  lemma HeldOnce(c: Config, s: nat, w: nat, lane: Lane, hand: Hand, sh: Shard)
    requires c.Valid() && LaneSlots(c, s, w, lane, hand, sh) == Full(c, w)
    requires (hand.Built? || hand.Recorded?) && ShardOf(hand.order.inst) == s
    ensures var id := hand.order.id;
      && id !in NewIds(lane.queue) && c.Owner(id) == w && id !in sh.resting
      && (sh.current.Just? ==> sh.current.value.id != id)
  {
    var id := hand.order.id;
    assert HandSlot(hand, s)[id] == 1;
    assert id in LaneSlots(c, s, w, lane, hand, sh);
    FullOwner(c, w, id);
    assert Full(c, w)[id] <= 1;
  }

  // ---- gateway steps ----

  /** allocate moves one slot from the slice's free slots into the worker's hand. */
  lemma AllocateConserves(c: Config, s: nat, w: nat, lane: Lane, sh: Shard, o: Order, lane': Lane)
    requires c.Valid() && LaneSlots(c, s, w, lane, Free, sh) == Full(c, w)
    requires TakeSlot(c, lane, w) == Just((o.id, lane')) && ShardOf(o.inst) == s
    ensures LaneSlots(c, s, w, lane', Built(o), sh) == Full(c, w) && lane'.queue == lane.queue && c.Owner(o.id) == w
  {
    hide Config.High, Config.Owner, NewIds, RestingSlots, EngineSlots, Range, TakeSlot, Full;
    var free, free' := multiset(Range(lane.highWater, c.High(w))) + multiset(lane.recycle),
      multiset(Range(lane'.highWater, c.High(w))) + multiset(lane'.recycle);
    FreeSlots(c, lane, w, o.id, lane');
    assert free == free' + multiset{o.id};
    assert HandSlot(Built(o), s) == multiset{o.id};
    assert LaneSlots(c, s, w, lane', Built(o), sh) == LaneSlots(c, s, w, lane, Free, sh);
    assert o.id in LaneSlots(c, s, w, lane', Built(o), sh);
    FullOwner(c, w, o.id);
  }

  lemma FreeSlots(c: Config, lane: Lane, w: nat, slot: nat, lane': Lane)
    requires c.Valid() && TakeSlot(c, lane, w) == Just((slot, lane'))
    ensures multiset(Range(lane.highWater, c.High(w))) + multiset(lane.recycle) ==
      multiset(Range(lane'.highWater, c.High(w))) + multiset(lane'.recycle) + multiset{slot}
    ensures lane'.queue == lane.queue
  {
    hide Config.High;
    if lane.recycle != [] {
      assert lane.recycle == [lane.recycle[0]] + lane.recycle[1..];
    } else {
      assert Range(lane.highWater, c.High(w)) == {lane.highWater} + Range(lane.highWater + 1, c.High(w));
    }
  }

  lemma AllocateLane(c: Config, s: nat, w: nat, lane: Lane, sh: Shard, home: map<nat, nat>, o: Order, lane': Lane)
    requires c.Valid() && LaneOk(c, s, w, lane, Free, sh, home)
    requires TakeSlot(c, lane, w) == Just((o.id, lane')) && ShardOf(o.inst) == s
    requires o.inst < MAX_INSTRUMENTS && o.worker == w && o.client in home && home[o.client] == w && Vetted(o)
    ensures LaneOk(c, s, w, lane', Built(o), sh, home) && lane'.queue == lane.queue
  {
    hide LaneSlots, Full, TakeSlot;
    AllocateConserves(c, s, w, lane, sh, o, lane');
  }

  lemma LaneHomeGrows(
      c: Config, s: nat, w: nat, lane: Lane, hand: Hand, sh: Shard, home: map<nat, nat>, home': map<nat, nat>)
    requires c.Valid() && LaneOk(c, s, w, lane, hand, sh, home)
    requires forall k :: k in home ==> k in home' && home'[k] == home[k]
    ensures LaneOk(c, s, w, lane, hand, sh, home')
  {
    hide LaneSlots, Full, EngineAgrees, QueueAgrees;
    forall i | 0 <= i < |lane.queue| ensures TaskOk(c, s, w, lane.queue, i, sh, home') {
      assert TaskOk(c, s, w, lane.queue, i, sh, home);
    }
  }

  lemma AcceptKeeps(c: Config, st: State, w: nat)
    requires Inv(c, st)
    ensures Inv(c, Step(c, st, Accept(w)))
  {
    hide LanesOk, ShardsOk, SessionsOk;
    if w < c.workers {
      assert st.nextClient !in st.home;
      HomeGrows(c, st, st.home[st.nextClient := w]);
    }
  }

  /** A new connection changes nothing for the orders of the others. */
  lemma HomeGrows(c: Config, st: State, home': map<nat, nat>)
    requires Inv(c, st) && (forall k :: k in st.home ==> k in home' && home'[k] == st.home[k])
    requires HomeOk(c, st.(home := home', nextClient := st.nextClient + 1))
    ensures var st' := st.(home := home', nextClient := st.nextClient + 1);
      LanesOk(c, st') && ShardsOk(c, st') && SessionsOk(c, st')
  {
    var st' := st.(home := home', nextClient := st.nextClient + 1);
    assert LanesOk(c, st') by {
      hide LaneOk, SessionsOk, ShardsOk;
      forall s, v | 0 <= s < NUM_SHARDS && 0 <= v < c.workers
        ensures LaneOk(c, s, v, st.lanes[(s, v)], st.hands[v], st.shards[s], home')
      {
        LaneHomeGrows(c, s, v, st.lanes[(s, v)], st.hands[v], st.shards[s], st.home, home');
      }
    }
    assert ShardsOk(c, st') by {
      hide LanesOk, SessionsOk, ShardOk;
      forall s | 0 <= s < NUM_SHARDS ensures ShardOk(c, s, st.shards[s], home') {
        ShardHomeGrows(c, s, st.shards[s], st.home, home');
      }
    }
    assert SessionsOk(c, st') by {
      hide LanesOk, ShardsOk, SessionOk;
      forall t | t in st.session ensures EntryOk(c, st', t) {
        assert EntryOk(c, st, t);
        var e := st.session[t];
        EntryHomeGrows(c, t, e, st.lanes[(ShardOf(e.inst), st.home[e.client])], st.hands[st.home[e.client]],
                       st.shards[ShardOf(e.inst)], st.home, home');
      }
    }
  }

  lemma ShardHomeGrows(c: Config, s: nat, sh: Shard, home: map<nat, nat>, home': map<nat, nat>)
    requires c.Valid() && ShardOk(c, s, sh, home)
    requires forall k :: k in home ==> k in home' && home'[k] == home[k]
    ensures ShardOk(c, s, sh, home')
  {
    hide Config.Owner;
  }

  lemma EntryHomeGrows(
      c: Config, t: nat, e: Session, lane: Lane, hand: Hand, sh: Shard, home: map<nat, nat>, home': map<nat, nat>)
    requires c.Valid() && SessionOk(c, t, e, lane, hand, sh, home)
    requires forall k :: k in home ==> k in home' && home'[k] == home[k]
    ensures SessionOk(c, t, e, lane, hand, sh, home')
  {}

  // A worker's step that changes its hand and at most its own lane of one shard.
  lemma WorkerKeeps(c: Config, st: State, st': State, w: nat, s0: nat)
    requires Inv(c, st) && w < c.workers && s0 < NUM_SHARDS && Shaped(c, st')
    requires st'.shards == st.shards && st'.home == st.home && st'.nextClient == st.nextClient
    requires forall s, v :: 0 <= s < NUM_SHARDS && 0 <= v < c.workers && (s, v) != (s0, w) ==>
      st'.lanes[(s, v)] == st.lanes[(s, v)]
    requires forall v :: 0 <= v < c.workers && v != w ==> st'.hands[v] == st.hands[v]
    requires LaneOk(c, s0, w, st'.lanes[(s0, w)], st'.hands[w], st.shards[s0], st.home)
    requires forall s :: 0 <= s < NUM_SHARDS && s != s0 ==>
      LaneOk(c, s, w, st.lanes[(s, w)], st'.hands[w], st.shards[s], st.home)
    requires forall t :: t in st'.session ==> EntryOk(c, st', t)
    ensures Inv(c, st')
  {
    hide LaneOk, EntryOk, ShardOk;
    forall s, v | 0 <= s < NUM_SHARDS && 0 <= v < c.workers
      ensures LaneOk(c, s, v, st'.lanes[(s, v)], st'.hands[v], st'.shards[s], st'.home)
    {
      if v != w { assert LaneOk(c, s, v, st.lanes[(s, v)], st.hands[v], st.shards[s], st.home); }
    }
  }

  // Other shards' lanes do not see a change of hand that is about shard s0.
  lemma OtherShards(c: Config, s: nat, w: nat, lane: Lane, hand: Hand, hand': Hand, sh: Shard, home: map<nat, nat>)
    requires c.Valid() && LaneOk(c, s, w, lane, hand, sh, home)
    requires HandSlot(hand', s) == HandSlot(hand, s) && HandOk(c, s, w, lane.queue, hand', sh, home)
    ensures LaneOk(c, s, w, lane, hand', sh, home)
  {}

  lemma AllocateKeeps(c: Config, st: State, l: Label)
    requires Inv(c, st) && l.Allocate?
    ensures Inv(c, Step(c, st, l))
  {
    hide LaneOk, ShardOk, TakeSlot, PassesRisk, Vetted;
    var st' := Step(c, st, l);
    if st' != st {
      var w, s0 := l.w, ShardOf(l.inst);
      var o := st'.hands[w].order;
      assert LaneOk(c, s0, w, st.lanes[(s0, w)], Free, st.shards[s0], st.home);
      RiskBounds(o);
      AllocateLane(c, s0, w, st.lanes[(s0, w)], st.shards[s0], st.home, o, st'.lanes[(s0, w)]);
      forall s | 0 <= s < NUM_SHARDS && s != s0
        ensures LaneOk(c, s, w, st.lanes[(s, w)], Built(o), st.shards[s], st.home)
      {
        assert LaneOk(c, s, w, st.lanes[(s, w)], Free, st.shards[s], st.home);
        OtherShards(c, s, w, st.lanes[(s, w)], Free, Built(o), st.shards[s], st.home);
      }
      forall t | t in st'.session ensures EntryOk(c, st', t) { assert EntryOk(c, st, t); }
      WorkerKeeps(c, st, st', w, s0);
    }
  }

  lemma RiskBounds(o: Order)
    requires PassesRisk(o.token, o.price, o.qty, o.inst)
    ensures o.inst < MAX_INSTRUMENTS && Vetted(o)
  {}

  /** record_order makes the new order the one its token names. */
  lemma RecordedEntry(c: Config, s: nat, w: nat, lane: Lane, o: Order, sh: Shard, home: map<nat, nat>)
    requires c.Valid() && LaneOk(c, s, w, lane, Built(o), sh, home) && ShardOf(o.inst) == s
    ensures SessionOk(c, o.token, Session(o.id, o.inst, o.client), lane, Recorded(o), sh, home)
  {
    hide LaneSlots, Full, Config.Owner;
    HeldOnce(c, s, w, lane, Built(o), sh);
    forall j | 0 <= j < |lane.queue| && lane.queue[j].New? ensures lane.queue[j].order.id != o.id {
      NewIdsMember(lane.queue, j);
    }
  }

  lemma RecordKeeps(c: Config, st: State, w: nat)
    requires Inv(c, st)
    ensures Inv(c, Step(c, st, Record(w)))
  {
    hide LaneOk, ShardOk, EngineAgrees, QueueAgrees;
    var st' := Step(c, st, Record(w));
    if w in st.hands && st.hands[w].Built? {
      var o := st.hands[w].order;
      var s0 := ShardOf(o.inst);
      assert LaneOk(c, s0, w, st.lanes[(s0, w)], Built(o), st.shards[s0], st.home);
      RecordedEntry(c, s0, w, st.lanes[(s0, w)], o, st.shards[s0], st.home);
      forall s | 0 <= s < NUM_SHARDS ensures LaneOk(c, s, w, st.lanes[(s, w)], Recorded(o), st.shards[s], st.home) {
        RecordedLane(c, s, w, st.lanes[(s, w)], o, st.shards[s], st.home);
      }
      assert OrderOk(c, s0, w, o, st.home) by { HandOrderOk(c, s0, w, st.lanes[(s0, w)], o, st.shards[s0], st.home); }
      forall t | t in st'.session ensures EntryOk(c, st', t) {
        if t != o.token { assert EntryOk(c, st, t); }
      }
      WorkerKeeps(c, st, st', w, s0);
    }
  }

  lemma HandOrderOk(c: Config, s: nat, w: nat, lane: Lane, o: Order, sh: Shard, home: map<nat, nat>)
    requires c.Valid() && LaneOk(c, s, w, lane, Built(o), sh, home) && ShardOf(o.inst) == s
    ensures OrderOk(c, s, w, o, home)
  {}

  lemma RecordedLane(c: Config, s: nat, w: nat, lane: Lane, o: Order, sh: Shard, home: map<nat, nat>)
    requires c.Valid() && LaneOk(c, s, w, lane, Built(o), sh, home)
    ensures LaneOk(c, s, w, lane, Recorded(o), sh, home)
  {
    assert HandSlot(Recorded(o), s) == HandSlot(Built(o), s);
  }

  // A task pushed at the end of the queue is after everything already there.
  lemma PushedTasks(c: Config, s: nat, w: nat, q: seq<Task>, t: Task, sh: Shard, home: map<nat, nat>)
    requires c.Valid() && forall i :: 0 <= i < |q| ==> TaskOk(c, s, w, q, i, sh, home)
    requires TaskOk(c, s, w, q + [t], |q|, sh, home)
    ensures forall i :: 0 <= i < |q + [t]| ==> TaskOk(c, s, w, q + [t], i, sh, home)
  {
    forall i | 0 <= i < |q + [t]| ensures TaskOk(c, s, w, q + [t], i, sh, home) {
      if i < |q| {
        assert (q + [t])[..i] == q[..i];
        assert TaskOk(c, s, w, q, i, sh, home);
      }
    }
  }

  // Pushing the order in hand, or a cancel, moves no slot out of the lane.
  lemma PushConserves(c: Config, s: nat, w: nat, lane: Lane, hand: Hand, t: Task, sh: Shard)
    requires c.Valid()
    requires HandSlot(hand, s) == if t.New? then multiset{t.order.id} else multiset{}
    ensures LaneSlots(c, s, w, lane.(queue := lane.queue + [t]), Free, sh) == LaneSlots(c, s, w, lane, hand, sh)
  {
    hide Config.High, Range, RestingSlots, EngineSlots, NewIds;
    NewIdsAppend(lane.queue, t);
    assert multiset(NewIds(lane.queue + [t])) == multiset(NewIds(lane.queue)) + HandSlot(hand, s);
  }

  lemma SubmittedLane(c: Config, s: nat, w: nat, lane: Lane, o: Order, sh: Shard, home: map<nat, nat>)
    requires c.Valid() && LaneOk(c, s, w, lane, Recorded(o), sh, home) && ShardOf(o.inst) == s
    ensures LaneOk(c, s, w, lane.(queue := lane.queue + [Task.New(o)]), Free, sh, home)
  {
    hide LaneSlots, Full;
    PushConserves(c, s, w, lane, Recorded(o), Task.New(o), sh);
    PushedTasks(c, s, w, lane.queue, Task.New(o), sh, home);
  }

  /** The order in hand agreed with the entry; so does its task in the queue. */
  lemma SubmittedEntry(c: Config, t: nat, e: Session, lane: Lane, o: Order, sh: Shard, home: map<nat, nat>)
    requires c.Valid() && SessionOk(c, t, e, lane, Recorded(o), sh, home)
    ensures ShardOf(o.inst) != ShardOf(e.inst) ==> SessionOk(c, t, e, lane, Free, sh, home)
    ensures ShardOf(o.inst) == ShardOf(e.inst) ==>
      SessionOk(c, t, e, lane.(queue := lane.queue + [Task.New(o)]), Free, sh, home)
  {
    hide EngineAgrees, Config.Owner;
  }

  lemma SubmitNewKeeps(c: Config, st: State, w: nat)
    requires Inv(c, st)
    ensures Inv(c, Step(c, st, SubmitNew(w)))
  {
    hide LaneOk, ShardOk, SessionOk, Config.Owner, LanesOk, ShardsOk, SessionsOk, EngineAgrees, QueueAgrees;
    var st' := Step(c, st, SubmitNew(w));
    if w in st.hands && st.hands[w].Recorded? {
      var o := st.hands[w].order;
      var s0 := ShardOf(o.inst);
      LaneAt(c, st, s0, w);
      SubmittedLane(c, s0, w, st.lanes[(s0, w)], o, st.shards[s0], st.home);
      forall s | 0 <= s < NUM_SHARDS && s != s0 ensures LaneOk(c, s, w, st.lanes[(s, w)], Free, st.shards[s], st.home) {
        LaneAt(c, st, s, w);
        OtherShards(c, s, w, st.lanes[(s, w)], Recorded(o), Free, st.shards[s], st.home);
      }
      forall t | t in st'.session ensures EntryOk(c, st', t) {
        EntryAt(c, st, t);
        var e := st.session[t];
        if st.home[e.client] == w {
          SubmittedEntry(c, t, e, st.lanes[(ShardOf(e.inst), w)], o, st.shards[ShardOf(e.inst)], st.home);
        }
      }
      WorkerKeeps(c, st, st', w, s0);
    }
  }

  lemma LookUpKeeps(c: Config, st: State, l: Label)
    requires Inv(c, st) && l.LookUp?
    ensures Inv(c, Step(c, st, l))
  {
    hide LaneOk, ShardOk, EngineAgrees, QueueAgrees;
    var st' := Step(c, st, l);
    if st' != st {
      var w, e := l.w, st.session[l.token];
      var s0, hand := ShardOf(e.inst), st'.hands[l.w];
      assert EntryOk(c, st, l.token);
      forall s | 0 <= s < NUM_SHARDS ensures LaneOk(c, s, w, st.lanes[(s, w)], hand, st.shards[s], st.home) {
        assert LaneOk(c, s, w, st.lanes[(s, w)], Free, st.shards[s], st.home);
        OtherShards(c, s, w, st.lanes[(s, w)], Free, hand, st.shards[s], st.home);
      }
      forall t | t in st'.session ensures EntryOk(c, st', t) { assert EntryOk(c, st, t); }
      WorkerKeeps(c, st, st', w, s0);
    }
  }

  lemma CancelledLane(c: Config, w: nat, lane: Lane, h: Hand, sh: Shard, home: map<nat, nat>)
    requires c.Valid() && h.Cancelling? && LaneOk(c, h.shard, w, lane, h, sh, home)
    ensures LaneOk(c, h.shard, w, lane.(queue := lane.queue + [Cancel(h.id, h.token, h.sender)]), Free, sh, home)
  {
    hide LaneSlots, Full, EngineAgrees, QueueAgrees;
    var t := Cancel(h.id, h.token, h.sender);
    PushConserves(c, h.shard, w, lane, h, t, sh);
    assert (lane.queue + [t])[..|lane.queue|] == lane.queue;
    PushedTasks(c, h.shard, w, lane.queue, t, sh, home);
  }

  lemma CancelledEntry(c: Config, t: nat, e: Session, lane: Lane, h: Hand, sh: Shard, home: map<nat, nat>)
    requires c.Valid() && h.Cancelling? && SessionOk(c, t, e, lane, h, sh, home)
    ensures SessionOk(c, t, e, lane, Free, sh, home)
    ensures SessionOk(c, t, e, lane.(queue := lane.queue + [Cancel(h.id, h.token, h.sender)]), Free, sh, home)
  {
    hide EngineAgrees, Config.Owner;
  }

  lemma SubmitCancelKeeps(c: Config, st: State, w: nat)
    requires Inv(c, st)
    ensures Inv(c, Step(c, st, SubmitCancel(w)))
  {
    hide LaneOk, ShardOk, SessionOk, Config.Owner, LanesOk, ShardsOk, SessionsOk, EngineAgrees, QueueAgrees;
    var st' := Step(c, st, SubmitCancel(w));
    if st' != st {
      var h := st.hands[w];
      var s0 := h.shard;
      LaneAt(c, st, s0, w);
      CancelledLane(c, w, st.lanes[(s0, w)], h, st.shards[s0], st.home);
      forall s | 0 <= s < NUM_SHARDS && s != s0 ensures LaneOk(c, s, w, st.lanes[(s, w)], Free, st.shards[s], st.home) {
        LaneAt(c, st, s, w);
        OtherShards(c, s, w, st.lanes[(s, w)], h, Free, st.shards[s], st.home);
      }
      forall t | t in st'.session ensures EntryOk(c, st', t) {
        EntryAt(c, st, t);
        var e := st.session[t];
        if st.home[e.client] == w {
          CancelledEntry(c, t, e, st.lanes[(ShardOf(e.inst), w)], h, st.shards[ShardOf(e.inst)], st.home);
        }
      }
      WorkerKeeps(c, st, st', w, s0);
    }
  }

  // ---- engine steps ----

  ghost predicate ShardLanesOk(c: Config, st: State, s: nat)
    requires c.Valid() && Shaped(c, st) && s < NUM_SHARDS
  {
    forall v :: 0 <= v < c.workers ==> LaneOk(c, s, v, st.lanes[(s, v)], st.hands[v], st.shards[s], st.home)
  }

  /** st' is st but for shard s0 and its lanes. */
  ghost predicate OnlyShard(c: Config, st: State, st': State, s0: nat)
    requires Shaped(c, st) && Shaped(c, st')
  {
    && st'.hands == st.hands && st'.home == st.home && st'.nextClient == st.nextClient && st'.session == st.session
    && (forall s, v :: 0 <= s < NUM_SHARDS && 0 <= v < c.workers && s != s0 ==> st'.lanes[(s, v)] == st.lanes[(s, v)])
    && (forall s :: 0 <= s < NUM_SHARDS && s != s0 ==> st'.shards[s] == st.shards[s])
  }

  // An engine's step that changes its own shard and that shard's lanes.
  lemma EngineKeeps(c: Config, st: State, st': State, s0: nat)
    requires c.Valid() && s0 < NUM_SHARDS && Shaped(c, st) && Shaped(c, st') && OnlyShard(c, st, st', s0)
    requires ShardLanesOk(c, st', s0) && ShardOk(c, s0, st'.shards[s0], st'.home)
    requires HomeOk(c, st') && SessionsOk(c, st')
    requires Inv(c, st)
    ensures Inv(c, st')
  {
    hide LaneOk, EntryOk, ShardOk;
    forall s, v | 0 <= s < NUM_SHARDS && 0 <= v < c.workers
      ensures LaneOk(c, s, v, st'.lanes[(s, v)], st'.hands[v], st'.shards[s], st'.home)
    {
      if s != s0 { assert LaneOk(c, s, v, st.lanes[(s, v)], st.hands[v], st.shards[s], st.home); }
    }
    forall s | 0 <= s < NUM_SHARDS ensures ShardOk(c, s, st'.shards[s], st'.home) {
      if s != s0 { assert ShardOk(c, s, st.shards[s], st.home); }
    }
  }

  predicate SameIdentity(o: Order, o': Order) {
    o'.(qty := o.qty) == o
  }

  /** sh' holds only orders that sh held, up to their remaining quantity. */
  ghost predicate Derived(sh: Shard, sh': Shard) {
    && (sh'.current.Just? ==> sh'.current == sh.current)
    && (forall id :: id in sh'.resting ==>
          (id in sh.resting && SameIdentity(sh.resting[id], sh'.resting[id])) ||
          (sh.current.Just? && sh.current.value.id == id && SameIdentity(sh.current.value, sh'.resting[id])))
  }

  function EngineTotal(c: Config, v: nat, sh: Shard): multiset<nat>
    requires c.Valid()
  {
    multiset(RestingSlots(c, v, sh)) + EngineSlots(c, v, sh)
  }

  lemma DerivedAgrees(sh: Shard, sh': Shard, id: nat, token: nat, client: nat)
    requires Derived(sh, sh') && EngineAgrees(sh, id, token, client)
    ensures EngineAgrees(sh', id, token, client)
  {}

  lemma DerivedLane(c: Config, s: nat, v: nat, lane: Lane, hand: Hand, sh: Shard, sh': Shard, home: map<nat, nat>)
    requires c.Valid() && LaneOk(c, s, v, lane, hand, sh, home) && Derived(sh, sh')
    requires EngineTotal(c, v, sh') == EngineTotal(c, v, sh)
    ensures LaneOk(c, s, v, lane, hand, sh', home)
  {
    hide LaneSlots, EngineTotal, Full, Derived, EngineAgrees, QueueAgrees;
    SameTotals(c, s, v, lane, hand, sh, sh');
    forall i | 0 <= i < |lane.queue| ensures TaskOk(c, s, v, lane.queue, i, sh', home) {
      assert TaskOk(c, s, v, lane.queue, i, sh, home);
      if lane.queue[i].Cancel? { DerivedAgrees(sh, sh', lane.queue[i].id, lane.queue[i].token, lane.queue[i].sender); }
    }
    if hand.Cancelling? && hand.shard == s { DerivedAgrees(sh, sh', hand.id, hand.token, hand.sender); }
  }

  lemma SameTotals(c: Config, s: nat, v: nat, lane: Lane, hand: Hand, sh: Shard, sh': Shard)
    requires c.Valid() && EngineTotal(c, v, sh') == EngineTotal(c, v, sh)
    ensures LaneSlots(c, s, v, lane, hand, sh') == LaneSlots(c, s, v, lane, hand, sh)
  {
    hide Config.High, Range, NewIds, RestingSlots, EngineSlots, HandSlot;
    var rest := multiset(Range(lane.highWater, c.High(v))) + multiset(lane.recycle)
      + multiset(NewIds(lane.queue)) + HandSlot(hand, s);
    assert LaneSlots(c, s, v, lane, hand, sh') == rest + EngineTotal(c, v, sh');
    assert LaneSlots(c, s, v, lane, hand, sh) == rest + EngineTotal(c, v, sh);
  }

  lemma DerivedEntry(c: Config, t: nat, e: Session, lane: Lane, hand: Hand, sh: Shard, sh': Shard, home: map<nat, nat>)
    requires c.Valid() && SessionOk(c, t, e, lane, hand, sh, home) && Derived(sh, sh')
    ensures SessionOk(c, t, e, lane, hand, sh', home)
  {
    hide EngineAgrees, Derived, QueueAgrees, RecordedAgrees;
    DerivedAgrees(sh, sh', e.id, t, e.client);
  }

  // Taking an order out of orders_by_id moves its slot into the engine's hand.
  lemma OutOfBook(c: Config, s: nat, sh: Shard, id: nat, home: map<nat, nat>)
    requires c.Valid() && ShardOk(c, s, sh, home) && id in sh.resting && sh.held.Nothing?
    ensures var sh' := sh.(resting := sh.resting - {id}, held := Just(id));
      Derived(sh, sh') && ShardOk(c, s, sh', home) && forall v :: EngineTotal(c, v, sh') == EngineTotal(c, v, sh)
  {
    hide Config.Owner, EngineTotal;
    var sh' := sh.(resting := sh.resting - {id}, held := Just(id));
    forall v ensures EngineTotal(c, v, sh') == EngineTotal(c, v, sh) { TotalOut(c, v, sh, id); }
  }

  lemma TotalOut(c: Config, v: nat, sh: Shard, id: nat)
    requires c.Valid() && id in sh.resting && sh.held.Nothing?
    ensures EngineTotal(c, v, sh.(resting := sh.resting - {id}, held := Just(id))) == EngineTotal(c, v, sh)
  {
    hide Config.Owner;
    var sh' := sh.(resting := sh.resting - {id}, held := Just(id));
    if c.Owner(id) == v {
      assert RestingSlots(c, v, sh) == RestingSlots(c, v, sh') + {id};
      assert id !in RestingSlots(c, v, sh');
    } else {
      assert RestingSlots(c, v, sh) == RestingSlots(c, v, sh');
    }
  }

  lemma ReducedInBook(c: Config, s: nat, sh: Shard, id: nat, qty: nat, home: map<nat, nat>)
    requires c.Valid() && ShardOk(c, s, sh, home) && id in sh.resting && sh.held.Nothing? && sh.current.Just?
    ensures var sh' := sh.(resting := sh.resting[id := sh.resting[id].(qty := qty)], current := Nothing,
                           held := Just(sh.current.value.id));
      Derived(sh, sh') && ShardOk(c, s, sh', home) && forall v :: EngineTotal(c, v, sh') == EngineTotal(c, v, sh)
  {
    hide Config.Owner;
    var sh' := sh.(resting := sh.resting[id := sh.resting[id].(qty := qty)], current := Nothing,
                   held := Just(sh.current.value.id));
    forall v ensures EngineTotal(c, v, sh') == EngineTotal(c, v, sh) {
      assert RestingSlots(c, v, sh) == RestingSlots(c, v, sh');
    }
  }

  lemma IntoBook(c: Config, s: nat, sh: Shard, qty: nat, home: map<nat, nat>)
    requires c.Valid() && ShardOk(c, s, sh, home)
    requires sh.held.Nothing? && sh.current.Just? && sh.current.value.id !in sh.resting
    ensures var o := sh.current.value;
      var sh' := sh.(resting := sh.resting[o.id := o.(qty := qty)], current := Nothing);
      Derived(sh, sh') && ShardOk(c, s, sh', home) && forall v :: EngineTotal(c, v, sh') == EngineTotal(c, v, sh)
  {
    hide Config.Owner, EngineTotal;
    var o := sh.current.value;
    var sh' := sh.(resting := sh.resting[o.id := o.(qty := qty)], current := Nothing);
    forall v ensures EngineTotal(c, v, sh') == EngineTotal(c, v, sh) { TotalIn(c, v, sh, qty); }
  }

  lemma TotalIn(c: Config, v: nat, sh: Shard, qty: nat)
    requires c.Valid() && sh.current.Just? && sh.current.value.id !in sh.resting
    ensures var o := sh.current.value;
      EngineTotal(c, v, sh.(resting := sh.resting[o.id := o.(qty := qty)], current := Nothing)) == EngineTotal(c, v, sh)
  {
    hide Config.Owner, RestingSlots;
    var o := sh.current.value;
    RestingWith(c, v, sh, o, qty);
    var sh' := sh.(resting := sh.resting[o.id := o.(qty := qty)], current := Nothing);
    assert RestingSlots(c, v, sh') == RestingSlots(c, v, sh) + if c.Owner(o.id) == v then {o.id} else {};
  }

  lemma RestingWith(c: Config, v: nat, sh: Shard, o: Order, qty: nat)
    requires c.Valid() && o.id !in sh.resting
    ensures o.id !in RestingSlots(c, v, sh)
    ensures RestingSlots(c, v, sh.(resting := sh.resting[o.id := o.(qty := qty)], current := Nothing))
      == RestingSlots(c, v, sh) + if c.Owner(o.id) == v then {o.id} else {}
  {
    hide Config.Owner;
  }

  lemma DoneMatching(c: Config, s: nat, sh: Shard, home: map<nat, nat>)
    requires c.Valid() && ShardOk(c, s, sh, home) && sh.held.Nothing? && sh.current.Just?
    ensures var sh' := sh.(current := Nothing, held := Just(sh.current.value.id));
      Derived(sh, sh') && ShardOk(c, s, sh', home) && forall v :: EngineTotal(c, v, sh') == EngineTotal(c, v, sh)
  {
    hide Config.Owner;
    var sh' := sh.(current := Nothing, held := Just(sh.current.value.id));
    forall v ensures EngineTotal(c, v, sh') == EngineTotal(c, v, sh) {
      assert RestingSlots(c, v, sh) == RestingSlots(c, v, sh');
    }
  }

  /** The order being matched does not rest: its slot is in one place. */
  lemma CurrentNotResting(c: Config, s: nat, w: nat, lane: Lane, hand: Hand, sh: Shard, home: map<nat, nat>)
    requires c.Valid() && LaneOk(c, s, w, lane, hand, sh, home) && sh.current.Just? && c.Owner(sh.current.value.id) == w
    ensures sh.current.value.id !in sh.resting
  {
    hide Config.Owner, Config.High, NewIds, HandSlot;
    var id := sh.current.value.id;
    assert Full(c, w)[id] <= 1;
    assert EngineSlots(c, w, sh)[id] >= 1;
    assert LaneSlots(c, s, w, lane, hand, sh)[id] >= EngineSlots(c, w, sh)[id] + multiset(RestingSlots(c, w, sh))[id];
  }

  lemma MatchStepDerived(c: Config, st: State, s: nat, l: Label)
    requires Inv(c, st) && s < NUM_SHARDS && (l.FillResting? || l.ReduceResting? || l.Rest? || l.Finish?)
    ensures var sh, sh' := st.shards[s], MatchStep(st.shards[s], l);
      Derived(sh, sh') && ShardOk(c, s, sh', st.home) && forall v :: EngineTotal(c, v, sh') == EngineTotal(c, v, sh)
  {
    hide LaneOk, EngineTotal, ShardOk, EntryOk;
    var sh := st.shards[s];
    assert ShardOk(c, s, sh, st.home);
    if sh.current.Just? && sh.held.Nothing? {
      var o := sh.current.value;
      match l
      case FillResting(_, id) => if id in sh.resting { OutOfBook(c, s, sh, id, st.home); }
      case ReduceResting(_, id, qty) => if id in sh.resting { ReducedInBook(c, s, sh, id, qty, st.home); }
      case Rest(_, qty) =>
        var w := c.Owner(o.id);
        CurrentOwner(c, s, sh, st.home);
        assert LaneOk(c, s, w, st.lanes[(s, w)], st.hands[w], sh, st.home);
        CurrentNotResting(c, s, w, st.lanes[(s, w)], st.hands[w], sh, st.home);
        IntoBook(c, s, sh, qty, st.home);
      case Finish(_) => DoneMatching(c, s, sh, st.home);
    }
  }

  lemma CurrentOwner(c: Config, s: nat, sh: Shard, home: map<nat, nat>)
    requires c.Valid() && ShardOk(c, s, sh, home) && sh.current.Just?
    ensures c.Owner(sh.current.value.id) < c.workers
  {}

  lemma MatchStepKeeps(c: Config, st: State, s: nat, l: Label)
    requires Inv(c, st) && s < NUM_SHARDS && (l.FillResting? || l.ReduceResting? || l.Rest? || l.Finish?)
    ensures Inv(c, st.(shards := st.shards[s := MatchStep(st.shards[s], l)]))
  {
    hide LaneOk, EngineTotal, ShardOk, SessionOk, MatchStep;
    var sh, sh' := st.shards[s], MatchStep(st.shards[s], l);
    var st' := st.(shards := st.shards[s := sh']);
    MatchStepDerived(c, st, s, l);
    forall v | 0 <= v < c.workers ensures LaneOk(c, s, v, st'.lanes[(s, v)], st.hands[v], sh', st.home) {
      assert LaneOk(c, s, v, st.lanes[(s, v)], st.hands[v], sh, st.home);
      DerivedLane(c, s, v, st.lanes[(s, v)], st.hands[v], sh, sh', st.home);
    }
    forall t | t in st.session ensures EntryOk(c, st', t) {
      assert EntryOk(c, st, t);
      var e := st.session[t];
      var w := st.home[e.client];
      if ShardOf(e.inst) == s { DerivedEntry(c, t, e, st.lanes[(s, w)], st.hands[w], sh, sh', st.home); }
    }
    EngineKeeps(c, st, st', s);
  }

  // The tasks behind a popped one were checked against it.
  lemma PoppedTasks(c: Config, s: nat, w: nat, q: seq<Task>, sh: Shard, sh': Shard, home: map<nat, nat>)
    requires c.Valid() && q != [] && forall i :: 0 <= i < |q| ==> TaskOk(c, s, w, q, i, sh, home)
    requires forall id, token, client ::
      (c.Owner(id) == w && EngineAgrees(sh, id, token, client) && (q[0].New? ==> Agrees(q[0].order, id, token, client)))
      ==> EngineAgrees(sh', id, token, client)
    ensures forall i :: 0 <= i < |q| - 1 ==> TaskOk(c, s, w, q[1..], i, sh', home)
  {
    hide Config.Owner, EngineAgrees, OrderOk, Agrees;
    forall i | 0 <= i < |q| - 1 ensures TaskOk(c, s, w, q[1..], i, sh', home) {
      assert TaskOk(c, s, w, q, i + 1, sh, home);
      var t := q[i + 1];
      assert q[1..][i] == t;
      if t.Cancel? {
        assert q[..i + 1][0] == q[0];
        assert q[1..][..i] == q[..i + 1][1..];
        assert QueueAgrees(q[..i + 1], t.id, t.token, t.sender);
      }
    }
  }

  lemma PopConserves(c: Config, s: nat, w: nat, lane: Lane, hand: Hand, sh: Shard)
    requires c.Valid() && lane.queue != [] && sh.current.Nothing?
    requires lane.queue[0].New? ==> c.Owner(lane.queue[0].order.id) == w
    ensures LaneSlots(c, s, w, lane.(queue := lane.queue[1..]), hand,
        if lane.queue[0].New? then sh.(current := Just(lane.queue[0].order)) else sh)
      == LaneSlots(c, s, w, lane, hand, sh)
  {
    hide Config.High, Config.Owner, Range, HandSlot;
    var q := lane.queue;
    if q[0].New? {
      var sh' := sh.(current := Just(q[0].order));
      assert multiset(NewIds(q)) == multiset{q[0].order.id} + multiset(NewIds(q[1..]));
      assert EngineSlots(c, w, sh') == multiset{q[0].order.id} + EngineSlots(c, w, sh);
      assert RestingSlots(c, w, sh') == RestingSlots(c, w, sh);
    }
  }

  lemma PopNewLane(c: Config, s: nat, w: nat, lane: Lane, hand: Hand, sh: Shard, home: map<nat, nat>)
    requires c.Valid() && LaneOk(c, s, w, lane, hand, sh, home) && lane.queue != [] && sh.current.Nothing?
    requires lane.queue[0].New?
    ensures var o := lane.queue[0].order;
      OrderOk(c, s, w, o, home) && LaneOk(c, s, w, lane.(queue := lane.queue[1..]), hand, sh.(current := Just(o)), home)
  {
    hide LaneSlots, Full, Config.Owner;
    var q, o := lane.queue, lane.queue[0].order;
    assert TaskOk(c, s, w, q, 0, sh, home);
    PopConserves(c, s, w, lane, hand, sh);
    PoppedTasks(c, s, w, q, sh, sh.(current := Just(o)), home);
  }

  lemma PopCancelLane(c: Config, s: nat, w: nat, lane: Lane, hand: Hand, sh: Shard, home: map<nat, nat>)
    requires c.Valid() && LaneOk(c, s, w, lane, hand, sh, home) && lane.queue != [] && sh.current.Nothing?
    requires lane.queue[0].Cancel?
    ensures LaneOk(c, s, w, lane.(queue := lane.queue[1..]), hand, sh, home)
  {
    hide LaneSlots, Full, Config.Owner;
    PopConserves(c, s, w, lane, hand, sh);
    PoppedTasks(c, s, w, lane.queue, sh, sh, home);
  }

  // Another worker's lane is not about the popped order's slot.
  lemma PopNewElsewhere(c: Config, s: nat, v: nat, lane: Lane, hand: Hand, sh: Shard, o: Order, home: map<nat, nat>)
    requires c.Valid() && LaneOk(c, s, v, lane, hand, sh, home) && sh.current.Nothing? && c.Owner(o.id) != v
    ensures LaneOk(c, s, v, lane, hand, sh.(current := Just(o)), home)
  {
    hide Config.Owner, LaneSlots, Full, QueueAgrees;
    var sh' := sh.(current := Just(o));
    assert EngineTotal(c, v, sh') == EngineTotal(c, v, sh) by {
      assert RestingSlots(c, v, sh') == RestingSlots(c, v, sh);
    }
    SameTotals(c, s, v, lane, hand, sh, sh');
    forall i | 0 <= i < |lane.queue| ensures TaskOk(c, s, v, lane.queue, i, sh', home) {
      assert TaskOk(c, s, v, lane.queue, i, sh, home);
    }
  }

  lemma TakeNewKeeps(c: Config, st: State, s: nat, w: nat)
    requires Inv(c, st) && s < NUM_SHARDS && w < c.workers
    requires st.lanes[(s, w)].queue != [] && st.lanes[(s, w)].queue[0].New?
    requires st.shards[s].current.Nothing? && st.shards[s].held.Nothing?
    ensures Inv(c, Step(c, st, Take(s, w)))
  {
    hide LaneOk, ShardOk, SessionOk, LanesOk, ShardsOk, SessionsOk, Config.Owner;
    var lane, sh := st.lanes[(s, w)], st.shards[s];
    var o := lane.queue[0].order;
    LaneAt(c, st, s, w);
    PopNewLane(c, s, w, lane, st.hands[w], sh, st.home);
    var sh' := sh.(current := Just(o));
    var st' := Step(c, st, Take(s, w));
    assert TaskStep(sh, lane.queue[0]) == sh';
    forall v | 0 <= v < c.workers ensures LaneOk(c, s, v, st'.lanes[(s, v)], st'.hands[v], sh', st'.home) {
      LaneAt(c, st, s, v);
      if v != w { PopNewElsewhere(c, s, v, st.lanes[(s, v)], st.hands[v], sh, o, st.home); }
    }
    ShardAt(c, st, s);
    StartMatching(c, s, sh, o, w, st.home);
    forall t | t in st'.session ensures EntryOk(c, st', t) {
      EntryAt(c, st, t);
      var e := st.session[t];
      var v := st.home[e.client];
      if ShardOf(e.inst) == s {
        PopNewEntry(c, t, e, st.lanes[(s, v)], st'.lanes[(s, v)], st.hands[v], sh, o, st.home, w);
      }
    }
    EntriesOk(c, st');
    EngineKeeps(c, st, st', s);
  }

  lemma StartMatching(c: Config, s: nat, sh: Shard, o: Order, w: nat, home: map<nat, nat>)
    requires c.Valid() && ShardOk(c, s, sh, home) && OrderOk(c, s, w, o, home) && w < c.workers
    ensures ShardOk(c, s, sh.(current := Just(o)), home)
  {}

  lemma PopNewEntry(c: Config, t: nat, e: Session, lane: Lane, lane': Lane, hand: Hand, sh: Shard, o: Order,
                    home: map<nat, nat>, w: nat)
    requires c.Valid() && SessionOk(c, t, e, lane, hand, sh, home) && c.Owner(o.id) == w
    requires home[e.client] == w ==> lane.queue != [] && lane.queue[0] == Task.New(o) && lane'.queue == lane.queue[1..]
    requires home[e.client] != w ==> lane' == lane
    ensures SessionOk(c, t, e, lane', hand, sh.(current := Just(o)), home)
  {
    hide Config.Owner, RecordedAgrees;
  }

  lemma PopCancelEntry(c: Config, t: nat, e: Session, lane: Lane, hand: Hand, sh: Shard, home: map<nat, nat>)
    requires c.Valid() && SessionOk(c, t, e, lane, hand, sh, home) && lane.queue != []
    ensures SessionOk(c, t, e, lane.(queue := lane.queue[1..]), hand, sh, home)
  {
    hide Config.Owner, RecordedAgrees, EngineAgrees;
  }

  lemma CancelTaken(c: Config, s: nat, sh: Shard, t: Task, home: map<nat, nat>)
    requires c.Valid() && ShardOk(c, s, sh, home) && t.Cancel? && sh.held.Nothing?
    ensures var sh' := TaskStep(sh, t);
      Derived(sh, sh') && ShardOk(c, s, sh', home) && forall v :: EngineTotal(c, v, sh') == EngineTotal(c, v, sh)
  {
    hide EngineTotal, Config.Owner;
    if t.id in sh.resting { OutOfBook(c, s, sh, t.id, home); }
  }

  lemma TakeCancelKeeps(c: Config, st: State, s: nat, w: nat)
    requires Inv(c, st) && s < NUM_SHARDS && w < c.workers
    requires st.lanes[(s, w)].queue != [] && st.lanes[(s, w)].queue[0].Cancel?
    requires st.shards[s].current.Nothing? && st.shards[s].held.Nothing?
    ensures Inv(c, Step(c, st, Take(s, w)))
  {
    hide LaneOk, ShardOk, SessionOk, TaskStep, EngineTotal, Derived;
    var lane, sh := st.lanes[(s, w)], st.shards[s];
    var sh' := TaskStep(sh, lane.queue[0]);
    var st' := Step(c, st, Take(s, w));
    assert ShardOk(c, s, sh, st.home);
    CancelTaken(c, s, sh, lane.queue[0], st.home);
    forall v | 0 <= v < c.workers ensures LaneOk(c, s, v, st'.lanes[(s, v)], st'.hands[v], sh', st'.home) {
      assert LaneOk(c, s, v, st.lanes[(s, v)], st.hands[v], sh, st.home);
      if v == w { PopCancelLane(c, s, w, lane, st.hands[w], sh, st.home); }
      DerivedLane(c, s, v, st'.lanes[(s, v)], st.hands[v], sh, sh', st.home);
    }
    forall t | t in st'.session ensures EntryOk(c, st', t) {
      assert EntryOk(c, st, t);
      var e := st.session[t];
      var v := st.home[e.client];
      if ShardOf(e.inst) == s {
        if v == w { PopCancelEntry(c, t, e, lane, st.hands[w], sh, st.home); }
        DerivedEntry(c, t, e, st'.lanes[(s, v)], st.hands[v], sh, sh', st.home);
      }
    }
    EngineKeeps(c, st, st', s);
  }

  lemma RecycledLane(c: Config, s: nat, v: nat, lane: Lane, hand: Hand, sh: Shard, home: map<nat, nat>)
    requires c.Valid() && LaneOk(c, s, v, lane, hand, sh, home) && sh.held.Just?
    ensures var slot := sh.held.value;
      var lane' := if c.Owner(slot) == v then lane.(recycle := lane.recycle + [slot]) else lane;
      LaneOk(c, s, v, lane', hand, sh.(held := Nothing), home)
  {
    hide Full, LaneSlots, Config.Owner;
    var slot, sh' := sh.held.value, sh.(held := Nothing);
    var lane' := if c.Owner(slot) == v then lane.(recycle := lane.recycle + [slot]) else lane;
    RecycleConserves(c, s, v, lane, hand, sh);
    forall i | 0 <= i < |lane'.queue| ensures TaskOk(c, s, v, lane'.queue, i, sh', home) {
      assert TaskOk(c, s, v, lane.queue, i, sh, home);
    }
  }

  lemma RecycleConserves(c: Config, s: nat, v: nat, lane: Lane, hand: Hand, sh: Shard)
    requires c.Valid() && sh.held.Just?
    ensures var slot := sh.held.value;
      var lane' := if c.Owner(slot) == v then lane.(recycle := lane.recycle + [slot]) else lane;
      LaneSlots(c, s, v, lane', hand, sh.(held := Nothing)) == LaneSlots(c, s, v, lane, hand, sh)
  {
    hide Config.High, Config.Owner, Range, NewIds, HandSlot;
    var slot, sh' := sh.held.value, sh.(held := Nothing);
    assert RestingSlots(c, v, sh') == RestingSlots(c, v, sh);
    assert EngineSlots(c, v, sh) == EngineSlots(c, v, sh') + Mine(c, v, slot);
    assert multiset(lane.recycle + [slot]) == multiset(lane.recycle) + multiset{slot};
  }

  lemma RecycleKeeps(c: Config, st: State, s: nat)
    requires Inv(c, st)
    ensures Inv(c, Step(c, st, SlotProtocol.Recycle(s)))
  {
    hide LaneOk, SessionOk, Config.Owner, SessionsOk, LanesOk, ShardsOk;
    var st' := Step(c, st, SlotProtocol.Recycle(s));
    if s in st.shards && st.shards[s].held.Just? {
      var sh, sh' := st.shards[s], st.shards[s].(held := Nothing);
      ShardAt(c, st, s);
      forall v | 0 <= v < c.workers ensures LaneOk(c, s, v, st'.lanes[(s, v)], st'.hands[v], sh', st'.home) {
        LaneAt(c, st, s, v);
        RecycledLane(c, s, v, st.lanes[(s, v)], st.hands[v], sh, st.home);
      }
      assert Derived(sh, sh');
      forall t | t in st'.session ensures EntryOk(c, st', t) {
        EntryAt(c, st, t);
        var e := st.session[t];
        var v := st.home[e.client];
        if ShardOf(e.inst) == s {
          RecycledEntry(c, t, e, st.lanes[(s, v)], st'.lanes[(s, v)], st.hands[v], sh, sh', st.home);
        }
      }
      EntriesOk(c, st');
      EngineKeeps(c, st, st', s);
    }
  }

  lemma RecycledEntry(c: Config, t: nat, e: Session, lane: Lane, lane': Lane, hand: Hand, sh: Shard, sh': Shard,
                      home: map<nat, nat>)
    requires c.Valid() && SessionOk(c, t, e, lane, hand, sh, home) && Derived(sh, sh') && lane'.queue == lane.queue
    ensures SessionOk(c, t, e, lane', hand, sh', home)
  {
    hide Config.Owner, Derived, EngineAgrees, QueueAgrees, RecordedAgrees;
    DerivedAgrees(sh, sh', e.id, t, e.client);
  }

  // ---- every reachable state ----

  lemma TakeKeeps(c: Config, st: State, s: nat, w: nat)
    requires Inv(c, st)
    ensures Inv(c, Step(c, st, Take(s, w)))
  {
    hide LaneOk, ShardOk, EntryOk, TaskStep;
    if (s, w) in st.lanes && s in st.shards && st.shards[s].current.Nothing? && st.shards[s].held.Nothing?
       && st.lanes[(s, w)].queue != [] {
      if st.lanes[(s, w)].queue[0].New? { TakeNewKeeps(c, st, s, w); } else { TakeCancelKeeps(c, st, s, w); }
    }
  }

  /** Every atomic step of every thread keeps the invariant. */
  lemma StepKeeps(c: Config, st: State, l: Label)
    requires Inv(c, st)
    ensures Inv(c, Step(c, st, l))
  {
    hide LanesOk, ShardsOk, SessionsOk, TaskStep, MatchStep;
    match l
    case Accept(w) => AcceptKeeps(c, st, w);
    case Allocate(_, _, _, _, _, _, _) => AllocateKeeps(c, st, l);
    case Record(w) => RecordKeeps(c, st, w);
    case SubmitNew(w) => SubmitNewKeeps(c, st, w);
    case LookUp(_, _, _) => LookUpKeeps(c, st, l);
    case SubmitCancel(w) => SubmitCancelKeeps(c, st, w);
    case Take(s, w) => TakeKeeps(c, st, s, w);
    case Recycle(s) => RecycleKeeps(c, st, s);
    case FillResting(s, _) => if s in st.shards { MatchStepKeeps(c, st, s, l); }
    case ReduceResting(s, _, _) => if s in st.shards { MatchStepKeeps(c, st, s, l); }
    case Rest(s, _) => if s in st.shards { MatchStepKeeps(c, st, s, l); }
    case Finish(s) => if s in st.shards { MatchStepKeeps(c, st, s, l); }
  }

  lemma StartLane(c: Config, s: nat, w: nat)
    requires c.Valid()
    ensures LaneOk(c, s, w, Lane(c.First(w), [], []), Free, Shard(map[], Nothing, Nothing), map[])
  {
    hide Config.First, Config.High, Config.Owner;
    var lane, sh := Lane(c.First(w), [], []), Shard(map[], Nothing, Nothing);
    assert RestingSlots(c, w, sh) == {};
    assert LaneSlots(c, s, w, lane, Free, sh) == Full(c, w);
  }

  lemma StartInv(c: Config)
    requires c.Valid()
    ensures Inv(c, Start(c))
  {
    hide LaneOk, Config.First, LaneKeys, Range;
    var st := Start(c);
    assert Shaped(c, st);
    forall s, w | 0 <= s < NUM_SHARDS && 0 <= w < c.workers
      ensures LaneOk(c, s, w, st.lanes[(s, w)], st.hands[w], st.shards[s], st.home)
    {
      StartLane(c, s, w);
    }
  }

  lemma {:induction false} RunInv(c: Config, ls: seq<Label>)
    requires c.Valid()
    ensures Inv(c, Run(c, ls))
  {
    hide Inv, Step, Start;
    if ls == [] {
      StartInv(c);
    } else {
      RunInv(c, ls[..|ls| - 1]);
      StepKeeps(c, Run(c, ls[..|ls| - 1]), ls[|ls| - 1]);
    }
  }

  lemma LaneInRun(c: Config, ls: seq<Label>, s: nat, w: nat)
    requires c.Valid() && s < NUM_SHARDS && w < c.workers
    ensures var st := Run(c, ls);
      && Shaped(c, st) && LaneOk(c, s, w, st.lanes[(s, w)], st.hands[w], st.shards[s], st.home)
      && ShardOk(c, s, st.shards[s], st.home)
  {
    hide LaneOk, ShardOk, EntryOk, Run;
    RunInv(c, ls);
  }

  function Holds(b: bool): nat { if b then 1 else 0 }

  /** In how many places slot k of worker w's slice of shard s is. */
  function PlacesOf(c: Config, s: nat, w: nat, lane: Lane, hand: Hand, sh: Shard, k: nat): nat
    requires c.Valid()
  {
    Holds(lane.highWater <= k) + multiset(lane.recycle)[k] + multiset(NewIds(lane.queue))[k]
    + HandSlot(hand, s)[k] + Holds(k in sh.resting) + EngineSlots(c, w, sh)[k]
  }

  /** In every interleaving each slot of a slice is in exactly one place: never issued, in its owner's
      recycle queue, in the owner's hand, in one in-flight NEW, resting in orders_by_id, or in the engine's
      hand. No slot is leaked, and none is freed twice. */
  lemma SlotHasOnePlace(c: Config, ls: seq<Label>, s: nat, w: nat, k: nat)
    requires c.Valid() && s < NUM_SHARDS && w < c.workers && c.First(w) <= k < c.High(w)
    ensures var st := Run(c, ls);
      Shaped(c, st) && PlacesOf(c, s, w, st.lanes[(s, w)], st.hands[w], st.shards[s], k) == 1
  {
    hide Run, HandOk, TaskOk, ShardOk, Config.Owner, Config.First, Config.High, HandSlot, EngineSlots, NewIds;
    LaneInRun(c, ls, s, w);
    var st := Run(c, ls);
    var lane, sh := st.lanes[(s, w)], st.shards[s];
    assert Full(c, w)[k] == 1;
    FullOwner(c, w, k);
    assert multiset(Range(lane.highWater, c.High(w)))[k] == Holds(lane.highWater <= k);
    assert multiset(RestingSlots(c, w, sh))[k] == Holds(k in sh.resting);
    assert LaneSlots(c, s, w, lane, st.hands[w], sh)[k] == 1;
  }

  /** A popped cancel removes only an order with the token it names, submitted on the connection that sent it. */
  lemma CancelHitsSendersOrder(c: Config, ls: seq<Label>, s: nat, w: nat)
    requires c.Valid() && s < NUM_SHARDS && w < c.workers
    ensures var st := Run(c, ls); Shaped(c, st) && var q, sh := st.lanes[(s, w)].queue, st.shards[s];
      q != [] && q[0].Cancel? && sh.current.Nothing? && sh.held.Nothing? ==>
      forall id :: id in sh.resting && id !in Step(c, st, Take(s, w)).shards[s].resting ==>
        id == q[0].id && sh.resting[id].token == q[0].token && sh.resting[id].client == q[0].sender
  {
    hide Run, LaneSlots, Full, HandOk, Config.Owner;
    LaneInRun(c, ls, s, w);
    var st := Run(c, ls);
    var q, sh := st.lanes[(s, w)].queue, st.shards[s];
    if q != [] && q[0].Cancel? {
      assert TaskOk(c, s, w, q, 0, sh, st.home);
    }
  }

  /** In every state of the invariant: an order about to be popped has a valid instrument of that shard, its slot
      is one of its worker's and rests nowhere, and it passed the gateway's checks; a cancel about to be popped names
      a slot of the pool. */
  lemma PoppedTaskOk(c: Config, st: State, s: nat, w: nat)
    requires Inv(c, st) && s < NUM_SHARDS && w < c.workers && st.lanes[(s, w)].queue != []
    ensures var t, sh := st.lanes[(s, w)].queue[0], st.shards[s];
      && (t.New? ==> t.order.inst < MAX_INSTRUMENTS && ShardOf(t.order.inst) == s && Vetted(t.order))
      && (t.New? ==> t.order.id !in sh.resting && 0 < t.order.id < c.capacity)
      && (t.New? ==> t.order.client in st.home && st.home[t.order.client] == t.order.worker)
      && (t.Cancel? ==> t.id < c.capacity)
  {
    hide SessionsOk, Full, HandOk, Config.Owner, Config.High, Config.First, HandSlot, EngineSlots;
    var lane, sh := st.lanes[(s, w)], st.shards[s];
    var q := lane.queue;
    assert LaneOk(c, s, w, lane, st.hands[w], sh, st.home);
    assert TaskOk(c, s, w, q, 0, sh, st.home);
    HighInPool(c, w);
    if q[0].New? {
      var id := q[0].order.id;
      assert multiset(NewIds(q))[id] >= 1 by { NewIdsMember(q, 0); }
      assert id in Full(c, w) by { assert LaneSlots(c, s, w, lane, st.hands[w], sh)[id] >= 1; }
      FullOwner(c, w, id);
      OnceInFull(c, w, id);
      OwnerOfSlice(c, w, id);
      assert LaneSlots(c, s, w, lane, st.hands[w], sh)[id]
        >= multiset(NewIds(q))[id] + multiset(RestingSlots(c, w, sh))[id];
    } else {
      OwnerOfSlice(c, w, q[0].id);
    }
  }

  /** An order reaching the engine has a valid instrument of that shard, and its slot rests nowhere. */
  lemma NewOrderIsFresh(c: Config, ls: seq<Label>, s: nat, w: nat)
    requires c.Valid() && s < NUM_SHARDS && w < c.workers
    ensures var st := Run(c, ls); Shaped(c, st) && var q, sh := st.lanes[(s, w)].queue, st.shards[s];
      q != [] && q[0].New? ==>
        var o := q[0].order; o.inst < MAX_INSTRUMENTS && ShardOf(o.inst) == s && o.id !in sh.resting && 0 < o.id
  {
    hide Run, LanesOk, ShardsOk, SessionsOk;
    RunInv(c, ls);
    if Run(c, ls).lanes[(s, w)].queue != [] { PoppedTaskOk(c, Run(c, ls), s, w); }
  }

  lemma OnceInFull(c: Config, w: nat, id: nat)
    requires c.Valid()
    ensures Full(c, w)[id] <= 1
  {}

  /** A recycle queue never holds more than its slice: deallocate's push into the 524288-slot ring never fails. */
  lemma RecycleNeverFull(c: Config, ls: seq<Label>, s: nat, w: nat)
    requires c.Valid() && s < NUM_SHARDS && w < c.workers
    ensures var st := Run(c, ls); Shaped(c, st) && |st.lanes[(s, w)].recycle| < 524288 - 1
  {
    hide Run, HandOk, TaskOk, ShardOk, Config.Owner, NewIds, HandSlot, EngineSlots, RestingSlots, Config.Slice;
    LaneInRun(c, ls, s, w);
    HighInPool(c, w);
    var st := Run(c, ls);
    var lane := st.lanes[(s, w)];
    assert multiset(lane.recycle) <= LaneSlots(c, s, w, lane, st.hands[w], st.shards[s]);
    assert |multiset(lane.recycle)| <= |Full(c, w)|;
    if c.First(w) <= c.High(w) { RangeSize(c.First(w), c.High(w)); }
  }
}
