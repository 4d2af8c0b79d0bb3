/** Pool slots, order tokens and cancels across gateway workers and engine shards, as a step system:
    memory_pool.h, session_manager.h, the order and cancel paths of tcp_server.h, and engine.cpp. Queues are
    the atomic FIFOs that the ring of lock_free_queue.h implements. */
module SlotProtocol {
  import opened Orders

  const NUM_SHARDS: nat := 4
  const MAX_RISK_PRICE: nat := 10000000
  const MAX_NOTIONAL: nat := 10000000000

  /** The pool of every shard holds `capacity` slots, cut into one slice per gateway worker. */
  datatype Config = Config(workers: nat, capacity: nat) {
    predicate Valid() { 0 < workers <= capacity <= POOL_CAPACITY }

    function Slice(): nat
      requires Valid()
    {
      capacity / workers
    }

    function Low(w: nat): nat
      requires Valid()
    {
      w * Slice()
    }

    function High(w: nat): nat
      requires Valid()
    {
      (w + 1) * Slice()
    }

    /** The first slot of worker w's slice that is ever issued; slot 0 is the null handle. */
    function First(w: nat): nat
      requires Valid()
    {
      if w == 0 then 1 else Low(w)
    }

    /** deallocate's index / slice_capacity. */
    function Owner(slot: nat): nat
      requires Valid()
    {
      SlicePositive(this);
      slot / Slice()
    }
  }

  lemma SlicePositive(c: Config)
    requires c.Valid()
    ensures c.Slice() > 0
  {}

  lemma Multiples(a: nat, b: nat, n: nat)
    requires a <= b
    ensures a * n <= b * n
  {}

  lemma OwnerOfSlice(c: Config, w: nat, slot: nat)
    requires c.Valid()
    ensures c.Low(w) <= slot < c.High(w) <==> c.Owner(slot) == w
  {
    SlicePositive(c);
    var n, q := c.Slice(), slot / c.Slice();
    assert slot == q * n + slot % n && (q + 1) * n == q * n + n;
    if w < q {
      Multiples(w + 1, q, n);
    } else if q < w {
      Multiples(q + 1, w, n);
    }
  }

  lemma HighInPool(c: Config, w: nat)
    requires c.Valid() && w < c.workers
    ensures c.High(w) <= c.capacity
  {
    var n := c.Slice();
    assert (w + 1) * n <= c.workers * n;
    assert c.capacity == c.workers * n + c.capacity % c.workers;
  }

  datatype Maybe<T> = Nothing | Just(value: T)

  /** sender is the connection a cancel came from; the engine does not see it. */
  datatype Task = New(order: Order) | Cancel(id: nat, token: nat, sender: nat)

  /** What a gateway worker holds between two of its atomic steps. */
  datatype Hand =
    | Free
    | Built(order: Order)
    | Recorded(order: Order)
    | Cancelling(shard: nat, id: nat, token: nat, sender: nat)

  /** One worker's slice of one shard's pool, and its ingress queue into that shard. */
  datatype Lane = Lane(highWater: nat, recycle: seq<nat>, queue: seq<Task>)

  /** One engine: orders_by_id, the order being matched, and a slot taken out of use but not yet recycled. */
  datatype Shard = Shard(resting: map<nat, Order>, current: Maybe<Order>, held: Maybe<nat>)

  datatype Session = Session(id: nat, inst: nat, client: nat)

  datatype State = State(
    lanes: map<(nat, nat), Lane>, hands: map<nat, Hand>, shards: map<nat, Shard>,
    session: map<nat, Session>, home: map<nat, nat>, nextClient: nat)

  function ShardOf(inst: nat): nat { inst % NUM_SHARDS }

  /** The slots lo, lo + 1, ..., hi - 1. */
  function Range(lo: nat, hi: nat): (r: set<nat>)
    ensures forall k :: k in r <==> lo <= k < hi
    decreases hi - lo
  {
    if lo >= hi then {} else {lo} + Range(lo + 1, hi)
  }

  lemma {:induction false} RangeSize(lo: nat, hi: nat)
    requires lo <= hi
    ensures |Range(lo, hi)| == hi - lo
    decreases hi - lo
  {
    if lo < hi {
      RangeSize(lo + 1, hi);
      assert Range(lo, hi) == {lo} + Range(lo + 1, hi);
    }
  }

  function LaneKeys(c: Config): (r: set<(nat, nat)>)
    ensures forall s, w :: (s, w) in r <==> 0 <= s < NUM_SHARDS && 0 <= w < c.workers
  {
    set s, w | s in Range(0, NUM_SHARDS) && w in Range(0, c.workers) :: (s, w)
  }

  function Start(c: Config): State
    requires c.Valid()
  {
    State(
      map key | key in LaneKeys(c) :: Lane(c.First(key.1), [], []),
      map w | w in Range(0, c.workers) :: Free,
      map s | s in Range(0, NUM_SHARDS) :: Shard(map[], Nothing, Nothing),
      map[], map[], 1)
  }

  /** The pre-trade checks of the gateway (risk_engine.h:15-23, tcp_server.h:513-514). */
  predicate PassesRisk(token: nat, price: nat, qty: nat, inst: nat) {
    && token < MAX_CLIENT_ORDERS && 0 < qty <= MAX_ORDER_QTY && 0 < price <= MAX_RISK_PRICE
    && price * qty <= MAX_NOTIONAL && inst < MAX_INSTRUMENTS
  }

  /** An order within the limits of the risk check and of the session map. */
  predicate Vetted(o: Order) {
    && o.token < MAX_CLIENT_ORDERS && 0 < o.qty <= MAX_ORDER_QTY
    && 0 < o.price <= MAX_RISK_PRICE && o.price * o.qty <= MAX_NOTIONAL
  }

  /** Atomic steps, by the thread that takes them. */
  datatype Label =
    | Accept(w: nat)
    | Allocate(w: nat, client: nat, token: nat, price: nat, qty: nat, inst: nat, side: Side)
    | Record(w: nat)
    | SubmitNew(w: nat)
    | LookUp(w: nat, client: nat, token: nat)
    | SubmitCancel(w: nat)
    | Take(s: nat, w: nat)
    | FillResting(s: nat, id: nat)
    | ReduceResting(s: nat, id: nat, qty: nat)
    | Rest(s: nat, qty: nat)
    | Finish(s: nat)
    | Recycle(s: nat)

  /** MemoryPool::allocate for worker w: recycled slots first, then fresh ones, or none (memory_pool.h:78-93). */
  function TakeSlot(c: Config, lane: Lane, w: nat): Maybe<(nat, Lane)>
    requires c.Valid()
  {
    if lane.recycle != [] then Just((lane.recycle[0], lane.(recycle := lane.recycle[1..])))
    else if lane.highWater < c.High(w) then Just((lane.highWater, lane.(highWater := lane.highWater + 1)))
    else Nothing
  }

  ghost predicate Shaped(c: Config, st: State) {
    && (forall s, w :: (s, w) in st.lanes <==> 0 <= s < NUM_SHARDS && 0 <= w < c.workers)
    && (forall w :: w in st.hands <==> 0 <= w < c.workers)
    && (forall s :: s in st.shards <==> 0 <= s < NUM_SHARDS)
  }

  /** A gateway worker's step (tcp_server.h:264-266, 501-555, 570-590). */
  function WorkerStep(c: Config, st: State, l: Label): State
    requires c.Valid()
  {
    match l
    case Accept(w) =>
      if w >= c.workers then st else st.(home := st.home[st.nextClient := w], nextClient := st.nextClient + 1)
    case Allocate(w, client, token, price, qty, inst, side) =>
      var s := ShardOf(inst);
      if w !in st.hands || (s, w) !in st.lanes || !st.hands[w].Free? || client !in st.home || st.home[client] != w
         || !PassesRisk(token, price, qty, inst) then st
      else (
        match TakeSlot(c, st.lanes[(s, w)], w)
        case Nothing => st
        case Just((slot, lane)) =>
          st.(lanes := st.lanes[(s, w) := lane],
              hands := st.hands[w := Built(Order(slot, token, client, price, qty, inst, w, side))]))
    case Record(w) =>
      if w !in st.hands || !st.hands[w].Built? then st else
        var o := st.hands[w].order;
        st.(session := st.session[o.token := Session(o.id, o.inst, o.client)], hands := st.hands[w := Recorded(o)])
    case SubmitNew(w) =>
      if w !in st.hands || !st.hands[w].Recorded? then st else
        var o := st.hands[w].order;
        var key := (ShardOf(o.inst), w);
        if key !in st.lanes then st else
          st.(lanes := st.lanes[key := st.lanes[key].(queue := st.lanes[key].queue + [Task.New(o)])],
              hands := st.hands[w := Free])
    case LookUp(w, client, token) =>
      if w !in st.hands || !st.hands[w].Free? || client !in st.home || st.home[client] != w
         || token >= MAX_CLIENT_ORDERS || token !in st.session || st.session[token].client != client then st
      else
        var e := st.session[token];
        st.(hands := st.hands[w := Cancelling(ShardOf(e.inst), e.id, token, client)])
    case SubmitCancel(w) =>
      if w !in st.hands || !st.hands[w].Cancelling? then st else
        var h := st.hands[w];
        var key := (h.shard, w);
        if key !in st.lanes then st else
          var queue := st.lanes[key].queue + [Cancel(h.id, h.token, h.sender)];
          st.(lanes := st.lanes[key := st.lanes[key].(queue := queue)],
              hands := st.hands[w := Free])
    case _ => st
  }

  /** The engine's view of a popped task (engine.cpp:50-68): start matching a new order, or take the order a
      cancel names out of the book, if the slot still holds the order with that token. */
  function TaskStep(sh: Shard, task: Task): Shard {
    match task
    case New(o) => if o.inst < MAX_INSTRUMENTS then sh.(current := Just(o)) else sh
    case Cancel(id, token, _) =>
      if id in sh.resting && sh.resting[id].token == token then sh.(resting := sh.resting - {id}, held := Just(id))
      else sh
  }

  /** The engine's own steps inside match_order: any resting order of the same instrument may be filled or
      reduced; the incoming order may rest or be done at any point. A slot leaves orders_by_id before it is
      recycled. */
  function MatchStep(sh: Shard, l: Label): Shard {
    if sh.current.Nothing? || sh.held.Just? then sh else
      var o := sh.current.value;
      match l
      case FillResting(_, id) =>
        if id in sh.resting && sh.resting[id].inst == o.inst then sh.(resting := sh.resting - {id}, held := Just(id))
        else sh
      case ReduceResting(_, id, qty) =>
        if id in sh.resting && sh.resting[id].inst == o.inst then
          sh.(resting := sh.resting[id := sh.resting[id].(qty := qty)], current := Nothing, held := Just(o.id))
        else sh
      case Rest(_, qty) => sh.(resting := sh.resting[o.id := o.(qty := qty)], current := Nothing)
      case Finish(_) => sh.(current := Nothing, held := Just(o.id))
      case _ => sh
  }

  function EngineStep(c: Config, st: State, l: Label): State
    requires c.Valid()
  {
    match l
    case Take(s, w) =>
      if (s, w) !in st.lanes || s !in st.shards || st.shards[s].current.Just? || st.shards[s].held.Just?
         || st.lanes[(s, w)].queue == [] then st
      else
        var lane := st.lanes[(s, w)];
        st.(lanes := st.lanes[(s, w) := lane.(queue := lane.queue[1..])],
            shards := st.shards[s := TaskStep(st.shards[s], lane.queue[0])])
    case Recycle(s) =>
      if s !in st.shards || st.shards[s].held.Nothing? then st else
        var slot := st.shards[s].held.value;
        var key := (s, c.Owner(slot));
        if key !in st.lanes then st else
          st.(lanes := st.lanes[key := st.lanes[key].(recycle := st.lanes[key].recycle + [slot])],
              shards := st.shards[s := st.shards[s].(held := Nothing)])
    case FillResting(s, _) => if s !in st.shards then st else st.(shards := st.shards[s := MatchStep(st.shards[s], l)])
    case ReduceResting(s, _, _) =>
      if s !in st.shards then st else st.(shards := st.shards[s := MatchStep(st.shards[s], l)])
    case Rest(s, _) => if s !in st.shards then st else st.(shards := st.shards[s := MatchStep(st.shards[s], l)])
    case Finish(s) => if s !in st.shards then st else st.(shards := st.shards[s := MatchStep(st.shards[s], l)])
    case _ => st
  }

  predicate ByWorker(l: Label) {
    l.Accept? || l.Allocate? || l.Record? || l.SubmitNew? || l.LookUp? || l.SubmitCancel?
  }

  function Step(c: Config, st: State, l: Label): State
    requires c.Valid()
  {
    if ByWorker(l) then WorkerStep(c, st, l) else EngineStep(c, st, l)
  }

  /** Any interleaving, of any length. */
  function Run(c: Config, ls: seq<Label>): State
    requires c.Valid()
  {
    if ls == [] then Start(c) else Step(c, Run(c, ls[..|ls| - 1]), ls[|ls| - 1])
  }
}
