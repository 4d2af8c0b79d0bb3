/** The production order book (orderbook.h): pooled intrusive lists, price bitmaps and cached best
    prices, proved to behave as the reference book it carries as a ghost. */
module FastBook {
  import opened Orders
  import opened ReferenceBook
  import opened Levels
  import opened LimitQueue
  import Ladder

  class OrderBook {
    const inst: nat
    const pool: array<Node>
    const bids: array<Limit>
    const asks: array<Limit>
    const byId: array<nat>
    const bidBits: Ladder.PriceBitmap
    const askBits: Ladder.PriceBitmap
    var bestBid: nat
    var bestAsk: nat
    var log: seq<Event>
    ghost var book: Book

    ghost const Repr: set<object> :=
      {this, pool, bids, asks, byId, bidBits.l1, bidBits.l2, askBits.l1, askBits.l2}

    function LimitsOf(s: Side): array<Limit> { Pick(bids, asks, s) }

    function BitsOf(s: Side): Ladder.PriceBitmap { Pick(bidBits, askBits, s) }

    ghost predicate Shape() {
      && pool.Length == byId.Length == POOL_CAPACITY && bids.Length == asks.Length == MAX_PRICE
      && bids != asks
      && bidBits.l1 != askBits.l1 && bidBits.l1 != askBits.l2
      && bidBits.l2 != askBits.l1 && bidBits.l2 != askBits.l2
    }

    /** The instrument of the order in every slot; no book operation changes it. */
    ghost function Insts(): seq<nat>
      reads pool
    {
      seq(pool.Length, y requires 0 <= y < pool.Length reads pool => pool[y].order.inst)
    }

    ghost predicate Core()
      reads this`book, pool, bids, asks, byId
    {
      && Shape() && WellFormed(book)
      && Indexed(inst, pool[..], byId[..], book)
      && Threaded(pool[..], bids[..], asks[..], book)
    }

    ghost function Marks(): iset<(Side, int)>
      reads bidBits.l1, askBits.l1
    {
      iset t, p | BitsOf(t).Has(p) :: (t, p)
    }

    /** A price is marked exactly when its level is non-empty; side s at price x is exempt mid-sweep. */
    ghost predicate MarkedExcept(s: Side, x: int)
      reads this`book, bidBits.l1, bidBits.l2, askBits.l1, askBits.l2
    {
      bidBits.Valid() && askBits.Valid() && MarksMatch(Marks(), book, s, x)
    }

    /** The cached best prices are bounds: possibly stale, never worse than a resting price. */
    ghost predicate Bounded()
      reads this`book, this`bestBid, this`bestAsk
    {
      bestBid < MAX_PRICE && bestAsk < MAX_PRICE && NoneBetter(book, Buy, bestBid) && NoneBetter(book, Sell, bestAsk)
    }

    ghost predicate Valid()
      reads Repr
    {
      Core() && MarkedExcept(Buy, -1) && Bounded()
    }

    /** Slot x holds an order of this instrument that does not rest anywhere. */
    ghost predicate Incoming(x: nat)
      reads this`book, pool, byId
    {
      && pool.Length == byId.Length == POOL_CAPACITY
      && 0 < x < POOL_CAPACITY && byId[x] == 0 && !InQueue(book, x)
      && pool[x].order.id == x && pool[x].order.inst == inst
    }

    constructor (inst: nat, pool: array<Node>, byId: array<nat>)
      requires pool.Length == byId.Length == POOL_CAPACITY
      requires forall x :: 0 <= x < POOL_CAPACITY && byId[x] != 0 ==> pool[x].order.inst != inst
      ensures this.inst == inst && this.pool == pool && this.byId == byId
      ensures Valid() && book == [] && log == [] && fresh(Repr - {pool, byId})
    {
      hide Threaded, Indexed, MarksMatch, Level, Ladder.PriceBitmap.Valid, Ladder.PriceBitmap.Has, WellFormed;
      hide NoneBetter, Marks;
      this.inst, this.pool, this.byId := inst, pool, byId;
      var emptyBids := EmptyLimits();
      var emptyAsks := EmptyLimits();
      bids, asks := emptyBids, emptyAsks;
      bidBits := new Ladder.PriceBitmap();
      askBits := new Ladder.PriceBitmap();
      bestBid, bestAsk, log, book := 0, MAX_PRICE - 1, [], [];
      new;
      EmptyIsWellFormed();
      UnmarkedMatches();
      EmptyIndex(inst, this.pool[..], this.byId[..]);
      EmptyThreads(this.pool[..], bids[..], asks[..]);
    }

    static method EmptyLimits() returns (limits: array<Limit>)
      ensures fresh(limits) && limits.Length == MAX_PRICE
      ensures forall p :: 0 <= p < MAX_PRICE ==> limits[p] == Limit(0, 0)
    {
      limits := new Limit[MAX_PRICE](i => Limit(0, 0));
    }

    lemma UnmarkedMatches()
      requires forall p :: !bidBits.Has(p) && !askBits.Has(p)
      ensures MarksMatch(Marks(), [], Buy, -1)
    {
      hide MarksMatch, Ladder.PriceBitmap.Has;
      EmptyMatches(Marks());
    }

    static lemma EmptyIsWellFormed()
      ensures WellFormed([]) && NoneBetter([], Buy, 0) && NoneBetter([], Sell, MAX_PRICE - 1)
    {}

    /** Limit::add. */
    method Link(s: Side, p: nat, x: nat)
      requires pool.Length == POOL_CAPACITY && bids.Length == asks.Length == MAX_PRICE && p < MAX_PRICE
      requires 0 < x < POOL_CAPACITY && LimitsOf(s)[p].tail < POOL_CAPACITY
      modifies pool, LimitsOf(s)
      ensures pool[..] == Appended(old(pool[..]), old(LimitsOf(s)[p]), x).0
      ensures LimitsOf(s)[..] == old(LimitsOf(s)[..])[p := Appended(old(pool[..]), old(LimitsOf(s)[p]), x).1]
    {
      var level := LimitsOf(s)[p];
      if level.tail == 0 {
        LimitsOf(s)[p] := Limit(x, x);
        pool[x] := pool[x].(next := 0, prev := 0);
      } else {
        pool[level.tail] := pool[level.tail].(next := x);
        pool[x] := pool[x].(prev := level.tail, next := 0);
        LimitsOf(s)[p] := level.(tail := x);
      }
    }

    /** Limit::remove. */
    method Unlink(s: Side, p: nat, x: nat)
      requires pool.Length == POOL_CAPACITY && bids.Length == asks.Length == MAX_PRICE && p < MAX_PRICE
      requires 0 < x < POOL_CAPACITY && pool[x].prev < POOL_CAPACITY && pool[x].next < POOL_CAPACITY
      modifies pool, LimitsOf(s)
      ensures pool[..] == Spliced(old(pool[..]), old(LimitsOf(s)[p]), x).0
      ensures LimitsOf(s)[..] == old(LimitsOf(s)[..])[p := Spliced(old(pool[..]), old(LimitsOf(s)[p]), x).1]
    {
      var level := LimitsOf(s)[p];
      var before, after := pool[x].prev, pool[x].next;
      if before != 0 { pool[before] := pool[before].(next := after); }
      if after != 0 { pool[after] := pool[after].(prev := before); }
      LimitsOf(s)[p] :=
        Limit(if x == level.head then after else level.head, if x == level.tail then before else level.tail);
      pool[x] := pool[x].(next := 0, prev := 0);
    }

    /** Take order i of the book out of its level and out of orders_by_id. */
    method TakeOut(x: nat, ghost i: nat)
      requires Core() && i < |book| && book[i].id == x
      modifies this`book, pool, bids, asks, byId
      ensures Core() && book == Without(old(book), i)
      ensures byId[x] == 0 && forall y :: 0 <= y < POOL_CAPACITY && y != x ==> byId[y] == old(byId[y])
      ensures forall y :: 0 <= y < POOL_CAPACITY ==> pool[y].order == old(pool[y].order)
      ensures Insts() == old(Insts())
      ensures forall y :: 0 <= y < POOL_CAPACITY && !InQueue(old(book), y) ==> pool[y] == old(pool[y])
    {
      hide Threaded, Indexed, Spliced;
      ghost var nodes, index, b := pool[..], byId[..], book;
      ghost var bs, as' := bids[..], asks[..];
      RestingNode(nodes, bs, as', b, i);
      var o := pool[x].order;
      RemoveThread(nodes, bs, as', b, i);
      OrdersKept(nodes, LimitsOf(o.side)[o.price], x);
      Unlink(o.side, o.price, x);
      byId[x] := 0;
      book := Without(book, i);
      WithoutIsWellFormed(b, i);
      IndexWithout(inst, nodes, pool[..], index, b, i);
      assert byId[..] == index[x := 0];
      assert forall y :: 0 <= y < POOL_CAPACITY ==> pool[..][y] == pool[y] && nodes[y] == old(pool[y]);
    }

    /** Construct an order in its pool slot, as the gateway does before handing it to the engine. */
    method Place(o: Order)
      requires Valid() && 0 < o.id < POOL_CAPACITY && o.inst == inst && !InQueue(book, o.id)
      requires pool[o.id].order.inst == inst
      modifies pool
      ensures Valid() && Incoming(o.id) && pool[o.id].order == o && Insts() == old(Insts())
    {
      ghost var nodes := pool[..];
      pool[o.id] := Node(o, 0, 0);
      FrameThreads(nodes, pool[..], bids[..], asks[..], book);
      IndexSame(inst, nodes, pool[..], byId[..], book, book);
    }

    /** Append the incoming order in slot x to its level and to orders_by_id. */
    method PutIn(x: nat)
      requires Core() && Incoming(x) && pool[x].order.price < MAX_PRICE && pool[x].order.qty > 0
      modifies this`book, pool, bids, asks, byId
      ensures Core() && book == old(book) + [old(pool[x].order)]
      ensures forall y :: 0 <= y < POOL_CAPACITY && y != x ==> byId[y] == old(byId[y])
      ensures Insts() == old(Insts())
      ensures forall y :: 0 <= y < POOL_CAPACITY && y != x && !InQueue(old(book), y) ==> pool[y] == old(pool[y])
    {
      hide Threaded, Indexed, Appended;
      ghost var nodes, index, b := pool[..], byId[..], book;
      var o := pool[x].order;
      AddThread(nodes, bids[..], asks[..], b, x);
      OrdersKept(nodes, LimitsOf(o.side)[o.price], x);
      Link(o.side, o.price, x);
      byId[x] := x;
      book := book + [o];
      IndexWith(inst, nodes, pool[..], index, b, x);
      assert byId[..] == index[x := x];
      assert forall y :: 0 <= y < POOL_CAPACITY ==> pool[..][y] == pool[y] && nodes[y] == old(pool[y]);
      RestIsWellFormed(b, o);
    }

    /** Set the remaining quantity of the incoming order in slot x. */
    method SetIncoming(x: nat, q: nat)
      requires Core() && Incoming(x)
      modifies pool
      ensures Core() && Incoming(x)
      ensures pool[x] == old(pool[x]).(order := old(pool[x].order).(qty := q))
      ensures Insts() == old(Insts())
      ensures forall y :: 0 <= y < POOL_CAPACITY && y != x ==> pool[y] == old(pool[y])
    {
      ghost var nodes := pool[..];
      pool[x] := pool[x].(order := pool[x].order.(qty := q));
      assert pool[..] == nodes[x := nodes[x].(order := nodes[x].order.(qty := q))];
      FrameThreads(nodes, pool[..], bids[..], asks[..], book);
      IndexSame(inst, nodes, pool[..], byId[..], book, book);
    }

    /** Set the remaining quantity of order i of the book, which rests in slot x. */
    method SetResting(x: nat, q: nat, ghost i: nat)
      requires Core() && i < |book| && book[i].id == x && q > 0
      modifies this`book, pool
      ensures Core() && book == old(book)[i := old(book)[i].(qty := q)]
      ensures Insts() == old(Insts())
      ensures forall y :: 0 <= y < POOL_CAPACITY && y != x ==> pool[y] == old(pool[y])
    {
      ghost var nodes, b := pool[..], book;
      RestingNode(nodes, bids[..], asks[..], b, i);
      ReduceThread(nodes, bids[..], asks[..], b, i, q);
      pool[x] := pool[x].(order := pool[x].order.(qty := q));
      assert pool[..] == nodes[x := nodes[x].(order := b[i].(qty := q))];
      book := book[i := book[i].(qty := q)];
      IndexSame(inst, nodes, pool[..], byId[..], b, book);
    }

    // The head of the best level is what a search of the whole book finds.
    lemma HeadFound(s: Side, p: nat)
      requires Core() && p < MAX_PRICE && NoneBetter(book, s, p) && LimitsOf(s)[p].head != 0
      ensures var i := Best(book, s); var h := LimitsOf(s)[p].head;
        && i != -1 && book[i].id == h && book[i].price == p && book[i].side == s
        && h < POOL_CAPACITY && pool[h].order == book[i]
    {
      assert Linked(pool[..], LimitsOf(s)[p], Level(book, s, p)) by {
        assert LimitsOf(s)[p] == Pick(bids[..], asks[..], s)[p];
      }
      HeadIsBest(book, s, p);
      RestingNode(pool[..], bids[..], asks[..], book, Best(book, s));
    }

    /** The rest of the match from (b, o, log) completes the match from (b0, o0, log0). */
    static ghost predicate Continues(b0: Book, o0: Order, log0: seq<Event>, b: Book, o: Order, log: seq<Event>) {
      && Match(b, o).book == Match(b0, o0).book
      && log + Match(b, o).events == log0 + Match(b0, o0).events
    }

    static function TradeEvents(o: Order, r: Order): seq<Event> {
      FillEvents(o, r) + if o.qty >= r.qty then [Freed(r.id)] else []
    }

    /** One trade with the best resting order is one unfolding of the reference match. */
    static lemma TradeContinues(b: Book, o: Order, log: seq<Event>, b': Book, i: nat)
      requires o.qty > 0 && i == Best(b, o.side.Other()) && Crosses(o, b[i].price) && b[i].client != o.client
      requires Took(b, b', i, b[i].qty - Min(o.qty, b[i].qty))
      ensures Continues(b, o, log, b', o.(qty := o.qty - Min(o.qty, b[i].qty)), log + TradeEvents(o, b[i]))
    {
      hide Match, Best, FillEvents, Without;
      MatchUnfolds(b, o);
      MatchUnfolds(b', o.(qty := o.qty - Min(o.qty, b[i].qty)));
    }

    static lemma SelfTradeEnds(b: Book, o: Order, i: nat)
      requires o.qty > 0 && i == Best(b, o.side.Other()) && Crosses(o, b[i].price) && b[i].client == o.client
      ensures Match(b, o) == Outcome(b, RejectEvents(o))
    {
      hide Match, Best, RejectEvents;
      MatchUnfolds(b, o);
    }

    /** Complete fill of the head: the resting order leaves the book and its slot is freed. */
    method FillHead(x: nat, h: nat, ghost i: nat)
      requires Core() && Incoming(x) && i < |book| && h == book[i].id && h != x && pool[h].order == book[i]
      requires pool[x].order.qty >= pool[h].order.qty
      modifies this`book, this`log, pool, bids, asks, byId
      ensures Core() && Incoming(x)
      ensures pool[x].order == old(pool[x].order).(qty := old(pool[x].order.qty - pool[h].order.qty))
      ensures book == Without(old(book), i)
      ensures log == old(log) + FillEvents(old(pool[x].order), old(book)[i]) + [Freed(h)]
      ensures Insts() == old(Insts())
      ensures forall y :: 0 <= y < POOL_CAPACITY && y != x && !InQueue(old(book), y) ==>
        pool[y] == old(pool[y]) && byId[y] == old(byId[y])
    {
      hide Threaded, Indexed;
      var o, r := pool[x].order, pool[h].order;
      assert InQueue(book, h);
      log := log + FillEvents(o, r);
      SetIncoming(x, o.qty - r.qty);
      WithoutIds(book, i);
      TakeOut(h, i);
      log := log + [Freed(h)];
    }

    /** Partial fill of the head: the incoming order is exhausted. */
    method ReduceHead(x: nat, h: nat, ghost i: nat)
      requires Core() && Incoming(x) && i < |book| && h == book[i].id && h != x && pool[h].order == book[i]
      requires pool[x].order.qty < pool[h].order.qty
      modifies this`book, this`log, pool
      ensures Core() && Incoming(x)
      ensures pool[x].order == old(pool[x].order).(qty := 0)
      ensures var q := old(pool[h].order.qty - pool[x].order.qty); book == old(book)[i := old(book)[i].(qty := q)]
      ensures log == old(log) + FillEvents(old(pool[x].order), old(book)[i])
      ensures Insts() == old(Insts())
      ensures forall y :: 0 <= y < POOL_CAPACITY && y != x && !InQueue(old(book), y) ==> pool[y] == old(pool[y])
    {
      hide Threaded, Indexed;
      var o, r := pool[x].order, pool[h].order;
      assert InQueue(book, h);
      log := log + FillEvents(o, r);
      ReducedIds(book, i, r.qty - o.qty);
      SetResting(h, r.qty - o.qty, i);
      SetIncoming(x, 0);
    }

    /** One round of the inner loop: reject on a self-trade, otherwise one trade with the head of level p. */
    method MatchHead(s: Side, p: nat, x: nat) returns (rejected: bool, ghost i: nat)
      requires Core() && Incoming(x) && p < MAX_PRICE && NoneBetter(book, s, p) && LimitsOf(s)[p].head != 0
      requires pool[x].order.side == s.Other() && pool[x].order.qty > 0
      modifies this`book, this`log, pool, bids, asks, byId
      ensures Core() && i == Best(old(book), s) && At(old(book)[i], s, p)
      ensures rejected == (old(book)[i].client == old(pool[x].order.client))
      ensures rejected ==> book == old(book) && LimitsOf(s)[p].head != 0
      ensures rejected ==> log == old(log) + RejectEvents(old(pool[x].order))
      ensures !rejected ==> Incoming(x)
      ensures !rejected ==>
        Took(old(book), book, i, old(book)[i].qty - Min(old(pool[x].order.qty), old(book)[i].qty))
      ensures !rejected ==>
        pool[x].order ==
          old(pool[x].order).(qty := old(pool[x].order.qty) - Min(old(pool[x].order.qty), old(book)[i].qty))
      ensures !rejected ==> log == old(log) + TradeEvents(old(pool[x].order), old(book)[i])
      ensures Insts() == old(Insts())
      ensures forall y :: 0 <= y < POOL_CAPACITY && y != x && !InQueue(old(book), y) ==>
        pool[y] == old(pool[y]) && byId[y] == old(byId[y])
    {
      hide Threaded, Indexed, WellFormed, NoneBetter;
      HeadFound(s, p);
      i := Best(book, s);
      var h := LimitsOf(s)[p].head;
      var o, r := pool[x].order, pool[h].order;
      assert InQueue(book, h) && h != x;
      rejected := r.client == o.client;
      if rejected {
        log := log + RejectEvents(o);
      } else if o.qty >= r.qty {
        FillHead(x, h, i);
      } else {
        ReduceHead(x, h, i);
      }
    }

    static lemma RoundProgress(b: Book, o: Order, log: seq<Event>, b': Book, i: nat, s: Side, p: nat)
      requires o.side == s.Other() && o.qty > 0 && Crosses(o, p) && NoneBetter(b, s, p) && WellFormed(b)
      requires i == Best(b, s) && At(b[i], s, p)
      requires b[i].client == o.client ==> b' == b
      requires b[i].client != o.client ==> Took(b, b', i, b[i].qty - Min(o.qty, b[i].qty))
      ensures Shrunk(b, b', s, p) && NoneBetter(b', s, p)
      ensures b[i].client == o.client ==> Match(b, o) == Outcome(b, RejectEvents(o))
      ensures b[i].client != o.client ==>
        Continues(b, o, log, b', o.(qty := o.qty - Min(o.qty, b[i].qty)), log + TradeEvents(o, b[i]))
    {
      if b[i].client == o.client {
        SelfTradeEnds(b, o, i);
      } else {
        TookShrinks(b, b', i, b[i].qty - Min(o.qty, b[i].qty));
        ShrunkBounds(b, b', s, p, s, p);
        TradeContinues(b, o, log, b', i);
      }
    }

    /** The same round, stated as progress of the reference match. */
    method Round(s: Side, p: nat, x: nat) returns (rejected: bool)
      requires Core() && Incoming(x) && p < MAX_PRICE && NoneBetter(book, s, p) && LimitsOf(s)[p].head != 0
      requires pool[x].order.side == s.Other() && pool[x].order.qty > 0 && Crosses(pool[x].order, p)
      modifies this`book, this`log, pool, bids, asks, byId
      ensures Core() && Shrunk(old(book), book, s, p) && NoneBetter(book, s, p)
      ensures rejected ==> LimitsOf(s)[p].head != 0
      ensures rejected ==> var r := Match(old(book), old(pool[x].order)); book == r.book && log == old(log) + r.events
      ensures !rejected ==> Incoming(x) && pool[x].order.qty < old(pool[x].order.qty)
      ensures !rejected ==> pool[x].order == old(pool[x].order).(qty := pool[x].order.qty)
      ensures !rejected ==> Continues(old(book), old(pool[x].order), old(log), book, pool[x].order, log)
      ensures Insts() == old(Insts())
      ensures forall y :: 0 <= y < POOL_CAPACITY && y != x && !InQueue(old(book), y) ==>
        pool[y] == old(pool[y]) && byId[y] == old(byId[y])
    {
      hide Threaded, Indexed, NoneBetter, Shrunk, Match, Best;
      ghost var i;
      rejected, i := MatchHead(s, p, x);
      RoundProgress(old(book), old(pool[x].order), old(log), book, i, s, p);
    }

    // A null head means an empty level.
    lemma HeadIsNull(s: Side, p: nat)
      requires Core() && p < MAX_PRICE
      ensures LimitsOf(s)[p].head == 0 <==> Level(book, s, p) == []
    {
      var lim, q := LimitsOf(s)[p], Level(book, s, p);
      assert lim == Pick(bids[..], asks[..], s)[p];
      assert Linked(pool[..], lim, q);
      if q != [] { assert LinkAt(pool[..], q, 0); }
    }

    /** The inner matching loop (orderbook.h:261-294 and 321-352): trade with side s's level p until the
        incoming order is exhausted, the level is empty, or the head belongs to the same client. */
    method FillLevel(s: Side, p: nat, x: nat) returns (rejected: bool)
      requires Core() && Incoming(x) && p < MAX_PRICE && NoneBetter(book, s, p)
      requires pool[x].order.side == s.Other() && Crosses(pool[x].order, p)
      modifies this`book, this`log, pool, bids, asks, byId
      ensures Core() && Shrunk(old(book), book, s, p) && NoneBetter(book, s, p)
      ensures rejected ==> LimitsOf(s)[p].head != 0
      ensures rejected ==> var r := Match(old(book), old(pool[x].order)); book == r.book && log == old(log) + r.events
      ensures !rejected ==> Incoming(x) && (pool[x].order.qty == 0 || LimitsOf(s)[p].head == 0)
      ensures !rejected ==> pool[x].order == old(pool[x].order).(qty := pool[x].order.qty)
      ensures !rejected ==> Continues(old(book), old(pool[x].order), old(log), book, pool[x].order, log)
      ensures Insts() == old(Insts())
      ensures forall y :: 0 <= y < POOL_CAPACITY && y != x && !InQueue(old(book), y) ==>
        pool[y] == old(pool[y]) && byId[y] == old(byId[y])
    {
      hide Threaded, Indexed, WellFormed, NoneBetter, Match;
      while pool[x].order.qty > 0 && LimitsOf(s)[p].head != 0
        invariant Core() && Incoming(x)
        invariant Shrunk(old(book), book, s, p) && NoneBetter(book, s, p)
        invariant Insts() == old(Insts())
        invariant pool[x].order == old(pool[x].order).(qty := pool[x].order.qty)
        invariant Continues(old(book), old(pool[x].order), old(log), book, pool[x].order, log)
        invariant forall y :: 0 <= y < POOL_CAPACITY && y != x && !InQueue(old(book), y) ==>
          pool[y] == old(pool[y]) && byId[y] == old(byId[y])
        decreases pool[x].order.qty
      {
        rejected := Round(s, p, x);
        if rejected { return; }
      }
      rejected := false;
    }

    /** FillLevel, with what it means for the bitmaps and the cached best prices, which it does not touch. */
    method SweepLevel(s: Side, p: nat, x: nat) returns (rejected: bool)
      requires Core() && MarkedExcept(Buy, -1) && Bounded()
      requires Incoming(x) && p < MAX_PRICE && NoneBetter(book, s, p)
      requires pool[x].order.side == s.Other() && Crosses(pool[x].order, p)
      modifies this`book, this`log, pool, bids, asks, byId
      ensures Core() && Bounded() && NoneBetter(book, s, p)
      ensures MarkedExcept(s, p) && (LimitsOf(s)[p].head != 0 ==> MarkedExcept(Buy, -1))
      ensures rejected ==> LimitsOf(s)[p].head != 0
      ensures rejected ==> var r := Match(old(book), old(pool[x].order)); book == r.book && log == old(log) + r.events
      ensures !rejected ==> Incoming(x) && (pool[x].order.qty == 0 || LimitsOf(s)[p].head == 0)
      ensures !rejected ==> pool[x].order == old(pool[x].order).(qty := pool[x].order.qty)
      ensures !rejected ==> Continues(old(book), old(pool[x].order), old(log), book, pool[x].order, log)
      ensures forall y :: InQueue(book, y) ==> InQueue(old(book), y)
      ensures Insts() == old(Insts())
      ensures forall y :: 0 <= y < POOL_CAPACITY && y != x && !InQueue(old(book), y) ==>
        pool[y] == old(pool[y]) && byId[y] == old(byId[y])
    {
      hide Threaded, Indexed, WellFormed, NoneBetter, Match, MarksMatch;
      ghost var b := book;
      rejected := FillLevel(s, p, x);
      ShrunkBounds(b, book, s, p, Buy, bestBid);
      ShrunkBounds(b, book, s, p, Sell, bestAsk);
      ShrunkMatches(Marks(), b, book, s, p);
      HeadIsNull(s, p);
    }

    method UnmarkPrice(s: Side, p: nat)
      requires Shape() && bidBits.Valid() && askBits.Valid() && p < MAX_PRICE
      modifies BitsOf(s).l1, BitsOf(s).l2
      ensures bidBits.Valid() && askBits.Valid()
      ensures Marks() == old(Marks()) - iset{(s, p)}
    {
      BitsOf(s).ClearBit(p);
    }

    /** An emptied ask level: clear its bit and look for the next one up (orderbook.h:295-303). */
    method NextAsk(p: nat) returns (next: int)
      requires Core() && MarkedExcept(Sell, p) && p < MAX_PRICE && asks[p].head == 0 && NoneBetter(book, Sell, p)
      requires Bounded()
      modifies this`bestAsk, askBits.l1, askBits.l2
      ensures Valid()
      ensures next == -1 || p < next < MAX_PRICE
      ensures NoneBetter(book, Sell, if next == -1 then MAX_PRICE else next)
    {
      hide Threaded, Indexed, WellFormed, MarksMatch;
      HeadIsNull(Sell, p);
      ClearedMatches(Marks(), book, Sell, p);
      UnmarkPrice(Sell, p);
      next := askBits.FindNextAsk(p + 1);
      ghost var bound := if next == -1 then MAX_PRICE else next;
      forall q | 0 <= q < MAX_PRICE && (Sell, q) in Marks() ensures bound <= q || q < p { assert askBits.Has(q); }
      AskBound(p, bound);
      if next != -1 { bestAsk := next; }
    }

    lemma AskBound(p: nat, bound: int)
      requires Core() && MarkedExcept(Buy, -1) && NoneBetter(book, Sell, p)
      requires forall q :: 0 <= q < MAX_PRICE && (Sell, q) in Marks() ==> bound <= q || q < p
      ensures NoneBetter(book, Sell, bound)
    {
      forall q | 0 <= q < MAX_PRICE && (Sell, q) in Marks() ensures bound <= q { LevelEmpty(book, Sell, q); }
      BoundFromMarks(Marks(), book, Sell, bound);
    }

    /** An emptied bid level: clear its bit and look for the next one down (orderbook.h:353-363). */
    method NextBid(p: nat) returns (next: int)
      requires Core() && MarkedExcept(Buy, p) && p < MAX_PRICE && bids[p].head == 0 && NoneBetter(book, Buy, p)
      requires Bounded()
      modifies this`bestBid, bidBits.l1, bidBits.l2
      ensures Valid()
      ensures -1 <= next < p
      ensures NoneBetter(book, Buy, next)
    {
      hide Threaded, Indexed, WellFormed, MarksMatch;
      HeadIsNull(Buy, p);
      ClearedMatches(Marks(), book, Buy, p);
      UnmarkPrice(Buy, p);
      if p > 0 {
        next := bidBits.FindNextBid(p - 1);
      } else {
        next := -1;
      }
      forall q | 0 <= q < MAX_PRICE && (Buy, q) in Marks() ensures q <= next || q > p { assert bidBits.Has(q); }
      BidBound(p, next);
      if next != -1 { bestBid := next; }
    }

    lemma BidBound(p: nat, bound: int)
      requires Core() && MarkedExcept(Buy, -1) && NoneBetter(book, Buy, p)
      requires forall q :: 0 <= q < MAX_PRICE && (Buy, q) in Marks() ==> q <= bound || q > p
      ensures NoneBetter(book, Buy, bound)
    {
      forall q | 0 <= q < MAX_PRICE && (Buy, q) in Marks() ensures q <= bound { LevelEmpty(book, Buy, q); }
      BoundFromMarks(Marks(), book, Buy, bound);
    }

    method MarkPrice(s: Side, p: nat)
      requires Shape() && bidBits.Valid() && askBits.Valid() && p < MAX_PRICE
      modifies BitsOf(s).l1, BitsOf(s).l2
      ensures bidBits.Valid() && askBits.Valid()
      ensures Marks() == old(Marks()) + iset{(s, p)}
    {
      BitsOf(s).SetBit(p);
    }

    /** Append the incoming order to its level and mark the price when the level was empty. */
    method LinkAndMark(x: nat)
      requires Core() && MarkedExcept(Buy, -1) && Incoming(x)
      requires pool[x].order.price < MAX_PRICE && pool[x].order.qty > 0
      modifies this`book, pool, bids, asks, byId, bidBits.l1, bidBits.l2, askBits.l1, askBits.l2
      ensures Core() && MarkedExcept(Buy, -1) && book == old(book) + [old(pool[x].order)]
      ensures Insts() == old(Insts())
      ensures forall y :: 0 <= y < POOL_CAPACITY && y != x && !InQueue(old(book), y) ==>
        pool[y] == old(pool[y]) && byId[y] == old(byId[y])
    {
      hide Threaded, Indexed, WellFormed, MarksMatch;
      var o := pool[x].order;
      var isNewLevel := LimitsOf(o.side)[o.price].head == 0;
      HeadIsNull(o.side, o.price);
      PutIn(x);
      if isNewLevel { MarkPrice(o.side, o.price); }
      RestMatches(old(Marks()), Marks(), old(book), o);
    }

    /** Rest the remainder of the incoming order (orderbook.h:307-315 and 367-375). */
    method RestOrder(x: nat)
      requires Valid() && Incoming(x) && pool[x].order.price < MAX_PRICE && pool[x].order.qty > 0
      modifies Repr
      ensures Valid() && book == old(book) + [old(pool[x].order)]
      ensures log == old(log) + RestEvents(old(pool[x].order))
      ensures Insts() == old(Insts())
      ensures forall y :: 0 <= y < POOL_CAPACITY && y != x && !InQueue(old(book), y) ==>
        pool[y] == old(pool[y]) && byId[y] == old(byId[y])
    {
      hide Threaded, Indexed, WellFormed, MarksMatch, NoneBetter;
      var o := pool[x].order;
      LinkAndMark(x);
      log := log + RestEvents(o);
      bestBid := if o.side.Buy? && o.price > bestBid then o.price else bestBid;
      bestAsk := if o.side.Sell? && o.price < bestAsk then o.price else bestAsk;
      assert Bounded() by {
        RestBounds(old(book), o, Buy, old(bestBid), bestBid);
        RestBounds(old(book), o, Sell, old(bestAsk), bestAsk);
      }
    }

    // With nothing within its limit, what is left of the order rests, or is done when nothing is left.
    static lemma MatchEnds(b: Book, o: Order)
      requires o.qty == 0 || NothingCrosses(b, o)
      ensures Match(b, o) == if o.qty == 0 then Outcome(b, [Freed(o.id)]) else Outcome(b + [o], RestEvents(o))
    {
      BestIsBest(b, o.side.Other());
    }

    /** One turn of the outer loop at level p; `next` is p again when the level still holds orders. */
    method StepAsks(p: nat, x: nat) returns (rejected: bool, next: int)
      requires Valid() && Incoming(x) && p < MAX_PRICE && NoneBetter(book, Sell, p)
      requires pool[x].order.side == Sell.Other() && Crosses(pool[x].order, p)
      modifies Repr
      ensures Valid()
      ensures rejected ==> var r := Match(old(book), old(pool[x].order)); book == r.book && log == old(log) + r.events
      ensures !rejected ==> Incoming(x) && pool[x].order == old(pool[x].order).(qty := pool[x].order.qty)
      ensures !rejected ==> Continues(old(book), old(pool[x].order), old(log), book, pool[x].order, log)
      ensures (next == -1 || p <= next < MAX_PRICE) && NoneBetter(book, Sell, if next == -1 then MAX_PRICE else next)
      ensures next == p ==> rejected || pool[x].order.qty == 0
      ensures forall y :: InQueue(book, y) ==> InQueue(old(book), y)
      ensures Insts() == old(Insts())
      ensures forall y :: 0 <= y < POOL_CAPACITY && y != x && !InQueue(old(book), y) ==>
        pool[y] == old(pool[y]) && byId[y] == old(byId[y])
    {
      hide Threaded, Indexed, WellFormed, MarksMatch, NoneBetter, Match;
      next := p;
      rejected := SweepLevel(Sell, p, x);
      if !rejected && asks[p].head == 0 {
        next := NextAsk(p);
      }
    }

    /** The matching loop of a buy order over the ask levels (orderbook.h:258-305). */
    method SweepAsks(x: nat) returns (rejected: bool)
      requires Valid() && Incoming(x) && pool[x].order.side.Buy? && pool[x].order.price < MAX_PRICE
      modifies Repr
      ensures Valid()
      ensures rejected ==> var r := Match(old(book), old(pool[x].order)); book == r.book && log == old(log) + r.events
      ensures !rejected ==> Incoming(x) && pool[x].order == old(pool[x].order).(qty := pool[x].order.qty)
      ensures !rejected ==> Continues(old(book), old(pool[x].order), old(log), book, pool[x].order, log)
      ensures !rejected ==> pool[x].order.qty == 0 || NoneBetter(book, Sell, pool[x].order.price + 1)
      ensures !rejected ==> forall y :: InQueue(book, y) ==> InQueue(old(book), y)
      ensures Insts() == old(Insts())
      ensures forall y :: 0 <= y < POOL_CAPACITY && y != x && !InQueue(old(book), y) ==>
        pool[y] == old(pool[y]) && byId[y] == old(byId[y])
    {
      hide Threaded, Indexed, WellFormed, MarksMatch, Match;
      var price := pool[x].order.price;
      var p: int := bestAsk;
      while p != -1 && p <= price && pool[x].order.qty > 0
        invariant Valid() && Incoming(x)
        invariant p == -1 || 0 <= p < MAX_PRICE
        invariant NoneBetter(book, Sell, if p == -1 then MAX_PRICE else p)
        invariant Insts() == old(Insts())
        invariant pool[x].order == old(pool[x].order).(qty := pool[x].order.qty)
        invariant Continues(old(book), old(pool[x].order), old(log), book, pool[x].order, log)
        invariant forall y :: InQueue(book, y) ==> InQueue(old(book), y)
        invariant forall y :: 0 <= y < POOL_CAPACITY && y != x && !InQueue(old(book), y) ==>
          pool[y] == old(pool[y]) && byId[y] == old(byId[y])
        decreases if p == -1 then 0 else MAX_PRICE - p
      {
        var next;
        rejected, next := StepAsks(p, x);
        if rejected { return; }
        if next == p { break; }
        p := next;
      }
      rejected := false;
    }

    /** One turn of the outer loop at level p; `next` is p again when the level still holds orders. */
    method StepBids(p: nat, x: nat) returns (rejected: bool, next: int)
      requires Valid() && Incoming(x) && p < MAX_PRICE && NoneBetter(book, Buy, p)
      requires pool[x].order.side == Buy.Other() && Crosses(pool[x].order, p)
      modifies Repr
      ensures Valid()
      ensures rejected ==> var r := Match(old(book), old(pool[x].order)); book == r.book && log == old(log) + r.events
      ensures !rejected ==> Incoming(x) && pool[x].order == old(pool[x].order).(qty := pool[x].order.qty)
      ensures !rejected ==> Continues(old(book), old(pool[x].order), old(log), book, pool[x].order, log)
      ensures -1 <= next <= p && NoneBetter(book, Buy, next)
      ensures next == p ==> rejected || pool[x].order.qty == 0
      ensures forall y :: InQueue(book, y) ==> InQueue(old(book), y)
      ensures Insts() == old(Insts())
      ensures forall y :: 0 <= y < POOL_CAPACITY && y != x && !InQueue(old(book), y) ==>
        pool[y] == old(pool[y]) && byId[y] == old(byId[y])
    {
      hide Threaded, Indexed, WellFormed, MarksMatch, NoneBetter, Match;
      next := p;
      rejected := SweepLevel(Buy, p, x);
      if !rejected && bids[p].head == 0 {
        next := NextBid(p);
      }
    }

    /** The matching loop of a sell order over the bid levels (orderbook.h:318-365). */
    method SweepBids(x: nat) returns (rejected: bool)
      requires Valid() && Incoming(x) && pool[x].order.side.Sell? && pool[x].order.price < MAX_PRICE
      modifies Repr
      ensures Valid()
      ensures rejected ==> var r := Match(old(book), old(pool[x].order)); book == r.book && log == old(log) + r.events
      ensures !rejected ==> Incoming(x) && pool[x].order == old(pool[x].order).(qty := pool[x].order.qty)
      ensures !rejected ==> Continues(old(book), old(pool[x].order), old(log), book, pool[x].order, log)
      ensures !rejected ==> pool[x].order.qty == 0 || NoneBetter(book, Buy, pool[x].order.price - 1)
      ensures !rejected ==> forall y :: InQueue(book, y) ==> InQueue(old(book), y)
      ensures Insts() == old(Insts())
      ensures forall y :: 0 <= y < POOL_CAPACITY && y != x && !InQueue(old(book), y) ==>
        pool[y] == old(pool[y]) && byId[y] == old(byId[y])
    {
      hide Threaded, Indexed, WellFormed, MarksMatch, Match;
      var price := pool[x].order.price;
      var p: int := bestBid;
      while p != -1 && p >= price && pool[x].order.qty > 0
        invariant Valid() && Incoming(x)
        invariant -1 <= p < MAX_PRICE && NoneBetter(book, Buy, p)
        invariant Insts() == old(Insts())
        invariant pool[x].order == old(pool[x].order).(qty := pool[x].order.qty)
        invariant Continues(old(book), old(pool[x].order), old(log), book, pool[x].order, log)
        invariant forall y :: InQueue(book, y) ==> InQueue(old(book), y)
        invariant forall y :: 0 <= y < POOL_CAPACITY && y != x && !InQueue(old(book), y) ==>
          pool[y] == old(pool[y]) && byId[y] == old(byId[y])
        decreases p
      {
        var next;
        rejected, next := StepBids(p, x);
        if rejected { return; }
        if next == p { break; }
        p := next;
      }
      rejected := false;
    }

    /** After the sweep: rest the remainder, or free the exhausted order's slot. */
    method Finish(x: nat)
      requires Valid() && Incoming(x) && pool[x].order.price < MAX_PRICE
      requires pool[x].order.qty == 0 || NothingCrosses(book, pool[x].order)
      modifies Repr
      ensures Valid()
      ensures var r := Match(old(book), old(pool[x].order)); book == r.book && log == old(log) + r.events
      ensures Insts() == old(Insts())
      ensures forall y :: 0 <= y < POOL_CAPACITY && y != x && !InQueue(old(book), y) ==>
        pool[y] == old(pool[y]) && byId[y] == old(byId[y])
    {
      hide Threaded, Indexed, WellFormed, MarksMatch, Match;
      MatchEnds(book, pool[x].order);
      if pool[x].order.qty > 0 {
        RestOrder(x);
      } else {
        log := log + [Freed(x)];
      }
    }

    /** match_order: the order in slot x meets the book exactly as in the reference (orderbook.h:250-378). */
    method MatchOrder(x: nat)
      requires Valid() && Incoming(x)
      modifies Repr
      ensures Valid()
      ensures var r := Submit(old(book), old(pool[x].order)); book == r.book && log == old(log) + r.events
      ensures Insts() == old(Insts())
      ensures forall y :: 0 <= y < POOL_CAPACITY && y != x && !InQueue(old(book), y) ==>
        pool[y] == old(pool[y]) && byId[y] == old(byId[y])
    {
      hide Threaded, Indexed, WellFormed, MarksMatch, Match;
      if pool[x].order.id >= POOL_CAPACITY || pool[x].order.price >= MAX_PRICE {
        log := log + [Freed(x)];
        return;
      }
      var rejected;
      if pool[x].order.side.Buy? {
        rejected := SweepAsks(x);
      } else {
        rejected := SweepBids(x);
      }
      if !rejected { Finish(x); }
    }

    /** A cancelled bid emptied level p: clear its bit, and move the cached best off it (orderbook.h:228-234). */
    method RetreatBid(p: nat)
      requires Core() && MarkedExcept(Buy, p) && Bounded() && p < MAX_PRICE && bids[p].head == 0
      modifies this`bestBid, bidBits.l1, bidBits.l2
      ensures Valid()
    {
      hide Threaded, Indexed, WellFormed, MarksMatch;
      HeadIsNull(Buy, p);
      ClearedMatches(Marks(), book, Buy, p);
      UnmarkPrice(Buy, p);
      if p == bestBid {
        var next := bidBits.FindNextBid(p);
        forall q | 0 <= q < MAX_PRICE && (Buy, q) in Marks() ensures q <= next || q > p { assert bidBits.Has(q); }
        BidBound(p, next);
        bestBid := if next == -1 then 0 else next;
      }
    }

    /** A cancelled ask emptied level p (orderbook.h:237-243). */
    method RetreatAsk(p: nat)
      requires Core() && MarkedExcept(Sell, p) && Bounded() && p < MAX_PRICE && asks[p].head == 0
      modifies this`bestAsk, askBits.l1, askBits.l2
      ensures Valid()
    {
      hide Threaded, Indexed, WellFormed, MarksMatch;
      HeadIsNull(Sell, p);
      ClearedMatches(Marks(), book, Sell, p);
      UnmarkPrice(Sell, p);
      if p == bestAsk {
        var next := askBits.FindNextAsk(p);
        ghost var bound := if next == -1 then MAX_PRICE else next;
        forall q | 0 <= q < MAX_PRICE && (Sell, q) in Marks() ensures bound <= q || q < p { assert askBits.Has(q); }
        AskBound(p, bound);
        bestAsk := if next == -1 then MAX_PRICE - 1 else next;
      }
    }

    lemma NotIndexed(id: nat)
      requires Core() && (id >= POOL_CAPACITY || byId[id] == 0)
      ensures IndexOf(book, id) == -1
    {}

    /** TakeOut, with what it means for the bitmaps and the cached best prices, which it does not touch. */
    method Withdraw(x: nat, ghost i: nat)
      requires Valid() && i < |book| && book[i].id == x
      modifies this`book, pool, bids, asks, byId
      ensures Core() && Bounded() && book == Without(old(book), i)
      ensures var s, p := old(book)[i].side, old(book)[i].price;
        MarkedExcept(s, p) && (LimitsOf(s)[p].head != 0 ==> MarkedExcept(Buy, -1))
      ensures Insts() == old(Insts())
      ensures forall y :: 0 <= y < POOL_CAPACITY && !InQueue(old(book), y) ==>
        pool[y] == old(pool[y]) && byId[y] == old(byId[y])
    {
      hide Threaded, Indexed, MarksMatch, NoneBetter;
      ghost var b, s, p := book, book[i].side, book[i].price;
      assert InQueue(b, x);
      TakeOut(x, i);
      TakenOut(b, i);
      HeadIsNull(s, p);
    }

    lemma TakenOut(b: Book, i: nat)
      requires i < |b| && book == Without(b, i)
      requires MarksMatch(Marks(), b, Buy, -1) && NoneBetter(b, Buy, bestBid) && NoneBetter(b, Sell, bestAsk)
      requires bestBid < MAX_PRICE && bestAsk < MAX_PRICE
      ensures Bounded() && MarksMatch(Marks(), book, b[i].side, b[i].price)
      ensures Level(book, b[i].side, b[i].price) != [] ==> MarksMatch(Marks(), book, Buy, -1)
    {
      var s, p := b[i].side, b[i].price;
      WithoutShrinks(b, i);
      ShrunkMatches(Marks(), b, book, s, p);
      ShrunkBounds(b, book, s, p, Buy, bestBid);
      ShrunkBounds(b, book, s, p, Sell, bestAsk);
    }

    /** Take resting order o out of the book and repair bitmap and cached best (orderbook.h:225-246). */
    method Erase(x: nat, o: Order, ghost i: nat)
      requires Valid() && i < |book| && book[i] == o && o.id == x
      modifies Repr
      ensures Valid() && book == Without(old(book), i) && log == old(log)
      ensures Insts() == old(Insts())
      ensures forall y :: 0 <= y < POOL_CAPACITY && !InQueue(old(book), y) ==>
        pool[y] == old(pool[y]) && byId[y] == old(byId[y])
    {
      hide Threaded, Indexed, MarksMatch, NoneBetter;
      Withdraw(x, i);
      if o.side.Buy? {
        if bids[o.price].head == 0 { RetreatBid(o.price); }
      } else {
        if asks[o.price].head == 0 { RetreatAsk(o.price); }
      }
    }

    lemma InBook(id: nat)
      requires Core() && id < POOL_CAPACITY && byId[id] != 0 && pool[id].order.inst == inst
      ensures IndexOf(book, id) != -1 && pool[id].order == book[IndexOf(book, id)]
    {
      hide Threaded;
      assert InQueue(book, id);
      RestingNode(pool[..], bids[..], asks[..], book, IndexOf(book, id));
    }

    /** cancel_order, called by the engine only for ids that orders_by_id maps to this book's instrument
        (orderbook.h:217-248). */
    method CancelOrder(id: nat)
      requires Valid()
      requires id < POOL_CAPACITY && byId[id] != 0 ==> pool[id].order.inst == inst
      modifies Repr
      ensures Valid()
      ensures var r := Cancel(old(book), id); book == r.book && log == old(log) + r.events
      ensures Insts() == old(Insts())
      ensures forall y :: 0 <= y < POOL_CAPACITY && !InQueue(old(book), y) ==>
        pool[y] == old(pool[y]) && byId[y] == old(byId[y])
    {
      hide Threaded, Indexed, WellFormed, MarksMatch, NoneBetter, Without;
      ghost var i := IndexOf(book, id);
      if id >= POOL_CAPACITY || byId[id] == 0 {
        NotIndexed(id);
        return;
      }
      InBook(id);
      var o := pool[id].order;
      log := log + [Broadcast(Removed, o, o.price, o.qty), Report(o, o.price, o.qty, Canceled)];
      Erase(id, o, i);
      log := log + [Freed(id)];
    }
  }

  /** One request through a fast book that has its pool to itself. */
  method Perform(fast: OrderBook, op: Op)
    requires fast.Valid() && Admissible(fast.book, op) && fast.Insts() == seq(POOL_CAPACITY, y => fast.inst)
    requires op.NewOrder? ==> op.order.id < POOL_CAPACITY && op.order.inst == fast.inst
    modifies fast.Repr
    ensures fast.Valid() && fast.Insts() == old(fast.Insts())
    ensures var r := Apply(old(fast.book), op); fast.book == r.book && fast.log == old(fast.log) + r.events
  {
    match op {
      case NewOrder(o) =>
        assert fast.Insts()[o.id] == fast.inst;
        fast.Place(o);
        fast.MatchOrder(o.id);
      case CancelOrder(id) =>
        assert id < POOL_CAPACITY ==> fast.Insts()[id] == fast.inst;
        fast.CancelOrder(id);
    }
  }

  /** Every sequence of requests, through the fast book: the same resting orders and the same messages,
      in the same order, as the reference book. */
  method Execute(inst: nat, ops: seq<Op>) returns (fast: OrderBook)
    requires Legal(ops)
    requires forall k :: 0 <= k < |ops| && ops[k].NewOrder? ==>
      ops[k].order.id < POOL_CAPACITY && ops[k].order.inst == inst
    ensures fast.Valid() && fast.book == Run(ops).book && fast.log == Run(ops).events
  {
    hide Legal, Admissible, Apply, Threaded, Indexed, WellFormed, MarksMatch, NoneBetter;
    var blank := Node(Order(0, 0, 0, 0, 0, inst, 0, Buy), 0, 0);
    var pool := new Node[POOL_CAPACITY](i => blank);
    var byId := new nat[POOL_CAPACITY](i => 0);
    fast := new OrderBook(inst, pool, byId);
    assert fast.Repr == fast.Repr - {pool, byId} + {pool, byId};
    for k := 0 to |ops|
      invariant fast.inst == inst && fresh(fast.Repr) && fast.Valid() && fast.Insts() == seq(POOL_CAPACITY, y => inst)
      invariant fast.book == Run(ops[..k]).book && fast.log == Run(ops[..k]).events
    {
      Prefix(ops, k);
      Perform(fast, ops[k]);
    }
    assert ops[..|ops|] == ops;
  }

  // One more request extends the reference run by one step.
  lemma {:induction false} Prefix(ops: seq<Op>, k: nat)
    requires Legal(ops) && k < |ops|
    ensures Legal(ops[..k]) && Admissible(Run(ops[..k]).book, ops[k])
    ensures var last := Apply(Run(ops[..k]).book, ops[k]);
      Run(ops[..k + 1]) == Outcome(last.book, Run(ops[..k]).events + last.events)
    decreases |ops|
  {
    assert ops[..k + 1][..k] == ops[..k];
    if k + 1 < |ops| {
      var shorter := ops[..|ops| - 1];
      assert shorter[..k] == ops[..k] && shorter[..k + 1] == ops[..k + 1];
      Prefix(shorter, k);
    } else {
      assert ops[..k + 1] == ops;
    }
  }
}
