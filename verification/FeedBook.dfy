/** The monitor's Book class: orders and price levels changed in place (orderbook.py:31-131). */
module FeedBook {
  import opened Orders
  import opened FeedTable

  datatype BookLevel = BookLevel(quantity: int, orders: int)

  type Levels = map<nat, BookLevel>

  /** _level_add on one side's levels. */
  function LevelAdded(levels: Levels, p: nat, qty: int): Levels {
    var lvl := if p in levels then levels[p] else BookLevel(0, 0);
    levels[p := BookLevel(lvl.quantity + qty, lvl.orders + 1)]
  }

  /** _level_sub on one side's levels. */
  function LevelSubbed(levels: Levels, p: nat, qty: int, dropOrder: bool): Levels {
    if p !in levels then levels else
      var lvl := BookLevel(levels[p].quantity - qty, levels[p].orders - if dropOrder then 1 else 0);
      if lvl.quantity <= 0 || lvl.orders <= 0 then levels - {p} else levels[p := lvl]
  }

  datatype Price = NoPrice | Price(value: nat)

  /** A bid at or above the best ask, or an ask at or below the best bid. */
  predicate ReachesAcross(e: Entry, bid: nat, ask: nat) {
    (e.side.Buy? && e.price >= ask) || (e.side.Sell? && e.price <= bid)
  }

  /** Price p of a side's levels holds the total quantity and number of the stored orders there. */
  ghost predicate AggregatesAt(t: Table, levels: Levels, s: Side, p: nat) {
    && (p in levels <==> Count(t, s, p) > 0)
    && (p in levels ==> levels[p] == BookLevel(Quantity(t, s, p), Count(t, s, p)))
  }

  /** A side's levels are the aggregate of the stored orders: same prices, quantities and order counts. */
  ghost predicate Aggregates(t: Table, levels: Levels, s: Side) {
    forall p: nat :: AggregatesAt(t, levels, s, p)
  }

  function OnSide(e: Entry, s: Side, changed: Levels, same: Levels): Levels {
    if e.side == s then changed else same
  }

  /** A price whose level the message leaves alone, or adds an order to. */
  lemma SameAt(t: Table, t': Table, levels: Levels, levels': Levels, s: Side, p: nat)
    requires AggregatesAt(t, levels, s, p)
    requires Quantity(t', s, p) == Quantity(t, s, p) && Count(t', s, p) == Count(t, s, p)
    requires (p in levels <==> p in levels') && (p in levels ==> levels'[p] == levels[p])
    ensures AggregatesAt(t', levels', s, p)
  {}

  lemma AddedAt(t: Table, t': Table, levels: Levels, s: Side, p: nat, qty: int)
    requires NonNegative(t) && AggregatesAt(t, levels, s, p)
    requires Quantity(t', s, p) == Quantity(t, s, p) + qty && Count(t', s, p) == Count(t, s, p) + 1
    ensures AggregatesAt(t', LevelAdded(levels, p, qty), s, p)
  {
    hide Quantity, Count;
    LevelSigns(t, s, p);
  }

  /** A price that the message takes from: the level is deleted when no quantity is left, which is one deletion too
      many exactly when orders are left. */
  lemma SubbedAt(t: Table, t': Table, levels: Levels, s: Side, p: nat, qty: int, drop: bool)
    requires NonNegative(t) && NonNegative(t') && AggregatesAt(t, levels, s, p) && Count(t, s, p) > 0
    requires Quantity(t', s, p) == Quantity(t, s, p) - qty && Count(t', s, p) == Count(t, s, p) - if drop then 1 else 0
    ensures AggregatesAt(t', LevelSubbed(levels, p, qty, drop), s, p) <==>
      !(Quantity(t', s, p) == 0 && Count(t', s, p) > 0)
  {
    hide Quantity, Count;
    LevelSigns(t', s, p);
  }

  lemma AddAggregates(t: Table, levels: Levels, s: Side, id: nat, e: Entry)
    requires NonNegative(t) && Aggregates(t, levels, s) && id !in t
    ensures Aggregates(t[id := e], OnSide(e, s, LevelAdded(levels, e.price, e.remaining), levels), s)
  {
    var t', levels' := t[id := e], OnSide(e, s, LevelAdded(levels, e.price, e.remaining), levels);
    forall p: nat ensures AggregatesAt(t', levels', s, p) {
      SumInsert(t, id, e, CountAt(s, p));
      SumInsert(t, id, e, QuantityAt(s, p));
      assert AggregatesAt(t, levels, s, p);
      if e.side == s && e.price == p {
        AddedAt(t, t', levels, s, p, e.remaining);
      } else {
        SameAt(t, t', levels, levels', s, p);
      }
    }
  }

  /** Taking out order id leaves only empty orders at its price: some order, but no quantity. */
  ghost predicate LeavesOnlyEmpty(t: Table, id: nat)
    requires id in t
  {
    var e := t[id];
    Quantity(t - {id}, e.side, e.price) == 0 && Count(t - {id}, e.side, e.price) > 0
  }

  /** Removal keeps a side's levels the aggregate of its orders unless it leaves only empty ones. */
  lemma RemoveAggregatesIff(t: Table, levels: Levels, s: Side, id: nat)
    requires NonNegative(t) && Aggregates(t, levels, s) && id in t
    ensures var levels' := OnSide(t[id], s, LevelSubbed(levels, t[id].price, t[id].remaining, true), levels);
      Aggregates(t - {id}, levels', s) <==> !(t[id].side == s && LeavesOnlyEmpty(t, id))
  {
    var e := t[id];
    var t', levels' := t - {id}, OnSide(e, s, LevelSubbed(levels, e.price, e.remaining, true), levels);
    LevelSigns(t, s, e.price);
    forall p: nat
      ensures AggregatesAt(t', levels', s, p) <==> !(e.side == s && e.price == p && LeavesOnlyEmpty(t, id))
    {
      SumPick(t, id, CountAt(s, p));
      SumPick(t, id, QuantityAt(s, p));
      assert AggregatesAt(t, levels, s, p);
      if e.side == s && e.price == p {
        SubbedAt(t, t', levels, s, p, e.remaining, true);
      } else {
        SameAt(t, t', levels, levels', s, p);
      }
    }
    if e.side == s && LeavesOnlyEmpty(t, id) { assert !AggregatesAt(t', levels', s, e.price); }
  }

  lemma ReduceAggregates(t: Table, levels: Levels, s: Side, id: nat, qty: nat, now: real)
    requires NonNegative(t) && Aggregates(t, levels, s) && id in t && qty < t[id].remaining
    ensures var e := t[id];
      Aggregates(t[id := e.(remaining := e.remaining - qty, touched := now)],
                 OnSide(e, s, LevelSubbed(levels, e.price, qty, false), levels), s)
  {
    var e := t[id];
    var e' := e.(remaining := e.remaining - qty, touched := now);
    var t', levels' := t[id := e'], OnSide(e, s, LevelSubbed(levels, e.price, qty, false), levels);
    LevelSigns(t, s, e.price);
    forall p: nat ensures AggregatesAt(t', levels', s, p) {
      SumUpdate(t, id, e', CountAt(s, p));
      SumUpdate(t, id, e', QuantityAt(s, p));
      assert AggregatesAt(t, levels, s, p);
      if e.side == s && e.price == p {
        OneOfMany(t', id);
        SubbedAt(t, t', levels, s, p, qty, false);
      } else {
        SameAt(t, t', levels, levels', s, p);
      }
    }
  }

  lemma OneOfMany(t: Table, id: nat)
    requires NonNegative(t) && id in t
    ensures Quantity(t, t[id].side, t[id].price) >= t[id].remaining
  {
    SumPick(t, id, QuantityAt(t[id].side, t[id].price));
    LevelSigns(t - {id}, t[id].side, t[id].price);
  }

  /** A level lost while orders are stored at its price does not come back by adding one more. */
  lemma LostStaysLost(t: Table, levels: Levels, id: nat, e: Entry, s: Side, p: nat)
    requires id !in t && p !in levels && Count(t, s, p) > 0
    ensures !Aggregates(t[id := e], OnSide(e, s, LevelAdded(levels, e.price, e.remaining), levels), s)
  {
    SumInsert(t, id, e, CountAt(s, p));
    var levels' := OnSide(e, s, LevelAdded(levels, e.price, e.remaining), levels);
    assert !AggregatesAt(t[id := e], levels', s, p);
  }

  /** The message ends an order the book stores: a removal, a completing execution, or an 'A' for a held reference. */
  predicate Ends(t: Table, e: Event) {
    e.Itch? && e.id in t && (e.kind.Executed? ==> t[e.id].remaining - e.qty <= 0)
  }

  /** The message makes the book lose a level that still has orders. */
  ghost predicate LosesLevel(t: Table, e: Event) {
    Ends(t, e) && LeavesOnlyEmpty(t, e.id)
  }

  /** With positive entries no message does. */
  lemma PositiveLosesNothing(t: Table, id: nat)
    requires Positive(t) && id in t
    ensures !LeavesOnlyEmpty(t, id)
  {
    LevelSigns(t - {id}, t[id].side, t[id].price);
  }

  /** Every level of a side counts at least one and at most all of the orders stored at its price. */
  ghost predicate Backed(t: Table, levels: Levels, s: Side) {
    forall p: nat :: p in levels ==> 1 <= levels[p].orders <= Count(t, s, p)
  }

  lemma AggregatesBacked(t: Table, levels: Levels, s: Side)
    requires Aggregates(t, levels, s)
    ensures Backed(t, levels, s)
  {
    forall p: nat | p in levels ensures 1 <= levels[p].orders <= Count(t, s, p) {
      assert AggregatesAt(t, levels, s, p);
    }
  }

  lemma AddBacked(t: Table, levels: Levels, s: Side, id: nat, e: Entry)
    requires NonNegative(t) && Backed(t, levels, s) && id !in t
    ensures Backed(t[id := e], OnSide(e, s, LevelAdded(levels, e.price, e.remaining), levels), s)
  {
    var t', levels' := t[id := e], OnSide(e, s, LevelAdded(levels, e.price, e.remaining), levels);
    forall p: nat | p in levels' ensures 1 <= levels'[p].orders <= Count(t', s, p) {
      SumInsert(t, id, e, CountAt(s, p));
      LevelSigns(t, s, p);
    }
  }

  lemma RemoveBacked(t: Table, levels: Levels, s: Side, id: nat)
    requires Backed(t, levels, s) && id in t
    ensures var e := t[id];
      Backed(t - {id}, OnSide(e, s, LevelSubbed(levels, e.price, e.remaining, true), levels), s)
  {
    var e := t[id];
    var t', levels' := t - {id}, OnSide(e, s, LevelSubbed(levels, e.price, e.remaining, true), levels);
    forall p: nat | p in levels' ensures 1 <= levels'[p].orders <= Count(t', s, p) { SumPick(t, id, CountAt(s, p)); }
  }

  lemma ReduceBacked(t: Table, levels: Levels, s: Side, id: nat, qty: nat, e': Entry)
    requires Backed(t, levels, s) && id in t && e'.side == t[id].side && e'.price == t[id].price
    ensures Backed(t[id := e'], OnSide(t[id], s, LevelSubbed(levels, t[id].price, qty, false), levels), s)
  {
    var t', levels' := t[id := e'], OnSide(t[id], s, LevelSubbed(levels, t[id].price, qty, false), levels);
    forall p: nat | p in levels' ensures 1 <= levels'[p].orders <= Count(t', s, p) {
      SumUpdate(t, id, e', CountAt(s, p));
    }
  }

  /** Some order is stored on side s at price p. */
  ghost predicate Stored(t: Table, s: Side, p: nat) {
    exists id :: id in t && t[id].side == s && t[id].price == p
  }

  /** The orders touched no longer than ttl ago. */
  function TouchedLately(t: Table, now: real, ttl: real): Table {
    map ref | ref in t && now - t[ref].touched <= ttl :: t[ref]
  }

  lemma StaleAndLate(t: Table, stale: set<nat>, now: real, ttl: real)
    requires stale == set ref | ref in t && now - t[ref].touched > ttl
    ensures t - stale == TouchedLately(t, now, ttl) && stale <= t.Keys
  {}

  lemma OneLess(t: Table, stale: set<nat>, ref: nat)
    requires ref in stale
    ensures t - {ref} - (stale - {ref}) == t - stale
  {}

  /** The levels of the two sides cross. */
  ghost predicate LevelsCross(bids: Levels, asks: Levels) {
    exists b, a :: b in bids && a in asks && b >= a
  }

  /** An order on the far side of some level of the other side. */
  ghost predicate InTheWay(e: Entry, bids: Levels, asks: Levels) {
    if e.side.Buy? then exists a :: a in asks && e.price >= a else exists b :: b in bids && e.price <= b
  }

  /** The oldest order in the way. */
  ghost predicate IsNext(t: Table, bids: Levels, asks: Levels, v: nat) {
    && v in t && InTheWay(t[v], bids, asks)
    && forall q :: q in t && InTheWay(t[q], bids, asks) ==> Before(t, v, q)
  }

  class Book {
    var orders: Table
    var bids: Levels
    var asks: Levels

    /** What every message keeps, whatever it is. */
    ghost predicate Sane()
      reads this
    {
      NonNegative(orders) && Backed(orders, bids, Buy) && Backed(orders, asks, Sell)
    }

    /** The levels of both sides are the aggregate of the stored orders. */
    ghost predicate Aggregated()
      reads this
    {
      Aggregates(orders, bids, Buy) && Aggregates(orders, asks, Sell)
    }

    ghost predicate Valid()
      reads this
    {
      NonNegative(orders) && Aggregated()
    }

    lemma ValidIsSane()
      requires Valid()
      ensures Sane()
    {
      AggregatesBacked(orders, bids, Buy);
      AggregatesBacked(orders, asks, Sell);
    }

    constructor ()
      ensures Valid() && Sane() && orders == map[] && bids == map[] && asks == map[]
    {
      orders, bids, asks := map[], map[], map[];
    }

    method RemoveOrder(ref: nat)
      requires ref in orders
      modifies this
      ensures orders == old(orders) - {ref}
      ensures var e := old(orders)[ref];
        && bids == OnSide(e, Buy, LevelSubbed(old(bids), e.price, e.remaining, true), old(bids))
        && asks == OnSide(e, Sell, LevelSubbed(old(asks), e.price, e.remaining, true), old(asks))
      ensures old(Sane()) ==> Sane()
      ensures old(Valid()) ==> (Valid() <==> !LeavesOnlyEmpty(old(orders), ref))
    {
      hide Aggregates, Backed, LeavesOnlyEmpty;
      if Valid() {
        RemoveAggregatesIff(orders, bids, Buy, ref);
        RemoveAggregatesIff(orders, asks, Sell, ref);
      }
      if Sane() {
        RemoveBacked(orders, bids, Buy, ref);
        RemoveBacked(orders, asks, Sell, ref);
      }
      var e := orders[ref];
      orders := orders - {ref};
      if e.side.Buy? {
        bids := LevelSubbed(bids, e.price, e.remaining, true);
      } else {
        asks := LevelSubbed(asks, e.price, e.remaining, true);
      }
    }

    /** The end of an 'A': the reference is not held (any more). */
    method PutOrder(ref: nat, entry: Entry)
      requires ref !in orders && entry.remaining >= 0
      modifies this
      ensures orders == old(orders)[ref := entry]
      ensures bids == OnSide(entry, Buy, LevelAdded(old(bids), entry.price, entry.remaining), old(bids))
      ensures asks == OnSide(entry, Sell, LevelAdded(old(asks), entry.price, entry.remaining), old(asks))
      ensures old(Sane()) ==> Sane()
      ensures old(Valid()) ==> Valid()
    {
      hide Aggregates, Backed;
      if Valid() {
        AddAggregates(orders, bids, Buy, ref, entry);
        AddAggregates(orders, asks, Sell, ref, entry);
      }
      if Sane() {
        AddBacked(orders, bids, Buy, ref, entry);
        AddBacked(orders, asks, Sell, ref, entry);
      }
      orders := orders[ref := entry];
      if entry.side.Buy? {
        bids := LevelAdded(bids, entry.price, entry.remaining);
      } else {
        asks := LevelAdded(asks, entry.price, entry.remaining);
      }
    }

    /** An 'A' is authoritative: it replaces whatever the reference held. */
    method AddOrder(e: Event, now: real)
      requires e.Itch? && e.kind.Added?
      modifies this
      ensures orders == Applied(old(orders), e, now)
      ensures e.id !in old(orders) ==>
        && bids == OnSide(orders[e.id], Buy, LevelAdded(old(bids), e.price, e.qty), old(bids))
        && asks == OnSide(orders[e.id], Sell, LevelAdded(old(asks), e.price, e.qty), old(asks))
      ensures old(Sane()) ==> Sane()
      ensures old(Valid()) ==> (Valid() <==> !LosesLevel(old(orders), e))
    {
      hide Aggregates, Backed, LeavesOnlyEmpty;
      ghost var was := orders;
      var entry := Entry(e.side, e.price, e.qty, now);
      if e.id in orders { RemoveOrder(e.id); }
      ghost var t, b, a := orders, bids, asks;
      PutOrder(e.id, entry);
      assert orders == was[e.id := entry];
      if old(Valid()) && LosesLevel(was, e) {
        LostForGood(was, old(bids), old(asks), t, b, a, e.id, entry);
      }
    }

    /** An 'E' reduces or removes the order; for an unknown reference it is ignored. */
    method ExecuteOrder(e: Event, now: real)
      requires e.Itch? && e.kind.Executed?
      modifies this
      ensures orders == Applied(old(orders), e, now)
      ensures old(Sane()) ==> Sane()
      ensures old(Valid()) ==> (Valid() <==> !LosesLevel(old(orders), e))
    {
      hide Aggregates, Backed, LeavesOnlyEmpty;
      if e.id !in orders { return; }
      var o := orders[e.id];
      if o.remaining - e.qty <= 0 {
        RemoveOrder(e.id);
      } else {
        var o' := o.(remaining := o.remaining - e.qty, touched := now);
        if Valid() {
          ReduceAggregates(orders, bids, Buy, e.id, e.qty, now);
          ReduceAggregates(orders, asks, Sell, e.id, e.qty, now);
        }
        if Sane() {
          ReduceBacked(orders, bids, Buy, e.id, e.qty, o');
          ReduceBacked(orders, asks, Sell, e.id, e.qty, o');
        }
        orders := orders[e.id := o'];
        if o.side.Buy? {
          bids := LevelSubbed(bids, o.price, e.qty, false);
        } else {
          asks := LevelSubbed(asks, o.price, e.qty, false);
        }
      }
    }

    /** One market-data message. The order table follows it in any case; levels that aggregate the table go on doing
        so unless the message ends an order and leaves only empty ones at its price. */
    method Apply(e: Event, now: real)
      requires e.Itch?
      modifies this
      ensures orders == Applied(old(orders), e, now)
      ensures old(Sane()) ==> Sane()
      ensures old(Valid()) ==> (Valid() <==> !LosesLevel(old(orders), e))
      ensures e.kind.Removed? && e.id in old(orders) ==> var o := old(orders)[e.id];
        bids == OnSide(o, Buy, LevelSubbed(old(bids), o.price, o.remaining, true), old(bids))
      ensures e.kind.Added? && e.id !in old(orders) ==>
        bids == OnSide(orders[e.id], Buy, LevelAdded(old(bids), e.price, e.qty), old(bids))
    {
      hide Aggregates, Backed, LeavesOnlyEmpty;
      match e.kind {
        case Added => AddOrder(e, now);
        case Executed => ExecuteOrder(e, now);
        case Removed => if e.id in orders { RemoveOrder(e.id); }
      }
    }

    /** RemoveOrder, with what a caller that evicts needs to know. */
    method Evict(ref: nat)
      requires ref in orders
      modifies this
      ensures orders == old(orders) - {ref} && |orders| == |old(orders)| - 1
      ensures old(Sane()) ==> Sane()
      ensures old(Valid()) && Positive(old(orders)) ==> Valid() && Positive(orders)
    {
      hide Book.Valid, Book.Sane, OnSide, LevelSubbed, LeavesOnlyEmpty;
      assert orders.Keys - {ref} == (orders - {ref}).Keys;
      if Positive(orders) { PositiveLosesNothing(orders, ref); }
      RemoveOrder(ref);
    }

    /** Drop orders untouched for longer than ttl. */
    method EvictStale(now: real, ttl: real) returns (n: nat)
      modifies this
      ensures orders == TouchedLately(old(orders), now, ttl)
      ensures n == |old(orders)| - |orders|
      ensures old(Sane()) ==> Sane()
      ensures old(Valid()) && Positive(old(orders)) ==> Valid() && Positive(orders)
    {
      hide Book.Valid, Book.Sane, Positive;
      var stale := set ref | ref in orders && now - orders[ref].touched > ttl;
      n := 0;
      ghost var kept := orders - stale;
      StaleAndLate(orders, stale, now, ttl);
      hide TouchedLately;
      while stale != {}
        invariant stale <= orders.Keys && orders - stale == kept
        invariant n == |old(orders)| - |orders|
        invariant old(Sane()) ==> Sane()
        invariant old(Valid()) && Positive(old(orders)) ==> Valid() && Positive(orders)
        decreases |stale|
      {
        var ref :| ref in stale;
        OneLess(orders, stale, ref);
        Evict(ref);
        stale := stale - {ref};
        n := n + 1;
      }
      assert orders == orders - stale;
    }

    method BestBid() returns (r: Price)
      ensures r.NoPrice? <==> bids == map[]
      ensures r.Price? ==> r.value in bids && forall p :: p in bids ==> p <= r.value
    {
      if bids == map[] { return NoPrice; }
      var best :| best in bids;
      var rest := bids.Keys;
      while rest != {}
        invariant best in bids && rest <= bids.Keys && forall p :: p in bids && p !in rest ==> p <= best
        decreases |rest|
      {
        var p :| p in rest;
        if p > best { best := p; }
        rest := rest - {p};
      }
      r := Price(best);
    }

    method BestAsk() returns (r: Price)
      ensures r.NoPrice? <==> asks == map[]
      ensures r.Price? ==> r.value in asks && forall p :: p in asks ==> r.value <= p
    {
      if asks == map[] { return NoPrice; }
      var best :| best in asks;
      var rest := asks.Keys;
      while rest != {}
        invariant best in asks && rest <= asks.Keys && forall p :: p in asks && p !in rest ==> best <= p
        decreases |rest|
      {
        var p :| p in rest;
        if p < best { best := p; }
        rest := rest - {p};
      }
      r := Price(best);
    }

    // A price is a level exactly when some stored order is there.

    lemma LevelPrices(s: Side, p: nat)
      requires Valid()
      ensures (p in if s.Buy? then bids else asks) <==> Stored(orders, s, p)
    {
      LevelSigns(orders, s, p);
      assert AggregatesAt(orders, if s.Buy? then bids else asks, s, p);
    }

    // On aggregated levels the level test is the order test.
    lemma LevelsDecide()
      requires Valid()
      ensures LevelsCross(bids, asks) <==> Crossed(orders)
      ensures forall v :: v in orders ==> (InTheWay(orders[v], bids, asks) <==> Crossing(orders, v))
    {
      hide Aggregates;
      forall p: nat ensures p in bids <==> Stored(orders, Buy, p) { LevelPrices(Buy, p); }
      forall p: nat ensures p in asks <==> Stored(orders, Sell, p) { LevelPrices(Sell, p); }
      CrossFromLevels(orders, bids, asks);
    }

    /** min(crossing)[1]: the oldest of some orders. */
    method Oldest(refs: set<nat>) returns (v: nat)
      requires refs <= orders.Keys && refs != {}
      ensures v in refs && forall q :: q in refs ==> Before(orders, v, q)
    {
      v :| v in refs;
      var rest := refs;
      while rest != {}
        invariant v in refs && rest <= refs && forall q :: q in refs && q !in rest ==> Before(orders, v, q)
        decreases |rest|
      {
        var q :| q in rest;
        if Before(orders, q, v) { v := q; }
        rest := rest - {q};
      }
    }

    /** The order that repair_crossed evicts next, if the levels cross (orderbook.py:116-123): there always is one. On
        aggregated levels it is the oldest order of a crossing pair. */
    method NextVictim() returns (crossed: bool, v: nat)
      requires Sane()
      ensures crossed <==> LevelsCross(bids, asks)
      ensures crossed ==> IsNext(orders, bids, asks, v)
      ensures crossed ==> forall q :: q in orders && InTheWay(orders[q], bids, asks) ==>
        orders[v].touched < orders[q].touched || (orders[v].touched == orders[q].touched && v <= q)
      ensures Valid() ==> (crossed <==> Crossed(orders)) && (crossed ==> v == Victim(orders))
    {
      hide Aggregates, Crossing, Crossed, Backed;
      var bid := BestBid();
      var ask := BestAsk();
      v := 0;
      crossed := !(bid.NoPrice? || ask.NoPrice? || bid.value < ask.value);
      if crossed {
        var crossing := set r | r in orders && ReachesAcross(orders[r], bid.value, ask.value);
        forall r | r in orders ensures InTheWay(orders[r], bids, asks) <==> r in crossing {}
        BackedStored(orders, bids, Buy, bid.value);
        assert crossing != {};
        v := Oldest(crossing);
      }
      if Valid() {
        LevelsDecide();
        if crossed { SameOldest(orders, bids, asks, v); }
      }
    }

    /** Uncross by evicting the oldest crossing orders, at most maxEvictions of them. It stops when the levels do not
        cross, or at the limit; with positive entries on aggregated levels it is the repair of the order table. */
    method RepairCrossed(maxEvictions: nat) returns (evicted: nat)
      requires Sane()
      modifies this
      ensures Sane() && (forall id <- orders :: id in old(orders) && orders[id] == old(orders)[id])
      ensures evicted == |old(orders)| - |orders| && evicted <= maxEvictions
      ensures LevelsCross(bids, asks) ==> evicted == maxEvictions
      ensures !old(LevelsCross(bids, asks)) ==>
        evicted == 0 && orders == old(orders) && bids == old(bids) && asks == old(asks)
      ensures old(Valid()) && Positive(old(orders)) ==>
        && Valid() && orders == Repaired(old(orders), maxEvictions)
        && (Crossed(orders) <==> LevelsCross(bids, asks)) && (Crossed(old(orders)) <==> old(LevelsCross(bids, asks)))
    {
      hide Book.Valid, Book.Sane, Crossed, LevelsCross, Positive;
      evicted := 0;
      ghost var strict := Valid() && Positive(orders);
      if strict { LevelsDecide(); }
      while evicted < maxEvictions
        invariant Sane() && evicted <= maxEvictions && evicted == |old(orders)| - |orders|
        invariant forall id <- orders :: id in old(orders) && orders[id] == old(orders)[id]
        invariant !old(LevelsCross(bids, asks)) ==> evicted == 0 && orders == old(orders)
        invariant !old(LevelsCross(bids, asks)) ==> bids == old(bids) && asks == old(asks)
        invariant strict ==> Valid() && Positive(orders) && (Crossed(orders) <==> LevelsCross(bids, asks))
        invariant strict ==> Repaired(orders, maxEvictions - evicted) == Repaired(old(orders), maxEvictions)
      {
        var crossed := EvictNext();
        if !crossed { return; }
        if strict { LevelsDecide(); }
        evicted := evicted + 1;
      }
    }

    /** One round of repair_crossed. */
    method EvictNext() returns (crossed: bool)
      requires Sane()
      modifies this
      ensures Sane() && (crossed <==> old(LevelsCross(bids, asks)))
      ensures !crossed ==> orders == old(orders) && bids == old(bids) && asks == old(asks)
      ensures crossed ==> exists v :: IsNext(old(orders), old(bids), old(asks), v) && orders == old(orders) - {v}
      ensures crossed ==> |orders| == |old(orders)| - 1
      ensures old(Valid()) && Positive(old(orders)) ==>
        && Valid() && Positive(orders) && (crossed <==> Crossed(old(orders)))
        && (crossed ==> orders == old(orders) - {Victim(old(orders))})
    {
      hide Book.Valid, Book.Sane, OnSide, LevelSubbed, LeavesOnlyEmpty, Crossed, LevelsCross, IsNext;
      ghost var was := orders;
      var v;
      crossed, v := NextVictim();
      if crossed {
        NextIsStored(v);
        Evict(v);
      }
    }

    lemma NextIsStored(v: nat)
      requires IsNext(orders, bids, asks, v)
      ensures v in orders
    {}
  }

  /** Crossing levels are backed by stored orders. */
  lemma BackedStored(t: Table, levels: Levels, s: Side, p: nat)
    requires NonNegative(t) && Backed(t, levels, s) && p in levels
    ensures Stored(t, s, p)
  {
    LevelSigns(t, s, p);
  }

  lemma CrossFromLevels(t: Table, bids: Levels, asks: Levels)
    requires forall p: nat :: p in bids <==> Stored(t, Buy, p)
    requires forall p: nat :: p in asks <==> Stored(t, Sell, p)
    ensures LevelsCross(bids, asks) <==> Crossed(t)
    ensures forall v :: v in t ==> (InTheWay(t[v], bids, asks) <==> Crossing(t, v))
  {
    hide InTheWay, Crossing;
    forall v | v in t ensures InTheWay(t[v], bids, asks) <==> Crossing(t, v) { WayFromLevels(t, bids, asks, v); }
    if b, a :| b in bids && a in asks && b >= a {
      var x :| x in t && t[x].side == Buy && t[x].price == b;
      var y :| y in t && t[y].side == Sell && t[y].price == a;
      assert CrossPair(t, x, y);
    }
    if x, y :| CrossPair(t, x, y) {
      assert t[x].price in bids && t[y].price in asks;
    }
  }

  lemma WayFromLevels(t: Table, bids: Levels, asks: Levels, v: nat)
    requires forall p: nat :: p in bids <==> Stored(t, Buy, p)
    requires forall p: nat :: p in asks <==> Stored(t, Sell, p)
    requires v in t
    ensures InTheWay(t[v], bids, asks) <==> Crossing(t, v)
  {
    if t[v].side.Buy? {
      if a :| a in asks && t[v].price >= a {
        var y :| y in t && t[y].side == Sell && t[y].price == a;
        assert CrossPair(t, v, y);
      }
      if q :| CrossPair(t, v, q) { assert t[q].price in asks; }
    } else {
      if b :| b in bids && t[v].price <= b {
        var x :| x in t && t[x].side == Buy && t[x].price == b;
        assert CrossPair(t, x, v);
      }
      if q :| CrossPair(t, q, v) { assert t[q].price in bids; }
    }
  }

  lemma SameOldest(t: Table, bids: Levels, asks: Levels, v: nat)
    requires IsNext(t, bids, asks, v) && Crossed(t)
    requires forall q :: q in t ==> (InTheWay(t[q], bids, asks) <==> Crossing(t, q))
    ensures v == Victim(t)
  {
    hide InTheWay, Crossing;
    assert Before(t, v, Victim(t)) && Before(t, Victim(t), v);
  }

  /** A level lost by the first half of an 'A' is still lost after the second. */
  lemma LostForGood(was: Table, bids: Levels, asks: Levels, t: Table, b: Levels, a: Levels, id: nat, e: Entry)
    requires NonNegative(was) && Aggregates(was, bids, Buy) && Aggregates(was, asks, Sell) && id in was
    requires LeavesOnlyEmpty(was, id) && t == was - {id}
    requires var o := was[id];
      && b == OnSide(o, Buy, LevelSubbed(bids, o.price, o.remaining, true), bids)
      && a == OnSide(o, Sell, LevelSubbed(asks, o.price, o.remaining, true), asks)
    ensures var b' := OnSide(e, Buy, LevelAdded(b, e.price, e.remaining), b);
      var a' := OnSide(e, Sell, LevelAdded(a, e.price, e.remaining), a);
      !(Aggregates(t[id := e], b', Buy) && Aggregates(t[id := e], a', Sell))
  {
    var o := was[id];
    var levels := if o.side.Buy? then bids else asks;
    assert AggregatesAt(was, levels, o.side, o.price);
    SumPick(was, id, CountAt(o.side, o.price));
    SumPick(was, id, QuantityAt(o.side, o.price));
    hide Aggregates, Quantity, Count;
    LostStaysLost(t, if o.side.Buy? then b else a, id, e, o.side, o.price);
  }

  /** Why the shares matter: after an 'A' without shares, the end of its neighbour deletes the whole level, and the
      book stores an order at a price that has no level. */
  method EmptyAddLosesLevel(price: nat, qty: nat, now: real) returns (book: Book)
    requires qty > 0
    ensures 2 in book.orders && book.orders[2] == Entry(Buy, price, 0, now) && price !in book.bids
    ensures !book.Aggregated()
  {
    book := new Book();
    book.Apply(Itch(Added, 1, price, qty, 0, Buy), now);
    book.Apply(Itch(Added, 2, price, 0, 0, Buy), now);
    book.Apply(Itch(Removed, 1, price, qty, 0, Buy), now);
    OneOrderCounts(book.orders, 2);
    assert !AggregatesAt(book.orders, book.bids, Buy, price);
  }

  lemma OneOrderCounts(t: Table, id: nat)
    requires t.Keys == {id}
    ensures Count(t, t[id].side, t[id].price) == 1
  {
    SumPick(t, id, CountAt(t[id].side, t[id].price));
    assert t - {id} == map[];
  }
}
