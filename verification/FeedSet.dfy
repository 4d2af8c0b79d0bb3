/** The monitor's BookSet (orderbook.py:134-144): one book per instrument, fed by a whole shard's market data. */
module FeedSet {
  import opened Orders
  import opened ReferenceBook
  import opened FeedTable
  import opened FeedBook
  import opened FeedReplay
  import opened FeedRepair
  import opened ShardReference
  import SlotProtocol
  import L = Levels

  /** The market-data messages of one instrument, in order. */
  function Market(es: seq<Event>, i: nat): seq<Event> {
    if es == [] then [] else
      var n := |es| - 1;
      Market(es[..n], i) + if es[n].Itch? && es[n].inst == i then [es[n]] else []
  }

  lemma MarketSnoc(es: seq<Event>, e: Event, i: nat)
    ensures Market(es + [e], i) == Market(es, i) + if e.Itch? && e.inst == i then [e] else []
  {
    assert (es + [e])[..|es|] == es;
  }

  lemma {:induction false} MarketSum(a: seq<Event>, b: seq<Event>, i: nat)
    ensures Market(a + b, i) == Market(a, i) + Market(b, i)
    decreases |b|
  {
    if b == [] {
      assert a + b == a;
    } else {
      var n := |b| - 1;
      MarketSum(a, b[..n], i);
      assert a + b == (a + b[..n]) + [b[n]];
      MarketSnoc(a + b[..n], b[n], i);
    }
  }

  /** Every market-data message is about instrument i. */
  predicate OnlyAbout(es: seq<Event>, i: nat) {
    forall k :: 0 <= k < |es| && es[k].Itch? ==> es[k].inst == i
  }

  lemma {:induction false} MarketOfOther(es: seq<Event>, i: nat, j: nat)
    requires OnlyAbout(es, j) && i != j
    ensures Market(es, i) == []
  {
    if es != [] { MarketOfOther(es[..|es| - 1], i, j); }
  }

  // ---- a shard's market data is its books' ----

  lemma {:induction false} MatchIsAbout(b: ReferenceBook.Book, o: Order)
    requires OnlyInst(b, o.inst)
    ensures OnlyAbout(Match(b, o).events, o.inst)
    decreases |b|
  {
    hide Match, Best;
    MatchUnfolds(b, o);
    var i := Best(b, o.side.Other());
    if o.qty > 0 && i != -1 && Crosses(o, b[i].price) && b[i].client != o.client && o.qty >= b[i].qty {
      WithoutAt(b, i);
      MatchIsAbout(Without(b, i), o.(qty := o.qty - b[i].qty));
    }
  }

  lemma HandledIsAbout(b: ReferenceBook.Book, i: nat, t: SlotProtocol.Task)
    requires OnlyInst(b, i)
    ensures OnlyAbout(Handled(b, i, t).events, i)
  {
    hide Match;
    match t
    case New(o) => if o.inst == i { MatchIsAbout(b, o); }
    case Cancel(_, _, _) =>
  }

  lemma MarketNone(i: nat)
    ensures Market([], i) == []
  {}

  lemma CausedUnfolds(done: seq<SlotProtocol.Task>, t: SlotProtocol.Task, n: nat)
    ensures n == 0 ==> Caused(done, t, n) == []
    ensures n > 0 ==>
      Caused(done, t, n) == Caused(done, t, n - 1) + Handled(BookAfter(done, n - 1).book, n - 1, t).events
  {
    hide Handled, BookAfter;
  }

  lemma {:induction false} MarketCaused(done: seq<SlotProtocol.Task>, t: SlotProtocol.Task, n: nat, i: nat)
    ensures Market(Caused(done, t, n), i) ==
      if i < n then Market(Handled(BookAfter(done, i).book, i, t).events, i) else []
  {
    hide Handled, BookAfter, Market, Caused;
    CausedUnfolds(done, t, n);
    if n == 0 {
      MarketNone(i);
    } else {
      var es := Handled(BookAfter(done, n - 1).book, n - 1, t).events;
      MarketCaused(done, t, n - 1, i);
      MarketSum(Caused(done, t, n - 1), es, i);
      if i != n - 1 {
        BooksKeepInst(done, n - 1);
        HandledIsAbout(BookAfter(done, n - 1).book, n - 1, t);
        MarketOfOther(es, i, n - 1);
      }
    }
  }

  /** Routed by instrument, a shard's log is each book's own messages. */
  lemma {:induction false} MarketOfShard(tasks: seq<SlotProtocol.Task>, n: nat, i: nat)
    requires i < n
    ensures Market(ShardLog(tasks, n), i) == Market(BookAfter(tasks, i).events, i)
    ensures OnlyAbout(BookAfter(tasks, i).events, i)
  {
    if tasks != [] {
      hide Handled, Caused;
      var front, t := tasks[..|tasks| - 1], tasks[|tasks| - 1];
      var es := Handled(BookAfter(front, i).book, i, t).events;
      MarketOfShard(front, n, i);
      MarketCaused(front, t, n, i);
      MarketSum(ShardLog(front, n), Caused(front, t, n), i);
      MarketSum(BookAfter(front, i).events, es, i);
      BooksKeepInst(front, i);
      HandledIsAbout(BookAfter(front, i).book, i, t);
    }
  }

  // ---- tables without their touch times ----

  function Timeless(t: Table): Table {
    map id | id in t :: t[id].(touched := 0.0)
  }

  lemma TimelessApplied(t: Table, e: Event, now: real)
    ensures Timeless(Applied(t, e, now)) == LiveAfter(Timeless(t), e)
  {}

  lemma {:induction false} LiveSnoc(p: Table, es: seq<Event>, e: Event)
    ensures LiveRun(p, es + [e]) == LiveAfter(LiveRun(p, es), e)
    decreases |es|
  {
    if es == [] {
      assert [] + [e] == [e] && [e][1..] == [];
      assert LiveRun(LiveAfter(p, e), []) == LiveAfter(p, e);
    } else {
      assert (es + [e])[1..] == es[1..] + [e] && (es + [e])[0] == es[0];
      LiveSnoc(LiveAfter(p, es[0]), es[1..], e);
    }
  }

  /** Only market data of the book's own instrument reaches its table. */
  lemma {:induction false} LiveFromMarket(es: seq<Event>, i: nat)
    requires OnlyAbout(es, i)
    ensures LiveRun(map[], Market(es, i)) == LiveRun(map[], es)
  {
    if es != [] {
      hide LiveRun;
      var n := |es| - 1;
      LiveFromMarket(es[..n], i);
      assert es == es[..n] + [es[n]];
      LiveSnoc(map[], es[..n], es[n]);
      if es[n].Itch? {
        LiveSnoc(map[], Market(es[..n], i), es[n]);
      } else {
        assert Market(es, i) == Market(es[..n], i);
      }
    }
  }

  /** What the book of instrument i holds after a shard's market data: the engine's book. */
  lemma MarketMirrors(tasks: seq<SlotProtocol.Task>, n: nat, i: nat)
    requires AllDeliverable(n, tasks) && i < n
    ensures Mirrors(LiveRun(map[], Market(ShardLog(tasks, n), i)), ById(BookAfter(tasks, i).book))
    ensures WellFormed(BookAfter(tasks, i).book)
  {
    hide AllDeliverable, BookAfter, OpsOf, Run, ShardLog, LiveRun, Mirrors, ById, Healthy;
    MarketOfShard(tasks, n, i);
    LiveFromMarket(BookAfter(tasks, i).events, i);
    ShardIsRun(n, tasks, i);
    RunIsProper(OpsOf(tasks, i));
    RunIsHealthy(OpsOf(tasks, i));
    HealthyIsWellFormed(BookAfter(tasks, i).book);
  }

  /** The engine announces no order without shares. */
  lemma AddsHaveShares(tasks: seq<SlotProtocol.Task>, n: nat, e: Event)
    requires AllDeliverable(n, tasks) && e in ShardLog(tasks, n) && e.Itch? && e.kind.Added?
    ensures e.qty > 0
  {
    hide AllDeliverable, BookAfter, OpsOf, Run, ShardLog, Proper;
    LogFromBook(tasks, n, e);
    var i :| 0 <= i < n && e in BookAfter(tasks, i).events;
    ShardIsRun(n, tasks, i);
    RunIsProper(OpsOf(tasks, i));
    var es := BookAfter(tasks, i).events;
    var k :| 0 <= k < |es| && es[k] == e;
    ProperUpTo(map[], es, k);
  }

  class BookSet {
    var books: map<nat, FeedBook.Book>
    ghost var heard: seq<Event>

    /** Every book holds what its instrument's messages say, with aggregated levels. */
    ghost predicate Valid()
      reads this, books.Values
    {
      && (forall i <- books :: Follows(books[i], heard, i))
      && (forall i: nat :: i !in books ==> Market(heard, i) == [])
      && (forall i <- books, j <- books :: i != j ==> books[i] != books[j])
    }

    constructor ()
      ensures Valid() && books == map[] && heard == []
    {
      books, heard := map[], [];
    }

    /** The book of an instrument, made on first use. */
    method BookOf(i: nat) returns (b: FeedBook.Book)
      requires Valid()
      modifies this`books
      ensures Valid() && heard == old(heard) && i in books && books[i] == b
      ensures if i in old(books) then books == old(books) else fresh(b) && books == old(books)[i := b]
    {
      hide Follows, Market;
      if i in books { return books[i]; }
      b := new FeedBook.Book();
      FreshFollows(b, heard, i);
      books := books[i := b];
    }

    /** Route a message to the book of its instrument. */
    method Apply(e: Event, now: real)
      requires Valid() && e.Itch? && (e.kind.Added? ==> e.qty > 0)
      modifies this, books.Values
      ensures Valid() && heard == old(heard) + [e]
      ensures forall i <- books :: books[i] in old(books.Values) || fresh(books[i])
    {
      hide Follows, Market;
      var b := BookOf(e.inst);
      ApplyTo(b, e, now);
      forall i <- books ensures Follows(books[i], heard + [e], i) {
        if i != e.inst {
          MarketSnoc(heard, e, i);
          SameMarket(books[i], heard, heard + [e], i);
        }
      }
      forall i: nat | i !in books ensures Market(heard + [e], i) == [] { MarketSnoc(heard, e, i); }
      heard := heard + [e];
    }

    method ApplyTo(b: FeedBook.Book, e: Event, now: real)
      requires e.Itch? && (e.kind.Added? ==> e.qty > 0) && Follows(b, heard, e.inst)
      modifies b
      ensures Follows(b, heard + [e], e.inst)
    {
      hide FeedBook.Book.Valid, LosesLevel;
      FollowsNext(b.orders, heard, e, now);
      if Ends(b.orders, e) { PositiveLosesNothing(b.orders, e.id); }
      assert !LosesLevel(b.orders, e) by { NoLoss(b.orders, e); }
      b.Apply(e, now);
    }
  }

  lemma NoLoss(t: Table, e: Event)
    requires Positive(t)
    ensures !LosesLevel(t, e)
  {
    if Ends(t, e) { PositiveLosesNothing(t, e.id); }
  }

  ghost predicate Follows(b: FeedBook.Book, es: seq<Event>, i: nat)
    reads b
  {
    b.Valid() && Positive(b.orders) && Timeless(b.orders) == LiveRun(map[], Market(es, i))
  }

  lemma FreshFollows(b: FeedBook.Book, es: seq<Event>, i: nat)
    requires b.Valid() && b.orders == map[] && Market(es, i) == []
    ensures Follows(b, es, i)
  {}

  lemma SameMarket(b: FeedBook.Book, es: seq<Event>, es': seq<Event>, i: nat)
    requires Follows(b, es, i) && Market(es', i) == Market(es, i)
    ensures Follows(b, es', i)
  {}

  lemma FollowsNext(t: Table, es: seq<Event>, e: Event, now: real)
    requires e.Itch? && (e.kind.Added? ==> e.qty > 0)
    requires Positive(t) && Timeless(t) == LiveRun(map[], Market(es, e.inst))
    ensures Positive(Applied(t, e, now)) && Timeless(Applied(t, e, now)) == LiveRun(map[], Market(es + [e], e.inst))
  {
    hide LiveRun;
    MarketSnoc(es, e, e.inst);
    TimelessApplied(t, e, now);
    LiveSnoc(map[], Market(es, e.inst), e);
  }

  /** The monitor's book of an instrument is the engine's: the same orders with side, price and remaining quantity,
      and at every price of both sides the total quantity and the number of orders that rest there. */
  ghost predicate Rebuilt(m: map<nat, FeedBook.Book>, i: nat, b: ReferenceBook.Book)
    reads m.Values
  {
    if i !in m then b == []
    else Mirrors(m[i].orders, ById(b)) && SameLevels(m[i].bids, b, Buy) && SameLevels(m[i].asks, b, Sell)
  }

  ghost predicate SameLevels(levels: FeedBook.Levels, b: ReferenceBook.Book, s: Side) {
    forall p: nat :: LevelIs(levels, b, s, p)
  }

  ghost predicate LevelIs(levels: FeedBook.Levels, b: ReferenceBook.Book, s: Side, p: nat) {
    && (p in levels <==> L.Level(b, s, p) != [])
    && (p in levels ==> levels[p] == BookLevel(TotalAt(b, s, p), |L.Level(b, s, p)|))
  }

  lemma MirrorLevels(t: Table, levels: FeedBook.Levels, b: ReferenceBook.Book, s: Side)
    requires WellFormed(b) && Mirrors(t, ById(b)) && Aggregates(t, levels, s)
    ensures SameLevels(levels, b, s)
  {
    hide Mirrors, ById, Quantity, Count, TotalAt;
    forall p: nat ensures LevelIs(levels, b, s, p) {
      MirroredLevels(t, b, s, p);
      assert AggregatesAt(t, levels, s, p);
    }
  }

  lemma TimelessMirrors(t: Table, m: map<nat, Order>)
    ensures Mirrors(Timeless(t), m) <==> Mirrors(t, m)
  {
    assert Timeless(t).Keys == t.Keys;
  }

  lemma FollowsIsRebuilt(m: map<nat, FeedBook.Book>, tasks: seq<SlotProtocol.Task>, n: nat, i: nat)
    requires AllDeliverable(n, tasks) && i < n
    requires if i in m then Follows(m[i], ShardLog(tasks, n), i) else Market(ShardLog(tasks, n), i) == []
    ensures Rebuilt(m, i, BookAfter(tasks, i).book)
  {
    hide AllDeliverable, BookAfter, ShardLog, Mirrors, ById, Aggregates, SameLevels;
    var b := BookAfter(tasks, i).book;
    MarketMirrors(tasks, n, i);
    if i in m {
      TimelessMirrors(m[i].orders, ById(b));
      MirrorLevels(m[i].orders, m[i].bids, b, Buy);
      MirrorLevels(m[i].orders, m[i].asks, b, Sell);
    } else {
      assert Mirrors(map[], ById(b));
      NothingMirrored(b);
    }
  }

  lemma NothingMirrored(b: ReferenceBook.Book)
    ensures Mirrors(map[], ById(b)) ==> b == []
  {
    if b != [] { assert b[0].id in ById(b); }
  }

  /** A monitor that hears everything a shard's engine says, at whatever times: every instrument's book is rebuilt
      exactly, orders and levels, despite recycled references and executions of aggressors. */
  method Rebuild(tasks: seq<SlotProtocol.Task>, n: nat, clock: nat -> real) returns (monitor: BookSet)
    requires AllDeliverable(n, tasks)
    ensures monitor.Valid() && forall i :: 0 <= i < n ==> Rebuilt(monitor.books, i, BookAfter(tasks, i).book)
  {
    hide AllDeliverable, ShardLog, BookAfter, Follows, Rebuilt;
    monitor := new BookSet();
    var es := ShardLog(tasks, n);
    for k := 0 to |es|
      invariant monitor.Valid() && fresh(monitor) && forall i <- monitor.books :: fresh(monitor.books[i])
      invariant forall i: nat :: Market(monitor.heard, i) == Market(es[..k], i)
    {
      assert es[..k + 1] == es[..k] + [es[k]];
      forall i: nat ensures Market(es[..k + 1], i) ==
          Market(es[..k], i) + if es[k].Itch? && es[k].inst == i then [es[k]] else []
      {
        MarketSnoc(es[..k], es[k], i);
      }
      if es[k].Itch? {
        if es[k].kind.Added? { AddsHaveShares(tasks, n, es[k]); }
        ghost var heard := monitor.heard;
        monitor.Apply(es[k], clock(k));
        forall i: nat ensures Market(monitor.heard, i) == Market(es[..k + 1], i) { MarketSnoc(heard, es[k], i); }
      }
    }
    assert es[..|es|] == es;
    forall i | 0 <= i < n ensures Rebuilt(monitor.books, i, BookAfter(tasks, i).book) {
      if i in monitor.books { SameMarket(monitor.books[i], monitor.heard, es, i); }
      FollowsIsRebuilt(monitor.books, tasks, n, i);
    }
  }
}
