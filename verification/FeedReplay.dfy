/** The monitor's table against the engine's book, over every run and every pattern of message loss. */
module FeedReplay {
  import opened Orders
  import opened ReferenceBook
  import opened FeedTable
  import L = Levels

  /** What the network does with the k-th message; a delivered message is applied at a local time. */
  datatype Delivery = Lost | Delivered(now: real)

  type Network = nat -> Delivery

  function Received(t: Table, e: Event, d: Delivery): Table {
    if d.Lost? then t else Applied(t, e, d.now)
  }

  /** Fold the messages es into the table, es[0] being message k of the run. */
  function Feed(t: Table, es: seq<Event>, net: Network, k: nat): Table
    decreases |es|
  {
    if es == [] then t else Feed(Received(t, es[0], net(k)), es[1..], net, k + 1)
  }

  lemma {:induction false} FeedSum(t: Table, a: seq<Event>, b: seq<Event>, net: Network, k: nat)
    ensures Feed(t, a + b, net, k) == Feed(Feed(t, a, net, k), b, net, k + |a|)
    decreases |a|
  {
    if a == [] {
      assert a + b == b;
    } else {
      assert (a + b)[1..] == a[1..] + b;
      FeedSum(Received(t, a[0], net(k)), a[1..], b, net, k + 1);
    }
  }

  predicate Silent(es: seq<Event>) {
    forall i :: 0 <= i < |es| ==> !es[i].Itch?
  }

  lemma {:induction false} FeedSilent(t: Table, es: seq<Event>, net: Network, k: nat)
    requires Silent(es)
    ensures Feed(t, es, net, k) == t
    decreases |es|
  {
    if es != [] { FeedSilent(t, es[1..], net, k + 1); }
  }

  /** Of a trade's messages only the two executions reach the table: the resting one, then the aggressor's. */
  lemma FeedFill(t: Table, o: Order, r: Order, id: nat, net: Network, k: nat)
    ensures var es := FillEvents(o, r) + [Freed(id)];
      Feed(t, es, net, k) == Received(Received(t, es[0], net(k)), es[1], net(k + 1))
  {
    var es := FillEvents(o, r) + [Freed(id)];
    assert es[1..][1..] == es[2..] && Silent(es[2..]);
    FeedSilent(Received(Received(t, es[0], net(k)), es[1], net(k + 1)), es[2..], net, k + 2);
  }

  // ---- no loss ----

  ghost predicate Lossless(net: Network) {
    forall k :: net(k).Delivered?
  }

  predicate SameOrder(e: Entry, o: Order) {
    e.side == o.side && e.price == o.price && e.remaining == o.qty
  }

  /** Same references, and side, price and remaining quantity of each. */
  predicate Mirrors(t: Table, m: map<nat, Order>) {
    t.Keys == m.Keys && forall id :: id in t ==> SameOrder(t[id], m[id])
  }

  lemma TradeMirrored(t: Table, b: Book, o: Order, i: nat, d: Delivery, d': Delivery)
    requires WellFormed(b) && i < |b| && o.id !in ById(b) && Mirrors(t, ById(b)) && d.Delivered? && d'.Delivered?
    ensures var q := Min(o.qty, b[i].qty); var r := b[i];
      Mirrors(Received(Received(t, Broadcast(Executed, r, r.price, q), d), Broadcast(Executed, o, r.price, q), d'),
              ById(if o.qty >= r.qty then Without(b, i) else b[i := r.(qty := r.qty - o.qty)]))
  {
    hide ById, Without;
    ByIdAt(b, i);
    if o.qty >= b[i].qty { ByIdWithout(b, i); } else { ByIdUpdated(b, i, b[i].(qty := b[i].qty - o.qty)); }
  }

  /** Whatever one order does, the mirror follows, despite the executions of its own, never resting, reference. */
  lemma {:induction false} MatchMirrored(t: Table, b: Book, o: Order, net: Network, k: nat)
    requires WellFormed(b) && (forall i :: 0 <= i < |b| ==> b[i].id != o.id) && Lossless(net) && Mirrors(t, ById(b))
    ensures Mirrors(Feed(t, Match(b, o).events, net, k), ById(Match(b, o).book))
    decreases |b|
  {
    hide ById, FillEvents, RejectEvents, RestEvents, Feed, Received, Mirrors, Best, Match, WellFormed, Without;
    MatchUnfolds(b, o);
    NotById(b, o.id);
    var i := Best(b, o.side.Other());
    if o.qty == 0 {
      FeedSilent(t, [Freed(o.id)], net, k);
    } else if i == -1 || !Crosses(o, b[i].price) {
      RestMirrored(t, b, o, net, k);
    } else if b[i].client == o.client {
      RejectIsSilent(o);
      FeedSilent(t, RejectEvents(o), net, k);
    } else {
      TradeStepMirrored(t, b, o, i, net, k);
      if o.qty >= b[i].qty {
        var o' := o.(qty := o.qty - b[i].qty);
        var es := FillEvents(o, b[i]) + [Freed(b[i].id)];
        WithoutIsWellFormed(b, i);
        WithoutAt(b, i);
        MatchMirrored(Feed(t, es, net, k), Without(b, i), o', net, k + |es|);
        FeedSum(t, es, Match(Without(b, i), o').events, net, k);
      }
    }
  }

  lemma RejectIsSilent(o: Order)
    ensures Silent(RejectEvents(o))
  {}

  lemma TradeStepMirrored(t: Table, b: Book, o: Order, i: nat, net: Network, k: nat)
    requires WellFormed(b) && i < |b| && o.id !in ById(b) && Lossless(net) && Mirrors(t, ById(b))
    ensures o.qty >= b[i].qty ==>
      Mirrors(Feed(t, FillEvents(o, b[i]) + [Freed(b[i].id)], net, k), ById(Without(b, i)))
    ensures o.qty < b[i].qty ==>
      Mirrors(Feed(t, FillEvents(o, b[i]) + [Freed(o.id)], net, k), ById(b[i := b[i].(qty := b[i].qty - o.qty)]))
  {
    hide ById, Feed, Received, Mirrors, FillEvents;
    var last := if o.qty >= b[i].qty then b[i].id else o.id;
    FillHeads(o, b[i], last);
    FeedFill(t, o, b[i], last, net, k);
    TradeMirrored(t, b, o, i, net(k), net(k + 1));
  }

  lemma FillHeads(o: Order, r: Order, id: nat)
    ensures var es := FillEvents(o, r) + [Freed(id)]; var q := Min(o.qty, r.qty);
      |es| == 7 && es[0] == Broadcast(Executed, r, r.price, q) && es[1] == Broadcast(Executed, o, r.price, q)
  {}

  lemma FeedOne(t: Table, es: seq<Event>, net: Network, k: nat)
    requires es != [] && Silent(es[1..])
    ensures Feed(t, es, net, k) == Received(t, es[0], net(k))
  {
    FeedSilent(Received(t, es[0], net(k)), es[1..], net, k + 1);
  }

  lemma RestMirrored(t: Table, b: Book, o: Order, net: Network, k: nat)
    requires Lossless(net) && Mirrors(t, ById(b)) && o.id !in ById(b)
    ensures Mirrors(Feed(t, RestEvents(o), net, k), ById(b + [o]))
  {
    FeedOne(t, RestEvents(o), net, k);
    ByIdWith(b, o);
  }

  lemma ApplyMirrored(t: Table, b: Book, op: Op, net: Network, k: nat)
    requires WellFormed(b) && Admissible(b, op) && Lossless(net) && Mirrors(t, ById(b))
    ensures Mirrors(Feed(t, Apply(b, op).events, net, k), ById(Apply(b, op).book))
  {
    hide ById, Feed;
    match op
    case NewOrder(o) =>
      if o.id >= POOL_CAPACITY || o.price >= MAX_PRICE {
        FeedSilent(t, [Freed(o.id)], net, k);
      } else {
        MatchMirrored(t, b, o, net, k);
      }
    case CancelOrder(id) =>
      var i := IndexOf(b, id);
      if i == -1 {
        FeedSilent(t, [], net, k);
      } else {
        FeedOne(t, CancelEvents(b[i]), net, k);
        ByIdAt(b, i);
        ByIdWithout(b, i);
      }
  }

  lemma EmptyMirrored(net: Network)
    ensures Mirrors(Feed(map[], [], net, 0), ById([]))
  {}

  lemma WellFormedRun(ops: seq<Op>)
    requires Legal(ops)
    ensures WellFormed(Run(ops).book)
  {
    RunIsHealthy(ops);
  }

  /** Without loss, folding a whole run's messages rebuilds the engine's book exactly. */
  lemma {:induction false} RunMirrored(ops: seq<Op>, net: Network)
    requires Legal(ops) && Lossless(net)
    ensures Mirrors(Feed(map[], Run(ops).events, net, 0), ById(Run(ops).book))
  {
    hide Apply, Healthy, Mirrors, ById;
    if ops == [] {
      EmptyMirrored(net);
    } else {
      var n := |ops| - 1;
      var before := Run(ops[..n]);
      RunMirrored(ops[..n], net);
      assert WellFormed(before.book) by { WellFormedRun(ops[..n]); }
      ApplyMirrored(Feed(map[], before.events, net, 0), before.book, ops[n], net, |before.events|);
      FeedSum(map[], before.events, Apply(before.book, ops[n]).events, net, 0);
    }
  }

  /** Total quantity resting on side s at price p. */
  function TotalAt(b: Book, s: Side, p: nat): nat {
    if b == [] then 0 else
      TotalAt(b[..|b| - 1], s, p) + if L.At(b[|b| - 1], s, p) then b[|b| - 1].qty else 0
  }

  /** A mirror's levels are the engine's: quantity and number of orders at every price of both sides. */
  lemma {:induction false} MirroredLevels(t: Table, b: Book, s: Side, p: nat)
    requires WellFormed(b) && Mirrors(t, ById(b))
    ensures Quantity(t, s, p) == TotalAt(b, s, p) && Count(t, s, p) == |L.Level(b, s, p)|
  {
    if b == [] {
      assert t == map[];
    } else {
      var n := |b| - 1;
      var id := b[n].id;
      ByIdAt(b, n);
      ByIdWithout(b, n);
      assert Without(b, n) == b[..n];
      SumPick(t, id, QuantityAt(s, p));
      SumPick(t, id, CountAt(s, p));
      MirroredLevels(t - {id}, b[..n], s, p);
    }
  }
}
