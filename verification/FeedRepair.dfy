/** When evicting the oldest crossing order is safe (orderbook.py:100-125): messages arrive one by one, removals may
    be lost, repairs happen in between, and live is whatever the engine's own messages leave resting. */
module FeedRepair {
  import opened Orders
  import opened ReferenceBook
  import opened FeedTable
  import opened FeedReplay

  /** Later messages are applied at strictly later times. */
  ghost predicate Increasing(net: Network) {
    forall i, j :: i < j && net(i).Delivered? && net(j).Delivered? ==> net(i).now < net(j).now
  }

  /** Every 'A' among the messages arrives. */
  predicate AddsArrive(es: seq<Event>, net: Network) {
    forall i :: 0 <= i < |es| && es[i].Itch? && es[i].kind.Added? ==> net(i).Delivered?
  }

  // ---- one table ----

  /** Of two crossing entries, the one touched earlier is not live. */
  ghost predicate OlderIsGone(t: Table, live: set<nat>) {
    forall x, y :: CrossPair(t, x, y) ==>
      && (t[x].touched < t[y].touched ==> x !in live)
      && (t[y].touched < t[x].touched ==> y !in live)
  }

  ghost predicate DistinctTouches(t: Table) {
    forall x, y :: x in t && y in t && x != y ==> t[x].touched != t[y].touched
  }

  /** No number of evictions takes a live order out of the table. */
  ghost predicate Spares(t: Table, live: set<nat>) {
    forall n: nat, id :: id in live ==> id in Repaired(t, n)
  }

  /** The oldest crossing order is never live. */
  lemma VictimIsGone(t: Table, live: set<nat>)
    requires OlderIsGone(t, live) && DistinctTouches(t) && Crossed(t)
    ensures Victim(t) !in live && OlderIsGone(t - {Victim(t)}, live) && DistinctTouches(t - {Victim(t)})
  {
    var v := Victim(t);
    var q :| CrossPair(t, v, q) || CrossPair(t, q, v);
    assert Crossing(t, q);
    assert Before(t, v, q);
    var t' := t - {v};
    forall x, y | CrossPair(t', x, y) ensures CrossPair(t, x, y) {}
  }

  /** Repairing, however often, removes only orders that are not live. */
  lemma {:induction false} RepairSparesLive(t: Table, live: set<nat>, n: nat)
    requires OlderIsGone(t, live) && DistinctTouches(t)
    ensures OlderIsGone(Repaired(t, n), live) && DistinctTouches(Repaired(t, n))
    ensures forall id <- Repaired(t, n) :: id in t && Repaired(t, n)[id] == t[id]
    ensures forall id <- t :: id in live ==> id in Repaired(t, n)
  {
    if n > 0 && Crossed(t) {
      VictimIsGone(t, live);
      RepairSparesLive(t - {Victim(t)}, live, n - 1);
    }
  }

  /** If the older order of a crossing pair is live, enough evictions reach it. */
  lemma {:induction false} LiveVictim(t: Table, live: set<nat>, x: nat, y: nat)
    requires DistinctTouches(t) && (CrossPair(t, x, y) || CrossPair(t, y, x))
    requires t[x].touched < t[y].touched && x in live
    ensures exists n: nat :: x !in Repaired(t, n)
    decreases |t|
  {
    assert Crossed(t) && Crossing(t, x) && Crossing(t, y);
    var v := Victim(t);
    if v == x {
      assert Repaired(t, 1) == Repaired(t - {x}, 0);
      assert x !in Repaired(t, 1);
    } else {
      assert Before(t, v, x);
      assert v != y;
      LiveVictim(t - {v}, live, x, y);
      var n: nat :| x !in Repaired(t - {v}, n);
      assert Repaired(t, n + 1) == Repaired(t - {v}, n);
    }
  }

  /** Exactly when repair can never hurt. */
  lemma SparesIff(t: Table, live: set<nat>)
    requires DistinctTouches(t) && live <= t.Keys
    ensures Spares(t, live) <==> OlderIsGone(t, live)
  {
    if OlderIsGone(t, live) {
      forall n: nat, id | id in live ensures id in Repaired(t, n) { RepairSparesLive(t, live, n); }
    } else {
      var x, y :| CrossPair(t, x, y)
        && !((t[x].touched < t[y].touched ==> x !in live) && (t[y].touched < t[x].touched ==> y !in live));
      if t[x].touched < t[y].touched { LiveVictim(t, live, x, y); } else { LiveVictim(t, live, y, x); }
    }
  }

  // ---- one message ----

  /** What the engine's own messages leave resting: the same fold, with nothing lost. */
  function LiveAfter(p: Table, e: Event): Table { Applied(p, e, 0.0) }

  /** Resting orders never cross. */
  predicate NoCross(p: Table) {
    forall x, y :: x in p && y in p && p[x].side.Buy? && p[y].side.Sell? ==> p[x].price < p[y].price
  }

  predicate WouldCross(side: Side, price: nat, e: Entry) {
    e.side == side.Other() && if side.Buy? then price >= e.price else e.price >= price
  }

  /** What an engine may say next: a new order has shares, is not resting and crosses nothing that does; an execution
      of a resting order is for no more than it has. */
  predicate ProperAt(p: Table, e: Event) {
    e.Itch? ==>
      match e.kind
      case Added => e.qty > 0 && e.id !in p && forall y <- p :: !WouldCross(e.side, e.price, p[y])
      case Executed => e.qty > 0 && (e.id in p ==> e.qty <= p[e.id].remaining)
      case Removed => true
  }

  lemma ProperKeepsNoCross(p: Table, e: Event)
    requires NoCross(p) && ProperAt(p, e)
    ensures NoCross(LiveAfter(p, e))
  {}

  /** Every live order is in the table, with its side and price and at least its remaining quantity. */
  ghost predicate Covers(t: Table, p: Table) {
    forall id <- p :: id in t && t[id].side == p[id].side && t[id].price == p[id].price
      && t[id].remaining >= p[id].remaining
  }

  ghost predicate TouchedBefore(t: Table, net: Network, k: nat) {
    forall x, j :: x in t && j >= k && net(j).Delivered? ==> t[x].touched < net(j).now
  }

  /** The table against what is live, before message k. */
  ghost predicate Coupled(t: Table, p: Table, net: Network, k: nat) {
    NoCross(p) && Covers(t, p) && DistinctTouches(t) && TouchedBefore(t, net, k)
  }

  /** The message refreshes an entry that stays in the table. */
  predicate Refreshes(t: Table, e: Event, d: Delivery) {
    d.Delivered? && e.Itch? && e.kind.Executed? && e.id in t && t[e.id].remaining > e.qty
  }

  /** The message refreshes an entry that crosses a live order: only then does it make a live order the older one. */
  ghost predicate Harmful(t: Table, p: Table, e: Event, d: Delivery) {
    Refreshes(t, e, d) && exists y :: y in LiveAfter(p, e) && (CrossPair(t, e.id, y) || CrossPair(t, y, e.id))
  }

  lemma ReceivedCoupled(t: Table, p: Table, e: Event, net: Network, k: nat)
    requires Coupled(t, p, net, k) && Increasing(net) && ProperAt(p, e)
    requires e.Itch? && e.kind.Added? ==> net(k).Delivered?
    ensures Coupled(Received(t, e, net(k)), LiveAfter(p, e), net, k + 1)
  {
    ProperKeepsNoCross(p, e);
    CoverKept(t, p, e, net(k));
    TouchesKept(t, e, net, k);
    hide Received, NoCross, Covers, DistinctTouches, TouchedBefore;
  }

  lemma CoverKept(t: Table, p: Table, e: Event, d: Delivery)
    requires Covers(t, p) && ProperAt(p, e) && (e.Itch? && e.kind.Added? ==> d.Delivered?)
    ensures Covers(Received(t, e, d), LiveAfter(p, e))
  {}

  lemma TouchesKept(t: Table, e: Event, net: Network, k: nat)
    requires DistinctTouches(t) && TouchedBefore(t, net, k) && Increasing(net)
    ensures DistinctTouches(Received(t, e, net(k))) && TouchedBefore(Received(t, e, net(k)), net, k + 1)
  {}

  /** Exactly the harmful messages break what repair relies on. */
  lemma BreaksIffHarmful(t: Table, p: Table, e: Event, net: Network, k: nat)
    requires Coupled(t, p, net, k) && Increasing(net) && ProperAt(p, e) && OlderIsGone(t, p.Keys)
    requires e.Itch? && e.kind.Added? ==> net(k).Delivered?
    ensures OlderIsGone(Received(t, e, net(k)), LiveAfter(p, e).Keys) <==> !Harmful(t, p, e, net(k))
  {
    var t', p' := Received(t, e, net(k)), LiveAfter(p, e);
    if Refreshes(t, e, net(k)) {
      RefreshBreaksIff(t, p, e, net, k);
    } else if e.Itch? && e.kind.Added? {
      AddKeepsOlder(t, p, e, net, k);
    } else {
      assert p'.Keys <= p.Keys;
      forall x, y | CrossPair(t', x, y) ensures CrossPair(t, x, y) && t'[x] == t[x] && t'[y] == t[y] {}
    }
  }

  lemma RefreshBreaksIff(t: Table, p: Table, e: Event, net: Network, k: nat)
    requires Coupled(t, p, net, k) && OlderIsGone(t, p.Keys) && Refreshes(t, e, net(k))
    ensures OlderIsGone(Received(t, e, net(k)), LiveAfter(p, e).Keys) <==> !Harmful(t, p, e, net(k))
  {
    var t', p', id := Received(t, e, net(k)), LiveAfter(p, e), e.id;
    assert p'.Keys <= p.Keys;
    assert t'[id].touched == net(k).now;
    if y :| y in p' && (CrossPair(t, id, y) || CrossPair(t, y, id)) {
      assert t'[y] == t[y] && t[y].touched < net(k).now;
      assert CrossPair(t', id, y) || CrossPair(t', y, id);
    } else {
      forall x, y | CrossPair(t', x, y)
        ensures t'[x].touched < t'[y].touched ==> x !in p'
        ensures t'[y].touched < t'[x].touched ==> y !in p'
      {
        assert CrossPair(t, x, y);
      }
    }
  }

  lemma AddKeepsOlder(t: Table, p: Table, e: Event, net: Network, k: nat)
    requires Coupled(t, p, net, k) && ProperAt(p, e) && OlderIsGone(t, p.Keys)
    requires e.Itch? && e.kind.Added? && net(k).Delivered?
    ensures OlderIsGone(Received(t, e, net(k)), LiveAfter(p, e).Keys)
  {
    var t', p' := Received(t, e, net(k)), LiveAfter(p, e);
    forall x, y | CrossPair(t', x, y)
      ensures t'[x].touched < t'[y].touched ==> x !in p'
      ensures t'[y].touched < t'[x].touched ==> y !in p'
    {
      if x != e.id && y != e.id {
        assert CrossPair(t, x, y);
      } else {
        var other := if x == e.id then y else x;
        assert other in p ==> !WouldCross(e.side, e.price, p[other]);
      }
    }
  }

  /** A refresh by an order's own execution is never harmful: what is live crosses nothing that is live. */
  lemma OwnTouchIsHarmless(t: Table, p: Table, e: Event, d: Delivery)
    requires NoCross(p) && Covers(t, p) && (Refreshes(t, e, d) ==> e.id in p)
    ensures !Harmful(t, p, e, d)
  {
    if Refreshes(t, e, d) {
      forall y | y in LiveAfter(p, e) ensures !CrossPair(t, e.id, y) && !CrossPair(t, y, e.id) { assert y in p; }
    }
  }

  // ---- the engine's messages ----

  /** What is live after the messages es. */
  function LiveRun(p: Table, es: seq<Event>): Table
    decreases |es|
  {
    if es == [] then p else LiveRun(LiveAfter(p, es[0]), es[1..])
  }

  function Perfect(): Network { k => Delivered(0.0) }

  lemma {:induction false} LiveRunIsFeed(p: Table, es: seq<Event>, k: nat)
    ensures LiveRun(p, es) == Feed(p, es, Perfect(), k)
    decreases |es|
  {
    if es != [] { LiveRunIsFeed(LiveAfter(p, es[0]), es[1..], k + 1); }
  }

  ghost predicate Proper(p: Table, es: seq<Event>)
    decreases |es|
  {
    es == [] || (ProperAt(p, es[0]) && Proper(LiveAfter(p, es[0]), es[1..]))
  }

  lemma {:induction false} ProperSum(p: Table, a: seq<Event>, b: seq<Event>)
    ensures Proper(p, a + b) <==> Proper(p, a) && Proper(LiveRun(p, a), b)
    ensures LiveRun(p, a + b) == LiveRun(LiveRun(p, a), b)
    decreases |a|
  {
    if a == [] {
      assert a + b == b;
    } else {
      assert (a + b)[1..] == a[1..] + b;
      ProperSum(LiveAfter(p, a[0]), a[1..], b);
    }
  }

  lemma {:induction false} SilentIsProper(p: Table, es: seq<Event>)
    requires Silent(es)
    ensures Proper(p, es) && LiveRun(p, es) == p
    decreases |es|
  {
    if es != [] { SilentIsProper(p, es[1..]); }
  }

  /** The six messages of a trade and the freed slot: two executions, then nothing for the table. */
  lemma FillIsProper(p: Table, b: Book, o: Order, i: nat, id: nat)
    requires WellFormed(b) && i < |b| && o.qty > 0 && o.id !in ById(b) && Mirrors(p, ById(b))
    ensures Proper(p, FillEvents(o, b[i]) + [Freed(id)])
  {
    hide ById;
    ByIdAt(b, i);
    var es := FillEvents(o, b[i]) + [Freed(id)];
    FillHeads(o, b[i], id);
    assert Silent(es[2..]);
    var p1 := LiveAfter(p, es[0]);
    SilentIsProper(LiveAfter(p1, es[1]), es[2..]);
    assert es[1..][0] == es[1] && es[1..][1..] == es[2..];
    assert ProperAt(p, es[0]) && ProperAt(p1, es[1]);
  }

  lemma RestIsProper(p: Table, b: Book, o: Order)
    requires o.qty > 0 && o.id !in ById(b) && Mirrors(p, ById(b)) && NothingCrosses(b, o)
    ensures Proper(p, RestEvents(o))
  {
    hide ById;
    var es := RestEvents(o);
    forall y | y in p ensures !WouldCross(o.side, o.price, p[y]) { ByIdKeys(b, y); }
    SilentIsProper(LiveAfter(p, es[0]), es[1..]);
  }

  lemma {:induction false} MatchIsProper(p: Table, b: Book, o: Order)
    requires Healthy(b) && (forall i :: 0 <= i < |b| ==> b[i].id != o.id) && Mirrors(p, ById(b))
    ensures Proper(p, Match(b, o).events)
    decreases |b|
  {
    hide ById, FillEvents, RestEvents, RejectEvents, Mirrors, Best, Match, Healthy, Without, Proper, LiveRun, Feed;
    MatchUnfolds(b, o);
    NotById(b, o.id);
    var i := Best(b, o.side.Other());
    if o.qty == 0 {
      SilentIsProper(p, [Freed(o.id)]);
    } else if i == -1 || !Crosses(o, b[i].price) {
      BestDecides(b, o);
      RestIsProper(p, b, o);
    } else if b[i].client == o.client {
      RejectIsSilent(o);
      SilentIsProper(p, RejectEvents(o));
    } else {
      HealthyIsWellFormed(b);
      if o.qty < b[i].qty {
        FillIsProper(p, b, o, i, o.id);
      } else {
        var es, o' := FillEvents(o, b[i]) + [Freed(b[i].id)], o.(qty := o.qty - b[i].qty);
        FillIsProper(p, b, o, i, b[i].id);
        TradeStepMirrored(p, b, o, i, Perfect(), 0);
        LiveRunIsFeed(p, es, 0);
        WithoutIsHealthy(b, i);
        WithoutAt(b, i);
        MatchIsProper(LiveRun(p, es), Without(b, i), o');
        ProperSum(p, es, Match(Without(b, i), o').events);
      }
    }
  }

  lemma HealthyIsWellFormed(b: Book)
    requires Healthy(b)
    ensures WellFormed(b)
  {}

  lemma ApplyIsProper(p: Table, b: Book, op: Op)
    requires Healthy(b) && Admissible(b, op) && Mirrors(p, ById(b))
    ensures Proper(p, Apply(b, op).events)
  {
    hide ById, Match, Healthy, Mirrors, Proper;
    match op
    case NewOrder(o) =>
      if o.id >= POOL_CAPACITY || o.price >= MAX_PRICE {
        SilentIsProper(p, [Freed(o.id)]);
      } else {
        MatchIsProper(p, b, o);
      }
    case CancelOrder(id) =>
      var i := IndexOf(b, id);
      if i == -1 {
        SilentIsProper(p, []);
      } else {
        var es := CancelEvents(b[i]);
        SilentIsProper(LiveAfter(p, es[0]), es[1..]);
        assert Proper(p, es) by { CancelIsProper(p, b[i]); }
      }
  }

  lemma CancelIsProper(p: Table, o: Order)
    ensures Proper(p, CancelEvents(o))
  {
    SilentIsProper(LiveAfter(p, CancelEvents(o)[0]), CancelEvents(o)[1..]);
  }

  /** Over every legal run the engine's messages are proper, and what they leave live is the engine's book. */
  lemma {:induction false} RunIsProper(ops: seq<Op>)
    requires Legal(ops)
    ensures Proper(map[], Run(ops).events) && Mirrors(LiveRun(map[], Run(ops).events), ById(Run(ops).book))
  {
    hide Apply, Healthy, Mirrors, ById, Proper, LiveRun, Feed;
    LiveRunIsFeed(map[], Run(ops).events, 0);
    RunMirrored(ops, Perfect());
    if ops == [] {
      SilentIsProper(map[], []);
    } else {
      var n := |ops| - 1;
      var before := Run(ops[..n]);
      RunIsProper(ops[..n]);
      RunIsHealthy(ops[..n]);
      ApplyIsProper(LiveRun(map[], before.events), before.book, ops[n]);
      ProperSum(map[], before.events, Apply(before.book, ops[n]).events);
    }
  }

  lemma {:induction false} ProperUpTo(p: Table, es: seq<Event>, k: nat)
    requires Proper(p, es) && k < |es|
    ensures ProperAt(LiveRun(p, es[..k]), es[k]) && LiveRun(p, es[..k + 1]) == LiveAfter(LiveRun(p, es[..k]), es[k])
  {
    hide ProperAt, LiveAfter;
    ProperSum(p, es[..k], es[k..]);
    assert es[..k] + es[k..] == es;
    ProperSum(p, es[..k], [es[k]]);
    assert es[..k] + [es[k]] == es[..k + 1];
    assert [es[k]][1..] == [];
    assert LiveRun(LiveAfter(LiveRun(p, es[..k]), es[k]), []) == LiveAfter(LiveRun(p, es[..k]), es[k]);
  }

  // ---- every run of messages and repairs ----

  /** The monitor's table and the number of messages sent so far; what is live follows from the latter. */
  datatype World = World(seen: Table, sent: nat)

  datatype Act = Message | Repair(max: nat)

  ghost function Next(w: World, act: Act, es: seq<Event>, net: Network): World {
    match act
    case Message => if w.sent >= |es| then w else World(Received(w.seen, es[w.sent], net(w.sent)), w.sent + 1)
    case Repair(n) => w.(seen := Repaired(w.seen, n))
  }

  ghost function History(acts: seq<Act>, es: seq<Event>, net: Network): (w: World)
    ensures w.sent <= |es|
  {
    if acts == [] then World(map[], 0) else Next(History(acts[..|acts| - 1], es, net), acts[|acts| - 1], es, net)
  }

  ghost function Live(w: World, es: seq<Event>): Table
    requires w.sent <= |es|
  {
    LiveRun(map[], es[..w.sent])
  }

  /** The next act is the arrival of a harmful message. */
  ghost predicate HarmfulAct(w: World, act: Act, es: seq<Event>, net: Network)
    requires w.sent <= |es|
  {
    act.Message? && w.sent < |es| && Harmful(w.seen, Live(w, es), es[w.sent], net(w.sent))
  }

  ghost predicate Harmless(acts: seq<Act>, es: seq<Event>, net: Network) {
    forall j :: 0 <= j < |acts| ==> !HarmfulAct(History(acts[..j], es, net), acts[j], es, net)
  }

  /** At every point of the run every live order is in the table, and no repair would ever take one out. */
  ghost predicate AlwaysSpares(acts: seq<Act>, es: seq<Event>, net: Network) {
    forall j :: 0 <= j <= |acts| ==> SparesAt(History(acts[..j], es, net), es)
  }

  ghost predicate SparesAt(w: World, es: seq<Event>)
    requires w.sent <= |es|
  {
    Live(w, es).Keys <= w.seen.Keys && Spares(w.seen, Live(w, es).Keys)
  }

  ghost predicate Sound(w: World, es: seq<Event>, net: Network)
    requires w.sent <= |es|
  {
    Coupled(w.seen, Live(w, es), net, w.sent) && OlderIsGone(w.seen, Live(w, es).Keys)
  }

  lemma SoundSpares(w: World, es: seq<Event>, net: Network)
    requires w.sent <= |es| && Sound(w, es, net)
    ensures SparesAt(w, es)
  {
    hide Spares, OlderIsGone, LiveRun;
    SparesIff(w.seen, Live(w, es).Keys);
  }

  lemma RepairKeepsSound(w: World, n: nat, es: seq<Event>, net: Network)
    requires w.sent <= |es| && Sound(w, es, net)
    ensures Sound(Next(w, Repair(n), es, net), es, net)
  {
    hide LiveRun, Repaired, OlderIsGone;
    RepairSparesLive(w.seen, Live(w, es).Keys, n);
  }

  /** From a sound point an act leads to a sound one unless it is harmful, and then a live order can be evicted. */
  lemma ActIff(w: World, act: Act, es: seq<Event>, net: Network)
    requires w.sent <= |es| && Sound(w, es, net) && Proper(map[], es) && AddsArrive(es, net) && Increasing(net)
    ensures !HarmfulAct(w, act, es, net) ==> Sound(Next(w, act, es, net), es, net)
    ensures HarmfulAct(w, act, es, net) ==> !SparesAt(Next(w, act, es, net), es)
  {
    hide LiveRun, Proper, Coupled, OlderIsGone, Harmful, Spares, Increasing;
    match act
    case Repair(n) => RepairKeepsSound(w, n, es, net);
    case Message =>
      if w.sent < |es| {
        var p, e, w' := Live(w, es), es[w.sent], Next(w, Message, es, net);
        ProperUpTo(map[], es, w.sent);
        ReceivedCoupled(w.seen, p, e, net, w.sent);
        BreaksIffHarmful(w.seen, p, e, net, w.sent);
        CoupledCovers(w'.seen, Live(w', es), net, w'.sent);
        SparesIff(w'.seen, Live(w', es).Keys);
      }
  }

  lemma CoupledCovers(t: Table, p: Table, net: Network, k: nat)
    requires Coupled(t, p, net, k)
    ensures p.Keys <= t.Keys && DistinctTouches(t)
  {}

  lemma StartIsSound(es: seq<Event>, net: Network)
    ensures Sound(World(map[], 0), es, net)
  {
    assert es[..0] == [];
  }

  lemma {:induction false} HarmlessIsSound(acts: seq<Act>, es: seq<Event>, net: Network)
    requires Proper(map[], es) && AddsArrive(es, net) && Increasing(net) && Harmless(acts, es, net)
    ensures Sound(History(acts, es, net), es, net)
  {
    hide Next, Sound, Proper, AddsArrive, Increasing, HarmfulAct;
    if acts == [] {
      StartIsSound(es, net);
    } else {
      var n := |acts| - 1;
      FrontIsHarmless(acts, n, es, net);
      HarmlessIsSound(acts[..n], es, net);
      assert !HarmfulAct(History(acts[..n], es, net), acts[n], es, net);
      ActIff(History(acts[..n], es, net), acts[n], es, net);
    }
  }

  lemma FrontIsHarmless(acts: seq<Act>, n: nat, es: seq<Event>, net: Network)
    requires Harmless(acts, es, net) && n <= |acts|
    ensures Harmless(acts[..n], es, net)
  {
    hide HarmfulAct, History;
    forall j | 0 <= j < n ensures !HarmfulAct(History(acts[..n][..j], es, net), acts[..n][j], es, net) {
      assert acts[..n][..j] == acts[..j];
    }
  }

  /** For every stream of an engine's messages, every loss of removals and every run of arrivals and repairs: no
      repair at any point can evict a live order if and only if no harmful message arrives. */
  lemma {:induction false} AlwaysSparesIff(acts: seq<Act>, es: seq<Event>, net: Network)
    requires Proper(map[], es) && AddsArrive(es, net) && Increasing(net)
    ensures AlwaysSpares(acts, es, net) <==> Harmless(acts, es, net)
  {
    hide Next, Sound, Proper, AddsArrive, Increasing, HarmfulAct, History, SparesAt;
    if Harmless(acts, es, net) {
      forall j | 0 <= j <= |acts| ensures SparesAt(History(acts[..j], es, net), es) {
        FrontIsHarmless(acts, j, es, net);
        HarmlessIsSound(acts[..j], es, net);
        SoundSpares(History(acts[..j], es, net), es, net);
      }
    } else if acts != [] {
      var n := |acts| - 1;
      var front := acts[..n];
      if Harmless(front, es, net) {
        forall j | 0 <= j < n ensures !HarmfulAct(History(acts[..j], es, net), acts[j], es, net) {
          assert front[..j] == acts[..j];
        }
        HarmlessIsSound(front, es, net);
        ActIff(History(front, es, net), acts[n], es, net);
        HistoryStep(acts, es, net);
        assert acts[..|acts|] == acts;
      } else {
        AlwaysSparesIff(front, es, net);
        var j :| 0 <= j <= n && !SparesAt(History(front[..j], es, net), es);
        assert front[..j] == acts[..j];
      }
    }
  }

  lemma HistoryStep(acts: seq<Act>, es: seq<Event>, net: Network)
    requires acts != []
    ensures History(acts, es, net) == Next(History(acts[..|acts| - 1], es, net), acts[|acts| - 1], es, net)
  {}

  /** Each order is touched only by its own messages: an execution that refreshes an entry is of a live order, never
      of an aggressor whose recycled reference names a phantom. */
  ghost predicate OwnTouches(acts: seq<Act>, es: seq<Event>, net: Network) {
    forall j :: 0 <= j < |acts| ==> OwnTouchAct(History(acts[..j], es, net), acts[j], es, net)
  }

  ghost predicate OwnTouchAct(w: World, act: Act, es: seq<Event>, net: Network)
    requires w.sent <= |es|
  {
    act.Message? && w.sent < |es| && Refreshes(w.seen, es[w.sent], net(w.sent)) ==> es[w.sent].id in Live(w, es)
  }

  /** Over every legal run of the engine, under every loss of removals: if each order is touched only by its own
      messages, every order a repair evicts has already left the engine's book. */
  lemma {:induction false} MonitorIsSound(ops: seq<Op>, acts: seq<Act>, net: Network)
    requires Legal(ops) && AddsArrive(Run(ops).events, net) && Increasing(net)
    requires OwnTouches(acts, Run(ops).events, net)
    ensures AlwaysSpares(acts, Run(ops).events, net) && Harmless(acts, Run(ops).events, net)
  {
    hide AlwaysSpares, Proper, AddsArrive, Increasing, Run, Legal;
    var es := Run(ops).events;
    RunIsProper(ops);
    OwnIsHarmless(acts, es, net);
    AlwaysSparesIff(acts, es, net);
  }

  lemma {:induction false} OwnIsHarmless(acts: seq<Act>, es: seq<Event>, net: Network)
    requires Proper(map[], es) && AddsArrive(es, net) && Increasing(net) && OwnTouches(acts, es, net)
    ensures Harmless(acts, es, net)
  {
    hide Proper, AddsArrive, Increasing, History, HarmfulAct, OwnTouchAct;
    if acts != [] {
      var n := |acts| - 1;
      var front := acts[..n];
      forall j | 0 <= j < n ensures OwnTouchAct(History(front[..j], es, net), front[j], es, net) {
        assert front[..j] == acts[..j];
      }
      OwnIsHarmless(front, es, net);
      HarmlessIsSound(front, es, net);
      OwnActIsHarmless(History(front, es, net), acts[n], es, net);
      forall j | 0 <= j < |acts| ensures !HarmfulAct(History(acts[..j], es, net), acts[j], es, net) {
        assert j < n ==> front[..j] == acts[..j] && front[j] == acts[j];
      }
    }
  }

  lemma OwnActIsHarmless(w: World, act: Act, es: seq<Event>, net: Network)
    requires w.sent <= |es| && Sound(w, es, net) && OwnTouchAct(w, act, es, net)
    ensures !HarmfulAct(w, act, es, net)
  {
    hide LiveRun, OlderIsGone, Harmful;
    if act.Message? && w.sent < |es| { OwnTouchIsHarmless(w.seen, Live(w, es), es[w.sent], net(w.sent)); }
  }

  // ---- a harmful run ----

  /** Only message 2, the removal of order 1, is lost. */
  function LosesOneRemoval(): Network {
    k => if k == 2 then Lost else Delivered(k as real)
  }

  const ASK: Order := Order(1, 11, 1, 100, 10, 0, 0, Sell)
  const BID: Order := Order(2, 12, 2, 105, 10, 0, 0, Buy)
  const TAKER: Order := Order(1, 13, 3, 105, 5, 0, 0, Sell)

  /** Ask 1 rests and is cancelled, but the removal is lost; bid 2 rests above it; slot 1 is recycled by an
      aggressor that trades with bid 2, and its own execution refreshes the phantom. */
  const REFRESHER: seq<Op> := [NewOrder(ASK), CancelOrder(1), NewOrder(BID), NewOrder(TAKER)]

  function Messages(n: nat): seq<Act> { seq(n, i => Message) }

  lemma {:induction false} MessagesFeed(n: nat, es: seq<Event>, net: Network)
    requires n <= |es|
    ensures History(Messages(n), es, net) == World(Feed(map[], es[..n], net, 0), n)
  {
    if n > 0 {
      MessagesFeed(n - 1, es, net);
      assert Messages(n)[..n - 1] == Messages(n - 1);
      assert es[..n] == es[..n - 1] + [es[n - 1]];
      FeedSum(map[], es[..n - 1], [es[n - 1]], net, 0);
      FeedOne(Feed(map[], es[..n - 1], net, 0), [es[n - 1]], net, n - 1);
    }
  }

  lemma RunSnoc(ops: seq<Op>, op: Op, b: Book, es: seq<Event>, r: Outcome)
    requires Legal(ops) && Run(ops) == Outcome(b, es) && Admissible(b, op) && Apply(b, op) == r
    ensures Legal(ops + [op]) && Run(ops + [op]) == Outcome(r.book, es + r.events)
  {
    assert (ops + [op])[..|ops|] == ops;
  }

  lemma RefresherRuns()
    ensures Legal(REFRESHER)
    ensures Run(REFRESHER) == Outcome([BID.(qty := 5)],
      RestEvents(ASK) + CancelEvents(ASK) + RestEvents(BID) + (FillEvents(TAKER, BID) + [Freed(1)]))
  {
    var a, b, c, d := NewOrder(ASK), CancelOrder(1), NewOrder(BID), NewOrder(TAKER);
    assert [] + [a] == [a] && [a] + [b] == [a, b] && [a, b] + [c] == [a, b, c] && [a, b, c] + [d] == REFRESHER;
    assert [] + RestEvents(ASK) == RestEvents(ASK);
    assert Apply([], a) == Outcome([ASK], RestEvents(ASK));
    assert IndexOf([ASK], 1) == 0 && Without([ASK], 0) == [];
    assert Apply([ASK], b) == Outcome([], CancelEvents(ASK));
    assert Apply([], c) == Outcome([BID], RestEvents(BID));
    assert Best([BID], Buy) == 0;
    assert [BID][0 := BID.(qty := 5)] == [BID.(qty := 5)];
    assert Apply([BID], d) == Outcome([BID.(qty := 5)], FillEvents(TAKER, BID) + [Freed(1)]);
    hide Apply, RestEvents, CancelEvents, FillEvents;
    var e1, e2, e3, e4 := RestEvents(ASK), CancelEvents(ASK), RestEvents(BID), FillEvents(TAKER, BID) + [Freed(1)];
    RunSnoc([], a, [], [], Outcome([ASK], e1));
    RunSnoc([a], b, [ASK], e1, Outcome([], e2));
    RunSnoc([a, b], c, [], e1 + e2, Outcome([BID], e3));
    RunSnoc([a, b, c], d, [BID], e1 + e2 + e3, Outcome([BID.(qty := 5)], e4));
  }

  lemma RefresherSeen()
    ensures |Run(REFRESHER).events| == 14
    ensures Feed(map[], Run(REFRESHER).events, LosesOneRemoval(), 0)
      == map[1 := Entry(Sell, 100, 5, 8.0), 2 := Entry(Buy, 105, 5, 7.0)]
  {
    var net := LosesOneRemoval();
    var e1, e2, e3, e4 := RestEvents(ASK), CancelEvents(ASK), RestEvents(BID), FillEvents(TAKER, BID) + [Freed(1)];
    RefresherRuns();
    hide Run, Feed, FillEvents, RestEvents, CancelEvents;
    FillHeads(TAKER, BID, 1);
    RestIsTwo();
    FeedSum(map[], e1 + e2 + e3, e4, net, 0);
    FeedSum(map[], e1 + e2, e3, net, 0);
    FeedSum(map[], e1, e2, net, 0);
    RestFeeds(map[], ASK, net, 0);
    var t1 := map[1 := Entry(Sell, 100, 10, 0.0)];
    CancelFeeds(t1, ASK, net, 2);
    RestFeeds(t1, BID, net, 5);
    TakerSeen(t1[2 := Entry(Buy, 105, 10, 5.0)], net);
  }

  lemma RestFeeds(t: Table, o: Order, net: Network, k: nat)
    ensures Feed(t, RestEvents(o), net, k) == Received(t, Broadcast(Added, o, o.price, o.qty), net(k))
  {
    FeedOne(t, RestEvents(o), net, k);
  }

  lemma CancelFeeds(t: Table, o: Order, net: Network, k: nat)
    ensures Feed(t, CancelEvents(o), net, k) == Received(t, Broadcast(Removed, o, o.price, o.qty), net(k))
  {
    FeedOne(t, CancelEvents(o), net, k);
  }

  lemma RestIsTwo()
    ensures |RestEvents(ASK)| == |RestEvents(BID)| == 2 && |CancelEvents(ASK)| == 3
  {}

  lemma TakerSeen(t: Table, net: Network)
    requires t == map[1 := Entry(Sell, 100, 10, 0.0), 2 := Entry(Buy, 105, 10, 5.0)] && net == LosesOneRemoval()
    ensures Feed(t, FillEvents(TAKER, BID) + [Freed(1)], net, 7)
      == map[1 := Entry(Sell, 100, 5, 8.0), 2 := Entry(Buy, 105, 5, 7.0)]
  {
    FeedFill(t, TAKER, BID, 1, net, 7);
  }

  /** Then the oldest crossing order is the live one, and repair evicts it. */
  lemma RefreshedPhantomEvictsLive()
    ensures var es, net := Run(REFRESHER).events, LosesOneRemoval();
      && Legal(REFRESHER) && Increasing(net) && AddsArrive(es, net)
      && 2 in ById(Run(REFRESHER).book) && 2 !in Repaired(History(Messages(14), es, net).seen, 1)
      && !AlwaysSpares(Messages(14), es, net)
  {
    var es, net := Run(REFRESHER).events, LosesOneRemoval();
    RefresherRuns();
    RefresherSeen();
    assert AddsArrive(es, net) by { hide Run; }
    hide Run, Feed, Repaired, History;
    MessagesFeed(14, es, net);
    assert es[..14] == es && Messages(14)[..14] == Messages(14);
    var w := History(Messages(14), es, net);
    RefreshedVictim(w.seen);
    RunIsProper(REFRESHER);
    ByIdWith([], BID.(qty := 5));
    assert [] + [BID.(qty := 5)] == [BID.(qty := 5)];
    assert 2 in Live(w, es);
    assert !SparesAt(History(Messages(14)[..14], es, net), es);
  }

  lemma RefreshedVictim(t: Table)
    requires t == map[1 := Entry(Sell, 100, 5, 8.0), 2 := Entry(Buy, 105, 5, 7.0)]
    ensures 2 !in Repaired(t, 1)
  {
    assert CrossPair(t, 2, 1);
    assert Crossing(t, 2);
    var v := Victim(t);
    assert Before(t, v, 2);
    assert Repaired(t, 1) == Repaired(t - {v}, 0);
  }
}
