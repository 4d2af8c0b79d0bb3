/** The three outbound streams of a book tell the same story, message by message: market data, drop copies and private
    acknowledgements (orderbook.h:222-223, 271-283, 313-314, 331-341, 373-374). */
module Streams {
  import opened Orders
  import opened ReferenceBook

  /** What a market-data message and a drop copy both say. */
  datatype Fact = Fact(id: nat, price: nat, qty: nat, inst: nat, side: Side)

  /** What the drop copy of a fill and an acknowledgement both say. */
  datatype Line = Line(token: nat, price: nat, shares: nat)

  /** What each message contributes, in order. */
  function Collect<T>(es: seq<Event>, f: Event -> seq<T>): seq<T> {
    if es == [] then [] else f(es[0]) + Collect(es[1..], f)
  }

  lemma {:induction false} CollectSum<T>(a: seq<Event>, b: seq<Event>, f: Event -> seq<T>)
    ensures Collect(a + b, f) == Collect(a, f) + Collect(b, f)
  {
    if a == [] {
      assert a + b == b;
    } else {
      assert (a + b)[1..] == a[1..] + b;
      CollectSum(a[1..], b, f);
    }
  }

  function Market(kind: Kind): Event -> seq<Fact> {
    (e: Event) => if e.Itch? && e.kind == kind then [Fact(e.id, e.price, e.qty, e.inst, e.side)] else []
  }

  function Copies(state: OrderState): Event -> seq<Fact> {
    (e: Event) => if e.DropCopy? && e.state == state then [Fact(e.id, e.price, e.qty, e.inst, e.side)] else []
  }

  predicate IsFill(e: Event) {
    e.DropCopy? && (e.state.PartialFill? || e.state.Filled?)
  }

  function Fills(): Event -> seq<Fact> {
    (e: Event) => if IsFill(e) then [Fact(e.id, e.price, e.qty, e.inst, e.side)] else []
  }

  function FillLines(): Event -> seq<Line> {
    (e: Event) => if IsFill(e) then [Line(e.token, e.price, e.qty)] else []
  }

  function AckLines(): Event -> seq<Line> {
    (e: Event) => if e.Ack? then [Line(e.token, e.price, e.shares)] else []
  }

  /** The two sides of each trade, the other way round. */
  function Swapped<T>(s: seq<T>): seq<T> {
    if |s| < 2 then s else [s[1], s[0]] + Swapped(s[2..])
  }

  lemma {:induction false} SwappedSum<T>(a: seq<T>, b: seq<T>)
    requires |a| % 2 == 0
    ensures Swapped(a + b) == Swapped(a) + Swapped(b)
    decreases |a|
  {
    if a == [] {
      assert a + b == b;
    } else {
      assert (a + b)[2..] == a[2..] + b;
      SwappedSum(a[2..], b);
    }
  }

  /** Every order announced, withdrawn or executed in public is reported new, canceled or filled in its drop copies,
      with the same id, price, quantity, instrument and side; every fill reported is acknowledged, with the same token,
      price and shares. Market data names the resting side of a trade first, the other two the aggressor. */
  ghost predicate Agree(es: seq<Event>) {
    && Collect(es, Market(Added)) == Collect(es, Copies(New))
    && Collect(es, Market(Removed)) == Collect(es, Copies(Canceled))
    && Collect(es, Market(Executed)) == Swapped(Collect(es, Fills()))
    && Collect(es, FillLines()) == Collect(es, AckLines())
    && |Collect(es, Fills())| % 2 == 0
  }

  lemma AgreeSum(a: seq<Event>, b: seq<Event>)
    requires Agree(a) && Agree(b)
    ensures Agree(a + b)
  {
    hide Collect, Swapped;
    CollectSum(a, b, Market(Added));
    CollectSum(a, b, Copies(New));
    CollectSum(a, b, Market(Removed));
    CollectSum(a, b, Copies(Canceled));
    CollectSum(a, b, Market(Executed));
    CollectSum(a, b, Fills());
    CollectSum(a, b, FillLines());
    CollectSum(a, b, AckLines());
    SwappedSum(Collect(a, Fills()), Collect(b, Fills()));
  }

  lemma CollectOne<T>(e: Event, f: Event -> seq<T>)
    ensures Collect([e], f) == f(e)
  {
    assert [e][1..] == [] && f(e) + [] == f(e);
    assert Collect([e][1..], f) == [];
  }

  lemma CollectTwo<T>(d: Event, e: Event, f: Event -> seq<T>)
    ensures Collect([d, e], f) == f(d) + f(e)
  {
    assert [d, e] == [d] + [e];
    CollectSum([d], [e], f);
    CollectOne(d, f);
    CollectOne(e, f);
  }

  lemma FreedAgrees(id: nat)
    ensures Agree([Freed(id)])
  {
    var e := Freed(id);
    CollectOne(e, Market(Added));
    CollectOne(e, Copies(New));
    CollectOne(e, Market(Removed));
    CollectOne(e, Copies(Canceled));
    CollectOne(e, Market(Executed));
    CollectOne(e, Fills());
    CollectOne(e, FillLines());
    CollectOne(e, AckLines());
  }

  /** What two messages contribute to all the collections. */
  lemma CollectPair(d: Event, e: Event)
    ensures forall k :: Collect([d, e], Market(k)) == Market(k)(d) + Market(k)(e)
    ensures forall s :: Collect([d, e], Copies(s)) == Copies(s)(d) + Copies(s)(e)
    ensures Collect([d, e], Fills()) == Fills()(d) + Fills()(e)
    ensures Collect([d, e], FillLines()) == FillLines()(d) + FillLines()(e)
    ensures Collect([d, e], AckLines()) == AckLines()(d) + AckLines()(e)
  {
    forall k ensures Collect([d, e], Market(k)) == Market(k)(d) + Market(k)(e) { CollectTwo(d, e, Market(k)); }
    forall s ensures Collect([d, e], Copies(s)) == Copies(s)(d) + Copies(s)(e) { CollectTwo(d, e, Copies(s)); }
    CollectTwo(d, e, Fills());
    CollectTwo(d, e, FillLines());
    CollectTwo(d, e, AckLines());
  }

  lemma RestAgrees(o: Order)
    ensures Agree(RestEvents(o))
  {
    hide Collect;
    var es := RestEvents(o);
    CollectPair(es[0], es[1]);
    assert es == [es[0], es[1]];
  }

  lemma RejectAgrees(o: Order)
    ensures Agree(RejectEvents(o))
  {
    hide Collect;
    var es := RejectEvents(o);
    CollectPair(es[0], es[1]);
    assert es == [es[0], es[1]];
  }

  lemma CancelAgrees(o: Order)
    ensures Agree(CancelEvents(o))
  {
    hide Collect;
    var es := CancelEvents(o);
    CollectPair(es[0], es[1]);
    assert Agree([es[0], es[1]]);
    FreedAgrees(o.id);
    AgreeSum([es[0], es[1]], [es[2]]);
    assert es == [es[0], es[1]] + [es[2]];
  }

  /** The six messages of a trade. */
  lemma FillAgrees(o: Order, r: Order)
    ensures Agree(FillEvents(o, r))
  {
    var es := FillEvents(o, r);
    assert es == [es[0], es[1]] + [es[2], es[3]] + [es[4], es[5]];
    FillMarket(o, r);
    FillCopies(o, r);
    FillLinesAgree(o, r);
    hide Collect, FillEvents;
    assert Swapped(Collect(es, Fills())) == [Collect(es, Fills())[1], Collect(es, Fills())[0]];
  }

  lemma FillMarket(o: Order, r: Order)
    ensures var es := FillEvents(o, r); var q := Min(o.qty, r.qty);
      && Collect(es, Market(Added)) == [] && Collect(es, Market(Removed)) == []
      && Collect(es, Market(Executed))
         == [Fact(r.id, r.price, q, r.inst, r.side), Fact(o.id, r.price, q, o.inst, o.side)]
  {
    var es := FillEvents(o, r);
    SixOf(es, Market(Added));
    SixOf(es, Market(Removed));
    SixOf(es, Market(Executed));
    hide Collect;
  }

  lemma FillCopies(o: Order, r: Order)
    ensures var es := FillEvents(o, r); var q := Min(o.qty, r.qty);
      && Collect(es, Copies(New)) == [] && Collect(es, Copies(Canceled)) == []
      && Collect(es, Fills()) == [Fact(o.id, r.price, q, o.inst, o.side), Fact(r.id, r.price, q, r.inst, r.side)]
  {
    var es := FillEvents(o, r);
    SixOf(es, Copies(New));
    SixOf(es, Copies(Canceled));
    SixOf(es, Fills());
    hide Collect;
  }

  lemma FillLinesAgree(o: Order, r: Order)
    ensures var es := FillEvents(o, r); Collect(es, FillLines()) == Collect(es, AckLines())
  {
    var es := FillEvents(o, r);
    SixOf(es, FillLines());
    SixOf(es, AckLines());
    hide Collect;
  }

  lemma SixOf<T>(es: seq<Event>, f: Event -> seq<T>)
    requires |es| == 6
    ensures Collect(es, f) == f(es[0]) + f(es[1]) + f(es[2]) + f(es[3]) + f(es[4]) + f(es[5])
  {
    hide Collect;
    var a, b, c := [es[0], es[1]], [es[2], es[3]], [es[4], es[5]];
    assert es == a + b + c;
    Three(a, b, c, f);
    CollectTwo(es[0], es[1], f);
    CollectTwo(es[2], es[3], f);
    CollectTwo(es[4], es[5], f);
  }

  lemma Three<T>(a: seq<Event>, b: seq<Event>, c: seq<Event>, f: Event -> seq<T>)
    ensures Collect(a + b + c, f) == Collect(a, f) + Collect(b, f) + Collect(c, f)
  {
    CollectSum(a + b, c, f);
    CollectSum(a, b, f);
  }

  lemma {:induction false} MatchAgrees(b: Book, o: Order)
    ensures Agree(Match(b, o).events)
    decreases |b|
  {
    hide Match, Best, FillEvents, RestEvents, RejectEvents, Agree;
    MatchUnfolds(b, o);
    FreedAgrees(o.id);
    RestAgrees(o);
    RejectAgrees(o);
    var i := Best(b, o.side.Other());
    if o.qty > 0 && i != -1 && Crosses(o, b[i].price) && b[i].client != o.client {
      FillAgrees(o, b[i]);
      FreedAgrees(b[i].id);
      if o.qty >= b[i].qty {
        MatchAgrees(Without(b, i), o.(qty := o.qty - b[i].qty));
        AgreeSum(FillEvents(o, b[i]), [Freed(b[i].id)]);
        AgreeSum(FillEvents(o, b[i]) + [Freed(b[i].id)], Match(Without(b, i), o.(qty := o.qty - b[i].qty)).events);
      } else {
        AgreeSum(FillEvents(o, b[i]), [Freed(o.id)]);
      }
    }
  }

  /** Over every run the streams agree. */
  lemma {:induction false} RunAgrees(ops: seq<Op>)
    ensures Agree(Run(ops).events)
  {
    if ops != [] {
      hide Agree, Match, CancelEvents;
      var n := |ops| - 1;
      var before := Run(ops[..n]);
      RunAgrees(ops[..n]);
      NothingAgrees();
      match ops[n]
      case NewOrder(o) =>
        MatchAgrees(before.book, o);
        FreedAgrees(o.id);
        AgreeSum(before.events, Apply(before.book, ops[n]).events);
      case CancelOrder(id) =>
        var i := IndexOf(before.book, id);
        if i != -1 { CancelAgrees(before.book[i]); }
        AgreeSum(before.events, Apply(before.book, ops[n]).events);
    } else {
      NothingAgrees();
    }
  }

  lemma NothingAgrees()
    ensures Agree([])
  {}

  /** Read off: the i-th fill reported and the i-th acknowledgement are of the same order, at the same price and for
      the same shares. */
  lemma FillsAreAcknowledged(ops: seq<Op>, i: nat)
    requires i < |Collect(Run(ops).events, AckLines())|
    ensures var es := Run(ops).events;
      && |Collect(es, FillLines())| == |Collect(es, AckLines())|
      && Collect(es, FillLines())[i] == Collect(es, AckLines())[i]
  {
    hide Run, Collect;
    RunAgrees(ops);
  }
}
