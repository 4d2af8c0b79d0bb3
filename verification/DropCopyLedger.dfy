/** The drop-copy stream as an audit trail: an automaton that follows every order's life. */
module DropCopyLedger {
  import opened Orders
  import opened ReferenceBook

  /** Where one order's life stands; the order carries its remaining quantity. */
  datatype Life = Arriving(order: Order) | Resting(order: Order) | Closed

  type Ledger = map<nat, Life>

  datatype Verdict = Accepted(ledger: Ledger) | Refused

  predicate Names(e: Event, o: Order)
    requires e.DropCopy?
  {
    e.token == o.token && e.inst == o.inst && e.side == o.side
  }

  /** A silently discarded order: nothing to trade, or off the price ladder or the id table. */
  predicate Discarded(o: Order) {
    o.qty == 0 || o.price >= MAX_PRICE || o.id >= POOL_CAPACITY
  }

  /** The only drop-copy histories there are:
      PARTIAL* (FILLED | REJECTED | NEW PARTIAL* (FILLED | CANCELED)), each fill at a price the order
      allows, each closing report for exactly what is left; a slot is freed once, when its life is over. */
  function Track(l: Ledger, e: Event): Verdict {
    if e.Itch? || e.Ack? then Accepted(l)
    else if e.id !in l then Refused
    else if e.Freed? then
      if l[e.id].Closed? || (l[e.id].Arriving? && Discarded(l[e.id].order)) then Accepted(l - {e.id}) else Refused
    else if l[e.id].Closed? || !Names(e, l[e.id].order) then Refused
    else
      var life := l[e.id];
      var o := life.order;
      match e.state
      case PartialFill =>
        if 0 < e.qty < o.qty && PriceAllowed(life, e.price) then
          var left := o.(qty := o.qty - e.qty);
          Accepted(l[e.id := if life.Arriving? then Arriving(left) else Resting(left)])
        else Refused
      case Filled =>
        if 0 < e.qty == o.qty && PriceAllowed(life, e.price) then Accepted(l[e.id := Closed]) else Refused
      case Rejected =>
        if life.Arriving? && 0 < e.qty == o.qty && e.price == o.price then Accepted(l[e.id := Closed]) else Refused
      case New =>
        if life.Arriving? && 0 < e.qty == o.qty && e.price == o.price then Accepted(l[e.id := Resting(o)]) else Refused
      case Canceled =>
        if life.Resting? && e.qty == o.qty && e.price == o.price then Accepted(l[e.id := Closed]) else Refused
  }

  /** A resting order trades at its own price, an arriving one at its limit or better. */
  predicate PriceAllowed(life: Life, price: nat)
    requires !life.Closed?
  {
    if life.Resting? then price == life.order.price else Crosses(life.order, price)
  }

  function TrackAll(l: Ledger, es: seq<Event>): Verdict {
    if es == [] then Accepted(l) else
      match Track(l, es[0])
      case Accepted(l') => TrackAll(l', es[1..])
      case Refused => Refused
  }

  lemma {:induction false} TrackSum(l: Ledger, a: seq<Event>, b: seq<Event>)
    requires TrackAll(l, a).Accepted?
    ensures TrackAll(l, a + b) == TrackAll(TrackAll(l, a).ledger, b)
  {
    if a == [] {
      assert a + b == b;
    } else {
      assert (a + b)[1..] == a[1..] + b;
      TrackSum(Track(l, a[0]).ledger, a[1..], b);
    }
  }

  lemma TrackTwo(l: Ledger, d: Event, e: Event)
    requires Track(l, d).Accepted?
    ensures TrackAll(l, [d, e]) == Track(Track(l, d).ledger, e)
  {
    assert [d, e][1..] == [e] && [e][1..] == [];
    assert TrackAll(Track(l, d).ledger, [e]) == Track(Track(l, d).ledger, e);
  }

  /** The ledger of a book at rest: every resting order, with its remaining quantity, and nothing else. */
  function LedgerOf(b: Book): Ledger {
    map id | id in ById(b) :: Resting(ById(b)[id])
  }

  // The six messages of a trade move both lives; the resting one is freed when it is filled.
  lemma TradeTracked(l: Ledger, o: Order, r: Order)
    requires o.id != r.id && o.id in l && r.id in l && l[o.id] == Arriving(o) && l[r.id] == Resting(r)
    requires 0 < o.qty && 0 < r.qty && Crosses(o, r.price)
    ensures TrackAll(l, FillEvents(o, r) + [Freed(if o.qty >= r.qty then r.id else o.id)]) ==
      Accepted(if o.qty >= r.qty
               then (l - {r.id})[o.id := if o.qty > r.qty then Arriving(o.(qty := o.qty - r.qty)) else Closed]
               else (l - {o.id})[r.id := Resting(r.(qty := r.qty - o.qty))])
  {
    var es := FillEvents(o, r);
    var last := Freed(if o.qty >= r.qty then r.id else o.id);
    var l1 := l[o.id := if o.qty > r.qty then Arriving(o.(qty := o.qty - r.qty)) else Closed];
    var l2 := l1[r.id := if r.qty > o.qty then Resting(r.(qty := r.qty - o.qty)) else Closed];
    assert Track(l, es[2]) == Accepted(l1) && Track(l1, es[3]) == Accepted(l2);
    hide Names, PriceAllowed, Discarded;
    TrackTwo(l, es[0], es[1]);
    TrackTwo(l, es[2], es[3]);
    TrackTwo(l2, es[4], es[5]);
    TrackSum(l, [es[0], es[1]], [es[2], es[3]]);
    TrackSum(l, [es[0], es[1]] + [es[2], es[3]], [es[4], es[5]]);
    assert es == [es[0], es[1]] + [es[2], es[3]] + [es[4], es[5]];
    TrackSum(l, es, [last]);
    assert TrackAll(l2, [last]) == Track(l2, last);
  }

  /** One incoming order, followed from arrival to rest or close: the automaton accepts every message. */
  lemma {:induction false} MatchTracked(b: Book, o: Order, life: Life)
    requires WellFormed(b) && forall i :: 0 <= i < |b| ==> b[i].id != o.id
    requires life == Arriving(o) || (life == Closed && o.qty == 0)
    ensures TrackAll(LedgerOf(b)[o.id := life], Match(b, o).events) == Accepted(LedgerOf(Match(b, o).book))
    decreases |b|
  {
    hide Track, TrackAll, FillEvents, LedgerOf, ById;
    NotById(b, o.id);
    var i := Best(b, o.side.Other());
    if o.qty == 0 {
      DoneTracked(b, o, life);
    } else if i == -1 || !Crosses(o, b[i].price) {
      RestTracked(b, o);
    } else if b[i].client == o.client {
      RejectTracked(b, o);
    } else {
      TradeStepTracked(b, o, i);
      if o.qty >= b[i].qty {
        var o' := o.(qty := o.qty - b[i].qty);
        WithoutIsWellFormed(b, i);
        WithoutAt(b, i);
        MatchTracked(Without(b, i), o', if o.qty > b[i].qty then Arriving(o') else Closed);
        TrackSum(LedgerOf(b)[o.id := life], FillEvents(o, b[i]) + [Freed(b[i].id)], Match(Without(b, i), o').events);
      }
    }
  }

  lemma DoneTracked(b: Book, o: Order, life: Life)
    requires o.id !in ById(b) && o.qty == 0 && (life == Arriving(o) || life == Closed)
    ensures TrackAll(LedgerOf(b)[o.id := life], [Freed(o.id)]) == Accepted(LedgerOf(b))
  {
    var l := LedgerOf(b)[o.id := life];
    assert TrackAll(l, [Freed(o.id)]) == Track(l, Freed(o.id));
    assert l - {o.id} == LedgerOf(b);
  }

  lemma RestTracked(b: Book, o: Order)
    requires o.id !in ById(b) && o.qty > 0
    ensures TrackAll(LedgerOf(b)[o.id := Arriving(o)], RestEvents(o)) == Accepted(LedgerOf(b + [o]))
  {
    hide ById, TrackAll;
    var l, es := LedgerOf(b)[o.id := Arriving(o)], RestEvents(o);
    TrackTwo(l, es[0], es[1]);
    assert es == [es[0], es[1]] && Track(l, es[0]) == Accepted(l) && Track(l, es[1]) == Accepted(l[o.id := Resting(o)]);
    hide Track;
    ByIdWith(b, o);
    assert l[o.id := Resting(o)] == LedgerOf(b + [o]);
  }

  lemma RejectTracked(b: Book, o: Order)
    requires o.id !in ById(b) && o.qty > 0
    ensures TrackAll(LedgerOf(b)[o.id := Arriving(o)], RejectEvents(o)) == Accepted(LedgerOf(b))
  {
    var l := LedgerOf(b)[o.id := Arriving(o)];
    TrackTwo(l, RejectEvents(o)[0], RejectEvents(o)[1]);
    assert l[o.id := Closed] - {o.id} == LedgerOf(b);
  }

  // After a trade the ledger is that of the reference's next state.
  lemma TradeStepTracked(b: Book, o: Order, i: nat)
    requires WellFormed(b) && i < |b| && o.qty > 0 && Crosses(o, b[i].price) && o.id !in ById(b)
    ensures TrackAll(LedgerOf(b)[o.id := Arriving(o)],
                     FillEvents(o, b[i]) + [Freed(if o.qty >= b[i].qty then b[i].id else o.id)]) ==
      Accepted(if o.qty >= b[i].qty
               then LedgerOf(Without(b, i))[
                      o.id := if o.qty > b[i].qty then Arriving(o.(qty := o.qty - b[i].qty)) else Closed]
               else LedgerOf(b[i := b[i].(qty := b[i].qty - o.qty)]))
  {
    hide ById, TrackAll, Track, FillEvents, Without;
    var l := LedgerOf(b)[o.id := Arriving(o)];
    ByIdAt(b, i);
    TradeTracked(l, o, b[i]);
    if o.qty >= b[i].qty {
      ByIdWithout(b, i);
      var life' := if o.qty > b[i].qty then Arriving(o.(qty := o.qty - b[i].qty)) else Closed;
      assert (l - {b[i].id})[o.id := life'] == LedgerOf(Without(b, i))[o.id := life'];
    } else {
      var r := b[i].(qty := b[i].qty - o.qty);
      ByIdUpdated(b, i, r);
      assert (l - {o.id})[r.id := Resting(r)] == LedgerOf(b[i := r]);
    }
  }

  /** The ledger as a request reaches the book. */
  function Opened(b: Book, op: Op): Ledger {
    if op.NewOrder? then LedgerOf(b)[op.order.id := Arriving(op.order)] else LedgerOf(b)
  }

  /** Every request's messages are accepted, and close on exactly the new book. */
  lemma ApplyTracked(b: Book, op: Op)
    requires Healthy(b) && Admissible(b, op)
    ensures TrackAll(Opened(b, op), Apply(b, op).events) == Accepted(LedgerOf(Apply(b, op).book))
  {
    match op
    case NewOrder(o) =>
      NotById(b, o.id);
      if o.id >= POOL_CAPACITY || o.price >= MAX_PRICE {
        assert Opened(b, op) - {o.id} == LedgerOf(b);
      } else {
        MatchTracked(b, o, Arriving(o));
      }
    case CancelOrder(id) =>
      var i := IndexOf(b, id);
      if i != -1 { CancelTracked(b, i); }
  }

  lemma CancelTracked(b: Book, i: nat)
    requires WellFormed(b) && i < |b|
    ensures TrackAll(LedgerOf(b), CancelEvents(b[i])) == Accepted(LedgerOf(Without(b, i)))
  {
    var l, es := LedgerOf(b), CancelEvents(b[i]);
    ByIdAt(b, i);
    ByIdWithout(b, i);
    assert es[1..] == [es[1], es[2]];
    TrackTwo(l, es[1], es[2]);
    assert l[b[i].id := Closed] - {b[i].id} == LedgerOf(Without(b, i));
  }

  /** The ledger after a whole run, following every message from the first. */
  function Audit(ops: seq<Op>): Verdict {
    if ops == [] then Accepted(map[]) else
      var n := |ops| - 1;
      match Audit(ops[..n])
      case Refused => Refused
      case Accepted(l) =>
        var start := if ops[n].NewOrder? then l[ops[n].order.id := Arriving(ops[n].order)] else l;
        TrackAll(start, Apply(Run(ops[..n]).book, ops[n]).events)
  }

  /** Over every legal run the audit trail is accepted, and what it leaves open is the resting book. */
  lemma {:induction false} RunAudited(ops: seq<Op>)
    requires Legal(ops)
    ensures Audit(ops) == Accepted(LedgerOf(Run(ops).book))
  {
    if ops == [] {
      assert LedgerOf([]) == map[];
    } else {
      var n := |ops| - 1;
      RunAudited(ops[..n]);
      RunIsHealthy(ops[..n]);
      ApplyTracked(Run(ops[..n]).book, ops[n]);
    }
  }

  /** Shares reported filled for the order in slot id. */
  function FilledShares(es: seq<Event>, id: nat): nat {
    if es == [] then 0 else
      (if es[0].DropCopy? && es[0].id == id && (es[0].state.PartialFill? || es[0].state.Filled?) then es[0].qty else 0)
      + FilledShares(es[1..], id)
  }

  /** Shares reported rejected or cancelled for the order in slot id. */
  function ClosedShares(es: seq<Event>, id: nat): nat {
    if es == [] then 0 else
      (if es[0].DropCopy? && es[0].id == id && (es[0].state.Rejected? || es[0].state.Canceled?) then es[0].qty else 0)
      + ClosedShares(es[1..], id)
  }

  /** Shares still open for slot id: none once its life is closed or the slot freed. */
  function Open(l: Ledger, id: nat): nat {
    if id in l && !l[id].Closed? then l[id].order.qty else 0
  }

  /** Slot id does not hold an order that will be discarded without a report. */
  predicate Reported(l: Ledger, id: nat) {
    id in l && l[id].Arriving? ==> !Discarded(l[id].order)
  }

  lemma {:induction false} SharesSum(a: seq<Event>, b: seq<Event>, id: nat)
    ensures FilledShares(a + b, id) == FilledShares(a, id) + FilledShares(b, id)
    ensures ClosedShares(a + b, id) == ClosedShares(a, id) + ClosedShares(b, id)
  {
    if a == [] {
      assert a + b == b;
    } else {
      assert (a + b)[1..] == a[1..] + b;
      SharesSum(a[1..], b, id);
    }
  }

  lemma TrackConserves(l: Ledger, e: Event, id: nat)
    requires Track(l, e).Accepted? && Reported(l, id)
    ensures Reported(Track(l, e).ledger, id)
    ensures FilledShares([e], id) + ClosedShares([e], id) + Open(Track(l, e).ledger, id) == Open(l, id)
  {
    assert [e][1..] == [];
  }

  /** Along any accepted messages, freeing included: fills plus the rejected or cancelled remainder plus what is
      still open add up to what was open at the start. */
  lemma {:induction false} LifeConserves(l: Ledger, es: seq<Event>, id: nat)
    requires TrackAll(l, es).Accepted? && Reported(l, id)
    ensures FilledShares(es, id) + ClosedShares(es, id) + Open(TrackAll(l, es).ledger, id) == Open(l, id)
  {
    if es != [] {
      TrackConserves(l, es[0], id);
      LifeConserves(Track(l, es[0]).ledger, es[1..], id);
      assert es == [es[0]] + es[1..];
      SharesSum([es[0]], es[1..], id);
    }
  }

  /** Shares of slot id that rest in a book. */
  function RestingShares(b: Book, id: nat): nat {
    if id in ById(b) then ById(b)[id].qty else 0
  }

  /** One request, seen by a slot that it does not submit into, or that it submits a reported order into. */
  lemma ApplyConserves(b: Book, op: Op, id: nat)
    requires Healthy(b) && Admissible(b, op)
    requires op.NewOrder? && op.order.id == id ==> !Discarded(op.order)
    ensures var r := Apply(b, op);
      FilledShares(r.events, id) + ClosedShares(r.events, id) + RestingShares(r.book, id)
      == if op.NewOrder? && op.order.id == id then op.order.qty else RestingShares(b, id)
  {
    hide Track, TrackAll, Apply, ById, Healthy;
    ApplyTracked(b, op);
    LifeConserves(Opened(b, op), Apply(b, op).events, id);
  }

  /** The messages from request k of a run to its end. */
  function Since(ops: seq<Op>, k: nat): seq<Event>
    requires k <= |ops|
  {
    RunGrows(ops, k);
    Run(ops).events[|Run(ops[..k]).events|..]
  }

  lemma {:induction false} RunGrows(ops: seq<Op>, k: nat)
    requires k <= |ops|
    ensures Run(ops[..k]).events <= Run(ops).events
  {
    if k == |ops| {
      assert ops[..k] == ops;
    } else {
      var front := ops[..|ops| - 1];
      assert front[..k] == ops[..k];
      RunGrows(front, k);
    }
  }

  /** Over every run: from the request that submits an order on, and as long as its slot is not given to another,
      its fills plus its rejected, cancelled or resting remainder are the quantity it was submitted with. */
  lemma {:induction false} RunConserves(ops: seq<Op>, k: nat)
    requires Legal(ops) && k < |ops| && ops[k].NewOrder? && !Discarded(ops[k].order)
    requires forall j :: k < j < |ops| && ops[j].NewOrder? ==> ops[j].order.id != ops[k].order.id
    ensures var o, es := ops[k].order, Since(ops, k);
      FilledShares(es, o.id) + ClosedShares(es, o.id) + RestingShares(Run(ops).book, o.id) == o.qty
  {
    hide Apply, ById, Healthy, Admissible, FilledShares, ClosedShares;
    var n, id := |ops| - 1, ops[k].order.id;
    var front := ops[..n];
    RunIsHealthy(front);
    var r := Apply(Run(front).book, ops[n]);
    ApplyConserves(Run(front).book, ops[n], id);
    if k == n {
      assert Since(ops, k) == r.events;
    } else {
      assert front[..k] == ops[..k];
      RunConserves(front, k);
      RunGrows(front, k);
      assert Since(ops, k) == Since(front, k) + r.events;
      SharesSum(Since(front, k), r.events, id);
    }
  }

  /** A submission goes unreported exactly when it is discarded: no quantity, a price off the ladder (which
      the gateway accepts up to 10,000,000), or an id off the table. */
  lemma SilentIffDiscarded(b: Book, o: Order)
    ensures (forall e <- Submit(b, o).events :: !e.DropCopy?) <==> Discarded(o)
  {
    hide Match, Best;
    MatchUnfolds(b, o);
    var es := Submit(b, o).events;
    if !Discarded(o) {
      var i := Best(b, o.side.Other());
      var k := if i == -1 || !Crosses(o, b[i].price) then 1 else if b[i].client == o.client then 0 else 2;
      assert k < |es| && es[k].DropCopy?;
    }
  }
}
