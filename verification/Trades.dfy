/** Private acknowledgements: what both sides of every trade are told (orderbook.h:172-183, 282-283). */
module Trades {
  import opened Orders
  import opened ReferenceBook

  /** The acknowledgements among a sequence of messages, in order. */
  function Acks(es: seq<Event>): (r: seq<Event>)
    ensures forall i :: 0 <= i < |r| ==> r[i].Ack?
  {
    if es == [] then [] else (if es[0].Ack? then [es[0]] else []) + Acks(es[1..])
  }

  lemma {:induction false} AcksSum(a: seq<Event>, b: seq<Event>)
    ensures Acks(a + b) == Acks(a) + Acks(b)
  {
    if a == [] {
      assert a + b == b;
    } else {
      assert (a + b)[1..] == a[1..] + b;
      AcksSum(a[1..], b);
    }
  }

  lemma AcksOfTwo(d: Event, e: Event)
    ensures Acks([d, e]) == (if d.Ack? then [d] else []) + (if e.Ack? then [e] else [])
  {
    assert [d, e][1..] == [e] && [e][1..] == [];
    assert Acks([e]) == (if e.Ack? then [e] else []) + Acks([e][1..]);
  }

  /** The token, client and worker of a submission. */
  datatype Submitter = Submitter(token: nat, client: nat, worker: nat)

  function Of(o: Order): Submitter { Submitter(o.token, o.client, o.worker) }

  function Told(ack: Event): Submitter
    requires ack.Ack?
  {
    Submitter(ack.token, ack.client, ack.worker)
  }

  /** The two acknowledgements of a trade between incoming o and resting r: aggressor first, then the resting
      side; different clients, as many shares as both allow, at r's price, which is within o's limit. */
  predicate OneTrade(removed: Event, added: Event, o: Order, r: Order)
    requires removed.Ack? && added.Ack?
  {
    && removed.removed && Told(removed) == Of(o)
    && !added.removed && Told(added) == Of(r)
    && r.side == o.side.Other() && r.client != o.client
    && removed.shares == added.shares == Min(o.qty, r.qty) > 0
    && removed.price == added.price == r.price && Crosses(o, r.price)
  }

  /** The acknowledgements of incoming o are a sequence of such trades, each with the best order of what then
      remains of the book, for what then remains of o. */
  ghost predicate OnlyTrades(acks: seq<Event>, b: Book, o: Order)
    requires forall i :: 0 <= i < |acks| ==> acks[i].Ack?
    decreases |acks|
  {
    || acks == []
    || (|acks| >= 2 && exists i :: FirstTrade(acks, b, o, i) && OnlyTrades(acks[2..], Without(b, i), Left(acks, o)))
  }

  predicate FirstTrade(acks: seq<Event>, b: Book, o: Order, i: int)
    requires |acks| >= 2 && acks[0].Ack? && acks[1].Ack?
  {
    IsBest(b, o.side.Other(), i) && OneTrade(acks[0], acks[1], o, b[i])
  }

  /** What is left of o after its first trade. */
  function Left(acks: seq<Event>, o: Order): Order
    requires acks != [] && acks[0].Ack?
  {
    o.(qty := if acks[0].shares <= o.qty then o.qty - acks[0].shares else 0)
  }

  lemma FillAcks(o: Order, r: Order, rest: seq<Event>)
    ensures var q := Min(o.qty, r.qty);
      Acks(FillEvents(o, r) + rest) == [PrivateAck(o, q, r.price, true), PrivateAck(r, q, r.price, false)] + Acks(rest)
  {
    var es := FillEvents(o, r);
    AcksOfTwo(es[0], es[1]);
    AcksOfTwo(es[2], es[3]);
    AcksOfTwo(es[4], es[5]);
    AcksSum([es[0], es[1]], [es[2], es[3]]);
    AcksSum([es[0], es[1]] + [es[2], es[3]], [es[4], es[5]]);
    assert es == [es[0], es[1]] + [es[2], es[3]] + [es[4], es[5]];
    AcksSum(es, rest);
  }

  lemma {:induction false} MatchOnlyTrades(b: Book, o: Order)
    requires WellFormed(b)
    ensures OnlyTrades(Acks(Match(b, o).events), b, o)
    decreases |b|
  {
    hide Match, Acks, FillEvents, RestEvents, RejectEvents, WellFormed, Best, IsBest, Without;
    MatchUnfolds(b, o);
    NoAcks(o);
    BestIsBest(b, o.side.Other());
    var i := Best(b, o.side.Other());
    if o.qty > 0 && i != -1 && Crosses(o, b[i].price) && b[i].client != o.client {
      TradeStarts(b, o, i);
      var acks := Acks(Match(b, o).events);
      if o.qty >= b[i].qty {
        WithoutIsWellFormed(b, i);
        WithoutAt(b, i);
        MatchOnlyTrades(Without(b, i), o.(qty := o.qty - b[i].qty));
      }
      assert FirstTrade(acks, b, o, i);
      assert OnlyTrades(acks[2..], Without(b, i), Left(acks, o));
    }
  }

  /** A match that trades acknowledges that trade first, and then what the rest of the match acknowledges. */
  lemma TradeStarts(b: Book, o: Order, i: nat)
    requires WellFormed(b) && o.qty > 0 && i < |b| && i == Best(b, o.side.Other())
    requires Crosses(o, b[i].price) && b[i].client != o.client
    ensures var acks := Acks(Match(b, o).events);
      && b[i].side == o.side.Other()
      && |acks| >= 2 && OneTrade(acks[0], acks[1], o, b[i])
      && acks[2..] == if o.qty >= b[i].qty then Acks(Match(Without(b, i), o.(qty := o.qty - b[i].qty)).events) else []
  {
    hide Match, Acks, FillEvents, Without, Best;
    MatchUnfolds(b, o);
    BestIsBest(b, o.side.Other());
    NoAcks(o);
    NoAcks(b[i]);
    if o.qty >= b[i].qty {
      var rest := Match(Without(b, i), o.(qty := o.qty - b[i].qty)).events;
      assert FillEvents(o, b[i]) + [Freed(b[i].id)] + rest == FillEvents(o, b[i]) + ([Freed(b[i].id)] + rest);
      FillAcks(o, b[i], [Freed(b[i].id)] + rest);
      AcksSum([Freed(b[i].id)], rest);
    } else {
      FillAcks(o, b[i], [Freed(o.id)]);
    }
  }

  lemma NoAcks(o: Order)
    ensures Acks([Freed(o.id)]) == [] && Acks(RestEvents(o)) == [] && Acks(RejectEvents(o)) == []
    ensures Acks(CancelEvents(o)) == []
  {
    AcksOfTwo(RestEvents(o)[0], RestEvents(o)[1]);
    AcksOfTwo(RejectEvents(o)[0], RejectEvents(o)[1]);
    var es := CancelEvents(o);
    AcksOfTwo(es[1], es[2]);
    assert es[1..] == [es[1], es[2]];
  }

  /** Shares the acknowledged client gained, given the side of the order that triggered the trade. */
  function Gained(ack: Event, aggressor: Side): int
    requires ack.Ack?
  {
    if ack.removed == aggressor.Buy? then ack.shares else -(ack.shares as int)
  }

  function NetShares(acks: seq<Event>, aggressor: Side): int
    requires forall i :: 0 <= i < |acks| ==> acks[i].Ack?
  {
    if acks == [] then 0 else Gained(acks[0], aggressor) + NetShares(acks[1..], aggressor)
  }

  function NetCash(acks: seq<Event>, aggressor: Side): int
    requires forall i :: 0 <= i < |acks| ==> acks[i].Ack?
  {
    if acks == [] then 0 else -Gained(acks[0], aggressor) * acks[0].price + NetCash(acks[1..], aggressor)
  }

  lemma {:induction false} TradesNet(acks: seq<Event>, b: Book, o: Order)
    requires forall i :: 0 <= i < |acks| ==> acks[i].Ack?
    requires OnlyTrades(acks, b, o)
    ensures NetShares(acks, o.side) == 0 && NetCash(acks, o.side) == 0
    decreases |acks|
  {
    if acks != [] {
      hide IsBest, Without;
      assert acks[1..][1..] == acks[2..];
      var i :| FirstTrade(acks, b, o, i) && OnlyTrades(acks[2..], Without(b, i), Left(acks, o));
      TradesNet(acks[2..], Without(b, i), Left(acks, o));
    }
  }

  /** Totals over a run of one instrument's book: shares, then cash. */
  function RunShares(ops: seq<Op>): int {
    if ops == [] then 0 else RunShares(ops[..|ops| - 1]) + StepShares(Run(ops[..|ops| - 1]).book, ops[|ops| - 1])
  }

  function StepShares(b: Book, op: Op): int {
    if op.NewOrder? then NetShares(Acks(Apply(b, op).events), op.order.side) else 0
  }

  function RunCash(ops: seq<Op>): int {
    if ops == [] then 0 else RunCash(ops[..|ops| - 1]) + StepCash(Run(ops[..|ops| - 1]).book, ops[|ops| - 1])
  }

  function StepCash(b: Book, op: Op): int {
    if op.NewOrder? then NetCash(Acks(Apply(b, op).events), op.order.side) else 0
  }

  lemma ApplyOnlyTrades(b: Book, op: Op)
    requires WellFormed(b)
    ensures op.NewOrder? ==> OnlyTrades(Acks(Apply(b, op).events), b, op.order)
    ensures op.CancelOrder? ==> Acks(Apply(b, op).events) == []
  {
    match op
    case NewOrder(o) =>
      NoAcks(o);
      MatchOnlyTrades(b, o);
    case CancelOrder(id) =>
      if IndexOf(b, id) != -1 { NoAcks(b[IndexOf(b, id)]); }
  }

  /** Over any run the acknowledged fills of an instrument net to zero shares and zero cash. */
  lemma {:induction false} RunNets(ops: seq<Op>)
    requires Legal(ops)
    ensures RunShares(ops) == 0 && RunCash(ops) == 0
  {
    if ops != [] {
      var n := |ops| - 1;
      RunNets(ops[..n]);
      RunIsHealthy(ops[..n]);
      var b := Run(ops[..n]).book;
      ApplyOnlyTrades(b, ops[n]);
      if ops[n].NewOrder? { TradesNet(Acks(Apply(b, ops[n]).events), b, ops[n].order); }
    }
  }

  function Submitters(ops: seq<Op>): set<Submitter> {
    set k | 0 <= k < |ops| && ops[k].NewOrder? :: Of(ops[k].order)
  }

  predicate FromAmong(b: Book, es: seq<Event>, s: set<Submitter>) {
    && (forall i :: 0 <= i < |b| ==> Of(b[i]) in s)
    && (forall e :: e in es && e.Ack? ==> Told(e) in s)
  }

  lemma {:induction false} MatchFromAmong(b: Book, o: Order, s: set<Submitter>)
    requires FromAmong(b, [], s) && Of(o) in s
    ensures FromAmong(Match(b, o).book, Match(b, o).events, s)
    decreases |b|
  {
    var i := Best(b, o.side.Other());
    if o.qty > 0 && i != -1 && Crosses(o, b[i].price) && b[i].client != o.client && o.qty >= b[i].qty {
      WithoutAt(b, i);
      MatchFromAmong(Without(b, i), o.(qty := o.qty - b[i].qty), s);
    }
  }

  /** Every acknowledgement ever sent names a submitted order: its token, its client, its worker. */
  lemma {:induction false} RunNamesSubmitters(ops: seq<Op>)
    ensures FromAmong(Run(ops).book, Run(ops).events, Submitters(ops))
  {
    if ops != [] {
      var n := |ops| - 1;
      var b := Run(ops[..n]).book;
      RunNamesSubmitters(ops[..n]);
      assert Submitters(ops[..n]) <= Submitters(ops) by {
        forall x | x in Submitters(ops[..n]) ensures x in Submitters(ops) {
          var k :| 0 <= k < n && ops[k].NewOrder? && Of(ops[k].order) == x;
        }
      }
      match ops[n]
      case NewOrder(o) =>
        assert Of(ops[n].order) in Submitters(ops);
        MatchFromAmong(b, o, Submitters(ops));
      case CancelOrder(id) =>
        if IndexOf(b, id) != -1 { WithoutAt(b, IndexOf(b, id)); }
    }
  }
}
