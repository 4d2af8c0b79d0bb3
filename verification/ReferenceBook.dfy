/** The simple price-time priority book: resting orders in arrival order, searched in full. */
module ReferenceBook {
  import opened Orders

  type Book = seq<Order>

  /** On the resting side s, price p has strictly better priority than price q. */
  predicate Beats(s: Side, p: nat, q: nat) {
    if s.Buy? then p > q else p < q
  }

  /** A resting price p is within the limit of the incoming order o. */
  predicate Crosses(o: Order, p: nat) {
    if o.side.Buy? then p <= o.price else p >= o.price
  }

  /** No resting order is within the limit of the incoming order o. */
  predicate NothingCrosses(b: seq<Order>, o: Order) {
    forall i :: 0 <= i < |b| && b[i].side == o.side.Other() ==> !Crosses(o, b[i].price)
  }

  /** Index i holds side s's best price, and the earliest arrival at that price. */
  predicate IsBest(b: Book, s: Side, i: int) {
    && 0 <= i < |b| && b[i].side == s
    && forall j :: 0 <= j < |b| && b[j].side == s ==>
         !Beats(s, b[j].price, b[i].price) && (b[j].price == b[i].price ==> i <= j)
  }

  /** Search every resting order for the best of side s; -1 when the side is empty. */
  function Best(b: Book, s: Side): (i: int)
    ensures -1 <= i < |b|
  {
    if b == [] then -1 else
      var n := |b| - 1;
      var i := Best(b[..n], s);
      if b[n].side == s && (i == -1 || Beats(s, b[n].price, b[i].price)) then n else i
  }

  lemma {:induction false} BestIsBest(b: Book, s: Side)
    ensures Best(b, s) == -1 <==> forall j :: 0 <= j < |b| ==> b[j].side != s
    ensures Best(b, s) != -1 ==> IsBest(b, s, Best(b, s))
  {
    if b != [] {
      var n := |b| - 1;
      BestIsBest(b[..n], s);
      assert forall j :: 0 <= j < n ==> b[..n][j] == b[j];
    }
  }

  function Without(b: Book, i: nat): Book
    requires i < |b|
  {
    b[..i] + b[i + 1..]
  }

  datatype Outcome = Outcome(book: Book, events: seq<Event>)

  /** The messages of one trade between incoming o and resting r, at the resting price. */
  function FillEvents(o: Order, r: Order): seq<Event> {
    var q := Min(o.qty, r.qty);
    [ Broadcast(Executed, r, r.price, q),
      Broadcast(Executed, o, r.price, q),
      Report(o, r.price, q, if o.qty > r.qty then PartialFill else Filled),
      Report(r, r.price, q, if r.qty > o.qty then PartialFill else Filled),
      PrivateAck(o, q, r.price, true),
      PrivateAck(r, q, r.price, false) ]
  }

  function RestEvents(o: Order): seq<Event> {
    [Broadcast(Added, o, o.price, o.qty), Report(o, o.price, o.qty, New)]
  }

  function RejectEvents(o: Order): seq<Event> {
    [Report(o, o.price, o.qty, Rejected), Freed(o.id)]
  }

  function CancelEvents(o: Order): seq<Event> {
    [Broadcast(Removed, o, o.price, o.qty), Report(o, o.price, o.qty, Canceled), Freed(o.id)]
  }

  /** Trade o against the best opposite order while it crosses, then rest what is left. */
  function Match(b: Book, o: Order): (r: Outcome)
    decreases |b|
  {
    if o.qty == 0 then Outcome(b, [Freed(o.id)]) else
      var i := Best(b, o.side.Other());
      if i == -1 || !Crosses(o, b[i].price) then Outcome(b + [o], RestEvents(o))
      else if b[i].client == o.client then Outcome(b, RejectEvents(o))
      else if o.qty >= b[i].qty then
        var rest := Match(Without(b, i), o.(qty := o.qty - b[i].qty));
        Outcome(rest.book, FillEvents(o, b[i]) + [Freed(b[i].id)] + rest.events)
      else
        Outcome(b[i := b[i].(qty := b[i].qty - o.qty)], FillEvents(o, b[i]) + [Freed(o.id)])
  }

  /** One unfolding of Match. */
  lemma MatchUnfolds(b: Book, o: Order)
    ensures o.qty == 0 ==> Match(b, o) == Outcome(b, [Freed(o.id)])
    ensures var i := Best(b, o.side.Other()); o.qty > 0 ==>
      if i == -1 || !Crosses(o, b[i].price) then Match(b, o) == Outcome(b + [o], RestEvents(o))
      else if b[i].client == o.client then Match(b, o) == Outcome(b, RejectEvents(o))
      else if o.qty >= b[i].qty then
        var rest := Match(Without(b, i), o.(qty := o.qty - b[i].qty));
        Match(b, o) == Outcome(rest.book, FillEvents(o, b[i]) + [Freed(b[i].id)] + rest.events)
      else
        Match(b, o) == Outcome(b[i := b[i].(qty := b[i].qty - o.qty)], FillEvents(o, b[i]) + [Freed(o.id)])
  {}

  /** An order outside the price ladder or the id table is discarded without a report. */
  function Submit(b: Book, o: Order): Outcome {
    if o.id >= POOL_CAPACITY || o.price >= MAX_PRICE then Outcome(b, [Freed(o.id)]) else Match(b, o)
  }

  function IndexOf(b: Book, id: nat): (i: int)
    ensures -1 <= i < |b|
    ensures i != -1 ==> b[i].id == id
    ensures i == -1 <==> forall j :: 0 <= j < |b| ==> b[j].id != id
  {
    if b == [] then -1
    else if b[|b| - 1].id == id then |b| - 1
    else
      assert forall j :: 0 <= j < |b| - 1 ==> b[..|b| - 1][j] == b[j];
      IndexOf(b[..|b| - 1], id)
  }

  function Cancel(b: Book, id: nat): Outcome {
    var i := IndexOf(b, id);
    if i == -1 then Outcome(b, []) else Outcome(Without(b, i), CancelEvents(b[i]))
  }

  /** A request as it reaches one instrument's book. */
  datatype Op = NewOrder(order: Order) | CancelOrder(id: nat)

  function Apply(b: Book, op: Op): Outcome {
    match op
    case NewOrder(o) => Submit(b, o)
    case CancelOrder(id) => Cancel(b, id)
  }

  /** What a book always looks like: distinct ids, live quantities, prices on the ladder. */
  predicate WellFormed(b: Book) {
    && (forall i :: 0 <= i < |b| ==> 0 < b[i].id < POOL_CAPACITY && b[i].qty > 0 && b[i].price < MAX_PRICE)
    && (forall i, j :: 0 <= i < j < |b| ==> b[i].id != b[j].id)
  }

  /** A request the engine may receive: a new order occupies a slot that nothing rests in. */
  predicate Admissible(b: Book, op: Op) {
    op.NewOrder? ==> 0 < op.order.id && forall i :: 0 <= i < |b| ==> b[i].id != op.order.id
  }

  /** Every resting bid is priced strictly below every resting ask. */
  predicate Uncrossed(b: Book) {
    forall i, j :: 0 <= i < |b| && 0 <= j < |b| && b[i].side.Buy? && b[j].side.Sell? ==> b[i].price < b[j].price
  }

  ghost predicate Healthy(b: Book) {
    WellFormed(b) && Uncrossed(b)
  }

  lemma WithoutAt(b: Book, i: nat)
    requires i < |b|
    ensures |Without(b, i)| == |b| - 1
    ensures forall j :: 0 <= j < i ==> Without(b, i)[j] == b[j]
    ensures forall j :: i <= j < |b| - 1 ==> Without(b, i)[j] == b[j + 1]
  {}

  lemma WithoutIsWellFormed(b: Book, i: nat)
    requires WellFormed(b) && i < |b|
    ensures WellFormed(Without(b, i))
  {
    WithoutAt(b, i);
  }

  lemma WithoutIsHealthy(b: Book, i: nat)
    requires Healthy(b) && i < |b|
    ensures Healthy(Without(b, i))
  {
    WithoutAt(b, i);
  }

  lemma RestIsHealthy(b: Book, o: Order)
    requires Healthy(b) && 0 < o.id < POOL_CAPACITY && o.price < MAX_PRICE && o.qty > 0
    requires forall i :: 0 <= i < |b| ==> b[i].id != o.id
    requires NothingCrosses(b, o)
    ensures Healthy(b + [o])
  {}

  lemma ReducedIsHealthy(b: Book, i: nat, q: nat)
    requires Healthy(b) && i < |b| && q > 0
    ensures Healthy(b[i := b[i].(qty := q)])
  {}

  // If the best opposite price does not cross, none does.
  lemma BestDecides(b: Book, o: Order)
    requires var i := Best(b, o.side.Other()); i == -1 || !Crosses(o, b[i].price)
    ensures NothingCrosses(b, o)
  {
    BestIsBest(b, o.side.Other());
  }

  lemma {:induction false} MatchKeepsHealth(b: Book, o: Order)
    requires Healthy(b) && 0 < o.id < POOL_CAPACITY && o.price < MAX_PRICE
    requires forall i :: 0 <= i < |b| ==> b[i].id != o.id
    ensures Healthy(Match(b, o).book)
    decreases |b|
  {
    if o.qty == 0 { return; }
    var i := Best(b, o.side.Other());
    if i == -1 || !Crosses(o, b[i].price) {
      BestDecides(b, o);
      RestIsHealthy(b, o);
    } else if b[i].client != o.client {
      if o.qty >= b[i].qty {
        WithoutIsHealthy(b, i);
        WithoutAt(b, i);
        MatchKeepsHealth(Without(b, i), o.(qty := o.qty - b[i].qty));
      } else {
        ReducedIsHealthy(b, i, b[i].qty - o.qty);
      }
    }
  }

  /** Every request keeps the book well formed and uncrossed. */
  lemma ApplyKeepsHealth(b: Book, op: Op)
    requires Healthy(b) && Admissible(b, op)
    ensures Healthy(Apply(b, op).book)
  {
    if op.NewOrder? && op.order.id < POOL_CAPACITY && op.order.price < MAX_PRICE {
      MatchKeepsHealth(b, op.order);
    } else if op.CancelOrder? && IndexOf(b, op.id) != -1 {
      WithoutIsHealthy(b, IndexOf(b, op.id));
    }
  }

  /** The state and full message log after a sequence of requests, from an empty book. */
  function Run(ops: seq<Op>): Outcome {
    if ops == [] then Outcome([], []) else
      var before := Run(ops[..|ops| - 1]);
      var last := Apply(before.book, ops[|ops| - 1]);
      Outcome(last.book, before.events + last.events)
  }

  predicate Legal(ops: seq<Op>) {
    ops == [] || (Legal(ops[..|ops| - 1]) && Admissible(Run(ops[..|ops| - 1]).book, ops[|ops| - 1]))
  }

  lemma {:induction false} RunIsHealthy(ops: seq<Op>)
    requires Legal(ops)
    ensures Healthy(Run(ops).book)
  {
    if ops != [] {
      RunIsHealthy(ops[..|ops| - 1]);
      ApplyKeepsHealth(Run(ops[..|ops| - 1]).book, ops[|ops| - 1]);
    }
  }

  /** The book as a table from order id to order. */
  function ById(b: Book): (m: map<nat, Order>)
    ensures forall i :: 0 <= i < |b| ==> b[i].id in m
  {
    if b == [] then map[] else ById(b[..|b| - 1])[b[|b| - 1].id := b[|b| - 1]]
  }

  lemma {:induction false} ByIdKeys(b: Book, id: nat)
    requires id in ById(b)
    ensures exists i :: 0 <= i < |b| && b[i].id == id && b[i] == ById(b)[id]
  {
    if b[|b| - 1].id != id { ByIdKeys(b[..|b| - 1], id); }
  }

  lemma ByIdAt(b: Book, i: nat)
    requires WellFormed(b) && i < |b|
    ensures ById(b)[b[i].id] == b[i]
  {
    ByIdKeys(b, b[i].id);
  }

  lemma ByIdWith(b: Book, o: Order)
    ensures ById(b + [o]) == ById(b)[o.id := o]
  {
    assert (b + [o])[..|b|] == b;
  }

  lemma {:induction false} ByIdWithout(b: Book, i: nat)
    requires WellFormed(b) && i < |b|
    ensures ById(Without(b, i)) == ById(b) - {b[i].id}
  {
    hide Without, ById;
    var n := |b| - 1;
    assert b == b[..n] + [b[n]];
    ByIdWith(b[..n], b[n]);
    if i == n {
      assert Without(b, i) == b[..n] by { WithoutAt(b, i); }
      if b[n].id in ById(b[..n]) { ByIdKeys(b[..n], b[n].id); }
    } else {
      ByIdWithout(b[..n], i);
      assert Without(b, i) == Without(b[..n], i) + [b[n]] by { WithoutAt(b, i); WithoutAt(b[..n], i); }
      ByIdWith(Without(b[..n], i), b[n]);
      assert ById(b) == ById(b[..n])[b[n].id := b[n]];
      assert b[..n][i] == b[i];
    }
  }

  lemma {:induction false} ByIdUpdated(b: Book, i: nat, o: Order)
    requires WellFormed(b) && i < |b| && o.id == b[i].id
    ensures ById(b[i := o]) == ById(b)[o.id := o]
  {
    hide ById;
    var n := |b| - 1;
    var t := b[i := o];
    assert t == t[..n] + [t[n]] && b == b[..n] + [b[n]];
    ByIdWith(t[..n], t[n]);
    ByIdWith(b[..n], b[n]);
    if i == n {
      assert t[..n] == b[..n];
    } else {
      ByIdUpdated(b[..n], i, o);
      assert t[..n] == b[..n][i := o] && b[n].id != b[i].id;
    }
  }

  lemma NotById(b: Book, id: nat)
    requires forall i :: 0 <= i < |b| ==> b[i].id != id
    ensures id !in ById(b)
  {
    if id in ById(b) { ByIdKeys(b, id); }
  }
}
