/** Intrusive FIFO lists threaded through the order pool (orderbook.h:22-45).
    A pointer is a pool slot; slot 0 is the null pointer. */
module LimitQueue {
  import opened Orders
  import opened ReferenceBook
  import opened Levels

  datatype Node = Node(order: Order, next: nat, prev: nat)

  datatype Limit = Limit(head: nat, tail: nat)

  function NextId(q: seq<Order>, i: int): nat { if 0 <= i < |q| - 1 then q[i + 1].id else 0 }

  function PrevId(q: seq<Order>, i: int): nat { if 0 < i < |q| then q[i - 1].id else 0 }

  predicate LinkAt(nodes: seq<Node>, q: seq<Order>, i: nat)
    requires i < |q|
  {
    0 < q[i].id < |nodes| && nodes[q[i].id] == Node(q[i], NextId(q, i), PrevId(q, i))
  }

  /** The list from lim through the pool holds exactly the orders q, linked both ways. */
  predicate Linked(nodes: seq<Node>, lim: Limit, q: seq<Order>) {
    && lim == (if q == [] then Limit(0, 0) else Limit(q[0].id, q[|q| - 1].id))
    && forall i :: 0 <= i < |q| ==> LinkAt(nodes, q, i)
  }

  /** Limit::add, on the pool and list it changes. */
  function Appended(nodes: seq<Node>, lim: Limit, x: nat): (r: (seq<Node>, Limit))
    requires 0 < x < |nodes| && lim.tail < |nodes|
    ensures |r.0| == |nodes|
  {
    if lim.tail == 0 then
      (nodes[x := nodes[x].(next := 0, prev := 0)], Limit(x, x))
    else
      var linked := nodes[lim.tail := nodes[lim.tail].(next := x)];
      (linked[x := linked[x].(prev := lim.tail, next := 0)], lim.(tail := x))
  }

  /** Limit::remove, on the pool and list it changes. */
  function Spliced(nodes: seq<Node>, lim: Limit, x: nat): (r: (seq<Node>, Limit))
    requires 0 < x < |nodes| && nodes[x].prev < |nodes| && nodes[x].next < |nodes|
    ensures |r.0| == |nodes|
  {
    var before, after := nodes[x].prev, nodes[x].next;
    var n1 := if before != 0 then nodes[before := nodes[before].(next := after)] else nodes;
    var n2 := if after != 0 then n1[after := n1[after].(prev := before)] else n1;
    (n2[x := n2[x].(next := 0, prev := 0)],
     Limit(if x == lim.head then after else lim.head, if x == lim.tail then before else lim.tail))
  }

  lemma OrdersKept(nodes: seq<Node>, lim: Limit, x: nat)
    requires 0 < x < |nodes|
    ensures lim.tail < |nodes| ==> forall y :: 0 <= y < |nodes| ==> Appended(nodes, lim, x).0[y].order == nodes[y].order
    ensures nodes[x].prev < |nodes| && nodes[x].next < |nodes| ==>
      forall y :: 0 <= y < |nodes| ==> Spliced(nodes, lim, x).0[y].order == nodes[y].order
  {}

  predicate InQueue(q: seq<Order>, x: nat) { exists i :: 0 <= i < |q| && q[i].id == x }

  lemma AddLinks(nodes: seq<Node>, lim: Limit, q: seq<Order>, x: nat)
    requires Linked(nodes, lim, q) && DistinctIds(q) && 0 < x < |nodes| && !InQueue(q, x)
    requires nodes[x].order.id == x
    ensures lim.tail < |nodes|
    ensures var r := Appended(nodes, lim, x);
      && Linked(r.0, r.1, q + [nodes[x].order])
      && forall y :: 0 <= y < |nodes| && y != x && !InQueue(q, y) ==> r.0[y] == nodes[y]
  {
    if q != [] { assert LinkAt(nodes, q, |q| - 1) && InQueue(q, q[|q| - 1].id); }
    var r := Appended(nodes, lim, x);
    var t := q + [nodes[x].order];
    forall i | 0 <= i < |t| ensures LinkAt(r.0, t, i) {
      if i < |q| { assert LinkAt(nodes, q, i) && InQueue(q, q[i].id); }
    }
  }

  lemma Neighbours(nodes: seq<Node>, lim: Limit, q: seq<Order>, k: nat)
    requires Linked(nodes, lim, q) && k < |q|
    ensures LinkAt(nodes, q, k) && nodes[q[k].id].prev < |nodes| && nodes[q[k].id].next < |nodes|
  {
    assert LinkAt(nodes, q, k);
    if k > 0 { assert LinkAt(nodes, q, k - 1); }
    if k + 1 < |q| { assert LinkAt(nodes, q, k + 1); }
  }

  // What removal does to the pool: only the removed node and its two neighbours change.
  lemma RemovedNode(nodes: seq<Node>, lim: Limit, q: seq<Order>, k: nat, j: nat)
    requires Linked(nodes, lim, q) && DistinctIds(q) && k < |q| && j < |q|
    ensures var x := q[k].id; 0 < x < |nodes| && nodes[x].prev < |nodes| && nodes[x].next < |nodes|
    ensures 0 < q[j].id < |nodes|
    ensures Spliced(nodes, lim, q[k].id).0[q[j].id] ==
      if j == k then Node(q[k], 0, 0)
      else if j == k - 1 then Node(q[j], NextId(q, k), PrevId(q, j))
      else if j == k + 1 then Node(q[j], NextId(q, j), PrevId(q, k))
      else nodes[q[j].id]
  {
    Neighbours(nodes, lim, q, k);
    assert LinkAt(nodes, q, j);
  }

  lemma RemovedElsewhere(nodes: seq<Node>, lim: Limit, q: seq<Order>, k: nat, y: nat)
    requires Linked(nodes, lim, q) && DistinctIds(q) && k < |q| && y < |nodes| && !InQueue(q, y)
    ensures var x := q[k].id; 0 < x < |nodes| && nodes[x].prev < |nodes| && nodes[x].next < |nodes|
    ensures Spliced(nodes, lim, q[k].id).0[y] == nodes[y]
  {
    Neighbours(nodes, lim, q, k);
    if k > 0 { assert InQueue(q, q[k - 1].id); }
    if k + 1 < |q| { assert InQueue(q, q[k + 1].id); }
    assert InQueue(q, q[k].id);
  }

  lemma RemovedEnds(nodes: seq<Node>, lim: Limit, q: seq<Order>, k: nat)
    requires Linked(nodes, lim, q) && DistinctIds(q) && k < |q|
    ensures var x := q[k].id; 0 < x < |nodes| && nodes[x].prev < |nodes| && nodes[x].next < |nodes|
    ensures var t := Without(q, k);
      Spliced(nodes, lim, q[k].id).1 == if t == [] then Limit(0, 0) else Limit(t[0].id, t[|t| - 1].id)
  {
    Neighbours(nodes, lim, q, k);
    WithoutAt(q, k);
  }

  lemma RemoveLinks(nodes: seq<Node>, lim: Limit, q: seq<Order>, k: nat)
    requires Linked(nodes, lim, q) && DistinctIds(q) && k < |q|
    ensures var x := q[k].id; 0 < x < |nodes| && nodes[x].prev < |nodes| && nodes[x].next < |nodes|
    ensures var r := Spliced(nodes, lim, q[k].id);
      Linked(r.0, r.1, Without(q, k)) && r.0[q[k].id] == Node(q[k], 0, 0)
  {
    RemovedEnds(nodes, lim, q, k);
    RemovedNode(nodes, lim, q, k, k);
    var r := Spliced(nodes, lim, q[k].id);
    var t := Without(q, k);
    WithoutAt(q, k);
    forall i | 0 <= i < |t| ensures LinkAt(r.0, t, i) {
      var j := if i < k then i else i + 1;
      assert LinkAt(nodes, q, j);
      RemovedNode(nodes, lim, q, k, j);
    }
  }

  /** Replacing the payload of one queued order in place keeps the list. */
  lemma UpdateLinks(nodes: seq<Node>, lim: Limit, q: seq<Order>, k: nat, r: Order)
    requires Linked(nodes, lim, q) && DistinctIds(q) && k < |q| && r.id == q[k].id
    ensures r.id < |nodes|
    ensures Linked(nodes[r.id := nodes[r.id].(order := r)], lim, q[k := r])
  {
    assert LinkAt(nodes, q, k);
    var nodes' := nodes[r.id := nodes[r.id].(order := r)];
    var t := q[k := r];
    forall i | 0 <= i < |t| ensures LinkAt(nodes', t, i) {
      assert LinkAt(nodes, q, i);
    }
  }

  lemma FrameLinks(nodes: seq<Node>, nodes': seq<Node>, lim: Limit, q: seq<Order>)
    requires Linked(nodes, lim, q) && |nodes'| == |nodes|
    requires forall y :: 0 <= y < |nodes| && InQueue(q, y) ==> nodes'[y] == nodes[y]
    ensures Linked(nodes', lim, q)
  {
    forall i | 0 <= i < |q| ensures LinkAt(nodes', q, i) {
      assert LinkAt(nodes, q, i) && InQueue(q, q[i].id);
    }
  }

  function Pick<T>(bids: T, asks: T, s: Side): T { if s.Buy? then bids else asks }

  /** Every level of both sides is threaded through the pool. */
  predicate Threaded(nodes: seq<Node>, bids: seq<Limit>, asks: seq<Limit>, b: Book)
    requires |bids| == |asks| == MAX_PRICE
  {
    forall s, p :: 0 <= p < MAX_PRICE ==> Linked(nodes, Pick(bids, asks, s)[p], Level(b, s, p))
  }

  lemma EmptyThreads(nodes: seq<Node>, bids: seq<Limit>, asks: seq<Limit>)
    requires |bids| == |asks| == MAX_PRICE
    requires forall p :: 0 <= p < MAX_PRICE ==> bids[p] == Limit(0, 0) && asks[p] == Limit(0, 0)
    ensures Threaded(nodes, bids, asks, [])
  {}

  lemma InLevel(b: Book, s: Side, p: nat, y: nat)
    ensures InQueue(Level(b, s, p), y) <==> exists i :: 0 <= i < |b| && At(b[i], s, p) && b[i].id == y
    ensures InQueue(Level(b, s, p), y) ==> InQueue(b, y)
  {
    var q := Level(b, s, p);
    LevelMembers(b, s, p);
    if InQueue(q, y) {
      var i :| 0 <= i < |q| && q[i].id == y;
      assert q[i] in q;
    }
    if i :| 0 <= i < |b| && At(b[i], s, p) && b[i].id == y {
      assert b[i] in q;
    }
  }

  // A change confined to one level's slots, or to slots that rest nowhere, leaves every other level linked.
  lemma OtherLevel(nodes: seq<Node>, nodes': seq<Node>, lim: Limit, b: Book, s0: Side, p0: nat, s: Side, p: nat)
    requires DistinctIds(b) && |nodes'| == |nodes| && (s, p) != (s0, p0)
    requires forall y :: 0 <= y < |nodes| && InQueue(b, y) && !InQueue(Level(b, s0, p0), y) ==> nodes'[y] == nodes[y]
    requires Linked(nodes, lim, Level(b, s, p))
    ensures Linked(nodes', lim, Level(b, s, p))
  {
    forall y | 0 <= y < |nodes| && InQueue(Level(b, s, p), y) ensures nodes'[y] == nodes[y] {
      InLevel(b, s, p, y);
      InLevel(b, s0, p0, y);
    }
    FrameLinks(nodes, nodes', lim, Level(b, s, p));
  }

  /** The limits after list r replaced side s's list at price p. */
  function Bids(bids: seq<Limit>, s: Side, p: nat, r: Limit): seq<Limit>
    requires p < |bids|
  {
    if s.Buy? then bids[p := r] else bids
  }

  function Asks(asks: seq<Limit>, s: Side, p: nat, r: Limit): seq<Limit>
    requires p < |asks|
  {
    if s.Sell? then asks[p := r] else asks
  }

  // One level relinked, every other level kept: the book is threaded again.
  lemma Rethread(nodes: seq<Node>, nodes': seq<Node>, bids: seq<Limit>, asks: seq<Limit>,
                 b: Book, b': Book, s0: Side, p0: nat, lim: Limit)
    requires |bids| == |asks| == MAX_PRICE && Threaded(nodes, bids, asks, b)
    requires DistinctIds(b) && |nodes'| == |nodes| && p0 < MAX_PRICE
    requires forall y :: 0 <= y < |nodes| && InQueue(b, y) && !InQueue(Level(b, s0, p0), y) ==> nodes'[y] == nodes[y]
    requires Linked(nodes', lim, Level(b', s0, p0))
    requires forall s, p :: 0 <= p < MAX_PRICE && (s, p) != (s0, p0) ==> Level(b', s, p) == Level(b, s, p)
    ensures Threaded(nodes', Bids(bids, s0, p0, lim), Asks(asks, s0, p0, lim), b')
  {
    var bids', asks' := Bids(bids, s0, p0, lim), Asks(asks, s0, p0, lim);
    forall s, p | 0 <= p < MAX_PRICE ensures Linked(nodes', Pick(bids', asks', s)[p], Level(b', s, p)) {
      if (s, p) != (s0, p0) {
        assert Linked(nodes, Pick(bids, asks, s)[p], Level(b, s, p));
        OtherLevel(nodes, nodes', Pick(bids, asks, s)[p], b, s0, p0, s, p);
      }
    }
  }

  /** Position of order i of the book within its own level. */
  ghost function Rank(b: Book, i: nat): nat
    requires i < |b|
  {
    |Level(b[..i], b[i].side, b[i].price)|
  }

  lemma RankIsPosition(b: Book, i: nat)
    requires i < |b|
    ensures var q, k := Level(b, b[i].side, b[i].price), Rank(b, i);
      k < |q| && q[k] == b[i] && Level(Without(b, i), b[i].side, b[i].price) == Without(q, k)
  {
    LevelAround(b, i, b[i].side, b[i].price);
  }

  lemma RankOfReduced(b: Book, i: nat, n: nat)
    requires i < |b|
    ensures var q, k, r := Level(b, b[i].side, b[i].price), Rank(b, i), b[i].(qty := n);
      k < |q| && Level(b[i := r], b[i].side, b[i].price) == q[k := r]
  {
    LevelAround(b, i, b[i].side, b[i].price);
    LevelOfUpdate(b, i, b[i].(qty := n), b[i].side, b[i].price);
  }

  lemma OtherLevelsKept(b: Book, i: nat, s: Side, p: nat)
    requires i < |b| && !At(b[i], s, p)
    ensures Level(Without(b, i), s, p) == Level(b, s, p)
    ensures forall n :: Level(b[i := b[i].(qty := n)], s, p) == Level(b, s, p)
  {
    LevelAround(b, i, s, p);
    forall n ensures Level(b[i := b[i].(qty := n)], s, p) == Level(b, s, p) {
      LevelOfUpdate(b, i, b[i].(qty := n), s, p);
    }
  }

  lemma RestingNode(nodes: seq<Node>, bids: seq<Limit>, asks: seq<Limit>, b: Book, i: nat)
    requires |bids| == |asks| == MAX_PRICE && Threaded(nodes, bids, asks, b)
    requires i < |b| && b[i].price < MAX_PRICE
    ensures var x := b[i].id;
      && 0 < x < |nodes| && nodes[x].order == b[i] && nodes[x].prev < |nodes| && nodes[x].next < |nodes|
  {
    RankIsPosition(b, i);
    var s, p := b[i].side, b[i].price;
    assert Linked(nodes, Pick(bids, asks, s)[p], Level(b, s, p));
    Neighbours(nodes, Pick(bids, asks, s)[p], Level(b, s, p), Rank(b, i));
  }

  /** Unlinking order i of the book leaves the rest threaded and slots that rest nowhere untouched. */
  lemma RemoveThread(nodes: seq<Node>, bids: seq<Limit>, asks: seq<Limit>, b: Book, i: nat)
    requires |bids| == |asks| == MAX_PRICE && Threaded(nodes, bids, asks, b)
    requires DistinctIds(b) && i < |b| && b[i].price < MAX_PRICE
    requires 0 < b[i].id < |nodes| && nodes[b[i].id].prev < |nodes| && nodes[b[i].id].next < |nodes|
    ensures var r := Spliced(nodes, Pick(bids, asks, b[i].side)[b[i].price], b[i].id);
      && Threaded(r.0, Bids(bids, b[i].side, b[i].price, r.1), Asks(asks, b[i].side, b[i].price, r.1), Without(b, i))
      && forall y :: 0 <= y < |nodes| && !InQueue(b, y) ==> r.0[y] == nodes[y]
  {
    var s0, p0, k := b[i].side, b[i].price, Rank(b, i);
    var lim, q := Pick(bids, asks, s0)[p0], Level(b, s0, p0);
    RankIsPosition(b, i);
    LevelIsDistinct(b, s0, p0);
    assert Linked(nodes, lim, q);
    RemoveLinks(nodes, lim, q, k);
    var r := Spliced(nodes, lim, b[i].id);
    forall y | 0 <= y < |nodes| && !InQueue(q, y) ensures r.0[y] == nodes[y] {
      RemovedElsewhere(nodes, lim, q, k, y);
    }
    forall y | 0 <= y < |nodes| && !InQueue(b, y) ensures r.0[y] == nodes[y] { InLevel(b, s0, p0, y); }
    forall s, p | 0 <= p < MAX_PRICE && (s, p) != (s0, p0) ensures Level(Without(b, i), s, p) == Level(b, s, p) {
      OtherLevelsKept(b, i, s, p);
    }
    Rethread(nodes, r.0, bids, asks, b, Without(b, i), s0, p0, r.1);
  }

  /** Linking a new order at the tail of its level. */
  lemma AddThread(nodes: seq<Node>, bids: seq<Limit>, asks: seq<Limit>, b: Book, x: nat)
    requires |bids| == |asks| == MAX_PRICE && Threaded(nodes, bids, asks, b) && DistinctIds(b)
    requires 0 < x < |nodes| && nodes[x].order.id == x && nodes[x].order.price < MAX_PRICE && !InQueue(b, x)
    ensures Pick(bids, asks, nodes[x].order.side)[nodes[x].order.price].tail < |nodes|
    ensures var o := nodes[x].order; var r := Appended(nodes, Pick(bids, asks, o.side)[o.price], x);
      && Threaded(r.0, Bids(bids, o.side, o.price, r.1), Asks(asks, o.side, o.price, r.1), b + [o])
      && r.0[x].order == o
      && forall y :: 0 <= y < |nodes| && y != x && !InQueue(b, y) ==> r.0[y] == nodes[y]
  {
    var o := nodes[x].order;
    var s0, p0 := o.side, o.price;
    var lim, q := Pick(bids, asks, s0)[p0], Level(b, s0, p0);
    LevelIsDistinct(b, s0, p0);
    InLevel(b, s0, p0, x);
    assert Linked(nodes, lim, q);
    AddLinks(nodes, lim, q, x);
    LevelOfAppend(b, o, s0, p0);
    var r := Appended(nodes, lim, x);
    forall y | 0 <= y < |nodes| && y != x && !InQueue(b, y) ensures r.0[y] == nodes[y] { InLevel(b, s0, p0, y); }
    forall s, p | 0 <= p < MAX_PRICE && (s, p) != (s0, p0) ensures Level(b + [o], s, p) == Level(b, s, p) {
      LevelOfAppend(b, o, s, p);
    }
    Rethread(nodes, r.0, bids, asks, b, b + [o], s0, p0, r.1);
  }

  /** Reducing a resting order's quantity in place. */
  lemma ReduceThread(nodes: seq<Node>, bids: seq<Limit>, asks: seq<Limit>, b: Book, i: nat, n: nat)
    requires |bids| == |asks| == MAX_PRICE && Threaded(nodes, bids, asks, b)
    requires DistinctIds(b) && i < |b| && b[i].price < MAX_PRICE && 0 < b[i].id < |nodes|
    ensures var r := b[i].(qty := n); Threaded(nodes[r.id := nodes[r.id].(order := r)], bids, asks, b[i := r])
  {
    var s0, p0, r, k := b[i].side, b[i].price, b[i].(qty := n), Rank(b, i);
    var lim, q := Pick(bids, asks, s0)[p0], Level(b, s0, p0);
    RankIsPosition(b, i);
    RankOfReduced(b, i, n);
    LevelIsDistinct(b, s0, p0);
    assert Linked(nodes, lim, q);
    UpdateLinks(nodes, lim, q, k, r);
    var nodes' := nodes[r.id := nodes[r.id].(order := r)];
    assert InQueue(q, q[k].id);
    forall s, p | 0 <= p < MAX_PRICE && (s, p) != (s0, p0) ensures Level(b[i := r], s, p) == Level(b, s, p) {
      OtherLevelsKept(b, i, s, p);
    }
    Rethread(nodes, nodes', bids, asks, b, b[i := r], s0, p0, lim);
    assert Bids(bids, s0, p0, lim) == bids && Asks(asks, s0, p0, lim) == asks;
  }

  /** Changing slots that rest nowhere. */
  lemma FrameThreads(nodes: seq<Node>, nodes': seq<Node>, bids: seq<Limit>, asks: seq<Limit>, b: Book)
    requires |bids| == |asks| == MAX_PRICE && Threaded(nodes, bids, asks, b) && |nodes'| == |nodes|
    requires forall y :: 0 <= y < |nodes| && InQueue(b, y) ==> nodes'[y] == nodes[y]
    ensures Threaded(nodes', bids, asks, b)
  {
    forall s, p | 0 <= p < MAX_PRICE ensures Linked(nodes', Pick(bids, asks, s)[p], Level(b, s, p)) {
      assert Linked(nodes, Pick(bids, asks, s)[p], Level(b, s, p));
      forall y | 0 <= y < |nodes| && InQueue(Level(b, s, p), y) ensures nodes'[y] == nodes[y] { InLevel(b, s, p, y); }
      FrameLinks(nodes, nodes', Pick(bids, asks, s)[p], Level(b, s, p));
    }
  }

  /** orders_by_id points at exactly the book's orders, among those of the book's instrument. */
  predicate Indexed(inst: nat, nodes: seq<Node>, byId: seq<nat>, b: Book)
    requires |nodes| == |byId|
  {
    && (forall i :: 0 <= i < |b| ==> b[i].inst == inst && b[i].id < |byId| && byId[b[i].id] == b[i].id)
    && (forall x :: 0 <= x < |byId| && byId[x] != 0 && nodes[x].order.inst == inst ==> InQueue(b, x))
  }

  lemma EmptyIndex(inst: nat, nodes: seq<Node>, byId: seq<nat>)
    requires |nodes| == |byId| && forall x :: 0 <= x < |byId| && byId[x] != 0 ==> nodes[x].order.inst != inst
    ensures Indexed(inst, nodes, byId, [])
  {}

  lemma IndexWithout(inst: nat, nodes: seq<Node>, nodes': seq<Node>, byId: seq<nat>, b: Book, i: nat)
    requires |nodes| == |nodes'| == |byId| && Indexed(inst, nodes, byId, b) && DistinctIds(b) && i < |b|
    requires forall y :: 0 <= y < |nodes| ==> nodes'[y].order == nodes[y].order
    ensures Indexed(inst, nodes', byId[b[i].id := 0], Without(b, i))
  {
    var t := Without(b, i);
    WithoutAt(b, i);
    forall x | 0 <= x < |byId| && byId[x] != 0 && x != b[i].id && nodes'[x].order.inst == inst ensures InQueue(t, x) {
      var j :| 0 <= j < |b| && b[j].id == x;
      assert t[if j < i then j else j - 1].id == x;
    }
  }

  lemma IndexWith(inst: nat, nodes: seq<Node>, nodes': seq<Node>, byId: seq<nat>, b: Book, x: nat)
    requires |nodes| == |nodes'| == |byId| && Indexed(inst, nodes, byId, b) && 0 < x < |nodes|
    requires forall y :: 0 <= y < |nodes| ==> nodes'[y].order == nodes[y].order
    requires nodes[x].order.id == x && nodes[x].order.inst == inst && !InQueue(b, x)
    ensures Indexed(inst, nodes', byId[x := x], b + [nodes[x].order])
  {
    var t := b + [nodes[x].order];
    assert t[|b|].id == x;
    forall y | 0 <= y < |byId| && y != x && byId[y] != 0 && nodes'[y].order.inst == inst ensures InQueue(t, y) {
      var j :| 0 <= j < |b| && b[j].id == y;
      assert t[j].id == y;
    }
  }

  // Changing quantities in the pool does not move anything in the index.
  lemma IndexSame(inst: nat, nodes: seq<Node>, nodes': seq<Node>, byId: seq<nat>, b: Book, b': Book)
    requires |nodes| == |nodes'| == |byId| && Indexed(inst, nodes, byId, b) && |b| == |b'|
    requires forall y :: 0 <= y < |nodes| ==> nodes'[y].order.inst == nodes[y].order.inst
    requires forall i :: 0 <= i < |b| ==> b'[i].id == b[i].id && b'[i].inst == b[i].inst
    ensures Indexed(inst, nodes', byId, b')
  {
    forall x | 0 <= x < |byId| && byId[x] != 0 && nodes'[x].order.inst == inst ensures InQueue(b', x) {
      var j :| 0 <= j < |b| && b[j].id == x;
      assert b'[j].id == x;
    }
  }

  /** b' is b with one order of side s at price p removed or reduced; every other level is as it was. */
  ghost predicate Shrunk(b: Book, b': Book, s: Side, p: nat) {
    && (forall t, q: nat :: (t, q) != (s, p) ==> Level(b', t, q) == Level(b, t, q))
    && |Level(b', s, p)| <= |Level(b, s, p)|
    && (forall y :: InQueue(b', y) ==> InQueue(b, y))
  }

  lemma WithoutIds(b: Book, i: nat)
    requires i < |b|
    ensures forall y :: InQueue(Without(b, i), y) ==> InQueue(b, y)
  {
    WithoutAt(b, i);
    forall y | InQueue(Without(b, i), y) ensures InQueue(b, y) {
      var j :| 0 <= j < |b| - 1 && Without(b, i)[j].id == y;
      assert b[if j < i then j else j + 1].id == y;
    }
  }

  lemma ReducedIds(b: Book, i: nat, n: nat)
    requires i < |b|
    ensures forall y :: InQueue(b[i := b[i].(qty := n)], y) ==> InQueue(b, y)
  {
    var b' := b[i := b[i].(qty := n)];
    forall y | InQueue(b', y) ensures InQueue(b, y) {
      var j :| 0 <= j < |b'| && b'[j].id == y;
      assert b[j].id == y;
    }
  }

  lemma WithoutShrinks(b: Book, i: nat)
    requires i < |b|
    ensures Shrunk(b, Without(b, i), b[i].side, b[i].price)
  {
    var b', s, p := Without(b, i), b[i].side, b[i].price;
    WithoutIds(b, i);
    RankIsPosition(b, i);
    forall t, q: nat | (t, q) != (s, p) ensures Level(b', t, q) == Level(b, t, q) { OtherLevelsKept(b, i, t, q); }
  }

  lemma ReducedShrinks(b: Book, i: nat, n: nat)
    requires i < |b|
    ensures Shrunk(b, b[i := b[i].(qty := n)], b[i].side, b[i].price)
  {
    var b', s, p := b[i := b[i].(qty := n)], b[i].side, b[i].price;
    ReducedIds(b, i, n);
    RankOfReduced(b, i, n);
    forall t, q: nat | (t, q) != (s, p) ensures Level(b', t, q) == Level(b, t, q) { OtherLevelsKept(b, i, t, q); }
  }

  /** b' is b with order i removed, or reduced to n. */
  predicate Took(b: Book, b': Book, i: nat, n: nat) {
    i < |b| && b' == if n == 0 then Without(b, i) else b[i := b[i].(qty := n)]
  }

  lemma TookShrinks(b: Book, b': Book, i: nat, n: nat)
    requires Took(b, b', i, n)
    ensures Shrunk(b, b', b[i].side, b[i].price)
  {
    if n == 0 { WithoutShrinks(b, i); } else { ReducedShrinks(b, i, n); }
  }

  lemma ShrunkBounds(b: Book, b': Book, s: Side, p: nat, t: Side, bound: int)
    requires Shrunk(b, b', s, p) && NoneBetter(b, t, bound)
    ensures NoneBetter(b', t, bound)
  {
    forall i | 0 <= i < |b'| && b'[i].side == t
      ensures if t.Buy? then b'[i].price <= bound else bound <= b'[i].price
    {
      LevelEmpty(b', t, b'[i].price);
      LevelEmpty(b, t, b'[i].price);
    }
  }

  lemma ShrunkMatches(m: iset<(Side, int)>, b: Book, b': Book, s: Side, p: nat)
    requires MarksMatch(m, b, Buy, -1) && Shrunk(b, b', s, p)
    ensures MarksMatch(m, b', s, p)
    ensures Level(b', s, p) != [] ==> MarksMatch(m, b', Buy, -1)
  {}

  lemma RestIsWellFormed(b: Book, o: Order)
    requires WellFormed(b) && 0 < o.id < POOL_CAPACITY && o.qty > 0 && o.price < MAX_PRICE && !InQueue(b, o.id)
    ensures WellFormed(b + [o])
  {
    forall i | 0 <= i < |b| ensures b[i].id != o.id { assert InQueue(b, b[i].id); }
  }
}
