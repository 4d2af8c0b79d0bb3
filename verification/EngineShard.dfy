/** One engine shard (engine.cpp): a book per instrument, all on one pool and one orders_by_id, and the dispatch
    of new orders and cancels to them. */
module EngineShard {
  import opened Orders
  import opened ReferenceBook
  import opened LimitQueue
  import opened FastBook
  import opened ShardReference
  import SlotProtocol

  /** Slot y is none of book b's business: not resting in it, and not indexed for its instrument. */
  predicate Foreign(b: Book, inst: nat, nodes: seq<Node>, byId: seq<nat>, y: nat)
    requires y < |nodes| && y < |byId|
  {
    !InQueue(b, y) && (byId[y] == 0 || nodes[y].order.inst != inst)
  }

  /** Pool and index may change in any way outside a book's own slots. */
  predicate OnlyForeign(b: Book, inst: nat, nodes: seq<Node>, nodes': seq<Node>, byId: seq<nat>, byId': seq<nat>)
    requires |nodes| == |nodes'| == |byId| == |byId'|
  {
    forall y :: 0 <= y < |nodes| ==>
      (nodes'[y] == nodes[y] && byId'[y] == byId[y]) || Foreign(b, inst, nodes', byId', y)
  }

  lemma IndexFrame(inst: nat, nodes: seq<Node>, nodes': seq<Node>, byId: seq<nat>, byId': seq<nat>, b: Book)
    requires |nodes| == |nodes'| == |byId| == |byId'| && Indexed(inst, nodes, byId, b)
    requires OnlyForeign(b, inst, nodes, nodes', byId, byId')
    ensures Indexed(inst, nodes', byId', b)
  {
    forall i | 0 <= i < |b| ensures byId'[b[i].id] == b[i].id {
      assert InQueue(b, b[i].id);
    }
  }

  /** What another book of the shard does leaves this one valid. */
  twostate lemma Undisturbed(b: OrderBook)
    requires old(b.Valid()) && unchanged(b.Repr - {b.pool, b.byId})
    requires OnlyForeign(b.book, b.inst, old(b.pool[..]), b.pool[..], old(b.byId[..]), b.byId[..])
    ensures b.Valid()
  {
    hide Threaded, Indexed, WellFormed;
    assert b.book == old(b.book) && b.bids[..] == old(b.bids[..]) && b.asks[..] == old(b.asks[..]);
    FrameThreads(old(b.pool[..]), b.pool[..], b.bids[..], b.asks[..], b.book);
    IndexFrame(b.inst, old(b.pool[..]), b.pool[..], old(b.byId[..]), b.byId[..], b.book);
  }

  /** A book's own memory, apart from the pool and the index that all books share. */
  ghost function Own(b: OrderBook): set<object> {
    b.Repr - {b.pool, b.byId}
  }

  /** A resting order sits in the pool under its own slot, indexed, and is of the book's instrument. */
  lemma RestsIndexed(inst: nat, nodes: seq<Node>, byId: seq<nat>, bids: seq<Limit>, asks: seq<Limit>, b: Book, y: nat)
    requires |nodes| == |byId| == POOL_CAPACITY && |bids| == |asks| == MAX_PRICE && WellFormed(b)
    requires Indexed(inst, nodes, byId, b) && Threaded(nodes, bids, asks, b) && InQueue(b, y)
    ensures 0 < y < POOL_CAPACITY && byId[y] == y && nodes[y].order.inst == inst
    ensures IndexOf(b, y) != -1 && nodes[y].order == b[IndexOf(b, y)]
  {
    hide Threaded;
    RestingNode(nodes, bids, asks, b, IndexOf(b, y));
  }

  twostate predicate Untouched(b: OrderBook)
    reads Own(b)
  {
    unchanged(Own(b))
  }

  /** How an operation of a book touched the memory it shares: only slots of its own orders, and slot x that it
      was handed, all of which keep their instrument. */
  predicate OwnSlotsOnly(b: Book, x: nat, nodes: seq<Node>, nodes': seq<Node>, byId: seq<nat>, byId': seq<nat>)
    requires |nodes| == |nodes'| == |byId| == |byId'|
  {
    && (forall y :: 0 <= y < |nodes| ==> nodes'[y].order.inst == nodes[y].order.inst)
    && (forall y :: 0 <= y < |nodes| && y != x && !InQueue(b, y) ==> nodes'[y] == nodes[y] && byId'[y] == byId[y])
  }

  /** Slot x is of the book's instrument, resting in it or in no index. */
  predicate Handed(inst: nat, b: Book, nodes: seq<Node>, byId: seq<nat>, x: nat)
    requires |nodes| == |byId|
  {
    x < |nodes| ==> InQueue(b, x) || (byId[x] == 0 && nodes[x].order.inst == inst)
  }

  /** What the operation of one book does is foreign to every other book. */
  lemma ForeignToOthers(inst: nat, nodes: seq<Node>, byId: seq<nat>, bids: seq<Limit>, asks: seq<Limit>, b: Book,
                        nodes': seq<Node>, byId': seq<nat>, y: nat)
    requires |nodes| == |byId| == |nodes'| == |byId'| == POOL_CAPACITY && |bids| == |asks| == MAX_PRICE && WellFormed(b)
    requires Indexed(inst, nodes, byId, b) && Threaded(nodes, bids, asks, b)
    requires y < POOL_CAPACITY && nodes[y].order.inst == nodes'[y].order.inst != inst
    ensures Foreign(b, inst, nodes', byId', y)
  {
    if InQueue(b, y) { RestsIndexed(inst, nodes, byId, bids, asks, b, y); }
  }

  /** n empty books on one pool and one index. */
  method EmptyBooks(n: nat, nodes: array<Node>, index: array<nat>) returns (bs: seq<OrderBook>)
    requires nodes.Length == index.Length == POOL_CAPACITY && forall x :: 0 <= x < POOL_CAPACITY ==> index[x] == 0
    ensures |bs| == n
    ensures forall i :: 0 <= i < n ==> bs[i].inst == i && bs[i].pool == nodes && bs[i].byId == index
    ensures forall i :: 0 <= i < n ==> bs[i].Valid() && bs[i].book == [] && bs[i].log == []
    ensures forall i :: 0 <= i < n ==> fresh(Own(bs[i])) && bs[i].Repr <= Own(bs[i]) + {nodes, index}
    ensures forall i, j :: 0 <= i < j < n ==> Own(bs[i]) !! Own(bs[j])
  {
    hide OrderBook.Valid;
    bs := [];
    for k := 0 to n
      invariant |bs| == k
      invariant forall i :: 0 <= i < k ==> bs[i].inst == i && bs[i].pool == nodes && bs[i].byId == index
      invariant forall i :: 0 <= i < k ==> bs[i].Valid() && bs[i].book == [] && bs[i].log == []
      invariant forall i :: 0 <= i < k ==> fresh(Own(bs[i]))
      invariant forall i, j :: 0 <= i < j < k ==> Own(bs[i]) !! Own(bs[j])
    {
      var b := new OrderBook(k, nodes, index);
      bs := bs + [b];
    }
  }

  class Engine {
    const pool: array<Node>
    const byId: array<nat>
    const books: seq<OrderBook>

    ghost const Repr: set<object> := {pool, byId} + set b, o | b in books && o in b.Repr :: o

    /** Books share the pool and the index and nothing else. */
    ghost predicate Shape() {
      && pool.Length == byId.Length == POOL_CAPACITY
      && (forall i :: 0 <= i < |books| ==> books[i].inst == i && books[i].pool == pool && books[i].byId == byId)
      && (forall i, j :: 0 <= i < j < |books| ==> Own(books[i]) !! Own(books[j]))
    }

    ghost predicate Valid()
      reads Repr
    {
      && Shape()
      && (forall i :: 0 <= i < |books| ==> books[i].Valid())
      && (forall x :: 0 <= x < POOL_CAPACITY && byId[x] != 0 ==> byId[x] == x && pool[x].order.inst < |books|)
    }

    /** A task's order as the gateway left it: in its own slot, which rests nowhere. */
    ghost predicate Delivered(x: nat)
      reads pool, byId
    {
      && pool.Length == byId.Length == POOL_CAPACITY
      && 0 < x < POOL_CAPACITY && byId[x] == 0 && pool[x].order.id == x
    }

    constructor (n: nat)
      ensures Valid() && |books| == n && fresh(Repr)
      ensures forall i :: 0 <= i < n ==> books[i].book == [] && books[i].log == []
    {
      hide Indexed, Threaded, WellFormed, InQueue, OrderBook.Valid, Own;
      var blank := Node(Order(0, 0, 0, 0, 0, 0, 0, Buy), 0, 0);
      var nodes := new Node[POOL_CAPACITY](i => blank);
      var index := new nat[POOL_CAPACITY](i => 0);
      var bs := EmptyBooks(n, nodes, index);
      pool, byId, books := nodes, index, bs;
    }

    /** The gateway constructs the order in its slot before it queues the task (tcp_server.h:534-547). */
    method Deliver(o: Order)
      requires Valid() && 0 < o.id < POOL_CAPACITY && byId[o.id] == 0
      modifies pool
      ensures Valid() && Delivered(o.id) && pool[o.id].order == o
    {
      hide Indexed, Threaded, WellFormed, OrderBook.Valid;
      forall i | 0 <= i < |books| ensures !InQueue(books[i].book, o.id) { NotQueued(books[i], o.id); }
      pool[o.id] := Node(o, 0, 0);
      AllKept(this, |books|);
    }

    /** A new order goes to the book of its instrument; an invalid instrument is ignored. */
    method MatchTask(x: nat)
      requires Valid() && Delivered(x)
      modifies Repr
      ensures Valid()
      ensures forall i :: 0 <= i < |books| ==> var r := Routed(old(books[i].book), i, old(pool[x].order));
        books[i].book == r.book && books[i].log == old(books[i].log) + r.events
    {
      hide Indexed, Threaded, WellFormed, InQueue, OrderBook.Valid, Submit;
      var inst := pool[x].order.inst;
      if inst < |books| {
        ToBook(books[inst], x);
        books[inst].MatchOrder(x);
        SameInsts(old(pool[..]), pool[..], old(books[inst].Insts()), books[inst].Insts());
        OthersKept(this, inst, x);
      }
    }

    /** A cancel: check that the slot still holds the order it names, then take it out of that order's book. */
    method CancelTask(id: nat, token: nat)
      requires Valid() && id < POOL_CAPACITY
      modifies Repr
      ensures Valid()
      ensures forall i :: 0 <= i < |books| ==> var r := Cancelled(old(books[i].book), id, token);
        books[i].book == r.book && books[i].log == old(books[i].log) + r.events
    {
      hide Indexed, Threaded, WellFormed, InQueue, OrderBook.Valid, Cancelled, Cancel;
      forall i | 0 <= i < |books|
        ensures Cancelled(books[i].book, id, token) ==
          if byId[id] != 0 && pool[id].order.inst == i && pool[id].order.token == token then Cancel(books[i].book, id)
          else Outcome(books[i].book, [])
        ensures byId[id] != 0 && pool[id].order.inst == i ==> InQueue(books[i].book, id)
      {
        CancelSeen(books[i], id, token);
      }
      if byId[id] != 0 && pool[byId[id]].order.token == token {
        var inst := pool[byId[id]].order.inst;
        books[inst].CancelOrder(id);
        SameInsts(old(pool[..]), pool[..], old(books[inst].Insts()), books[inst].Insts());
        OthersKept(this, inst, id);
      }
    }
  }

  ghost predicate Seen(b: OrderBook, id: nat, token: nat)
    reads b.pool, b.byId
    requires id < b.pool.Length == b.byId.Length
  {
    b.byId[id] != 0 && b.pool[id].order.inst == b.inst && b.pool[id].order.token == token
  }

  /** A book sees a cancel exactly when the index holds an order of its instrument with that token. */
  lemma CancelSeen(b: OrderBook, id: nat, token: nat)
    requires b.Valid() && id < POOL_CAPACITY
    ensures Cancelled(b.book, id, token) == if Seen(b, id, token) then Cancel(b.book, id) else Outcome(b.book, [])
    ensures b.byId[id] != 0 && b.pool[id].order.inst == b.inst ==> InQueue(b.book, id)
  {
    hide Threaded;
    if IndexOf(b.book, id) != -1 {
      RestsIndexed(b.inst, b.pool[..], b.byId[..], b.bids[..], b.asks[..], b.book, id);
    }
  }

  lemma SameInsts(nodes: seq<Node>, nodes': seq<Node>, insts: seq<nat>, insts': seq<nat>)
    requires |nodes| == |nodes'| == |insts| == |insts'| && insts == insts'
    requires forall y :: 0 <= y < |nodes| ==> insts[y] == nodes[y].order.inst && insts'[y] == nodes'[y].order.inst
    ensures forall y :: 0 <= y < |nodes| ==> nodes'[y].order.inst == nodes[y].order.inst
  {
    forall y | 0 <= y < |nodes| ensures nodes'[y].order.inst == nodes[y].order.inst { assert insts[y] == insts'[y]; }
  }

  lemma NotQueued(b: OrderBook, x: nat)
    requires b.Valid() && x < POOL_CAPACITY && b.byId[x] == 0
    ensures !InQueue(b.book, x)
  {
    hide Threaded;
  }

  lemma ToBook(a: OrderBook, x: nat)
    requires a.Valid() && 0 < x < POOL_CAPACITY && a.byId[x] == 0
    requires a.pool[x].order.id == x && a.pool[x].order.inst == a.inst
    ensures a.Incoming(x) && Handed(a.inst, a.book, a.pool[..], a.byId[..], x)
  {
    hide Threaded;
  }

  /** The index still maps a slot to itself after an operation of book a on slot x. */
  twostate lemma IndexKept(a: OrderBook, new x: nat)
    requires old(a.Valid()) && a.Valid() && Handed(a.inst, old(a.book), old(a.pool[..]), old(a.byId[..]), x)
    requires OwnSlotsOnly(old(a.book), x, old(a.pool[..]), a.pool[..], old(a.byId[..]), a.byId[..])
    ensures forall y :: 0 <= y < POOL_CAPACITY && a.byId[y] != 0 ==>
      && a.pool[y].order.inst == old(a.pool[y].order.inst)
      && (a.byId[y] == old(a.byId[y]) || (a.byId[y] == y && a.pool[y].order.inst == a.inst))
  {
    hide Threaded, WellFormed;
    forall y | 0 <= y < POOL_CAPACITY && a.byId[y] != 0
      ensures a.pool[y].order.inst == old(a.pool[y].order.inst)
      ensures a.byId[y] == old(a.byId[y]) || (a.byId[y] == y && a.pool[y].order.inst == a.inst)
    {
      if a.byId[y] != old(a.byId[y]) {
        if old(InQueue(a.book, y)) {
          RestsIndexed(a.inst, old(a.pool[..]), old(a.byId[..]), old(a.bids[..]), old(a.asks[..]), old(a.book), y);
        }
        RestsIndexed(a.inst, a.pool[..], a.byId[..], a.bids[..], a.asks[..], a.book, y);
      }
    }
  }

  twostate lemma OtherBook(e: Engine, new j: nat, new k: nat, new x: nat)
    requires old(e.Valid()) && j < |e.books| && k < |e.books| && j != k && Untouched(e.books[j])
    requires Handed(k, old(e.books[k].book), old(e.pool[..]), old(e.byId[..]), x)
    requires OwnSlotsOnly(old(e.books[k].book), x, old(e.pool[..]), e.pool[..], old(e.byId[..]), e.byId[..])
    ensures e.books[j].Valid()
  {
    hide Indexed, Threaded, WellFormed, InQueue, Foreign;
    var a, b := e.books[k], e.books[j];
    assert old(a.Valid()) && old(b.Valid()) && b.book == old(b.book);
    forall y | 0 <= y < POOL_CAPACITY && (b.pool[y] != old(b.pool[y]) || b.byId[y] != old(b.byId[y]))
      ensures Foreign(b.book, b.inst, b.pool[..], b.byId[..], y)
    {
      if old(InQueue(a.book, y)) {
        RestsIndexed(a.inst, old(a.pool[..]), old(a.byId[..]), old(a.bids[..]), old(a.asks[..]), old(a.book), y);
      }
      ForeignToOthers(b.inst, old(b.pool[..]), old(b.byId[..]), old(b.bids[..]), old(b.asks[..]), b.book,
                      b.pool[..], b.byId[..], y);
    }
    Undisturbed(b);
  }

  /** After an operation of book k on slot x the first n other books are as they were. */
  twostate lemma {:induction false} OthersUpTo(e: Engine, new n: nat, new k: nat, new x: nat)
    requires old(e.Valid()) && k < |e.books| && n <= |e.books|
    requires Handed(k, old(e.books[k].book), old(e.pool[..]), old(e.byId[..]), x)
    requires OwnSlotsOnly(old(e.books[k].book), x, old(e.pool[..]), e.pool[..], old(e.byId[..]), e.byId[..])
    requires forall j :: 0 <= j < |e.books| && j != k ==> Untouched(e.books[j])
    ensures forall j :: 0 <= j < n && j != k ==> e.books[j].Valid()
  {
    hide Indexed, Threaded, WellFormed, InQueue, OrderBook.Valid, Handed, OwnSlotsOnly;
    if n > 0 {
      OthersUpTo(e, n - 1, k, x);
      if n - 1 != k { OtherBook(e, n - 1, k, x); }
    }
  }

  /** And so is the whole shard. */
  twostate lemma OthersKept(e: Engine, new k: nat, new x: nat)
    requires old(e.Valid()) && k < |e.books| && e.books[k].Valid()
    requires Handed(k, old(e.books[k].book), old(e.pool[..]), old(e.byId[..]), x)
    requires OwnSlotsOnly(old(e.books[k].book), x, old(e.pool[..]), e.pool[..], old(e.byId[..]), e.byId[..])
    requires forall j :: 0 <= j < |e.books| && j != k ==> Untouched(e.books[j])
    ensures e.Valid()
  {
    hide Indexed, Threaded, WellFormed, InQueue, OrderBook.Valid, Handed, OwnSlotsOnly;
    OthersUpTo(e, |e.books|, k, x);
    IndexKept(e.books[k], x);
  }

  /** A change of the pool and the index that is foreign to every book. */
  twostate lemma {:induction false} AllKept(e: Engine, new n: nat)
    requires old(e.Valid()) && n <= |e.books|
    requires forall j :: 0 <= j < |e.books| ==> Untouched(e.books[j])
    requires forall j :: 0 <= j < |e.books| ==>
      OnlyForeign(e.books[j].book, j, old(e.pool[..]), e.pool[..], old(e.byId[..]), e.byId[..])
    ensures forall j :: 0 <= j < n ==> e.books[j].Valid()
  {
    hide Indexed, Threaded, WellFormed, InQueue, OrderBook.Valid, OnlyForeign;
    if n > 0 {
      AllKept(e, n - 1);
      Undisturbed(e.books[n - 1]);
    }
  }

  /** Every sequence of tasks through a shard of n books on one pool: each book ends with the resting orders and
      the messages of its own reference book. */
  method Serve(n: nat, tasks: seq<SlotProtocol.Task>) returns (e: Engine)
    requires AllDeliverable(n, tasks)
    ensures e.Valid() && |e.books| == n
    ensures forall i :: 0 <= i < n ==> e.books[i].book == BookAfter(tasks, i).book
    ensures forall i :: 0 <= i < n ==> e.books[i].log == BookAfter(tasks, i).events
  {
    hide OrderBook.Valid, InQueue, Routed, Cancelled;
    e := new Engine(n);
    for k := 0 to |tasks|
      invariant e.Valid() && |e.books| == n && fresh(e.Repr)
      invariant forall i :: 0 <= i < n ==> e.books[i].book == BookAfter(tasks[..k], i).book
      invariant forall i :: 0 <= i < n ==> e.books[i].log == BookAfter(tasks[..k], i).events
    {
      assert tasks[..k + 1][..k] == tasks[..k] && Deliverable(n, tasks[..k], tasks[k]);
      match tasks[k] {
        case New(o) =>
          FreeSlot(e, o.id);
          e.Deliver(o);
          e.MatchTask(o.id);
        case Cancel(id, token, _) =>
          e.CancelTask(id, token);
      }
    }
    assert tasks[..|tasks|] == tasks;
  }

  /** A slot that rests in no book is in no index. */
  lemma FreeSlot(e: Engine, x: nat)
    requires e.Valid() && x < POOL_CAPACITY && forall i :: 0 <= i < |e.books| ==> !InQueue(e.books[i].book, x)
    ensures e.byId[x] == 0
  {
    hide OrderBook.Valid, InQueue;
    if e.byId[x] != 0 { CancelSeen(e.books[e.pool[x].order.inst], x, 0); }
  }
}
