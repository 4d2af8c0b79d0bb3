/** One engine shard by reference: what a sequence of tasks does to the book of every instrument. */
module ShardReference {
  import opened Orders
  import opened ReferenceBook
  import opened LimitQueue
  import SlotProtocol

  /** What a submitted order does to the book of instrument i. */
  function Routed(b: Book, i: nat, o: Order): Outcome {
    if o.inst == i then Submit(b, o) else Outcome(b, [])
  }

  /** What a cancel does to any one book: it counts only if the slot still holds the order with that token. */
  function Cancelled(b: Book, id: nat, token: nat): Outcome {
    var k := IndexOf(b, id);
    if k != -1 && b[k].token == token then ReferenceBook.Cancel(b, id) else Outcome(b, [])
  }

  /** What a task does to the book of instrument i. */
  function Handled(b: Book, i: nat, t: SlotProtocol.Task): Outcome {
    match t
    case New(o) => Routed(b, i, o)
    case Cancel(id, token, _) => Cancelled(b, id, token)
  }

  /** The reference book of instrument i and its messages after a sequence of tasks. */
  function BookAfter(tasks: seq<SlotProtocol.Task>, i: nat): Outcome {
    if tasks == [] then Outcome([], []) else
      var before := BookAfter(tasks[..|tasks| - 1], i);
      var last := Handled(before.book, i, tasks[|tasks| - 1]);
      Outcome(last.book, before.events + last.events)
  }

  /** A task the slot protocol delivers: a new order's slot rests in none of the n books; handles are slots. */
  predicate Deliverable(n: nat, done: seq<SlotProtocol.Task>, t: SlotProtocol.Task) {
    match t
    case New(o) => 0 < o.id < POOL_CAPACITY && forall i :: 0 <= i < n ==> !InQueue(BookAfter(done, i).book, o.id)
    case Cancel(id, _, _) => id < POOL_CAPACITY
  }

  /** Every new order passed the gateway's checks. */
  predicate AllVetted(tasks: seq<SlotProtocol.Task>) {
    forall k :: 0 <= k < |tasks| && tasks[k].New? ==> SlotProtocol.Vetted(tasks[k].order)
  }

  predicate AllDeliverable(n: nat, tasks: seq<SlotProtocol.Task>) {
    forall k :: 0 <= k < |tasks| ==> Deliverable(n, tasks[..k], tasks[k])
  }

  /** What a task asks of the book of instrument i: its own new order, or a cancel that still names an order. */
  function Asks(b: Book, i: nat, t: SlotProtocol.Task): seq<Op> {
    match t
    case New(o) => if o.inst == i then [NewOrder(o)] else []
    case Cancel(id, token, _) =>
      var k := IndexOf(b, id);
      if k != -1 && b[k].token == token then [CancelOrder(id)] else []
  }

  function OpsOf(tasks: seq<SlotProtocol.Task>, i: nat): seq<Op> {
    if tasks == [] then [] else
      var front := tasks[..|tasks| - 1];
      OpsOf(front, i) + Asks(BookAfter(front, i).book, i, tasks[|tasks| - 1])
  }

  lemma OneMore(ops: seq<Op>, op: Op)
    requires Legal(ops) && Admissible(Run(ops).book, op)
    ensures Legal(ops + [op])
    ensures var last := Apply(Run(ops).book, op); Run(ops + [op]) == Outcome(last.book, Run(ops).events + last.events)
  {
    hide Apply, Admissible;
    assert (ops + [op])[..|ops|] == ops;
  }

  lemma NowhereIn(b: Book, x: nat)
    requires !InQueue(b, x)
    ensures forall j :: 0 <= j < |b| ==> b[j].id != x
  {}

  lemma TaskIsStep(ops: seq<Op>, i: nat, t: SlotProtocol.Task)
    requires Legal(ops) && (t.New? ==> 0 < t.order.id && !InQueue(Run(ops).book, t.order.id))
    ensures Legal(ops + Asks(Run(ops).book, i, t))
    ensures var b := Run(ops); var last := Handled(b.book, i, t);
      Run(ops + Asks(b.book, i, t)) == Outcome(last.book, b.events + last.events)
  {
    hide Legal, Run, Submit, Cancel;
    var b := Run(ops).book;
    if Asks(b, i, t) == [] {
      assert ops + [] == ops;
    } else {
      if t.New? { NowhereIn(b, t.order.id); }
      OneMore(ops, Asks(b, i, t)[0]);
    }
  }

  /** So each book of a shard is a legal reference run of its own requests, and what holds of all runs holds of it. */
  lemma {:induction false} ShardIsRun(n: nat, tasks: seq<SlotProtocol.Task>, i: nat)
    requires AllDeliverable(n, tasks) && i < n
    ensures Legal(OpsOf(tasks, i)) && Run(OpsOf(tasks, i)) == BookAfter(tasks, i)
  {
    if tasks != [] {
      hide Legal, Run, Handled, Asks, InQueue;
      var m := |tasks| - 1;
      var front := tasks[..m];
      assert Deliverable(n, front, tasks[m]);
      assert AllDeliverable(n, front) by {
        forall k | 0 <= k < m ensures Deliverable(n, front[..k], front[k]) { assert front[..k] == tasks[..k]; }
      }
      ShardIsRun(n, front, i);
      TaskIsStep(OpsOf(front, i), i, tasks[m]);
    }
  }

  /** A book holds orders of its own instrument only. */
  predicate OnlyInst(b: Book, i: nat) {
    forall j :: 0 <= j < |b| ==> b[j].inst == i
  }

  lemma {:induction false} MatchKeepsInst(b: Book, o: Order)
    requires OnlyInst(b, o.inst)
    ensures OnlyInst(Match(b, o).book, o.inst)
    decreases |b|
  {
    hide Match, Best;
    MatchUnfolds(b, o);
    var i := Best(b, o.side.Other());
    if o.qty > 0 && i != -1 && Crosses(o, b[i].price) && b[i].client != o.client && o.qty >= b[i].qty {
      WithoutAt(b, i);
      MatchKeepsInst(Without(b, i), o.(qty := o.qty - b[i].qty));
    }
  }

  lemma {:induction false} BooksKeepInst(tasks: seq<SlotProtocol.Task>, i: nat)
    ensures OnlyInst(BookAfter(tasks, i).book, i)
  {
    if tasks != [] {
      hide Match;
      var front := tasks[..|tasks| - 1];
      var b := BookAfter(front, i).book;
      BooksKeepInst(front, i);
      match tasks[|tasks| - 1]
      case New(o) => if o.inst == i { MatchKeepsInst(b, o); }
      case Cancel(id, _, _) => if IndexOf(b, id) != -1 { WithoutAt(b, IndexOf(b, id)); }
    }
  }

  /** The messages a task causes in the books of instruments below n: one book's at most. */
  function Caused(done: seq<SlotProtocol.Task>, t: SlotProtocol.Task, n: nat): seq<Event> {
    if n == 0 then [] else Caused(done, t, n - 1) + Handled(BookAfter(done, n - 1).book, n - 1, t).events
  }

  /** All messages of a shard of n books, in the order its engine pushes them. */
  function ShardLog(tasks: seq<SlotProtocol.Task>, n: nat): seq<Event> {
    if tasks == [] then [] else
      var front := tasks[..|tasks| - 1];
      ShardLog(front, n) + Caused(front, tasks[|tasks| - 1], n)
  }

  /** If a task concerns no book but i, it causes what it does to book i. */
  lemma {:induction false} CausedByOne(done: seq<SlotProtocol.Task>, t: SlotProtocol.Task, n: nat, i: nat)
    requires forall j :: 0 <= j < n && j != i ==> Handled(BookAfter(done, j).book, j, t).events == []
    ensures Caused(done, t, n) == if i < n then Handled(BookAfter(done, i).book, i, t).events else []
  {
    hide Handled, BookAfter;
    if n > 0 { CausedByOne(done, t, n - 1, i); }
  }

  lemma {:induction false} CausedFromBook(done: seq<SlotProtocol.Task>, t: SlotProtocol.Task, n: nat, e: Event)
    requires e in Caused(done, t, n)
    ensures exists i :: 0 <= i < n && e in Handled(BookAfter(done, i).book, i, t).events
  {
    hide Handled, BookAfter;
    if e in Caused(done, t, n - 1) { CausedFromBook(done, t, n - 1, e); }
  }

  /** Every message of a shard is a message of one of its books. */
  lemma {:induction false} LogFromBook(tasks: seq<SlotProtocol.Task>, n: nat, e: Event)
    requires e in ShardLog(tasks, n)
    ensures exists i :: 0 <= i < n && e in BookAfter(tasks, i).events
  {
    hide Handled;
    var front, t := tasks[..|tasks| - 1], tasks[|tasks| - 1];
    if e in ShardLog(front, n) {
      LogFromBook(front, n, e);
      var i :| 0 <= i < n && e in BookAfter(front, i).events;
      assert e in BookAfter(tasks, i).events;
    } else {
      CausedFromBook(front, t, n, e);
      var i :| 0 <= i < n && e in Handled(BookAfter(front, i).book, i, t).events;
      assert e in BookAfter(tasks, i).events;
    }
  }
}
