/** From a match to the client's socket: the 32-byte execution report (messages.h:133-141, orderbook.h:172-183)
    that carries an acknowledgement, and what the client can read back out of it. */
module Wire {
  import opened Framing
  import opened MachineInts
  import opened Codec
  import opened Orders
  import opened ReferenceBook
  import opened Trades
  import opened ShardReference
  import SlotProtocol
  import ServedRuns
  import ServedOrders
  import Egress

  const EXECUTED: Byte := 69   // 'E'
  const REMOVED: Byte := 82    // 'R'
  const ADDED: Byte := 65      // 'A'

  /** send_ack's report: type, token, shares, price, liquidity flag, an unused match number. */
  function ReportOf(a: Event): (r: Egress.Report)
    requires a.Ack?
  {
    [EXECUTED] + Padded(a.token, TOKEN_SIZE) + LittleEndian(a.shares, 4) + LittleEndian(a.price, 4)
    + [if a.removed then REMOVED else ADDED] + [0, 0, 0, 0, 0, 0, 0, 0]
  }

  /** What a client reads from a report. */
  datatype Execution = Execution(token: nat, shares: nat, price: nat, removed: bool)

  function Read(r: Egress.Report): Execution {
    Execution(Token(r[1..15]), FromLittleEndian(r[15..19]), FromLittleEndian(r[19..23]), r[23] == REMOVED)
  }

  /** The bytes with a fixed meaning: the type, and one of the two liquidity flags. */
  predicate IsReport(r: seq<Byte>) {
    |r| == Egress.REPORT_SIZE && r[0] == EXECUTED && (r[23] == REMOVED || r[23] == ADDED)
  }

  /** A report says exactly what the acknowledgement says. */
  lemma ReportRoundTrip(a: Event)
    requires a.Ack? && a.token < MAX_CLIENT_ORDERS && a.shares < WRAP32 && a.price < WRAP32
    ensures Read(ReportOf(a)) == Execution(a.token, a.shares, a.price, a.removed)
    ensures IsReport(ReportOf(a))
  {
    var r := ReportOf(a);
    assert r[1..15] == Padded(a.token, TOKEN_SIZE);
    assert r[15..19] == LittleEndian(a.shares, 4);
    assert r[19..23] == LittleEndian(a.price, 4);
    TokenRoundTripIff(a.token);
    Widths();
    BytesRoundTrip(a.shares, 4);
    BytesRoundTrip(a.price, 4);
  }

  /** Submissions as the gateway lets them through (risk_engine.h:15-18, tcp_server.h:513-514). */
  predicate Accepted(ops: seq<Op>) {
    forall k :: 0 <= k < |ops| && ops[k].NewOrder? ==> Fits(ops[k].order.token, ops[k].order.qty)
  }

  predicate Fits(token: nat, qty: nat) {
    token < MAX_CLIENT_ORDERS && qty <= MAX_ORDER_QTY
  }

  /** Everything resting or acknowledged fits the wire fields. */
  ghost predicate AllFit(b: Book, es: seq<Event>) {
    && (forall i :: 0 <= i < |b| ==> Fits(b[i].token, b[i].qty) && b[i].price < MAX_PRICE)
    && AcksFit(es)
  }

  ghost predicate AcksFit(es: seq<Event>) {
    forall e :: e in es && e.Ack? ==> Fits(e.token, e.shares) && e.price < MAX_PRICE
  }

  lemma FillFits(o: Order, r: Order)
    requires Fits(o.token, o.qty) && Fits(r.token, r.qty) && r.price < MAX_PRICE
    ensures AcksFit(FillEvents(o, r))
  {}

  lemma NoAckFits(o: Order)
    ensures AcksFit(RestEvents(o)) && AcksFit(RejectEvents(o)) && AcksFit(CancelEvents(o)) && AcksFit([Freed(o.id)])
  {}

  lemma Joined(a: seq<Event>, b: seq<Event>)
    requires AcksFit(a) && AcksFit(b)
    ensures AcksFit(a + b)
  {}

  lemma {:induction false} MatchFits(b: Book, o: Order)
    requires AllFit(b, []) && Fits(o.token, o.qty) && o.price < MAX_PRICE
    ensures AllFit(Match(b, o).book, Match(b, o).events)
    decreases |b|
  {
    hide FillEvents, RestEvents, RejectEvents, AcksFit;
    assert AllFit(Match(b, o).book, []) && AcksFit(Match(b, o).events) by {
      NoAckFits(o);
      var i := Best(b, o.side.Other());
      if o.qty > 0 && i != -1 && Crosses(o, b[i].price) && b[i].client != o.client {
        FillFits(o, b[i]);
        NoAckFits(b[i]);
        if o.qty >= b[i].qty {
          WithoutAt(b, i);
          var rest := o.(qty := o.qty - b[i].qty);
          MatchFits(Without(b, i), rest);
          FitsBoth(Match(Without(b, i), rest));
          Joined(FillEvents(o, b[i]), [Freed(b[i].id)]);
          Joined(FillEvents(o, b[i]) + [Freed(b[i].id)], Match(Without(b, i), rest).events);
        } else {
          Joined(FillEvents(o, b[i]), [Freed(o.id)]);
        }
      }
    }
    FitsBoth(Match(b, o));
  }

  lemma FitsBoth(r: Outcome)
    ensures AllFit(r.book, r.events) <==> AllFit(r.book, []) && AcksFit(r.events)
  {}

  lemma {:induction false} RunFits(ops: seq<Op>)
    requires Accepted(ops)
    ensures AllFit(Run(ops).book, Run(ops).events)
  {
    if ops != [] {
      var n := |ops| - 1;
      var b := Run(ops[..n]).book;
      RunFits(ops[..n]);
      match ops[n]
      case NewOrder(o) =>
        if o.price < MAX_PRICE { MatchFits(b, o); }
      case CancelOrder(id) =>
        if IndexOf(b, id) != -1 { WithoutAt(b, IndexOf(b, id)); }
    }
  }

  /** The acks one gateway worker pops, as the engine queued them. */
  function Queued(es: seq<Event>, worker: nat): seq<Egress.Ack> {
    if es == [] then []
    else
      var e := es[|es| - 1];
      Queued(es[..|es| - 1], worker) + if e.Ack? && e.worker == worker then [Egress.Ack(e.client, ReportOf(e))] else []
  }

  /** The elements that came from source s, in order. */
  function FromSource<T>(xs: seq<T>, from: seq<nat>, s: nat): seq<T>
    requires |xs| == |from|
  {
    if xs == [] then [] else
      var n := |xs| - 1;
      FromSource(xs[..n], from[..n], s) + if from[n] == s then [xs[n]] else []
  }

  /** acks is an interleaving of the queues, drained from the front, perhaps not to the end; `from` says which queue
      each ack was popped from. */
  ghost predicate Drained(acks: seq<Egress.Ack>, from: seq<nat>, queues: seq<seq<Egress.Ack>>) {
    && |acks| == |from| && (forall i :: 0 <= i < |from| ==> from[i] < |queues|)
    && forall s :: 0 <= s < |queues| ==> FromSource(acks, from, s) <= queues[s]
  }

  lemma {:induction false} SourceHas<T>(xs: seq<T>, from: seq<nat>, i: nat)
    requires |xs| == |from| && i < |xs|
    ensures xs[i] in FromSource(xs, from, from[i])
  {
    var n := |xs| - 1;
    if i < n { SourceHas(xs[..n], from[..n], i); }
  }

  lemma DrainedFrom(acks: seq<Egress.Ack>, from: seq<nat>, queues: seq<seq<Egress.Ack>>, a: Egress.Ack)
    requires Drained(acks, from, queues) && a in acks
    ensures exists j :: 0 <= j < |queues| && a in queues[j]
  {
    var i :| 0 <= i < |acks| && acks[i] == a;
    SourceHas(acks, from, i);
    assert FromSource(acks, from, from[i]) <= queues[from[i]];
    assert a in queues[from[i]];
  }

  ghost predicate ReportsAck(es: seq<Event>, a: Egress.Ack) {
    exists e :: e in es && e.Ack? && a == Egress.Ack(e.client, ReportOf(e))
  }

  lemma {:induction false} QueuedAreAcks(es: seq<Event>, worker: nat, a: Egress.Ack)
    requires a in Queued(es, worker)
    ensures ReportsAck(es, a)
  {
    var front, e := es[..|es| - 1], es[|es| - 1];
    if a in Queued(front, worker) {
      QueuedAreAcks(front, worker, a);
      var x :| x in front && x.Ack? && a == Egress.Ack(x.client, ReportOf(x));
      assert x in es;
    } else {
      assert e in es;
    }
  }

  lemma {:induction false} MineAreIn(acks: seq<Egress.Ack>, client: nat, r: Egress.Report)
    requires r in Egress.Mine(acks, client)
    ensures Egress.Ack(client, r) in acks
  {
    var front := acks[..|acks| - 1];
    if r in Egress.Mine(front, client) {
      MineAreIn(front, client, r);
    } else {
      assert acks[|acks| - 1] == Egress.Ack(client, r);
    }
  }

  /** The requests that reach a book come from the shard's tasks. */
  lemma {:induction false} OpsFromTasks(tasks: seq<SlotProtocol.Task>, i: nat, k: nat)
    requires k < |OpsOf(tasks, i)| && OpsOf(tasks, i)[k].NewOrder?
    ensures exists j :: 0 <= j < |tasks| && tasks[j] == SlotProtocol.Task.New(OpsOf(tasks, i)[k].order)
  {
    hide BookAfter;
    var front := tasks[..|tasks| - 1];
    if k < |OpsOf(front, i)| {
      OpsFromTasks(front, i, k);
      var j :| 0 <= j < |front| && front[j] == SlotProtocol.Task.New(OpsOf(tasks, i)[k].order);
      assert tasks[j] == front[j];
    } else {
      assert tasks[|tasks| - 1] == SlotProtocol.Task.New(OpsOf(tasks, i)[k].order);
    }
  }

  /** An acknowledgement of a shard names an order among its tasks, and fits its report. */
  lemma ShardAck(tasks: seq<SlotProtocol.Task>, n: nat, e: Event)
    requires AllDeliverable(n, tasks) && AllVetted(tasks) && e in ShardLog(tasks, n) && e.Ack?
    ensures Fits(e.token, e.shares) && e.price < MAX_PRICE
    ensures exists j :: 0 <= j < |tasks| && tasks[j].New? && Of(tasks[j].order) == Told(e)
  {
    hide AllDeliverable, BookAfter, OpsOf, Run, ShardLog;
    LogFromBook(tasks, n, e);
    var i :| 0 <= i < n && e in BookAfter(tasks, i).events;
    var ops := OpsOf(tasks, i);
    ShardIsRun(n, tasks, i);
    forall k | 0 <= k < |ops| && ops[k].NewOrder? ensures Fits(ops[k].order.token, ops[k].order.qty) {
      OpsFromTasks(tasks, i, k);
    }
    RunFits(ops);
    RunNamesSubmitters(ops);
    assert Told(e) in Submitters(ops);
    var k :| 0 <= k < |ops| && ops[k].NewOrder? && Of(ops[k].order) == Told(e);
    OpsFromTasks(tasks, i, k);
  }

  /** What a worker's ack queues hold: one queue per shard, fed by all books of that shard. */
  function AckQueues(shards: seq<seq<SlotProtocol.Task>>, n: nat, worker: nat): seq<seq<Egress.Ack>> {
    seq(|shards|, s requires 0 <= s < |shards| => Queued(ShardLog(shards[s], n), worker))
  }

  /** End to end: a worker drains the ack queues of all shards, each fed by all books of its shard, in any
      interleaving. In the byte stream it then owes a client, every 32 bytes read back as an execution that some
      shard's engine made of an order this client submitted, under the token it was submitted with. */
  lemma ClientReadsItsOwnExecutions(
      shards: seq<seq<SlotProtocol.Task>>, n: nat, worker: nat, acks: seq<Egress.Ack>, from: seq<nat>,
      client: nat, k: nat)
    requires forall s :: 0 <= s < |shards| ==> AllDeliverable(n, shards[s]) && AllVetted(shards[s])
    requires Drained(acks, from, AckQueues(shards, n, worker)) && k < |Egress.Mine(acks, client)|
    ensures |Egress.Owed(acks, client)| == 32 * |Egress.Mine(acks, client)|
    ensures var bytes := Egress.Owed(acks, client)[32 * k..32 * (k + 1)];
      exists s :: 0 <= s < |shards| && IsOwnExecution(shards[s], n, client, bytes)
  {
    hide AllDeliverable, AllVetted, ShardLog, Queued, Drained, Egress.Mine, Egress.Owed, Read, ReportOf;
    Egress.OwedInReports(acks, client, k);
    var r := Egress.Mine(acks, client)[k];
    var a := Egress.Ack(client, r);
    MineAreIn(acks, client, r);
    DrainedFrom(acks, from, AckQueues(shards, n, worker), a);
    var s :| 0 <= s < |shards| && a in AckQueues(shards, n, worker)[s];
    QueuedAreAcks(ShardLog(shards[s], n), worker, a);
    var e :| e in ShardLog(shards[s], n) && e.Ack? && a == Egress.Ack(e.client, ReportOf(e));
    ShardAck(shards[s], n, e);
    ReportRoundTrip(e);
    var j :| 0 <= j < |shards[s]| && shards[s][j].New? && Of(shards[s][j].order) == Told(e);
    assert ExecutesOrder(shards[s], j, client, Read(r));
    assert AckedAs(ShardLog(shards[s], n), e, client, Read(r));
    assert IsOwnExecution(shards[s], n, client, r);
  }

  /** The tasks every shard's engine has popped in a run of the step system. */
  function Popped(c: SlotProtocol.Config, ls: seq<SlotProtocol.Label>): seq<seq<SlotProtocol.Task>>
    requires c.Valid()
  {
    var control := ServedRuns.Served(c, ls).control;
    seq(SlotProtocol.NUM_SHARDS, s => if s in control then control[s].done else [])
  }

  /** In every run of workers and engines, and however a worker has drained its ack queues so far, with no premise on
      the orders: every 32 bytes owed to a client are an execution of an order that client submitted. */
  lemma EveryRunEndToEnd(
      c: SlotProtocol.Config, ls: seq<SlotProtocol.Label>, worker: nat, acks: seq<Egress.Ack>, from: seq<nat>,
      client: nat, k: nat)
    requires c.Valid() && Drained(acks, from, AckQueues(Popped(c, ls), MAX_INSTRUMENTS, worker))
    requires k < |Egress.Mine(acks, client)|
    ensures |Egress.Owed(acks, client)| == 32 * |Egress.Mine(acks, client)|
    ensures var bytes := Egress.Owed(acks, client)[32 * k..32 * (k + 1)];
      exists s :: 0 <= s < |Popped(c, ls)| && IsOwnExecution(Popped(c, ls)[s], MAX_INSTRUMENTS, client, bytes)
  {
    hide AllDeliverable, AllVetted, Drained, IsOwnExecution, ServedRuns.Inv, ServedRuns.Served;
    ServedRuns.EveryRunIsServed(c, ls);
    forall s | 0 <= s < SlotProtocol.NUM_SHARDS
      ensures AllDeliverable(MAX_INSTRUMENTS, Popped(c, ls)[s]) && AllVetted(Popped(c, ls)[s])
    {
      assert ServedRuns.ServedUpTo(c, ServedRuns.Served(c, ls), s);
    }
    ClientReadsItsOwnExecutions(Popped(c, ls), MAX_INSTRUMENTS, worker, acks, from, client, k);
  }

  predicate ExecutesOrder(tasks: seq<SlotProtocol.Task>, j: nat, client: nat, x: Execution) {
    j < |tasks| && tasks[j].New? && tasks[j].order.client == client && tasks[j].order.token == x.token
  }

  predicate AckedAs(es: seq<Event>, e: Event, client: nat, x: Execution) {
    e in es && e.Ack? && e.client == client && x == Execution(e.token, e.shares, e.price, e.removed)
  }

  ghost predicate IsOwnExecution(tasks: seq<SlotProtocol.Task>, n: nat, client: nat, bytes: seq<Byte>) {
    && IsReport(bytes)
    && (exists j: nat :: ExecutesOrder(tasks, j, client, Read(bytes)))
    && (exists e :: AckedAs(ShardLog(tasks, n), e, client, Read(bytes)))
  }

  // ---- and none is missing ----

  /** What acknowledgements say to one client through one worker, in order. */
  function Executions(acks: seq<Event>, worker: nat, client: nat): seq<Execution>
    requires forall i :: 0 <= i < |acks| ==> acks[i].Ack?
  {
    if acks == [] then [] else
      var n := |acks| - 1;
      var e := acks[n];
      Executions(acks[..n], worker, client)
      + if e.worker == worker && e.client == client then [Execution(e.token, e.shares, e.price, e.removed)] else []
  }

  function ReadAll(rs: seq<Egress.Report>): seq<Execution> {
    seq(|rs|, i requires 0 <= i < |rs| => Read(rs[i]))
  }

  lemma {:induction false} MineSum(a: seq<Egress.Ack>, b: seq<Egress.Ack>, client: nat)
    ensures Egress.Mine(a + b, client) == Egress.Mine(a, client) + Egress.Mine(b, client)
    decreases |b|
  {
    if b == [] {
      assert a + b == a;
    } else {
      var n := |b| - 1;
      assert (a + b)[..|a + b| - 1] == a + b[..n];
      MineSum(a, b[..n], client);
    }
  }

  lemma AcksSnoc(es: seq<Event>, e: Event)
    ensures Acks(es + [e]) == Acks(es) + if e.Ack? then [e] else []
  {
    AcksSum(es, [e]);
    assert [e][1..] == [];
    assert Acks([e]) == (if e.Ack? then [e] else []) + Acks([e][1..]);
  }

  lemma ExecutionsSnoc(acks: seq<Event>, e: Event, worker: nat, client: nat)
    requires e.Ack? && forall i :: 0 <= i < |acks| ==> acks[i].Ack?
    ensures Executions(acks + [e], worker, client) == Executions(acks, worker, client)
      + if e.worker == worker && e.client == client then [Execution(e.token, e.shares, e.price, e.removed)] else []
  {
    assert (acks + [e])[..|acks|] == acks;
  }

  lemma QueuedSnoc(es: seq<Event>, e: Event, worker: nat)
    ensures Queued(es + [e], worker)
      == Queued(es, worker) + if e.Ack? && e.worker == worker then [Egress.Ack(e.client, ReportOf(e))] else []
  {
    assert (es + [e])[..|es|] == es;
  }

  lemma MineSnoc(acks: seq<Egress.Ack>, a: Egress.Ack, client: nat)
    ensures Egress.Mine(acks + [a], client) == Egress.Mine(acks, client) + if a.client == client then [a.report] else []
  {
    assert (acks + [a])[..|acks|] == acks;
  }

  lemma ReadAllSnoc(rs: seq<Egress.Report>, r: Egress.Report)
    ensures ReadAll(rs + [r]) == ReadAll(rs) + [Read(r)]
  {
    hide Read;
  }

  lemma NothingAdded<T>(xs: seq<T>)
    ensures xs + [] == xs
  {}

  /** What a worker's queue holds for a client reads as exactly the acknowledgements to that client. */
  lemma {:induction false} QueueReadsAsAcks(es: seq<Event>, worker: nat, client: nat)
    requires AcksFit(es)
    ensures ReadAll(Egress.Mine(Queued(es, worker), client)) == Executions(Acks(es), worker, client)
  {
    if es != [] {
      hide Read, ReportOf, Acks, Executions, Queued, Egress.Mine, ReadAll;
      var n := |es| - 1;
      var front, e := es[..n], es[n];
      assert es == front + [e];
      AcksSnoc(front, e);
      QueuedSnoc(front, e, worker);
      QueueReadsAsAcks(front, worker, client);
      if !e.Ack? {
        NothingAdded(Acks(front));
        NothingAdded(Queued(front, worker));
      } else {
        ExecutionsSnoc(Acks(front), e, worker, client);
        if e.worker != worker {
          NothingAdded(Queued(front, worker));
          NothingAdded(Executions(Acks(front), worker, client));
        } else {
          ReportRoundTrip(e);
          MineSnoc(Queued(front, worker), Egress.Ack(e.client, ReportOf(e)), client);
          ReadAllSnoc(Egress.Mine(Queued(front, worker), client), ReportOf(e));
          NothingAdded(Egress.Mine(Queued(front, worker), client));
          NothingAdded(Executions(Acks(front), worker, client));
        }
      }
    }
  }

  /** The sources of a client's reports. */
  function MineFrom(acks: seq<Egress.Ack>, from: seq<nat>, client: nat): (r: seq<nat>)
    requires |acks| == |from|
    ensures |r| == |Egress.Mine(acks, client)|
  {
    if acks == [] then [] else
      var n := |acks| - 1;
      MineFrom(acks[..n], from[..n], client) + if acks[n].client == client then [from[n]] else []
  }

  lemma FromSourceSnoc<T>(xs: seq<T>, from: seq<nat>, x: T, source: nat, s: nat)
    requires |xs| == |from|
    ensures FromSource(xs + [x], from + [source], s) == FromSource(xs, from, s) + if source == s then [x] else []
  {
    assert (xs + [x])[..|xs|] == xs && (from + [source])[..|xs|] == from;
  }

  lemma MineFromSnoc(acks: seq<Egress.Ack>, from: seq<nat>, a: Egress.Ack, source: nat, client: nat)
    requires |acks| == |from|
    ensures MineFrom(acks + [a], from + [source], client)
      == MineFrom(acks, from, client) + if a.client == client then [source] else []
  {
    assert (acks + [a])[..|acks|] == acks && (from + [source])[..|acks|] == from;
  }

  /** Sorting by source and picking a client's reports commute. */
  lemma {:induction false} MineOf(acks: seq<Egress.Ack>, from: seq<nat>, client: nat, s: nat)
    requires |acks| == |from|
    ensures FromSource(Egress.Mine(acks, client), MineFrom(acks, from, client), s)
      == Egress.Mine(FromSource(acks, from, s), client)
  {
    if acks != [] {
      hide FromSource, MineFrom, Egress.Mine;
      var n := |acks| - 1;
      var front, before, a := acks[..n], from[..n], acks[n];
      assert acks == front + [a] && from == before + [from[n]];
      MineOf(front, before, client, s);
      MineSnoc(front, a, client);
      MineFromSnoc(front, before, a, from[n], client);
      FromSourceSnoc(front, before, a, from[n], s);
      NothingAdded(Egress.Mine(front, client));
      NothingAdded(MineFrom(front, before, client));
      NothingAdded(FromSource(front, before, s));
      NothingAdded(FromSource(Egress.Mine(front, client), MineFrom(front, before, client), s));
      if a.client == client {
        FromSourceSnoc(Egress.Mine(front, client), MineFrom(front, before, client), a.report, from[n], s);
      }
      if from[n] == s { MineSnoc(FromSource(front, before, s), a, client); }
    }
  }

  /** The converse: of the reports a worker owes a client, those that came from shard s read, in order, as the first of
      the acknowledgements that shard's engine has made to that client through that worker; and as all of them once the
      shard's queue is drained. */
  lemma ClientReadsAllItsExecutions(
      shards: seq<seq<SlotProtocol.Task>>, n: nat, worker: nat, acks: seq<Egress.Ack>, from: seq<nat>,
      client: nat, s: nat)
    requires forall s :: 0 <= s < |shards| ==> AllDeliverable(n, shards[s]) && AllVetted(shards[s])
    requires Drained(acks, from, AckQueues(shards, n, worker)) && s < |shards|
    ensures var got := ReadAll(FromSource(Egress.Mine(acks, client), MineFrom(acks, from, client), s));
      && got <= Executions(Acks(ShardLog(shards[s], n)), worker, client)
      && (FromSource(acks, from, s) == AckQueues(shards, n, worker)[s] ==>
            got == Executions(Acks(ShardLog(shards[s], n)), worker, client))
  {
    hide AllDeliverable, AllVetted, ShardLog, Queued, FromSource, MineFrom, Egress.Mine, Read, Executions, Acks;
    var es := ShardLog(shards[s], n);
    forall e | e in es && e.Ack? ensures Fits(e.token, e.shares) && e.price < MAX_PRICE { ShardAck(shards[s], n, e); }
    QueueReadsAsAcks(es, worker, client);
    MineOf(acks, from, client, s);
    var of, queue := FromSource(acks, from, s), Queued(es, worker);
    assert of <= queue;
    MineSum(of, queue[|of|..], client);
    assert of + queue[|of|..] == queue;
  }

  /** Through its own worker a client is told everything: the filter by worker is no filter. */
  lemma {:induction false} OwnWorkerTellsAll(acks: seq<Event>, worker: nat, client: nat)
    requires forall i :: 0 <= i < |acks| ==> acks[i].Ack? && (acks[i].client == client ==> acks[i].worker == worker)
    ensures |Executions(acks, worker, client)| == |ToClient(acks, client)|
    ensures forall k :: 0 <= k < |ToClient(acks, client)| ==>
      ReadsAs(Executions(acks, worker, client)[k], ToClient(acks, client)[k])
  {
    if acks != [] { OwnWorkerTellsAll(acks[..|acks| - 1], worker, client); }
  }

  /** All acknowledgements of one client's orders, in order. */
  function ToClient(acks: seq<Event>, client: nat): (r: seq<Event>)
    requires forall i :: 0 <= i < |acks| ==> acks[i].Ack?
    ensures forall i :: 0 <= i < |r| ==> r[i].Ack?
  {
    if acks == [] then [] else
      var n := |acks| - 1;
      ToClient(acks[..n], client) + if acks[n].client == client then [acks[n]] else []
  }

  predicate ReadsAs(x: Execution, e: Event) {
    e.Ack? && x == Execution(e.token, e.shares, e.price, e.removed)
  }

  lemma {:induction false} AcksAreIn(es: seq<Event>, i: nat)
    requires i < |Acks(es)|
    ensures Acks(es)[i] in es && Acks(es)[i].Ack?
  {
    var first := if es[0].Ack? then 1 else 0;
    if i >= first { AcksAreIn(es[1..], i - first); }
  }

  lemma HomeOfTask(ls: seq<SlotProtocol.Label>, home: map<nat, nat>, tasks: seq<SlotProtocol.Task>, j: nat)
    requires ServedOrders.TasksTraced(ls, home, tasks) && j < |tasks| && tasks[j].New?
    ensures ServedOrders.AtHome(home, tasks[j].order)
  {
    assert tasks[j] in tasks;
  }

  /** In every run of workers and engines, once the queue of shard s is drained by the worker a client is at home with,
      the client has been sent a report of every acknowledgement of every order of its on that shard: one for one, in
      order, with its token, shares, price and liquidity. */
  lemma EveryRunTellsAll(
      c: SlotProtocol.Config, ls: seq<SlotProtocol.Label>, acks: seq<Egress.Ack>, from: seq<nat>, client: nat, s: nat)
    requires c.Valid() && s < SlotProtocol.NUM_SHARDS && client in ServedRuns.Served(c, ls).st.home
    requires var worker := ServedRuns.Served(c, ls).st.home[client];
      var queues := AckQueues(Popped(c, ls), MAX_INSTRUMENTS, worker);
      Drained(acks, from, queues) && FromSource(acks, from, s) == queues[s]
    ensures var got := ReadAll(FromSource(Egress.Mine(acks, client), MineFrom(acks, from, client), s));
      var made := ToClient(Acks(ShardLog(Popped(c, ls)[s], MAX_INSTRUMENTS)), client);
      |got| == |made| && forall k :: 0 <= k < |made| ==> ReadsAs(got[k], made[k])
  {
    hide AllDeliverable, AllVetted, Drained, ServedRuns.Inv, ServedRuns.Served, FromSource, MineFrom, Egress.Mine, Read;
    hide Executions, Acks, ToClient, ShardLog, ServedOrders.TasksTraced;
    var w := ServedRuns.Served(c, ls);
    var worker := w.st.home[client];
    ServedRuns.EveryRunIsServed(c, ls);
    forall s | 0 <= s < SlotProtocol.NUM_SHARDS
      ensures AllDeliverable(MAX_INSTRUMENTS, Popped(c, ls)[s]) && AllVetted(Popped(c, ls)[s])
    {
      assert ServedRuns.ServedUpTo(c, w, s);
    }
    ClientReadsAllItsExecutions(Popped(c, ls), MAX_INSTRUMENTS, worker, acks, from, client, s);
    ServedOrders.ServedTraced(c, ls);
    var tasks := Popped(c, ls)[s];
    assert ServedRuns.ServedUpTo(c, w, s);
    assert tasks == w.control[s].done;
    var made := Acks(ShardLog(tasks, MAX_INSTRUMENTS));
    forall i | 0 <= i < |made| ensures made[i].Ack? && (made[i].client == client ==> made[i].worker == worker) {
      AcksAreIn(ShardLog(tasks, MAX_INSTRUMENTS), i);
      ShardAck(tasks, MAX_INSTRUMENTS, made[i]);
      var j :| 0 <= j < |tasks| && tasks[j].New? && Of(tasks[j].order) == Told(made[i]);
      HomeOfTask(ls, w.st.home, tasks, j);
    }
    OwnWorkerTellsAll(made, worker, client);
  }

  /** The token field of a report repeats, byte for byte, the field the order was entered with. */
  lemma TokenIsEchoed(field: seq<Byte>, a: Event)
    requires a.Ack? && |field| == TOKEN_SIZE && Token(field) == a.token < MAX_CLIENT_ORDERS
    ensures ReportOf(a)[1..15] == field
  {
    TokenFieldRoundTrip(field);
    assert ReportOf(a)[1..15] == Padded(a.token, TOKEN_SIZE);
  }
}
