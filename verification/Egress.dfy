/** Private acks on their way out (tcp_server.h:338-429). `send` may take any number of bytes, none, or fail. */
module Egress {
  import opened Framing

  const CAP: nat := 65536
  const REPORT_SIZE: nat := 32

  type Report = r: seq<Byte> | |r| == REPORT_SIZE witness seq(REPORT_SIZE, i => 0)

  /** What an engine shard queues for a gateway worker: the report, and the client it belongs to. */
  datatype Ack = Ack(client: nat, report: Report)

  datatype SendResult = Took(count: nat) | WouldBlock | Failed

  /** The bytes a client is owed: its own reports, in order, and nothing else. */
  ghost function Owed(acks: seq<Ack>, client: nat): seq<Byte> {
    if acks == [] then []
    else
      var a := acks[|acks| - 1];
      Owed(acks[..|acks| - 1], client) + if a.client == client then a.report else []
  }

  lemma OwedSnoc(acks: seq<Ack>, a: Ack, client: nat)
    ensures Owed(acks + [a], client) == Owed(acks, client) + if a.client == client then a.report else []
  {
    assert (acks + [a])[..|acks|] == acks;
  }

  lemma {:induction false} OwedNothing(acks: seq<Ack>, client: nat)
    requires forall a <- acks :: a.client != client
    ensures Owed(acks, client) == []
  {
    if acks != [] { OwedNothing(acks[..|acks| - 1], client); }
  }

  /** Reports are never cut or interleaved: the k-th 32 bytes a client is owed are its k-th report. */
  ghost function Mine(acks: seq<Ack>, client: nat): seq<Report> {
    if acks == [] then []
    else
      var a := acks[|acks| - 1];
      Mine(acks[..|acks| - 1], client) + if a.client == client then [a.report] else []
  }

  lemma {:induction false} OwedInReports(acks: seq<Ack>, client: nat, k: nat)
    requires k < |Mine(acks, client)|
    ensures |Owed(acks, client)| == REPORT_SIZE * |Mine(acks, client)|
    ensures Owed(acks, client)[REPORT_SIZE * k..REPORT_SIZE * (k + 1)] == Mine(acks, client)[k]
  {
    var front := acks[..|acks| - 1];
    OwedSize(front, client);
    if k < |Mine(front, client)| { OwedInReports(front, client, k); }
  }

  lemma {:induction false} OwedSize(acks: seq<Ack>, client: nat)
    ensures |Owed(acks, client)| == REPORT_SIZE * |Mine(acks, client)|
  {
    if acks != [] { OwedSize(acks[..|acks| - 1], client); }
  }

  /** How many bytes the sends took. */
  ghost function Taken(rs: seq<SendResult>): nat {
    if rs == [] then 0 else
      var r := rs[|rs| - 1];
      Taken(rs[..|rs| - 1]) + if r.Took? then r.count else 0
  }

  lemma NoneTaken()
    ensures Taken([]) == 0
  {}

  lemma TakenSnoc(rs: seq<SendResult>, r: SendResult)
    ensures Taken(rs + [r]) == Taken(rs) + if r.Took? then r.count else 0
  {
    assert (rs + [r])[..|rs|] == rs;
  }

  class Client {
    const id: nat
    const outBuf: array<Byte>
    var outLen: nat
    var wantWrite: bool
    ghost var sent: seq<Byte>
    ghost var results: seq<SendResult>

    /** The last send failed for good. */
    ghost predicate Broken()
      reads this
    {
      results != [] && results[|results| - 1].Failed?
    }

    /** The last send would have blocked: the kernel's buffer is full. */
    ghost predicate Blocked()
      reads this
    {
      results != [] && results[|results| - 1].WouldBlock?
    }

    ghost predicate Shape()
      reads this`outLen
    {
      outBuf.Length == CAP && outLen <= CAP
    }

    ghost predicate Valid()
      reads this
    {
      Shape() && (outLen == 0 ==> !wantWrite)
    }

    /** Everything that ever entered this connection's output, whether it already left or is buffered. */
    ghost function Stream(): seq<Byte>
      reads this`sent, this`outLen, outBuf
      requires Shape()
    {
      sent + outBuf[..outLen]
    }

    constructor (client: nat)
      ensures Valid() && fresh(outBuf) && id == client && Stream() == [] && !wantWrite && results == []
    {
      id := client;
      outBuf := new Byte[CAP](i => 0);
      outLen, wantWrite, sent, results := 0, false, [], [];
    }

    /** The system call: any prefix of the buffer may be taken; zero bytes count as a failure. */
    method Send() returns (r: SendResult)
      requires Shape() && outLen > 0
      modifies this`sent, this`results
      ensures results == old(results) + [r]
      ensures r.Took? ==> 0 < r.count <= outLen && sent == old(sent) + outBuf[..r.count]
      ensures !r.Took? ==> sent == old(sent)
    {
      var n: int := *;
      var again: bool := *;
      if n > 0 {
        r := Took(if n <= outLen then n else outLen);
        sent := sent + outBuf[..r.count];
      } else if n < 0 && again {
        r := WouldBlock;
      } else {
        r := Failed;
      }
      results := results + [r];
    }

    method ArmEpollout(on: bool)
      modifies this`wantWrite
      ensures wantWrite == on
    {
      if wantWrite == on { return; }
      wantWrite := on;
    }

    /** flush_out: send until the buffer is empty, the socket would block, or it fails. Nothing is lost, reordered or
        repeated; writability is watched exactly while bytes remain. */
    method FlushOut() returns (ok: bool)
      requires Valid() && !Broken()
      modifies this, outBuf
      ensures Valid() && Stream() == old(Stream()) && old(results) <= results
      ensures Taken(results[|old(results)|..]) == old(outLen) - outLen
      ensures ok && outLen > 0 <==> |results| > |old(results)| && Blocked()
      ensures !ok <==> |results| > |old(results)| && Broken()
      ensures ok ==> wantWrite == (outLen > 0) && !Broken()
      ensures !ok ==> outLen > 0
    {
      hide Taken, Client.Stream;
      ghost var before, mine: seq<SendResult> := results, [];
      NoneTaken();
      while outLen > 0
        invariant Shape() && Stream() == old(Stream()) && results == before + mine
        invariant outLen + Taken(mine) == old(outLen) && wantWrite == old(wantWrite)
        invariant mine != [] ==> mine[|mine| - 1].Took?
        decreases outLen
      {
        var r := SendOnce();
        TakenSnoc(mine, r);
        mine := mine + [r];
        assert results[|before|..] == mine;
        match r {
          case Took(_) =>
          case WouldBlock =>
            ArmEpollout(true);
            return true;
          case Failed =>
            return false;
        }
      }
      assert results[|before|..] == mine;
      ArmEpollout(false);
      ok := true;
    }

    /** One turn of the loop: what a send takes leaves the front of the buffer. */
    method SendOnce() returns (r: SendResult)
      requires Shape() && outLen > 0
      modifies this`sent, this`results, this`outLen, outBuf
      ensures Shape() && Stream() == old(Stream()) && results == old(results) + [r]
      ensures outLen == old(outLen) - if r.Took? then r.count else 0
      ensures r.Took? ==> r.count > 0
    {
      r := Send();
      if r.Took? {
        var left := outBuf[r.count..outLen];
        assert outBuf[..outLen] == outBuf[..r.count] + left;
        forall i | 0 <= i < |left| { outBuf[i] := left[i]; }
        outLen := outLen - r.count;
        assert outBuf[..outLen] == left;
      }
    }

    /** The copy at the end of send_report. */
    method Append(report: Report)
      requires Valid() && outLen + REPORT_SIZE <= CAP
      modifies this`outLen, outBuf
      ensures Valid() && Stream() == old(Stream()) + report && outLen == old(outLen) + REPORT_SIZE
    {
      ghost var before := outBuf[..outLen];
      var start := outLen;
      forall i | 0 <= i < REPORT_SIZE { outBuf[start + i] := report[i]; }
      outLen := outLen + REPORT_SIZE;
      assert outBuf[..outLen] == before + report;
    }
  }

  /** How a connection stood when it was torn down: its last send had failed; or would have blocked, with `room` bytes
      left in its buffer; or its inbound side had ended (peer gone, or a message of unknown type). */
  datatype Closing = Closing(broken: bool, blocked: bool, room: nat, ended: bool) {
    predicate Justified() { broken || (blocked && room < REPORT_SIZE) || ended }
  }

  /** The two maps are mutually inverse, no two connections share a buffer, and every connection ever accepted is
      open or was closed for a reason. */
  ghost predicate MapsOk(states: map<int, Client>, fdOf: map<nat, int>, accepted: set<nat>, closed: map<nat, Closing>) {
    && (forall fd <- states :: states[fd].id in fdOf && fdOf[states[fd].id] == fd)
    && (forall id <- fdOf :: fdOf[id] in states && states[fdOf[id]].id == id)
    && (forall f <- states, g <- states :: f != g ==> states[f].outBuf != states[g].outBuf)
    && accepted == fdOf.Keys + closed.Keys && fdOf.Keys !! closed.Keys
    && forall id <- closed :: closed[id].Justified()
  }

  lemma MapsInsert(states: map<int, Client>, fdOf: map<nat, int>, accepted: set<nat>, closed: map<nat, Closing>,
                   fd: int, c: Client)
    requires MapsOk(states, fdOf, accepted, closed) && fd !in states && c.id !in accepted
    requires forall g <- states :: states[g].outBuf != c.outBuf
    ensures MapsOk(states[fd := c], fdOf[c.id := fd], accepted + {c.id}, closed)
  {}

  lemma MapsRemove(states: map<int, Client>, fdOf: map<nat, int>, accepted: set<nat>, closed: map<nat, Closing>,
                   fd: int, closing: Closing)
    requires MapsOk(states, fdOf, accepted, closed) && fd in states && closing.Justified()
    ensures var id := states[fd].id; MapsOk(states - {fd}, fdOf - {id}, accepted, closed[id := closing])
  {}

  /** Different descriptors are different clients with different buffers. */
  lemma MapsApart(states: map<int, Client>, fdOf: map<nat, int>, accepted: set<nat>, closed: map<nat, Closing>, fd: int)
    requires MapsOk(states, fdOf, accepted, closed) && fd in states
    ensures fdOf[states[fd].id] == fd
    ensures forall g <- states :: g != fd ==>
      states[g] != states[fd] && states[g].id != states[fd].id && states[g].outBuf != states[fd].outBuf
  {}

  lemma MapsKnow(states: map<int, Client>, fdOf: map<nat, int>, accepted: set<nat>, closed: map<nat, Closing>, id: nat)
    requires MapsOk(states, fdOf, accepted, closed)
    ensures id in fdOf ==> fdOf[id] in states && states[fdOf[id]].id == id
    ensures id !in fdOf ==> forall g <- states :: states[g].id != id
  {}

  class Gateway {
    var states: map<int, Client>
    var fdOf: map<nat, int>
    ghost var drained: seq<Ack>
    ghost var accepted: set<nat>
    ghost var closed: map<nat, Closing>

    ghost function Repr(): set<object>
      reads this
    {
      states.Values + set c <- states.Values :: c.outBuf
    }

    ghost predicate Maps()
      reads this
    {
      MapsOk(states, fdOf, accepted, closed)
    }

    ghost predicate Valid()
      reads this, Repr()
    {
      Maps() && forall fd <- states :: Sound(states[fd], drained)
    }

    /** Between worker-loop iterations writability is watched exactly on the connections with bytes left. */
    ghost predicate Settled()
      reads this, states.Values
    {
      forall fd <- states :: Watched(states[fd])
    }

    constructor ()
      ensures Valid() && Settled() && states == map[] && drained == [] && accepted == {}
    {
      states, fdOf, drained, accepted, closed := map[], map[], [], {}, map[];
    }

    /** The kernel hands out a descriptor that is not open; connection ids are never handed out twice. */
    method Accept(fd: int, cid: nat)
      requires Valid() && Settled()
      requires fd !in states && cid !in accepted && forall a <- drained :: a.client != cid
      modifies this`states, this`fdOf, this`accepted
      ensures Valid() && Settled() && fd in states && fresh(states[fd]) && fresh(states[fd].outBuf)
      ensures states == old(states)[fd := states[fd]] && states[fd].id == cid && accepted == old(accepted) + {cid}
    {
      hide Owed, MapsOk;
      var c := new Client(cid);
      OwedNothing(drained, cid);
      MapsInsert(states, fdOf, accepted, closed, fd, c);
      states := states[fd := c];
      fdOf := fdOf[cid := fd];
      accepted := accepted + {cid};
    }

    /** The one teardown path: both map directions go together. */
    method CloseClient(fd: int, ghost ended: bool)
      requires Maps() && (fd in states ==> states[fd].outLen <= CAP && (ended || Hopeless(states[fd])))
      modifies this`states, this`fdOf, this`closed
      ensures Maps() && states == old(states) - {fd}
    {
      if fd in states {
        var c := states[fd];
        hide MapsOk;
        MapsRemove(states, fdOf, accepted, closed, fd, Closing(c.Broken(), c.Blocked(), CAP - c.outLen, ended));
        closed := closed[c.id := Closing(c.Broken(), c.Blocked(), CAP - c.outLen, ended)];
        fdOf := fdOf - {c.id};
        states := states - {fd};
      }
    }

    /** The inbound side ended: handle_client tears the connection down. */
    method Hangup(fd: int)
      requires Valid() && Settled()
      modifies this`states, this`fdOf, this`closed
      ensures Valid() && Settled() && states == old(states) - {fd}
    {
      CloseClient(fd, true);
    }

    /** Flush one connection; it goes away only if its socket failed. */
    method Flush(fd: int)
      requires Valid() && fd in states
      modifies this`states, this`fdOf, this`closed, states[fd], states[fd].outBuf
      ensures Valid()
      ensures var c := old(states)[fd];
        && ((states == old(states) && Watched(c)) || (states == old(states) - {fd} && c.Broken()))
        && Tried(c, old(states[fd].results), old(states[fd].outLen))
    {
      hide Owed, MapsOk;
      MapsApart(states, fdOf, accepted, closed, fd);
      var ok := states[fd].FlushOut();
      if !ok { CloseClient(fd, false); }
    }

    /** An EPOLLOUT event resumes the flush. */
    method OnWritable(fd: int)
      requires Valid() && Settled()
      modifies this`states, this`fdOf, this`closed, Repr()
      ensures Valid() && Settled()
      ensures states == old(states) || (states == old(states) - {fd} && fd in old(states) && old(states)[fd].Broken())
      ensures fd in old(states) ==> Tried(old(states)[fd], old(states[fd].results), old(states[fd].outLen))
    {
      if fd in states { Flush(fd); }
    }

    /** Buffer one report, flushing first if it does not fit. The connection is dropped only when its socket
        failed or the client is so slow that the report still does not fit. */
    method SendReport(fd: int, report: Report)
      requires Maps() && fd in states && states[fd].Valid() && !states[fd].Broken()
      modifies this`states, this`fdOf, this`closed, states[fd], states[fd].outBuf
      ensures Maps()
      ensures var c := old(states)[fd];
        || (states == old(states) && c.Valid() && !c.Broken() && c.Stream() == old(states[fd].Stream()) + report)
        || (states == old(states) - {fd} && Hopeless(c))
      ensures old(states[fd].results) <= old(states)[fd].results
    {
      var c := states[fd];
      if c.outLen + REPORT_SIZE > CAP {
        var ok := c.FlushOut();
        if !ok {
          CloseClient(fd, false);
          return;
        }
        if c.outLen + REPORT_SIZE > CAP {
          CloseClient(fd, false);
          return;
        }
      }
      c.Append(report);
    }

    /** One popped ack: reported to its own client, or discarded when that client has disconnected. */
    method Deliver(ack: Ack)
      requires Valid()
      modifies this`drained, this`states, this`fdOf, this`closed, Repr()
      ensures Valid() && drained == old(drained) + [ack] && Repr() <= old(Repr())
      ensures forall fd <- states :: fd in old(states) && states[fd] == old(states[fd])
      ensures forall fd <- states :: old(states[fd].results) <= states[fd].results
    {
      hide Owed, MapsOk, Client.Stream, Client.Broken, Client.Blocked;
      forall fd <- states ensures Owed(drained + [ack], states[fd].id) ==
          Owed(drained, states[fd].id) + if ack.client == states[fd].id then ack.report else []
      {
        OwedSnoc(drained, ack, states[fd].id);
      }
      drained := drained + [ack];
      MapsKnow(states, fdOf, accepted, closed, ack.client);
      if ack.client in fdOf {
        MapsApart(states, fdOf, accepted, closed, fdOf[ack.client]);
        SendReport(fdOf[ack.client], ack.report);
      }
    }

    /** drain_acks: whatever the shards' queues held is owed to the clients, and every open connection is flushed
        as far as its socket allows. */
    method DrainAcks(queues: seq<seq<Ack>>)
      requires Valid()
      modifies this`drained, this`states, this`fdOf, this`closed, Repr()
      ensures Valid() && Settled() && drained == old(drained) + Concat(queues) && Repr() <= old(Repr())
      ensures forall fd <- states :: fd in old(states) && states[fd] == old(states[fd])
      ensures forall fd <- states :: states[fd].outLen > 0 ==> |states[fd].results| > |old(states[fd].results)|
    {
      hide Valid, Sound, Gateway.Repr;
      for s := 0 to |queues|
        invariant Valid() && drained == old(drained) + Concat(queues[..s]) && Repr() <= old(Repr())
        invariant forall fd <- states :: fd in old(states) && states[fd] == old(states[fd])
        invariant forall fd <- states :: old(states[fd].results) <= states[fd].results
      {
        for k := 0 to |queues[s]|
          invariant Valid() && drained == old(drained) + Concat(queues[..s]) + queues[s][..k] && Repr() <= old(Repr())
          invariant forall fd <- states :: fd in old(states) && states[fd] == old(states[fd])
          invariant forall fd <- states :: old(states[fd].results) <= states[fd].results
        {
          Deliver(queues[s][k]);
        }
        assert queues[..s + 1][..s] == queues[..s];
      }
      assert queues[..|queues|] == queues;
      FlushAll();
    }

    /** One step of the closing pass. */
    method FlushPending(fd: int)
      requires Valid() && fd in states
      modifies this`states, this`fdOf, this`closed, states[fd], states[fd].outBuf
      ensures Valid() && Repr() <= old(Repr())
      ensures states.Keys == old(states.Keys) || states.Keys == old(states.Keys) - {fd}
      ensures fd in states ==> Watched(states[fd]) && states[fd] == old(states[fd])
      ensures fd in states ==> Tried(states[fd], old(states[fd].results), old(states[fd].outLen))
      ensures forall g <- states :: g in old(states) && (g != fd ==> Watched(states[g]) == old(Watched(states[g])))
      ensures forall g <- states :: g != fd ==> states[g] == old(states[g]) && unchanged(states[g])
    {
      NoneTaken();
      hide Owed, MapsOk;
      MapsApart(states, fdOf, accepted, closed, fd);
      if states[fd].outLen > 0 { Flush(fd); }
    }

    /** The closing pass over the connection table, in whatever order the table iterates. */
    method FlushAll()
      requires Valid()
      modifies this`states, this`fdOf, this`closed, Repr()
      ensures Valid() && Settled() && drained == old(drained) && Repr() <= old(Repr())
      ensures forall fd <- states :: fd in old(states) && states[fd] == old(states[fd])
      ensures forall fd <- states :: Tried(states[fd], old(states[fd].results), old(states[fd].outLen))
    {
      hide Valid, Sound, Watched, Tried;
      var todo: set<int> := states.Keys;
      while todo != {}
        invariant Valid() && todo <= states.Keys && Repr() <= old(Repr())
        invariant forall fd <- states :: fd !in todo ==> Watched(states[fd])
        invariant forall fd <- states :: fd in old(states) && states[fd] == old(states[fd])
        invariant forall fd <- todo :: unchanged(states[fd])
        invariant forall fd <- states :: fd !in todo ==>
          Tried(states[fd], old(states[fd].results), old(states[fd].outLen))
        decreases todo
      {
        SomeMember(todo);
        var fd :| fd in todo;
        todo := todo - {fd};
        FlushPending(fd);
      }
    }
  }

  /** An open connection: its socket is healthy, and sent plus buffered bytes are what its client is owed. */
  ghost predicate Sound(c: Client, acks: seq<Ack>)
    reads c, c.outBuf
  {
    c.Valid() && !c.Broken() && c.Stream() == Owed(acks, c.id)
  }

  lemma SomeMember(s: set<int>)
    ensures s == {} || exists x :: x in s
  {
    assert (forall x :: x !in s) ==> s == {};
  }

  /** Since it had `results` and `outLen`, bytes have left the buffer exactly as sends took them, and none stay without
      another send that would have blocked or failed. */
  ghost predicate Tried(c: Client, results: seq<SendResult>, outLen: nat)
    reads c
  {
    && results <= c.results && Taken(c.results[|results|..]) == outLen - c.outLen
    && (c.outLen > 0 ==> |c.results| > |results| && (c.Blocked() || c.Broken()))
  }

  /** Bytes stay buffered only on a connection whose last send would have blocked, and exactly then it is watched. */
  ghost predicate Watched(c: Client)
    reads c
  {
    c.wantWrite == (c.outLen > 0) && (c.outLen > 0 ==> c.Blocked())
  }

  /** The worker may give up on a client whose socket failed, or would block and leaves no room for a report. */
  ghost predicate Hopeless(c: Client)
    reads c
  {
    c.Broken() || (c.Blocked() && c.outLen + REPORT_SIZE > CAP)
  }

  ghost function Concat(queues: seq<seq<Ack>>): seq<Ack> {
    if queues == [] then [] else Concat(queues[..|queues| - 1]) + queues[|queues| - 1]
  }
}
