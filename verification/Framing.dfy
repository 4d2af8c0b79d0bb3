/** Inbound framing on one connection (tcp_server.h:433-610): bytes arrive in arbitrary pieces. */
module Framing {

  type Byte = b: int | 0 <= b < 256

  const ENTER_ORDER: Byte := 79   // 'O'
  const CANCEL_ORDER: Byte := 88  // 'X'
  const ENTER_SIZE: nat := 81
  const CANCEL_SIZE: nat := 19
  const BUFFER_SIZE: nat := 16384

  /** Size of the message a type byte announces; 0 for an unknown type. */
  function SizeOf(kind: Byte): nat {
    if kind == ENTER_ORDER then ENTER_SIZE else if kind == CANCEL_ORDER then CANCEL_SIZE else 0
  }

  /** Messages of a byte stream, the incomplete fragment after them, and whether an unknown type stopped it. */
  datatype Parsed = Parsed(messages: seq<seq<Byte>>, rest: seq<Byte>, bad: bool)

  function Parse(s: seq<Byte>): (p: Parsed)
    ensures |p.rest| <= |s|
    ensures !p.bad ==> |p.rest| < ENTER_SIZE
  {
    if s == [] then Parsed([], [], false)
    else if SizeOf(s[0]) == 0 then Parsed([], s, true)
    else if |s| < SizeOf(s[0]) then Parsed([], s, false)
    else
      var p := Parse(s[SizeOf(s[0])..]);
      p.(messages := [s[..SizeOf(s[0])]] + p.messages)
  }

  function After(done: seq<seq<Byte>>, p: Parsed): Parsed {
    p.(messages := done + p.messages)
  }

  predicate Complete(s: seq<Byte>) {
    s != [] && SizeOf(s[0]) != 0 && |s| >= SizeOf(s[0])
  }

  lemma ParseCons(s: seq<Byte>)
    requires Complete(s)
    ensures var n := SizeOf(s[0]); Parse(s) == After([s[..n]], Parse(s[n..]))
  {}

  lemma ParseStops(s: seq<Byte>)
    requires !Complete(s)
    ensures Parse(s) == Parsed([], s, s != [] && SizeOf(s[0]) == 0)
  {}

  /** Parsing can stop between any two bytes and resume on the fragment. */
  lemma {:induction false} ParseResumes(a: seq<Byte>, b: seq<Byte>)
    ensures !Parse(a).bad ==> Parse(a + b) == After(Parse(a).messages, Parse(Parse(a).rest + b))
    ensures Parse(a).bad ==> Parse(a + b).bad && Parse(a + b).messages == Parse(a).messages
    decreases |a|
  {
    hide Parse;
    if Complete(a) {
      var n := SizeOf(a[0]);
      assert (a + b)[..n] == a[..n] && (a + b)[n..] == a[n..] + b;
      ParseCons(a);
      ParseCons(a + b);
      ParseResumes(a[n..], b);
    } else {
      ParseStops(a);
      if Parse(a).bad { ParseStops(a + b); }
    }
  }

  class Connection {
    const buffer: array<Byte>
    var readPos: nat
    var writePos: nat
    var open: bool
    var messages: seq<seq<Byte>>
    ghost var received: seq<Byte>

    /** Between reads: everything received has been decoded but for a fragment shorter than one order message;
        a connection is closed exactly when the stream reached an unknown type. */
    ghost predicate Valid()
      reads this, buffer
    {
      && buffer.Length == BUFFER_SIZE && readPos <= writePos <= BUFFER_SIZE
      && messages == Parse(received).messages && open == !Parse(received).bad
      && (open ==> buffer[readPos..writePos] == Parse(received).rest)
    }

    constructor ()
      ensures Valid() && fresh(buffer) && open && messages == [] && received == []
    {
      buffer := new Byte[BUFFER_SIZE](i => 0);
      readPos, writePos, open, messages, received := 0, 0, true, [], [];
    }

    /** Make room: reset when everything is consumed, otherwise move the fragment to the front. */
    method Reclaim()
      requires Valid() && open
      modifies this`readPos, this`writePos, buffer
      ensures Valid() && readPos == 0 && writePos < ENTER_SIZE
    {
      if readPos == writePos {
        readPos, writePos := 0, 0;
      } else if readPos > 0 {
        var fragment := buffer[readPos..writePos];
        forall i | 0 <= i < |fragment| { buffer[i] := fragment[i]; }
        assert buffer[..|fragment|] == fragment;
        readPos, writePos := 0, |fragment|;
      }
    }

    /** The parse loop over what is buffered (tcp_server.h:469-597). */
    method Decode()
      requires buffer.Length == BUFFER_SIZE && readPos <= writePos <= BUFFER_SIZE && open
      requires Parse(received) == After(messages, Parse(buffer[readPos..writePos]))
      modifies this`readPos, this`open, this`messages
      ensures Valid()
    {
      hide Parse;
      while writePos - readPos >= 1
        invariant readPos <= writePos && open
        invariant Parse(received) == After(messages, Parse(buffer[readPos..writePos]))
        decreases writePos - readPos
      {
        ghost var data := buffer[readPos..writePos];
        var size := SizeOf(buffer[readPos]);
        if size == 0 {
          ParseStops(data);
          open := false;
          return;
        }
        if writePos - readPos < size { break; }
        ParseCons(data);
        assert data[size..] == buffer[readPos + size..writePos] && data[..size] == buffer[readPos..readPos + size];
        messages := messages + [buffer[readPos..readPos + size]];
        readPos := readPos + size;
      }
      ParseStops(buffer[readPos..writePos]);
    }

    /** One successful read of the given bytes, which fit the free space. */
    method OnRead(bytes: seq<Byte>)
      requires Valid() && open && readPos == 0 && writePos + |bytes| <= BUFFER_SIZE
      modifies this, buffer
      ensures Valid() && received == old(received) + bytes
    {
      hide Parse;
      ParseResumes(received, bytes);
      ghost var fragment := buffer[..writePos];
      var start := writePos;
      forall i | 0 <= i < |bytes| { buffer[start + i] := bytes[i]; }
      writePos := writePos + |bytes|;
      assert buffer[..writePos] == fragment + bytes;
      received := received + bytes;
      Decode();
    }

    lemma BufferFixed()
      requires Valid()
      ensures readPos <= writePos <= BUFFER_SIZE
    {}

    /** handle_client while the socket holds `stream`: the k-th read returns at most sizes[k] bytes, never
        more than fit. Returns how many bytes were taken. */
    method HandleClient(stream: seq<Byte>, sizes: seq<nat>) returns (taken: nat)
      requires Valid()
      modifies this, buffer
      ensures Valid() && taken <= |stream| && received == old(received) + stream[..taken]
      ensures open && (forall k :: 0 <= k < |sizes| ==> sizes[k] > 0) ==> taken == |stream| || taken >= |sizes|
    {
      hide Parse, Connection.Valid;
      taken := 0;
      var k := 0;
      while k < |sizes| && open && taken < |stream|
        invariant Valid() && taken <= |stream| && k <= |sizes| && received == old(received) + stream[..taken]
        invariant open && (forall j :: 0 <= j < |sizes| ==> sizes[j] > 0) ==> taken >= k
      {
        Reclaim();
        BufferFixed();
        var space := BUFFER_SIZE - writePos;
        if space == 0 { assert false; }
        var n := if sizes[k] <= space then sizes[k] else space;
        n := if n <= |stream| - taken then n else |stream| - taken;
        assert stream[..taken] + stream[taken..taken + n] == stream[..taken + n];
        OnRead(stream[taken..taken + n]);
        taken := taken + n;
        k := k + 1;
      }
    }
  }

  /** However the same bytes are cut into reads, the decoded messages are those of the whole stream. */
  method DecodeInPieces(stream: seq<Byte>, sizes: seq<nat>) returns (messages: seq<seq<Byte>>)
    requires |sizes| >= |stream| && forall k :: 0 <= k < |sizes| ==> sizes[k] > 0
    ensures messages == Parse(stream).messages
  {
    var c := new Connection();
    var taken := c.HandleClient(stream, sizes);
    messages := c.messages;
    assert stream[..taken] + stream[taken..] == stream && c.received == stream[..taken];
    ParseResumes(stream[..taken], stream[taken..]);
    if c.open { assert stream[..taken] == stream; }
  }
}
