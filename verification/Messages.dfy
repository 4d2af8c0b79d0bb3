/** The inbound messages (messages.h:103-132), packed byte by byte, and what a gateway worker makes of them
    (tcp_server.h:484-587). */
module Messages {
  import opened Framing
  import opened MachineInts
  import opened Codec
  import Orders
  import SlotProtocol
  import Entered

  const BUY: Byte := 66   // 'B'

  type TokenField = s: seq<Byte> | |s| == TOKEN_SIZE witness seq(TOKEN_SIZE, i => 0)
  type SymbolField = s: seq<Byte> | |s| == SYMBOL_SIZE witness seq(SYMBOL_SIZE, i => 0)
  type Mpid = s: seq<Byte> | |s| == 4 witness [0, 0, 0, 0]

  /** The four latency timestamps at the end of an order message. */
  datatype Stamps = Stamps(exchangeSend: U64, tradingRecv: U64, tradingEnq: U64, networkDeq: U64)

  /** Fields that the exchange carries and does not read. */
  datatype Terms = Terms(
    timeInForce: U32, firm: Mpid, display: Byte, capacity: Byte, isoEligibility: Byte, minQuantity: U32,
    crossType: Byte, customerType: Byte)

  datatype Request =
    | Enter(token: TokenField, side: Byte, shares: U32, stock: SymbolField, price: U32, terms: Terms, stamps: Stamps)
    | Withdraw(token: TokenField, shares: U32)

  function PackStamps(t: Stamps): (s: seq<Byte>)
    ensures |s| == 32
  {
    LittleEndian(t.exchangeSend, 8) + LittleEndian(t.tradingRecv, 8) + LittleEndian(t.tradingEnq, 8)
    + LittleEndian(t.networkDeq, 8)
  }

  function UnpackStamps(s: seq<Byte>): Stamps
    requires |s| == 32
  {
    Widths();
    Stamps(FromLittleEndian(s[..8]), FromLittleEndian(s[8..16]), FromLittleEndian(s[16..24]), FromLittleEndian(s[24..]))
  }

  function PackTerms(t: Terms): (s: seq<Byte>)
    ensures |s| == 17
  {
    LittleEndian(t.timeInForce, 4) + t.firm + [t.display, t.capacity, t.isoEligibility]
    + LittleEndian(t.minQuantity, 4) + [t.crossType, t.customerType]
  }

  function UnpackTerms(s: seq<Byte>): Terms
    requires |s| == 17
  {
    Widths();
    Terms(FromLittleEndian(s[..4]), s[4..8], s[8], s[9], s[10], FromLittleEndian(s[11..15]), s[15], s[16])
  }

  function Pack(m: Request): (s: seq<Byte>)
    ensures s != [] && SizeOf(s[0]) == |s|
  {
    match m
    case Enter(token, side, shares, stock, price, terms, stamps) =>
      [ENTER_ORDER] + token + [side] + LittleEndian(shares, 4) + stock + LittleEndian(price, 4) + PackTerms(terms)
      + PackStamps(stamps)
    case Withdraw(token, shares) => [CANCEL_ORDER] + token + LittleEndian(shares, 4)
  }

  /** A complete message of a known type. */
  predicate Whole(s: seq<Byte>) {
    s != [] && SizeOf(s[0]) == |s|
  }

  function Unpack(s: seq<Byte>): Request
    requires Whole(s)
  {
    Widths();
    if s[0] == ENTER_ORDER then
      Enter(s[1..15], s[15], FromLittleEndian(s[16..20]), s[20..28], FromLittleEndian(s[28..32]),
            UnpackTerms(s[32..49]), UnpackStamps(s[49..81]))
    else Withdraw(s[1..15], FromLittleEndian(s[15..19]))
  }

  lemma StampsRoundTrip(t: Stamps)
    ensures UnpackStamps(PackStamps(t)) == t
  {
    hide LittleEndian, FromLittleEndian;
    Widths();
    BytesRoundTrip(t.exchangeSend, 8);
    BytesRoundTrip(t.tradingRecv, 8);
    BytesRoundTrip(t.tradingEnq, 8);
    BytesRoundTrip(t.networkDeq, 8);
    var s := PackStamps(t);
    assert s[..8] == LittleEndian(t.exchangeSend, 8) && s[8..16] == LittleEndian(t.tradingRecv, 8);
    assert s[16..24] == LittleEndian(t.tradingEnq, 8) && s[24..] == LittleEndian(t.networkDeq, 8);
  }

  lemma TermsRoundTrip(t: Terms)
    ensures UnpackTerms(PackTerms(t)) == t
  {
    hide LittleEndian, FromLittleEndian;
    Widths();
    BytesRoundTrip(t.timeInForce, 4);
    BytesRoundTrip(t.minQuantity, 4);
    var s := PackTerms(t);
    assert s[..4] == LittleEndian(t.timeInForce, 4) && s[4..8] == t.firm;
    assert s[11..15] == LittleEndian(t.minQuantity, 4);
  }

  /** A packed request reads back as it was. */
  lemma RequestRoundTrip(m: Request)
    ensures Unpack(Pack(m)) == m
  {
    hide LittleEndian, FromLittleEndian, PackTerms, UnpackTerms, PackStamps, UnpackStamps;
    Widths();
    BytesRoundTrip(m.shares, 4);
    var s := Pack(m);
    assert s[1..15] == m.token;
    if m.Enter? {
      BytesRoundTrip(m.price, 4);
      TermsRoundTrip(m.terms);
      StampsRoundTrip(m.stamps);
      assert s[16..20] == LittleEndian(m.shares, 4) && s[20..28] == m.stock;
      assert s[28..32] == LittleEndian(m.price, 4);
      assert s[32..49] == PackTerms(m.terms);
      assert s[49..81] == PackStamps(m.stamps);
    } else {
      assert s[15..19] == LittleEndian(m.shares, 4);
    }
  }

  /** And every complete message is some request, packed: no two byte strings read the same. */
  lemma BytesAreRequest(s: seq<Byte>)
    requires Whole(s)
    ensures Pack(Unpack(s)) == s
  {
    hide LittleEndian, FromLittleEndian, PackTerms, UnpackTerms, PackStamps, UnpackStamps;
    var m := Unpack(s);
    if s[0] == ENTER_ORDER {
      ValueRoundTrip(s[16..20]);
      ValueRoundTrip(s[28..32]);
      TermsAreBytes(s[32..49]);
      StampsAreBytes(s[49..81]);
    } else {
      ValueRoundTrip(s[15..19]);
    }
  }

  lemma TermsAreBytes(s: seq<Byte>)
    requires |s| == 17
    ensures PackTerms(UnpackTerms(s)) == s
  {
    hide LittleEndian, FromLittleEndian;
    ValueRoundTrip(s[..4]);
    ValueRoundTrip(s[11..15]);
  }

  lemma StampsAreBytes(s: seq<Byte>)
    requires |s| == 32
    ensures PackStamps(UnpackStamps(s)) == s
  {
    hide LittleEndian, FromLittleEndian;
    ValueRoundTrip(s[..8]);
    ValueRoundTrip(s[8..16]);
    ValueRoundTrip(s[16..24]);
    ValueRoundTrip(s[24..]);
  }

  // ---- streams of messages ----

  function PackAll(ms: seq<Request>): seq<Byte> {
    if ms == [] then [] else Pack(ms[0]) + PackAll(ms[1..])
  }

  function UnpackAll(messages: seq<seq<Byte>>): seq<Request>
    requires forall i :: 0 <= i < |messages| ==> Whole(messages[i])
  {
    seq(|messages|, i requires 0 <= i < |messages| => Unpack(messages[i]))
  }

  lemma {:induction false} ParsedAreWhole(s: seq<Byte>)
    ensures forall i :: 0 <= i < |Parse(s).messages| ==> Whole(Parse(s).messages[i])
    decreases |s|
  {
    hide Parse;
    if Complete(s) {
      ParseCons(s);
      ParsedAreWhole(s[SizeOf(s[0])..]);
    } else {
      ParseStops(s);
    }
  }

  /** Requests sent back to back, and the beginning of one more, are taken apart into exactly those requests. */
  lemma {:induction false} StreamRoundTrip(ms: seq<Request>, next: Request, n: nat)
    requires n < |Pack(next)|
    ensures var p := Parse(PackAll(ms) + Pack(next)[..n]);
      && p.rest == Pack(next)[..n] && !p.bad
      && (forall i :: 0 <= i < |p.messages| ==> Whole(p.messages[i])) && UnpackAll(p.messages) == ms
    decreases |ms|
  {
    hide Parse, Pack, Unpack;
    var s := PackAll(ms) + Pack(next)[..n];
    ParsedAreWhole(s);
    if ms == [] {
      ParseStops(s);
      assert s == Pack(next)[..n];
    } else {
      var first := Pack(ms[0]);
      assert s == first + (PackAll(ms[1..]) + Pack(next)[..n]);
      assert s[..|first|] == first && s[|first|..] == PackAll(ms[1..]) + Pack(next)[..n];
      ParseCons(s);
      StreamRoundTrip(ms[1..], next, n);
      RequestRoundTrip(ms[0]);
    }
  }

  // ---- what the worker does with a message ----

  /** The first step a worker takes on a request from a client's connection. */
  function LabelOf(w: nat, client: nat, m: Request): SlotProtocol.Label {
    match m
    case Enter(token, side, shares, stock, price, _, _) =>
      SlotProtocol.Allocate(w, client, Token(token), price, shares, Instrument(stock),
                            if side == BUY then Orders.Buy else Orders.Sell)
    case Withdraw(token, _) => SlotProtocol.LookUp(w, client, Token(token))
  }

  /** An order as the in-repo clients write it: zero-padded token, canonical symbol. */
  function EntryOf(token: U64, inst: U16, side: Byte, shares: U32, price: U32, terms: Terms, stamps: Stamps): Request {
    Enter(Padded(token, TOKEN_SIZE), side, shares, PREFIX + Padded(inst, 5), price, terms, stamps)
  }

  /** The worker reads out of an order message the order that was written, exactly when the token has at most 14 digits
      and the instrument is in range or is itself the invalid one. */
  lemma EntryIsReadIff(
      w: nat, client: nat, token: U64, inst: U16, side: Byte, shares: U32, price: U32, terms: Terms, stamps: Stamps)
    ensures var written := EntryOf(token, inst, side, shares, price, terms, stamps);
      var way := if side == BUY then Orders.Buy else Orders.Sell;
      LabelOf(w, client, Unpack(Pack(written))) == SlotProtocol.Allocate(w, client, token, price, shares, inst, way)
      <==> token < 100_000_000_000_000 && (inst < Orders.MAX_INSTRUMENTS || inst == INVALID_INSTRUMENT)
  {
    hide Pack, Unpack, Padded, Token, Instrument;
    RequestRoundTrip(EntryOf(token, inst, side, shares, price, terms, stamps));
    TokenRoundTripIff(token);
    SymbolRoundTrip(inst);
  }

  /** An order whose token field is not 14 digits, or whose symbol is not a canonical one, changes nothing. */
  lemma MalformedIsRefused(c: SlotProtocol.Config, st: SlotProtocol.State, w: nat, client: nat, m: Request)
    requires c.Valid() && Entered.Ready(c, st, w, client) && m.Enter?
    requires !AllDigits(m.token)
      || forall inst: U16 | inst < Orders.MAX_INSTRUMENTS :: m.stock != PREFIX + Padded(inst, 5)
    ensures SlotProtocol.Step(c, st, LabelOf(w, client, m)) == st
  {
    hide SlotProtocol.Step, Padded;
    var l := LabelOf(w, client, m);
    if AllDigits(m.token) && Instrument(m.stock) != INVALID_INSTRUMENT { SymbolFieldRoundTrip(m.stock); }
    assert !SlotProtocol.PassesRisk(l.token, l.price, l.qty, l.inst);
    Entered.EntryRefused(c, st, w, client, l.token, l.price, l.qty, l.inst, l.side);
  }
}
