/** Fields on the wire (messages.h:40-99): order tokens and instrument symbols in digits, numbers in binary. */
module Codec {
  import opened Framing
  import opened MachineInts
  import opened Orders

  const ZERO: Byte := 48   // '0'
  const TOKEN_SIZE: nat := 14
  const SYMBOL_SIZE: nat := 8
  const INVALID_ORDER_TOKEN: nat := 0xFFFF_FFFF_FFFF_FFFF
  const INVALID_INSTRUMENT: nat := 0xFFFF
  const PREFIX: seq<Byte> := [83, 84, 75]   // "STK"

  predicate IsDigit(c: Byte) { ZERO <= c <= ZERO + 9 }

  predicate AllDigits(s: seq<Byte>) { forall i :: 0 <= i < |s| ==> IsDigit(s[i]) }

  function Pow10(n: nat): (p: nat)
    ensures p > 0
  {
    if n == 0 then 1 else 10 * Pow10(n - 1)
  }

  /** The number a digit string denotes. */
  function Number(s: seq<Byte>): nat
    requires AllDigits(s)
  {
    if s == [] then 0 else 10 * Number(s[..|s| - 1]) + (s[|s| - 1] - ZERO)
  }

  /** The last n decimal digits of a number, zero-padded. */
  function Padded(value: nat, n: nat): (s: seq<Byte>)
    ensures |s| == n && AllDigits(s)
  {
    if n == 0 then [] else Padded(value / 10, n - 1) + [ZERO + value % 10]
  }

  lemma {:induction false} NumberIsBounded(s: seq<Byte>)
    requires AllDigits(s)
    ensures Number(s) < Pow10(|s|)
  {
    if s != [] { NumberIsBounded(s[..|s| - 1]); }
  }

  /** Reading back n digits of a number gives it modulo 10^n: exactly the number when it fits. */
  lemma {:induction false} NumberOfPadded(value: nat, n: nat)
    ensures Number(Padded(value, n)) == value % Pow10(n)
  {
    if n > 0 {
      NumberOfPadded(value / 10, n - 1);
      assert Padded(value, n)[..n - 1] == Padded(value / 10, n - 1);
      SplitDigit(value, Pow10(n - 1));
    }
  }

  lemma SplitDigit(value: nat, p: nat)
    requires p > 0
    ensures value % (10 * p) == 10 * (value / 10 % p) + value % 10
  {
    var q, r := value / 10 / p, value / 10 % p;
    assert value / 10 == q * p + r;
    assert value == q * (10 * p) + (10 * r + value % 10);
    assert 10 * r + value % 10 < 10 * p;
    DivModUnique(value, 10 * p, q, 10 * r + value % 10);
  }

  lemma DivModUnique(a: nat, d: nat, q: nat, r: nat)
    requires d > 0 && a == q * d + r && r < d
    ensures a % d == r
  {
    var k := a / d;
    assert a == k * d + a % d;
    assert k < q ==> (k + 1) * d <= q * d;
    assert q < k ==> (q + 1) * d <= k * d;
  }

  lemma {:induction false} PaddedOfNumber(s: seq<Byte>)
    requires AllDigits(s)
    ensures Padded(Number(s), |s|) == s
  {
    if s != [] { PaddedOfNumber(s[..|s| - 1]); }
  }

  // ---- binary fields ----

  function Pow256(n: nat): (p: nat)
    ensures p > 0
  {
    if n == 0 then 1 else 256 * Pow256(n - 1)
  }

  /** Little-endian bytes of an n-byte field; the field keeps the value modulo 256^n. */
  function LittleEndian(v: nat, n: nat): (s: seq<Byte>)
    ensures |s| == n
  {
    if n == 0 then [] else [v % 256] + LittleEndian(v / 256, n - 1)
  }

  function FromLittleEndian(s: seq<Byte>): (v: nat)
    ensures v < Pow256(|s|)
  {
    if s == [] then 0 else s[0] + 256 * FromLittleEndian(s[1..])
  }

  lemma {:induction false} BytesRoundTrip(v: nat, n: nat)
    requires v < Pow256(n)
    ensures FromLittleEndian(LittleEndian(v, n)) == v
  {
    if n > 0 {
      BytesRoundTrip(v / 256, n - 1);
      assert LittleEndian(v, n)[1..] == LittleEndian(v / 256, n - 1);
    }
  }

  lemma {:induction false} ValueRoundTrip(s: seq<Byte>)
    ensures LittleEndian(FromLittleEndian(s), |s|) == s
  {
    if s != [] { ValueRoundTrip(s[1..]); }
  }

  lemma Widths()
    ensures Pow256(4) == WRAP32 && Pow256(8) == WRAP64
  {
    assert Pow256(2) == 0x1_0000;
    assert Pow256(4) == WRAP32;
    assert Pow256(6) == 0x1_0000 * WRAP32;
  }

  /** The token a 14-byte field denotes, or the invalid token if any byte is not a digit. */
  function Token(field: seq<Byte>): nat {
    if AllDigits(field) then Number(field) else INVALID_ORDER_TOKEN
  }

  lemma TokenRange(field: seq<Byte>)
    requires |field| == TOKEN_SIZE
    ensures Token(field) == INVALID_ORDER_TOKEN <==> !AllDigits(field)
    ensures AllDigits(field) ==> Token(field) < Pow10(TOKEN_SIZE) == 100_000_000_000_000
  {
    assert Pow10(7) == 10_000_000;
    assert Pow10(TOKEN_SIZE) == 100_000_000_000_000;
    if AllDigits(field) { NumberIsBounded(field); }
  }

  method DecodeOrderToken(token: array<Byte>) returns (value: U64)
    requires token.Length >= TOKEN_SIZE
    ensures value == Token(token[..TOKEN_SIZE])
  {
    value := 0;
    for i := 0 to TOKEN_SIZE
      invariant AllDigits(token[..i]) && value == Number(token[..i])
    {
      var c := token[i];
      if c < 48 || c > 57 { return INVALID_ORDER_TOKEN; }
      assert token[..i + 1][..i] == token[..i];
      NumberFits(token[..i + 1]);
      value := value * 10 + (c - 48);
    }
  }

  /** Up to 14 digits the 64-bit accumulator does not wrap. */
  lemma NumberFits(s: seq<Byte>)
    requires AllDigits(s) && |s| <= TOKEN_SIZE
    ensures Number(s) < WRAP64
  {
    NumberIsBounded(s);
    Pow10Grows(|s|, TOKEN_SIZE);
    assert Pow10(7) == 10_000_000;
    assert Pow10(TOKEN_SIZE) == 100_000_000_000_000;
  }

  lemma {:induction false} Pow10Grows(m: nat, n: nat)
    requires m <= n
    ensures Pow10(m) <= Pow10(n)
  {
    if m < n { Pow10Grows(m, n - 1); }
  }

  method EncodeOrderToken(token: array<Byte>, value: U64)
    requires token.Length >= TOKEN_SIZE
    modifies token
    ensures token[..TOKEN_SIZE] == Padded(value, TOKEN_SIZE)
    ensures token[TOKEN_SIZE..] == old(token[TOKEN_SIZE..])
  {
    var rest: nat := value;
    var i: nat := TOKEN_SIZE;
    while i > 0
      invariant i <= TOKEN_SIZE
      invariant Padded(rest, i) + token[i..TOKEN_SIZE] == Padded(value, TOKEN_SIZE)
      invariant token[TOKEN_SIZE..] == old(token[TOKEN_SIZE..])
    {
      i := i - 1;
      ghost var tail := token[i + 1..TOKEN_SIZE];
      token[i] := ZERO + rest % 10;
      assert token[i..TOKEN_SIZE] == [ZERO + rest % 10] + tail;
      rest := rest / 10;
    }
  }

  /** A token survives the trip to the wire and back exactly when it has at most 14 digits. */
  lemma TokenRoundTripIff(value: U64)
    ensures Token(Padded(value, TOKEN_SIZE)) == value <==> value < 100_000_000_000_000
  {
    hide Padded, Number, Pow10;
    TokenRange(Padded(value, TOKEN_SIZE));
    NumberOfPadded(value, TOKEN_SIZE);
  }

  /** Every accepted field is reproduced byte for byte. */
  lemma TokenFieldRoundTrip(field: seq<Byte>)
    requires |field| == TOKEN_SIZE && Token(field) != INVALID_ORDER_TOKEN
    ensures Padded(Token(field), TOKEN_SIZE) == field
  {
    PaddedOfNumber(field);
  }

  /** The instrument an 8-byte symbol denotes: "STK", five digits, below the cap. */
  function Instrument(symbol: seq<Byte>): nat
    requires |symbol| == SYMBOL_SIZE
  {
    if symbol[..3] == PREFIX && AllDigits(symbol[3..]) && Number(symbol[3..]) < MAX_INSTRUMENTS
    then Number(symbol[3..])
    else INVALID_INSTRUMENT
  }

  method DecodeSymbol(stock: array<Byte>) returns (inst: U16)
    requires stock.Length >= SYMBOL_SIZE
    ensures inst == Instrument(stock[..SYMBOL_SIZE])
  {
    ghost var symbol: seq<Byte> := stock[..SYMBOL_SIZE];
    if stock[0] != 83 || stock[1] != 84 || stock[2] != 75 { return INVALID_INSTRUMENT; }
    var id := 0;
    for i := 3 to SYMBOL_SIZE
      invariant AllDigits(symbol[3..i]) && id == Number(symbol[3..i])
    {
      var c := stock[i];
      if c < 48 || c > 57 {
        assert !IsDigit(symbol[3..][i - 3]);
        return INVALID_INSTRUMENT;
      }
      assert symbol[3..i + 1] == symbol[3..i] + [c];
      assert symbol[3..i + 1][..i - 3] == symbol[3..i];
      id := id * 10 + (c - 48);
    }
    assert symbol[3..SYMBOL_SIZE] == symbol[3..] && symbol[..3] == PREFIX;
    if id >= MAX_INSTRUMENTS { return INVALID_INSTRUMENT; }
    inst := id;
  }

  method EncodeSymbol(stock: array<Byte>, inst: U16)
    requires stock.Length >= SYMBOL_SIZE
    modifies stock
    ensures stock[..SYMBOL_SIZE] == PREFIX + Padded(inst, 5) && stock[SYMBOL_SIZE..] == old(stock[SYMBOL_SIZE..])
  {
    stock[0], stock[1], stock[2] := 83, 84, 75;
    stock[3] := ZERO + inst / 10000 % 10;
    stock[4] := ZERO + inst / 1000 % 10;
    stock[5] := ZERO + inst / 100 % 10;
    stock[6] := ZERO + inst / 10 % 10;
    stock[7] := ZERO + inst % 10;
    FiveDigits(inst);
    assert stock[..SYMBOL_SIZE] == PREFIX + stock[3..8];
  }

  lemma FiveDigits(v: nat)
    ensures Padded(v, 5) ==
      [ZERO + v / 10000 % 10, ZERO + v / 1000 % 10, ZERO + v / 100 % 10, ZERO + v / 10 % 10, ZERO + v % 10]
  {
    assert v / 10 / 10 == v / 100 && v / 100 / 10 == v / 1000 && v / 1000 / 10 == v / 10000;
    assert Padded(v / 10000, 1) == [ZERO + v / 10000 % 10];
    assert Padded(v / 1000, 2) == [ZERO + v / 10000 % 10, ZERO + v / 1000 % 10];
    assert Padded(v / 100, 3) == [ZERO + v / 10000 % 10, ZERO + v / 1000 % 10, ZERO + v / 100 % 10];
  }

  /** An encoded id decodes to itself below the cap and to the invalid instrument otherwise. */
  lemma SymbolRoundTrip(inst: U16)
    ensures Instrument(PREFIX + Padded(inst, 5)) == if inst < MAX_INSTRUMENTS then inst else INVALID_INSTRUMENT
  {
    assert Pow10(5) == 100000;
    hide Padded, Number, Pow10;
    var symbol := PREFIX + Padded(inst, 5);
    assert symbol[..3] == PREFIX && symbol[3..] == Padded(inst, 5);
    NumberOfPadded(inst, 5);
  }

  /** Only the canonical symbol of an instrument decodes to it. */
  lemma SymbolFieldRoundTrip(symbol: seq<Byte>)
    requires |symbol| == SYMBOL_SIZE && Instrument(symbol) != INVALID_INSTRUMENT
    ensures Instrument(symbol) < MAX_INSTRUMENTS && symbol == PREFIX + Padded(Instrument(symbol), 5)
  {
    PaddedOfNumber(symbol[3..]);
    assert symbol == symbol[..3] + symbol[3..];
  }
}
