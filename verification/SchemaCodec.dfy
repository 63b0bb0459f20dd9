/** The fixed-layout payload codecs (crates/otap-schema).  Floating-point fields are their
    64-bit patterns. */
module SchemaCodec {
  import opened ByteStrings
  import opened Words
  import opened Wrappers

  type U32 = x: int | 0 <= x < 0x1_0000_0000
  type U64 = x: int | 0 <= x < 0x1_0000_0000_0000_0000
  type I64 = x: int | -0x8000_0000_0000_0000 <= x < 0x8000_0000_0000_0000
  type Bytes4 = b: Bytes | |b| == 4 witness [0, 0, 0, 0]
  type Bytes8 = b: Bytes | |b| == 8 witness [0, 0, 0, 0, 0, 0, 0, 0]
  type Bytes16 = b: Bytes | |b| == 16 witness [0, 0, 0, 0, 0, 0, 0, 0, 0, 0, 0, 0, 0, 0, 0, 0]

  // ---- big-endian integers ----

  function ToBigEndian(v: nat, n: nat): (b: Bytes)
    ensures |b| == n
  {
    if n == 0 then [] else ToBigEndian(v / 256, n - 1) + [v % 256]
  }

  function FromBigEndian(b: Bytes): nat {
    if b == [] then 0 else FromBigEndian(b[..|b| - 1]) * 256 + b[|b| - 1]
  }

  ghost function Pow256(n: nat): (r: nat)
    ensures r > 0
  {
    if n == 0 then 1 else 256 * Pow256(n - 1)
  }

  lemma {:induction false} FromTo(v: nat, n: nat)
    requires v < Pow256(n)
    ensures FromBigEndian(ToBigEndian(v, n)) == v
  {
    if n > 0 {
      FromTo(v / 256, n - 1);
      assert ToBigEndian(v, n)[..n - 1] == ToBigEndian(v / 256, n - 1);
    }
  }

  lemma {:induction false} ToFrom(b: Bytes)
    ensures FromBigEndian(b) < Pow256(|b|) && ToBigEndian(FromBigEndian(b), |b|) == b
  {
    if b != [] {
      var n := |b| - 1;
      ToFrom(b[..n]);
      QuotientUnique(FromBigEndian(b), 256, FromBigEndian(b[..n]), b[n]);
      assert b == b[..n] + [b[n]];
    }
  }

  lemma Widths()
    ensures Pow256(4) == 0x1_0000_0000 && Pow256(8) == 0x1_0000_0000_0000_0000
  {
    assert Pow256(2) == 0x1_0000 && Pow256(4) == 256 * 256 * Pow256(2);
    assert Pow256(6) == 256 * 256 * Pow256(4) && Pow256(8) == 256 * 256 * Pow256(6);
  }

  function Put32(v: U32): Bytes4 { ToBigEndian(v, 4) }

  function Put64(v: U64): Bytes8 { ToBigEndian(v, 8) }

  function Get32(b: Bytes4): U32 { ToFrom(b); Widths(); FromBigEndian(b) }

  function Get64(b: Bytes8): U64 { ToFrom(b); Widths(); FromBigEndian(b) }

  /** Two's complement. */
  function PutSigned(v: I64): Bytes8 {
    Put64(if v < 0 then v + 0x1_0000_0000_0000_0000 else v)
  }

  function GetSigned(b: Bytes8): I64 {
    var u := Get64(b);
    if u >= 0x8000_0000_0000_0000 then u - 0x1_0000_0000_0000_0000 else u
  }

  lemma Get32Put32(v: U32)
    ensures Get32(Put32(v)) == v
  {
    Widths();
    FromTo(v, 4);
  }

  lemma Get64Put64(v: U64)
    ensures Get64(Put64(v)) == v
  {
    Widths();
    FromTo(v, 8);
  }

  lemma Put64Get64(b: Bytes8)
    ensures Put64(Get64(b)) == b
  {
    ToFrom(b);
  }

  lemma SignedRoundTrip(v: I64, b: Bytes8)
    ensures GetSigned(PutSigned(v)) == v && PutSigned(GetSigned(b)) == b
  {
    Get64Put64(if v < 0 then v + 0x1_0000_0000_0000_0000 else v);
    Put64Get64(b);
  }

  // ---- values ----

  datatype Side = Buy | Sell

  datatype EquityTradeOrder = EquityTradeOrder(
    symbol: Bytes4, side: Side, quantity: U32, priceCents: U64, timestampNs: U64,
    clientOrderId: U64, firmUuid: Bytes16)

  datatype MarketTick = MarketTick(
    symbol: Bytes8, bidCents: U64, askCents: U64, lastCents: U64, volume: U64,
    timestampNs: U64, reserved: Bytes16)

  datatype Heartbeat = Heartbeat(nodeId: U64, clockOffsetNs: I64, heartbeatSeq: U64, reserved: Bytes8)

  datatype Value = Order(order: EquityTradeOrder) | Tick(tick: MarketTick) | Beat(beat: Heartbeat)

  datatype SchemaId = OrderId | TickId | BeatId

  function PayloadBytes(id: SchemaId): nat {
    match id case OrderId => 256 case TickId => 64 case BeatId => 32
  }

  function OamFor(id: SchemaId): int {
    match id case OrderId => 1 case TickId => 3 case BeatId => 4
  }

  function Resolve(oam: int): Option<SchemaId> {
    if oam == 1 then Some(OrderId) else if oam == 3 then Some(TickId) else if oam == 4 then Some(BeatId) else None
  }

  function IdOf(v: Value): SchemaId {
    match v case Order(_) => OrderId case Tick(_) => TickId case Beat(_) => BeatId
  }

  function SideByte(s: Side): Byte {
    if s == Buy then 0 else 1
  }

  // ---- the wire forms ----

  ghost function OrderHead(o: EquityTradeOrder): (b: Bytes)
    ensures |b| == 16
  {
    o.symbol + [SideByte(o.side)] + Zeros(3) + Put32(o.quantity) + Zeros(4)
  }

  ghost function OrderTail(o: EquityTradeOrder): (b: Bytes)
    ensures |b| == 40
  {
    Put64(o.priceCents) + Put64(o.timestampNs) + Put64(o.clientOrderId) + o.firmUuid
  }

  ghost function OrderBytes(o: EquityTradeOrder): (b: Bytes)
    ensures |b| == 256
  {
    OrderHead(o) + OrderTail(o) + Zeros(200)
  }

  ghost function TickBytes(t: MarketTick): (b: Bytes)
    ensures |b| == 64
  {
    t.symbol + Put64(t.bidCents) + Put64(t.askCents) + Put64(t.lastCents)
    + Put64(t.volume) + Put64(t.timestampNs) + t.reserved
  }

  ghost function BeatBytes(h: Heartbeat): (b: Bytes)
    ensures |b| == 32
  {
    Put64(h.nodeId) + PutSigned(h.clockOffsetNs) + Put64(h.heartbeatSeq) + h.reserved
  }

  ghost function Encoded(v: Value): (b: Bytes)
    ensures |b| == PayloadBytes(IdOf(v))
  {
    match v case Order(o) => OrderBytes(o) case Tick(t) => TickBytes(t) case Beat(h) => BeatBytes(h)
  }

  datatype Error = SchemaMismatch(oam: int, expected: nat, actual: nat) | BadSide | UnknownOam(oam: int)

  function DecodeOrder(b: Bytes): Result<EquityTradeOrder, Error> {
    if |b| != 256 then Err(SchemaMismatch(1, 256, |b|))
    else if b[4] > 1 then Err(BadSide)
    else Ok(EquityTradeOrder(
      b[0..4], if b[4] == 0 then Buy else Sell, Get32(b[8..12]), Get64(b[16..24]), Get64(b[24..32]),
      Get64(b[32..40]), b[40..56]))
  }

  function DecodeTick(b: Bytes): Result<MarketTick, Error> {
    if |b| != 64 then Err(SchemaMismatch(3, 64, |b|))
    else Ok(MarketTick(
      b[0..8], Get64(b[8..16]), Get64(b[16..24]), Get64(b[24..32]), Get64(b[32..40]), Get64(b[40..48]), b[48..64]))
  }

  function DecodeBeat(b: Bytes): Result<Heartbeat, Error> {
    if |b| != 32 then Err(SchemaMismatch(4, 32, |b|))
    else Ok(Heartbeat(Get64(b[0..8]), GetSigned(b[8..16]), Get64(b[16..24]), b[24..32]))
  }

  /** The payload is decoded by the schema its OAM mode selects. */
  function Decode(oam: int, b: Bytes): Result<Value, Error> {
    match Resolve(oam)
    case None => Err(UnknownOam(oam))
    case Some(OrderId) =>
      (match DecodeOrder(b) case Ok(o) => Ok(Order(o)) case Err(e) => Err(e))
    case Some(TickId) =>
      (match DecodeTick(b) case Ok(t) => Ok(Tick(t)) case Err(e) => Err(e))
    case Some(BeatId) =>
      (match DecodeBeat(b) case Ok(h) => Ok(Beat(h)) case Err(e) => Err(e))
  }

  /** The bytes of an order that carry nothing. */
  predicate ReservedZero(b: Bytes)
    requires |b| == 256
  {
    b[5..8] == Zeros(3) && b[12..16] == Zeros(4) && b[56..256] == Zeros(200)
  }

  // ---- decoding undoes encoding ----

  lemma OrderSlices(o: EquityTradeOrder)
    ensures var b := OrderBytes(o);
      && b[0..4] == o.symbol && b[4] == SideByte(o.side) && b[8..12] == Put32(o.quantity)
      && b[16..56] == OrderTail(o)
  {
    var b := OrderBytes(o);
    assert b[..16] == OrderHead(o);
    assert b[0..4] == b[..16][0..4] && b[8..12] == b[..16][8..12] && b[4] == b[..16][4];
  }

  lemma SubSlice(b: Bytes, lo: nat, hi: nat, i: nat, j: nat)
    requires lo <= hi <= |b| && i <= j <= hi - lo
    ensures b[lo..hi][i..j] == b[lo + i..lo + j]
  {
    var x, y := b[lo..hi][i..j], b[lo + i..lo + j];
    assert |x| == |y| && forall k :: 0 <= k < |x| ==> x[k] == b[lo..hi][i + k] == y[k];
  }

  lemma OrderTailParts(o: EquityTradeOrder)
    ensures var t := OrderTail(o);
      && t[0..8] == Put64(o.priceCents) && t[8..16] == Put64(o.timestampNs)
      && t[16..24] == Put64(o.clientOrderId) && t[24..40] == o.firmUuid
  {
  }

  lemma OrderTailSlices(o: EquityTradeOrder, b: Bytes)
    requires |b| == 256 && b[16..56] == OrderTail(o)
    ensures b[16..24] == Put64(o.priceCents) && b[24..32] == Put64(o.timestampNs)
    ensures b[32..40] == Put64(o.clientOrderId) && b[40..56] == o.firmUuid
  {
    OrderTailParts(o);
    SubSlice(b, 16, 56, 0, 8);
    SubSlice(b, 16, 56, 8, 16);
    SubSlice(b, 16, 56, 16, 24);
    SubSlice(b, 16, 56, 24, 40);
  }

  lemma OrderRoundTrip(o: EquityTradeOrder)
    ensures DecodeOrder(OrderBytes(o)) == Ok(o)
  {
    OrderSlices(o);
    OrderTailSlices(o, OrderBytes(o));
    Get32Put32(o.quantity);
    Get64Put64(o.priceCents);
    Get64Put64(o.timestampNs);
    Get64Put64(o.clientOrderId);
  }

  lemma TickSlices(t: MarketTick)
    ensures var b := TickBytes(t);
      && b[0..8] == t.symbol && b[8..16] == Put64(t.bidCents) && b[16..24] == Put64(t.askCents)
      && b[24..32] == Put64(t.lastCents) && b[32..40] == Put64(t.volume)
      && b[40..48] == Put64(t.timestampNs) && b[48..64] == t.reserved
  {
  }

  lemma TickRoundTrip(t: MarketTick)
    ensures DecodeTick(TickBytes(t)) == Ok(t)
  {
    TickSlices(t);
    Get64Put64(t.bidCents);
    Get64Put64(t.askCents);
    Get64Put64(t.lastCents);
    Get64Put64(t.volume);
    Get64Put64(t.timestampNs);
  }

  lemma BeatSlices(h: Heartbeat)
    ensures var b := BeatBytes(h);
      && b[0..8] == Put64(h.nodeId) && b[8..16] == PutSigned(h.clockOffsetNs)
      && b[16..24] == Put64(h.heartbeatSeq) && b[24..32] == h.reserved
  {
  }

  lemma BeatRoundTrip(h: Heartbeat)
    ensures DecodeBeat(BeatBytes(h)) == Ok(h)
  {
    BeatSlices(h);
    Get64Put64(h.nodeId);
    SignedRoundTrip(h.clockOffsetNs, h.reserved);
    Get64Put64(h.heartbeatSeq);
  }

  // ---- where each field lies on the wire ----

  /** Byte k of n, most significant first, of v. */
  ghost function ByteOf(v: nat, n: nat, k: nat): nat
    requires k < n
  {
    v / Pow256(n - 1 - k) % 256
  }

  lemma {:induction false} BigEndianByte(v: nat, n: nat, k: nat)
    requires k < n
    ensures ToBigEndian(v, n)[k] == ByteOf(v, n, k)
  {
    if k < n - 1 {
      BigEndianByte(v / 256, n - 1, k);
      var m := Pow256(n - 2 - k);
      DivideTwice(v, m);
    }
  }

  lemma DivideTwice(v: nat, m: nat)
    requires m > 0
    ensures v / 256 / m == v / (256 * m)
  {
    var q, r := v / 256, v % 256;
    var q', r' := q / m, q % m;
    assert v == 256 * m * q' + (256 * r' + r);
    QuotientUnique(v, 256 * m, q', 256 * r' + r);
  }

  /** The n bytes at position `at` are v, most significant first. */
  ghost predicate NumberAt(b: Bytes, at: nat, n: nat, v: nat) {
    at + n <= |b| && forall k :: 0 <= k < n ==> b[at + k] == ByteOf(v, n, k)
  }

  lemma NumberIsAt(b: Bytes, at: nat, n: nat, v: nat)
    requires at + n <= |b| && b[at..at + n] == ToBigEndian(v, n)
    ensures NumberAt(b, at, n, v)
  {
    forall k | 0 <= k < n ensures b[at + k] == ByteOf(v, n, k) {
      assert b[at + k] == b[at..at + n][k];
      BigEndianByte(v, n, k);
    }
  }

  lemma OrderOnWire(o: EquityTradeOrder)
    ensures var b := OrderBytes(o);
      && |b| == 256 && b[0..4] == o.symbol && b[4] == (if o.side == Buy then 0 else 1)
      && NumberAt(b, 8, 4, o.quantity) && NumberAt(b, 16, 8, o.priceCents) && NumberAt(b, 24, 8, o.timestampNs)
      && NumberAt(b, 32, 8, o.clientOrderId) && b[40..56] == o.firmUuid && ReservedZero(b)
  {
    var b := OrderBytes(o);
    OrderSlices(o);
    OrderTailSlices(o, b);
    NumberIsAt(b, 8, 4, o.quantity);
    NumberIsAt(b, 16, 8, o.priceCents);
    NumberIsAt(b, 24, 8, o.timestampNs);
    NumberIsAt(b, 32, 8, o.clientOrderId);
    OrderReserved(o);
  }

  lemma OrderReserved(o: EquityTradeOrder)
    ensures ReservedZero(OrderBytes(o))
  {
    var b := OrderBytes(o);
    assert b[..16] == OrderHead(o);
    assert b[5..8] == b[..16][5..8] && b[12..16] == b[..16][12..16];
  }

  lemma TickOnWire(t: MarketTick)
    ensures var b := TickBytes(t);
      && |b| == 64 && b[0..8] == t.symbol && NumberAt(b, 8, 8, t.bidCents) && NumberAt(b, 16, 8, t.askCents)
      && NumberAt(b, 24, 8, t.lastCents) && NumberAt(b, 32, 8, t.volume) && NumberAt(b, 40, 8, t.timestampNs)
      && b[48..64] == t.reserved
  {
    var b := TickBytes(t);
    TickSlices(t);
    NumberIsAt(b, 8, 8, t.bidCents);
    NumberIsAt(b, 16, 8, t.askCents);
    NumberIsAt(b, 24, 8, t.lastCents);
    NumberIsAt(b, 32, 8, t.volume);
    NumberIsAt(b, 40, 8, t.timestampNs);
  }

  lemma TwosComplement(v: I64)
    ensures PutSigned(v) == ToBigEndian(v % 0x1_0000_0000_0000_0000, 8)
  {
  }

  /** Signed offsets are on the wire modulo 2^64. */
  lemma BeatOnWire(h: Heartbeat, offset: nat)
    requires offset == h.clockOffsetNs % 0x1_0000_0000_0000_0000
    ensures var b := BeatBytes(h);
      && |b| == 32 && NumberAt(b, 0, 8, h.nodeId) && NumberAt(b, 8, 8, offset)
      && NumberAt(b, 16, 8, h.heartbeatSeq) && b[24..32] == h.reserved
  {
    var b := BeatBytes(h);
    BeatSlices(h);
    TwosComplement(h.clockOffsetNs);
    NumberIsAt(b, 0, 8, h.nodeId);
    NumberIsAt(b, 8, 8, offset);
    NumberIsAt(b, 16, 8, h.heartbeatSeq);
  }

  /** Every value survives encoding, dispatch on its OAM mode and decoding. */
  lemma RoundTrip(v: Value)
    ensures Decode(OamFor(IdOf(v)), Encoded(v)) == Ok(v)
  {
    match v {
      case Order(o) => OrderRoundTrip(o);
      case Tick(t) => TickRoundTrip(t);
      case Beat(h) => BeatRoundTrip(h);
    }
  }

  // ---- encoding undoes decoding, but for the reserved bytes of an order ----

  lemma TickBytesBack(b: Bytes)
    requires |b| == 64
    ensures TickBytes(DecodeTick(b).value) == b
  {
    Put64Get64(b[8..16]);
    Put64Get64(b[16..24]);
    Put64Get64(b[24..32]);
    Put64Get64(b[32..40]);
    Put64Get64(b[40..48]);
    assert b == b[0..8] + b[8..16] + b[16..24] + b[24..32] + b[32..40] + b[40..48] + b[48..64];
  }

  lemma BeatBytesBack(b: Bytes)
    requires |b| == 32
    ensures BeatBytes(DecodeBeat(b).value) == b
  {
    Put64Get64(b[0..8]);
    SignedRoundTrip(0, b[8..16]);
    Put64Get64(b[16..24]);
    assert b == b[0..8] + b[8..16] + b[16..24] + b[24..32];
  }

  lemma OrderTailBack(b: Bytes)
    requires |b| == 256 && b[4] <= 1
    ensures OrderTail(DecodeOrder(b).value) == b[16..56]
  {
    Put64Get64(b[16..24]);
    Put64Get64(b[24..32]);
    Put64Get64(b[32..40]);
    assert b[16..56] == b[16..24] + b[24..32] + b[32..40] + b[40..56];
  }

  lemma OrderHeadBack(b: Bytes)
    requires |b| == 256 && b[4] <= 1
    ensures OrderHead(DecodeOrder(b).value) == b[0..4] + [b[4]] + Zeros(3) + b[8..12] + Zeros(4)
  {
    ToFrom(b[8..12]);
  }

  lemma OrderBytesBackIff(b: Bytes)
    requires |b| == 256 && b[4] <= 1
    ensures OrderBytes(DecodeOrder(b).value) == b <==> ReservedZero(b)
  {
    OrderHeadBack(b);
    OrderTailBack(b);
    var back := b[0..4] + [b[4]] + Zeros(3) + b[8..12] + Zeros(4) + b[16..56] + Zeros(200);
    assert OrderBytes(DecodeOrder(b).value) == back;
    assert back[5..8] == Zeros(3) && back[12..16] == Zeros(4) && back[56..256] == Zeros(200);
    assert b == b[0..4] + [b[4]] + b[5..8] + b[8..12] + b[12..16] + b[16..56] + b[56..256];
  }

  /** A payload that decodes is the encoding of the value it decodes to, exactly when it is
      not an order with a reserved byte set. */
  lemma EncodeAfterDecodeIff(oam: int, b: Bytes)
    requires Decode(oam, b).Ok?
    ensures Encoded(Decode(oam, b).value) == b <==> (oam == 1 ==> ReservedZero(b))
  {
    if oam == 1 {
      OrderBytesBackIff(b);
    } else if oam == 3 {
      TickBytesBack(b);
    } else {
      BeatBytesBack(b);
    }
  }

  // ---- the encoders fill a zeroed buffer in place ----

  /** Copies `bytes` to position `at` of a buffer that holds `done` and zeros after it. */
  method Fill(buf: array<Byte>, at: nat, bytes: Bytes, ghost done: Bytes)
    requires |done| <= at && at + |bytes| <= buf.Length
    requires buf[..] == done + Zeros(buf.Length - |done|)
    modifies buf
    ensures var next := done + Zeros(at - |done|) + bytes;
      buf[..] == next + Zeros(buf.Length - |next|)
  {
    for i := 0 to |bytes|
      invariant buf[..at] == done + Zeros(at - |done|)
      invariant buf[at..at + i] == bytes[..i]
      invariant buf[at + i..] == Zeros(buf.Length - at - i)
    {
      buf[at + i] := bytes[i];
    }
    assert buf[..] == buf[..at] + buf[at..at + |bytes|] + buf[at + |bytes|..];
  }

  /** Copies `bytes` right after `done`. */
  method FillNext(buf: array<Byte>, at: nat, bytes: Bytes, ghost done: Bytes)
    requires |done| == at && at + |bytes| <= buf.Length
    requires buf[..] == done + Zeros(buf.Length - at)
    modifies buf
    ensures buf[..] == (done + bytes) + Zeros(buf.Length - at - |bytes|)
  {
    Fill(buf, at, bytes, done);
    assert done + Zeros(0) == done;
  }

  lemma OrderConcat(o: EquityTradeOrder)
    ensures [] + o.symbol + [SideByte(o.side)] + Zeros(3) + Put32(o.quantity) + Zeros(4) + Put64(o.priceCents)
      + Put64(o.timestampNs) + Put64(o.clientOrderId) + o.firmUuid == OrderHead(o) + OrderTail(o)
  {
    assert [] + o.symbol == o.symbol;
  }

  method EncodeOrder(o: EquityTradeOrder) returns (b: Bytes)
    ensures b == OrderBytes(o)
  {
    var buf := new Byte[256](_ => 0);
    assert buf[..] == Zeros(256) == [] + Zeros(256);
    FillNext(buf, 0, o.symbol, []);
    FillNext(buf, 4, [SideByte(o.side)], [] + o.symbol);
    ghost var d2 := [] + o.symbol + [SideByte(o.side)];
    Fill(buf, 8, Put32(o.quantity), d2);
    ghost var d3 := d2 + Zeros(3) + Put32(o.quantity);
    Fill(buf, 16, Put64(o.priceCents), d3);
    ghost var d4 := d3 + Zeros(4) + Put64(o.priceCents);
    FillNext(buf, 24, Put64(o.timestampNs), d4);
    ghost var d5 := d4 + Put64(o.timestampNs);
    FillNext(buf, 32, Put64(o.clientOrderId), d5);
    ghost var d6 := d5 + Put64(o.clientOrderId);
    FillNext(buf, 40, o.firmUuid, d6);
    OrderConcat(o);
    b := buf[..];
  }

  method EncodeTick(t: MarketTick) returns (b: Bytes)
    ensures b == TickBytes(t)
  {
    var buf := new Byte[64](_ => 0);
    assert buf[..] == Zeros(64) == [] + Zeros(64);
    FillNext(buf, 0, t.symbol, []);
    assert [] + t.symbol == t.symbol;
    FillNext(buf, 8, Put64(t.bidCents), t.symbol);
    ghost var d2 := t.symbol + Put64(t.bidCents);
    FillNext(buf, 16, Put64(t.askCents), d2);
    ghost var d3 := d2 + Put64(t.askCents);
    FillNext(buf, 24, Put64(t.lastCents), d3);
    ghost var d4 := d3 + Put64(t.lastCents);
    FillNext(buf, 32, Put64(t.volume), d4);
    ghost var d5 := d4 + Put64(t.volume);
    FillNext(buf, 40, Put64(t.timestampNs), d5);
    ghost var d6 := d5 + Put64(t.timestampNs);
    FillNext(buf, 48, t.reserved, d6);
    b := buf[..];
    assert b == d6 + t.reserved;
  }

  method EncodeBeat(h: Heartbeat) returns (b: Bytes)
    ensures b == BeatBytes(h)
  {
    var buf := new Byte[32](_ => 0);
    assert buf[..] == Zeros(32) == [] + Zeros(32);
    FillNext(buf, 0, Put64(h.nodeId), []);
    assert [] + Put64(h.nodeId) == Put64(h.nodeId);
    FillNext(buf, 8, PutSigned(h.clockOffsetNs), Put64(h.nodeId));
    ghost var d2 := Put64(h.nodeId) + PutSigned(h.clockOffsetNs);
    FillNext(buf, 16, Put64(h.heartbeatSeq), d2);
    ghost var d3 := d2 + Put64(h.heartbeatSeq);
    FillNext(buf, 24, h.reserved, d3);
    b := buf[..];
    assert b == d3 + h.reserved;
  }

  /** The symbol of a new order: the first four bytes, padded with zeros. */
  method PadSymbol(symbol: Bytes) returns (sym: Bytes4)
    ensures sym == if |symbol| >= 4 then symbol[..4] else symbol + Zeros(4 - |symbol|)
  {
    var buf := new Byte[4](_ => 0);
    var n := if |symbol| < 4 then |symbol| else 4;
    for i := 0 to n
      invariant forall k :: 0 <= k < 4 ==> buf[k] == if k < i then symbol[k] else 0
    {
      buf[i] := symbol[i];
    }
    sym := buf[..];
  }
}
