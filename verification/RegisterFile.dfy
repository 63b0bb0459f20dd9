/** The control and status registers of the bridge gateway (crates/otap-csr/src/lib.rs): 256
    words, typed writers that pack values into them, typed readers that unpack them. */
module RegisterFile {
  import opened Wrappers

  const CSR_SPACE_BYTES := 0x400
  const CSR_SPACE_WORDS := 256

  const REG_WAVELENGTH := 0x000
  const REG_CTRL := 0x004
  const REG_AUTH_TOLERANCE := 0x008
  const REG_SECRET_BASE := 0x010
  const REG_SECRET_VALID := 0x030
  const REG_SCHEMA_PAYLOAD_BASE := 0x040
  const REG_OAM_TABLE_BASE := 0x100
  const SCHEMA_TABLE_ENTRIES := 32
  const MAX_CHANNEL: bv16 := 351

  datatype Error = OutOfRange(offset: nat) | Misaligned(offset: nat) | SchemaIdOutOfRange(id: nat)
                 | OamOutOfRange(charge: int) | WavelengthOutOfRange(channel: bv16)

  // ---- bits ----

  function LowHalf(w: bv32): bv16 { (w & 0xFFFF) as bv16 }

  function HighHalf(w: bv32): bv16 { ((w >> 16) & 0xFFFF) as bv16 }

  function PutLowHalf(w: bv32, v: bv16): bv32 { (w & 0xFFFF_0000) | (v as bv32) }

  function PutHighHalf(w: bv32, v: bv16): bv32 { (w & 0x0000_FFFF) | ((v as bv32) << 16) }

  function Half(w: bv32, entry: nat): bv16 {
    if entry % 2 == 0 then LowHalf(w) else HighHalf(w)
  }

  function PutHalf(w: bv32, entry: nat, v: bv16): bv32 {
    if entry % 2 == 0 then PutLowHalf(w, v) else PutHighHalf(w, v)
  }

  lemma LowHalfFacts(w: bv32, v: bv16)
    ensures LowHalf(PutLowHalf(w, v)) == v && HighHalf(PutLowHalf(w, v)) == HighHalf(w)
  {
  }

  lemma HighHalfFacts(w: bv32, v: bv16)
    ensures HighHalf(PutHighHalf(w, v)) == v && LowHalf(PutHighHalf(w, v)) == LowHalf(w)
  {
  }

  lemma HalfOfPutHalf(w: bv32, entry: nat, v: bv16, other: nat)
    ensures Half(PutHalf(w, entry, v), other) == if other % 2 == entry % 2 then v else Half(w, other)
  {
    LowHalfFacts(w, v);
    HighHalfFacts(w, v);
  }

  /** Four bytes as a word, most significant first, and back. */
  function FromBigEndian(a: bv8, b: bv8, c: bv8, d: bv8): bv32 {
    ((a as bv32) << 24) | ((b as bv32) << 16) | ((c as bv32) << 8) | (d as bv32)
  }

  function ToBigEndian(w: bv32): (r: seq<bv8>)
    ensures |r| == 4
  {
    [((w >> 24) & 0xFF) as bv8, ((w >> 16) & 0xFF) as bv8, ((w >> 8) & 0xFF) as bv8, (w & 0xFF) as bv8]
  }

  lemma BigEndianRoundTrip(a: bv8, b: bv8, c: bv8, d: bv8)
    ensures ToBigEndian(FromBigEndian(a, b, c, d)) == [a, b, c, d]
  {
  }

  /** The bytes of a word, least significant first, and back. */
  function Lanes(w: bv32): (r: seq<bv8>)
    ensures |r| == 4
  {
    [(w & 0xFF) as bv8, ((w >> 8) & 0xFF) as bv8, ((w >> 16) & 0xFF) as bv8, ((w >> 24) & 0xFF) as bv8]
  }

  ghost function FromLanes(s: seq<bv8>): bv32
    requires |s| == 4
  {
    FromBigEndian(s[3], s[2], s[1], s[0])
  }

  lemma LanesOfFromLanes(s: seq<bv8>)
    requires |s| == 4
    ensures Lanes(FromLanes(s)) == s
  {
    LanesOfBytes(s[3], s[2], s[1], s[0]);
  }

  lemma LanesOfBytes(a: bv8, b: bv8, c: bv8, d: bv8)
    ensures Lanes(FromBigEndian(a, b, c, d)) == [d, c, b, a]
  {
  }

  function PutLane0(w: bv32, v: bv8): bv32 { (w & 0xFFFF_FF00) | (v as bv32) }

  function PutLane1(w: bv32, v: bv8): bv32 { (w & 0xFFFF_00FF) | ((v as bv32) << 8) }

  function PutLane2(w: bv32, v: bv8): bv32 { (w & 0xFF00_FFFF) | ((v as bv32) << 16) }

  function PutLane3(w: bv32, v: bv8): bv32 { (w & 0x00FF_FFFF) | ((v as bv32) << 24) }

  lemma PutLane0Replaces(w: bv32, v: bv8)
    ensures PutLane0(w, v) == FromLanes(Lanes(w)[0 := v])
  {
  }

  lemma PutLane1Replaces(w: bv32, v: bv8)
    ensures PutLane1(w, v) == FromLanes(Lanes(w)[1 := v])
  {
  }

  lemma PutLane2Replaces(w: bv32, v: bv8)
    ensures PutLane2(w, v) == FromLanes(Lanes(w)[2 := v])
  {
  }

  lemma PutLane3Replaces(w: bv32, v: bv8)
    ensures PutLane3(w, v) == FromLanes(Lanes(w)[3 := v])
  {
  }

  /** Byte k masked out and another shifted into its place. */
  function PutLane(w: bv32, k: nat, v: bv8): bv32 {
    if k == 0 then PutLane0(w, v)
    else if k == 1 then PutLane1(w, v)
    else if k == 2 then PutLane2(w, v)
    else PutLane3(w, v)
  }

  lemma PutLaneReplaces(w: bv32, k: nat, v: bv8)
    requires k < 4
    ensures PutLane(w, k, v) == FromLanes(Lanes(w)[k := v])
  {
    if k == 0 {
      PutLane0Replaces(w, v);
    } else if k == 1 {
      PutLane1Replaces(w, v);
    } else if k == 2 {
      PutLane2Replaces(w, v);
    } else {
      PutLane3Replaces(w, v);
    }
  }

  // ---- locations ----

  /** What can be configured, each with the words that hold it. */
  datatype Location = Channel | Ctrl | Tolerance | Secret | Payload(id: nat) | Schema(oam: int)

  datatype Value = Word(w: bv32) | Short(n: bv16) | Octet(b: bv8) | Key(bytes: seq<bv8>) | NoKey

  predicate ValidLocation(l: Location) {
    (l.Payload? ==> 1 <= l.id < SCHEMA_TABLE_ENTRIES) && (l.Schema? ==> -16 <= l.oam <= 16)
  }

  predicate ValidWrite(l: Location, v: Value) {
    && ValidLocation(l)
    && match l {
         case Channel => v.Short? && v.n <= MAX_CHANNEL
         case Ctrl => v.Word?
         case Tolerance => v.Word?
         case Secret => v.Key? && |v.bytes| == 32
         case Payload(_) => v.Short?
         case Schema(_) => v.Octet?
       }
  }

  function First(l: Location): nat
    requires ValidLocation(l)
    ensures First(l) + Count(l) <= CSR_SPACE_WORDS
  {
    match l
    case Channel => REG_WAVELENGTH / 4
    case Ctrl => REG_CTRL / 4
    case Tolerance => REG_AUTH_TOLERANCE / 4
    case Secret => REG_SECRET_BASE / 4
    case Payload(id) => REG_SCHEMA_PAYLOAD_BASE / 4 + id / 2
    case Schema(oam) => REG_OAM_TABLE_BASE / 4 + (oam + 16) / 4
  }

  /** The secret takes its eight words and the valid flag after them. */
  function Count(l: Location): nat {
    if l.Secret? then 9 else 1
  }

  ghost function PackedWord(bytes: seq<bv8>, i: nat): bv32
    requires |bytes| == 32 && i < 8
  {
    FromBigEndian(bytes[4 * i], bytes[4 * i + 1], bytes[4 * i + 2], bytes[4 * i + 3])
  }

  ghost function PackSecret(bytes: seq<bv8>): (ws: seq<bv32>)
    requires |bytes| == 32
    ensures |ws| == 9
  {
    seq(8, i requires 0 <= i < 8 => PackedWord(bytes, i)) + [1]
  }

  lemma PackedAt(bytes: seq<bv8>, i: nat)
    requires |bytes| == 32 && i < 8
    ensures PackSecret(bytes)[i] == FromBigEndian(bytes[i * 4], bytes[i * 4 + 1], bytes[i * 4 + 2], bytes[i * 4 + 3])
  {
  }

  ghost function UnpackSecret(ws: seq<bv32>): (bytes: seq<bv8>)
    requires |ws| == 9
    ensures |bytes| == 32
  {
    seq(32, k requires 0 <= k < 32 => ToBigEndian(ws[k / 4])[k % 4])
  }

  /** The words of a location after writing a value to it. */
  ghost function Encode(l: Location, v: Value, ws: seq<bv32>): (r: seq<bv32>)
    requires ValidWrite(l, v) && |ws| == Count(l)
    ensures |r| == |ws|
  {
    match l
    case Channel => [v.n as bv32]
    case Ctrl => [v.w]
    case Tolerance => [v.w]
    case Secret => PackSecret(v.bytes)
    case Payload(id) => [PutHalf(ws[0], id, v.n)]
    case Schema(oam) => [FromLanes(Lanes(ws[0])[(oam + 16) % 4 := v.b])]
  }

  ghost function Decode(l: Location, ws: seq<bv32>): Value
    requires ValidLocation(l) && |ws| == Count(l)
  {
    match l
    case Channel => Short(LowHalf(ws[0]))
    case Ctrl => Word(ws[0])
    case Tolerance => Word(ws[0])
    case Secret => if ws[8] & 1 != 0 then Key(UnpackSecret(ws)) else NoKey
    case Payload(id) => Short(Half(ws[0], id))
    case Schema(oam) => Octet(Lanes(ws[0])[(oam + 16) % 4])
  }

  lemma SecretRoundTrip(bytes: seq<bv8>)
    requires |bytes| == 32
    ensures UnpackSecret(PackSecret(bytes)) == bytes
  {
    forall k | 0 <= k < 32 ensures ToBigEndian(PackSecret(bytes)[k / 4])[k % 4] == bytes[k] {
      SecretByte(bytes, k / 4, k % 4);
    }
  }

  lemma SecretByte(bytes: seq<bv8>, i: nat, j: nat)
    requires |bytes| == 32 && i < 8 && j < 4
    ensures ToBigEndian(PackedWord(bytes, i))[j] == bytes[4 * i + j]
  {
    BigEndianRoundTrip(bytes[4 * i], bytes[4 * i + 1], bytes[4 * i + 2], bytes[4 * i + 3]);
  }

  lemma ChannelRoundTrip(c: bv16)
    ensures LowHalf(c as bv32) == c
  {
  }

  lemma PayloadRoundTrip(id: nat, v: bv16, w: bv32)
    requires 1 <= id < SCHEMA_TABLE_ENTRIES
    ensures Decode(Payload(id), Encode(Payload(id), Short(v), [w])) == Short(v)
  {
    HalfOfPutHalf(w, id, v, id);
  }

  lemma SchemaRoundTrip(oam: int, v: bv8, w: bv32)
    requires -16 <= oam <= 16
    ensures Decode(Schema(oam), Encode(Schema(oam), Octet(v), [w])) == Octet(v)
  {
    LanesOfFromLanes(Lanes(w)[(oam + 16) % 4 := v]);
  }

  lemma DecodeEncode(l: Location, v: Value, ws: seq<bv32>)
    requires ValidWrite(l, v) && |ws| == Count(l)
    ensures Decode(l, Encode(l, v, ws)) == v
  {
    if l.Payload? {
      assert ws == [ws[0]];
      PayloadRoundTrip(l.id, v.n, ws[0]);
    } else if l.Schema? {
      assert ws == [ws[0]];
      SchemaRoundTrip(l.oam, v.b, ws[0]);
    } else if l.Secret? {
      SecretRoundTrip(v.bytes);
    } else if l.Channel? {
      ChannelRoundTrip(v.n);
    }
  }

  // ---- the whole file ----

  ghost function Slice(l: Location, ws: seq<bv32>): (r: seq<bv32>)
    requires ValidLocation(l) && |ws| == CSR_SPACE_WORDS
    ensures |r| == Count(l)
  {
    ws[First(l)..First(l) + Count(l)]
  }

  ghost function Splice(ws: seq<bv32>, at: nat, part: seq<bv32>): (r: seq<bv32>)
    requires at + |part| <= |ws|
    ensures |r| == |ws|
  {
    ws[..at] + part + ws[at + |part|..]
  }

  ghost function Write(ws: seq<bv32>, l: Location, v: Value): (r: seq<bv32>)
    requires |ws| == CSR_SPACE_WORDS && ValidWrite(l, v)
    ensures |r| == CSR_SPACE_WORDS
  {
    Splice(ws, First(l), Encode(l, v, Slice(l, ws)))
  }

  ghost function Observe(ws: seq<bv32>, l: Location): Value
    requires |ws| == CSR_SPACE_WORDS && ValidLocation(l)
  {
    Decode(l, Slice(l, ws))
  }

  ghost predicate Apart(l: Location, m: Location)
    requires ValidLocation(l) && ValidLocation(m)
  {
    First(l) + Count(l) <= First(m) || First(m) + Count(m) <= First(l)
  }

  /** Two locations either have no word in common or are packed into the same one. */
  lemma ApartOrPacked(l: Location, m: Location)
    requires ValidLocation(l) && ValidLocation(m) && l != m
    ensures Apart(l, m)
         || (l.Payload? && m.Payload? && First(l) == First(m) && l.id % 2 != m.id % 2)
         || (l.Schema? && m.Schema? && First(l) == First(m) && (l.oam + 16) % 4 != (m.oam + 16) % 4)
  {
  }

  lemma SpliceElsewhere(ws: seq<bv32>, at: nat, part: seq<bv32>, lo: nat, hi: nat)
    requires at + |part| <= |ws| && lo <= hi <= |ws| && (hi <= at || at + |part| <= lo)
    ensures Splice(ws, at, part)[lo..hi] == ws[lo..hi]
  {
  }

  lemma SpliceHere(ws: seq<bv32>, at: nat, part: seq<bv32>)
    requires at + |part| <= |ws|
    ensures Splice(ws, at, part)[at..at + |part|] == part
  {
  }

  lemma SameWordPayload(ws: seq<bv32>, l: Location, v: Value, m: Location)
    requires |ws| == CSR_SPACE_WORDS && ValidWrite(l, v) && ValidLocation(m)
    requires l.Payload? && m.Payload? && First(l) == First(m) && l.id % 2 != m.id % 2
    ensures Decode(m, Encode(l, v, Slice(l, ws))) == Observe(ws, m)
  {
    HalfOfPutHalf(ws[First(l)], l.id, v.n, m.id);
  }

  lemma SameWordSchema(ws: seq<bv32>, l: Location, v: Value, m: Location)
    requires |ws| == CSR_SPACE_WORDS && ValidWrite(l, v) && ValidLocation(m)
    requires l.Schema? && m.Schema? && First(l) == First(m) && (l.oam + 16) % 4 != (m.oam + 16) % 4
    ensures Decode(m, Encode(l, v, Slice(l, ws))) == Observe(ws, m)
  {
    LanesOfFromLanes(Lanes(ws[First(l)])[(l.oam + 16) % 4 := v.b]);
  }

  lemma SliceAfterWrite(ws: seq<bv32>, l: Location, v: Value, m: Location)
    requires |ws| == CSR_SPACE_WORDS && ValidWrite(l, v) && ValidLocation(m)
    ensures Apart(l, m) ==> Slice(m, Write(ws, l, v)) == Slice(m, ws)
    ensures First(l) == First(m) && Count(l) == Count(m) ==> Slice(m, Write(ws, l, v)) == Encode(l, v, Slice(l, ws))
  {
    var part := Encode(l, v, Slice(l, ws));
    SpliceHere(ws, First(l), part);
    if Apart(l, m) {
      SpliceElsewhere(ws, First(l), part, First(m), First(m) + Count(m));
    }
  }

  /** The one law of the register map: after a write the location written reads back the
      value, and every other location reads as before, neighbours in the same word included. */
  lemma WriteThenObserve(ws: seq<bv32>, l: Location, v: Value, m: Location)
    requires |ws| == CSR_SPACE_WORDS && ValidWrite(l, v) && ValidLocation(m)
    ensures Observe(Write(ws, l, v), m) == if m == l then v else Observe(ws, m)
  {
    SliceAfterWrite(ws, l, v, m);
    if m == l {
      DecodeEncode(l, v, Slice(l, ws));
    } else {
      ApartOrPacked(l, m);
      if !Apart(l, m) {
        if l.Payload? {
          SameWordPayload(ws, l, v, m);
        } else {
          SameWordSchema(ws, l, v, m);
        }
      }
    }
  }

  // ---- where each setting lies ----

  /** Even entries are the low half of a word, odd ones the high half. */
  lemma HalfPlaced(w: bv32, id: nat, v: bv16)
    ensures id % 2 == 0 ==> PutHalf(w, id, v) & 0xFFFF == v as bv32 && PutHalf(w, id, v) >> 16 == w >> 16
    ensures id % 2 == 1 ==> PutHalf(w, id, v) >> 16 == v as bv32 && PutHalf(w, id, v) & 0xFFFF == w & 0xFFFF
  {
  }

  /** Byte k of a word is the k-th least significant one. */
  lemma LanesPlaced(s: seq<bv8>)
    requires |s| == 4
    ensures FromLanes(s) & 0xFF == s[0] as bv32 && (FromLanes(s) >> 8) & 0xFF == s[1] as bv32
    ensures (FromLanes(s) >> 16) & 0xFF == s[2] as bv32 && FromLanes(s) >> 24 == s[3] as bv32
  {
  }

  /** The new content of the one word a setting other than the secret lies in. */
  ghost function NewWord(l: Location, v: Value, w: bv32): bv32
    requires ValidWrite(l, v) && !l.Secret?
  {
    match l
    case Channel => v.n as bv32
    case Ctrl => v.w
    case Tolerance => v.w
    case Payload(id) => PutHalf(w, id, v.n)
    case Schema(oam) => FromLanes(Lanes(w)[(oam + 16) % 4 := v.b])
  }

  ghost function WordOf(l: Location): nat
    requires ValidLocation(l) && !l.Secret?
    ensures WordOf(l) < CSR_SPACE_WORDS
  {
    match l
    case Channel => 0
    case Ctrl => 1
    case Tolerance => 2
    case Payload(id) => 16 + id / 2
    case Schema(oam) => 64 + (oam + 16) / 4
  }

  /** A write changes its one word of the register map and no other. */
  lemma WriteLayout(ws: seq<bv32>, l: Location, v: Value)
    requires |ws| == CSR_SPACE_WORDS && ValidWrite(l, v) && !l.Secret?
    ensures Write(ws, l, v) == ws[WordOf(l) := NewWord(l, v, ws[WordOf(l)])]
  {
  }

  ghost predicate KeyWordAt(r: seq<bv32>, bytes: seq<bv8>, i: nat)
    requires |r| == CSR_SPACE_WORDS && |bytes| == 32 && i < 8
  {
    r[4 + i] == FromBigEndian(bytes[4 * i], bytes[4 * i + 1], bytes[4 * i + 2], bytes[4 * i + 3])
  }

  /** The secret lies big-endian in words 4 to 11, its flag in word 12. */
  lemma SecretLayout(ws: seq<bv32>, bytes: seq<bv8>)
    requires |ws| == CSR_SPACE_WORDS && |bytes| == 32
    ensures var r := Write(ws, Secret, Key(bytes));
      && r[..4] == ws[..4] && r[12] == 1 && r[13..] == ws[13..]
      && forall i :: 0 <= i < 8 ==> KeyWordAt(r, bytes, i)
  {
    var r := Write(ws, Secret, Key(bytes));
    assert r == ws[..4] + PackSecret(bytes) + ws[13..];
    forall i | 0 <= i < 8 ensures KeyWordAt(r, bytes, i) {
      PackedAt(bytes, i);
    }
  }

  // ---- runs ----

  datatype Op = Op(at: Location, value: Value)

  ghost predicate ValidOps(ops: seq<Op>) {
    forall i :: 0 <= i < |ops| ==> ValidWrite(ops[i].at, ops[i].value)
  }

  ghost function Run(ws: seq<bv32>, ops: seq<Op>): (r: seq<bv32>)
    requires |ws| == CSR_SPACE_WORDS && ValidOps(ops)
    ensures |r| == CSR_SPACE_WORDS
  {
    if ops == [] then ws
    else Write(Run(ws, ops[..|ops| - 1]), ops[|ops| - 1].at, ops[|ops| - 1].value)
  }

  /** The value written last to a location, or `initial` if none was. */
  ghost function LastWritten(ops: seq<Op>, l: Location, initial: Value): Value {
    if ops == [] then initial
    else if ops[|ops| - 1].at == l then ops[|ops| - 1].value
    else LastWritten(ops[..|ops| - 1], l, initial)
  }

  ghost function ResetValue(l: Location): Value {
    match l
    case Channel => Short(0)
    case Ctrl => Word(0)
    case Tolerance => Word(0)
    case Secret => NoKey
    case Payload(_) => Short(0)
    case Schema(_) => Octet(0)
  }

  ghost function ResetWords(): (ws: seq<bv32>)
    ensures |ws| == CSR_SPACE_WORDS
  {
    seq(CSR_SPACE_WORDS, _ => 0)
  }

  lemma ResetIsReset(l: Location)
    requires ValidLocation(l)
    ensures Observe(ResetWords(), l) == ResetValue(l)
  {
    assert Slice(l, ResetWords())[Count(l) - 1] == 0;
    assert Slice(l, ResetWords())[0] == 0;
  }

  /** After any sequence of configuration writes, each reader returns the value last written
      to its location, or the reset value. */
  lemma {:induction false} LastWriteWins(ops: seq<Op>, l: Location)
    requires ValidOps(ops) && ValidLocation(l)
    ensures Observe(Run(ResetWords(), ops), l) == LastWritten(ops, l, ResetValue(l))
  {
    if ops == [] {
      ResetIsReset(l);
    } else {
      var n := |ops| - 1;
      LastWriteWins(ops[..n], l);
      WriteThenObserve(Run(ResetWords(), ops[..n]), ops[n].at, ops[n].value, l);
    }
  }

  // ---- splices, for the writers ----

  lemma SpliceOne(ws: seq<bv32>, at: nat, w: bv32)
    requires at < |ws|
    ensures Splice(ws, at, [w]) == ws[at := w]
  {
  }

  lemma UnpackMore(ws: seq<bv32>, i: nat)
    requires |ws| == 9 && i < 8
    ensures UnpackSecret(ws)[..4 * i + 4] == UnpackSecret(ws)[..4 * i] + ToBigEndian(ws[i])
  {
  }

  lemma SecretSlice(ws: seq<bv32>)
    requires |ws| == CSR_SPACE_WORDS
    ensures forall j :: 0 <= j < 9 ==> Slice(Secret, ws)[j] == ws[4 + j]
  {
  }

  lemma SpliceNone(ws: seq<bv32>, at: nat)
    requires at <= |ws|
    ensures Splice(ws, at, []) == ws
  {
  }

  lemma SpliceMore(ws: seq<bv32>, at: nat, part: seq<bv32>, i: nat)
    requires i < |part| && at + |part| <= |ws|
    ensures Splice(ws, at, part[..i])[at + i := part[i]] == Splice(ws, at, part[..i + 1])
  {
  }

  // ---- the register file ----

  class Registers {
    const words: array<bv32>

    ghost predicate Valid() {
      words.Length == CSR_SPACE_WORDS
    }

    constructor ()
      ensures Valid() && fresh(words) && words[..] == ResetWords()
    {
      words := new bv32[CSR_SPACE_WORDS](_ => 0);
    }

    method ReadU32(offset: nat) returns (r: Result<bv32, Error>)
      requires Valid()
      ensures r.Err? <==> offset >= CSR_SPACE_BYTES || offset % 4 != 0
      ensures r.Err? ==> r.error == if offset >= CSR_SPACE_BYTES then OutOfRange(offset) else Misaligned(offset)
      ensures r.Ok? ==> r.value == words[offset / 4]
    {
      if offset >= CSR_SPACE_BYTES {
        return Err(OutOfRange(offset));
      }
      if offset % 4 != 0 {
        return Err(Misaligned(offset));
      }
      return Ok(words[offset / 4]);
    }

    method WriteU32(offset: nat, value: bv32) returns (r: Result<(), Error>)
      requires Valid()
      modifies words
      ensures r.Err? <==> offset >= CSR_SPACE_BYTES || offset % 4 != 0
      ensures r.Err? ==> r.error == if offset >= CSR_SPACE_BYTES then OutOfRange(offset) else Misaligned(offset)
      ensures words[..] == if r.Ok? then old(words[..])[offset / 4 := value] else old(words[..])
    {
      if offset >= CSR_SPACE_BYTES {
        return Err(OutOfRange(offset));
      }
      if offset % 4 != 0 {
        return Err(Misaligned(offset));
      }
      words[offset / 4] := value;
      return Ok(());
    }

    method SetWavelength(channel: bv16) returns (r: Result<(), Error>)
      requires Valid() && channel <= MAX_CHANNEL
      modifies words
      ensures r.Ok? && words[..] == Write(old(words[..]), Channel, Short(channel))
    {
      SpliceOne(words[..], First(Channel), channel as bv32);
      r := WriteU32(REG_WAVELENGTH, channel as bv32);
    }

    method SetCtrl(value: bv32) returns (r: Result<(), Error>)
      requires Valid()
      modifies words
      ensures r.Ok? && words[..] == Write(old(words[..]), Ctrl, Word(value))
    {
      SpliceOne(words[..], First(Ctrl), value);
      r := WriteU32(REG_CTRL, value);
    }

    method SetAuthTolerance(milliradians: bv32) returns (r: Result<(), Error>)
      requires Valid()
      modifies words
      ensures r.Ok? && words[..] == Write(old(words[..]), Tolerance, Word(milliradians))
    {
      SpliceOne(words[..], First(Tolerance), milliradians);
      r := WriteU32(REG_AUTH_TOLERANCE, milliradians);
    }

    method SetSecret(bytes: seq<bv8>) returns (r: Result<(), Error>)
      requires Valid() && |bytes| == 32
      modifies words
      ensures r.Ok? && words[..] == Write(old(words[..]), Secret, Key(bytes))
    {
      ghost var packed := PackSecret(bytes);
      ghost var before := words[..];
      SpliceNone(before, 4);
      for i := 0 to 8
        invariant words[..] == Splice(before, 4, packed[..i])
      {
        var word := FromBigEndian(bytes[i * 4], bytes[i * 4 + 1], bytes[i * 4 + 2], bytes[i * 4 + 3]);
        PackedAt(bytes, i);
        SpliceMore(before, 4, packed, i);
        r := WriteU32(REG_SECRET_BASE + i * 4, word);
      }
      SpliceMore(before, 4, packed, 8);
      assert packed[..9] == packed;
      r := WriteU32(REG_SECRET_VALID, 1);
    }

    method SetSchemaPayload(id: nat, payloadBytes: bv16) returns (r: Result<(), Error>)
      requires Valid()
      modifies words
      ensures r.Err? <==> id == 0 || id >= SCHEMA_TABLE_ENTRIES
      ensures r.Err? ==> r.error == SchemaIdOutOfRange(id) && words[..] == old(words[..])
      ensures r.Ok? ==> words[..] == Write(old(words[..]), Payload(id), Short(payloadBytes))
    {
      if id == 0 || id >= SCHEMA_TABLE_ENTRIES {
        return Err(SchemaIdOutOfRange(id));
      }
      var offset := REG_SCHEMA_PAYLOAD_BASE + (id / 2) * 4;
      var read := ReadU32(offset);
      var word := PutHalf(read.value, id, payloadBytes);
      SpliceOne(words[..], First(Payload(id)), word);
      r := WriteU32(offset, word);
    }

    method SetOamToSchema(oam: int, id: bv8) returns (r: Result<(), Error>)
      requires Valid()
      modifies words
      ensures r.Err? <==> oam < -16 || oam > 16
      ensures r.Err? ==> r.error == OamOutOfRange(oam) && words[..] == old(words[..])
      ensures r.Ok? ==> words[..] == Write(old(words[..]), Schema(oam), Octet(id))
    {
      var idx := oam + 16;
      if idx < 0 || idx > 32 {
        return Err(OamOutOfRange(oam));
      }
      var offset := REG_OAM_TABLE_BASE + (idx / 4) * 4;
      var read := ReadU32(offset);
      var word := PutLane(read.value, idx % 4, id);
      PutLaneReplaces(read.value, idx % 4, id);
      SpliceOne(words[..], First(Schema(oam)), word);
      r := WriteU32(offset, word);
    }

    method Wavelength() returns (r: Result<bv16, Error>)
      requires Valid()
      ensures var channel := Observe(words[..], Channel).n;
        r == if channel > MAX_CHANNEL then Err(WavelengthOutOfRange(channel)) else Ok(channel)
    {
      var word := ReadU32(REG_WAVELENGTH);
      var channel := LowHalf(word.value);
      r := if channel > MAX_CHANNEL then Err(WavelengthOutOfRange(channel)) else Ok(channel);
    }

    method ReadCtrl() returns (r: Result<bv32, Error>)
      requires Valid()
      ensures r.Ok? && Observe(words[..], Ctrl) == Word(r.value)
    {
      r := ReadU32(REG_CTRL);
    }

    /** In milliradians. */
    method AuthTolerance() returns (r: Result<bv32, Error>)
      requires Valid()
      ensures r.Ok? && Observe(words[..], Tolerance) == Word(r.value)
    {
      r := ReadU32(REG_AUTH_TOLERANCE);
    }

    method SecretValid() returns (valid: bool)
      requires Valid()
      ensures valid <==> Observe(words[..], Secret) != NoKey
    {
      var flag := ReadU32(REG_SECRET_VALID);
      SecretSlice(words[..]);
      return flag.value & 1 != 0;
    }

    /** Absent while the valid flag is clear. */
    method SharedSecret() returns (present: bool, bytes: seq<bv8>)
      requires Valid()
      ensures Observe(words[..], Secret) == if present then Key(bytes) else NoKey
    {
      var valid := SecretValid();
      bytes := [];
      ghost var slice := Slice(Secret, words[..]);
      SecretSlice(words[..]);
      if !valid {
        return false, [];
      }
      for i := 0 to 8
        invariant bytes == UnpackSecret(slice)[..4 * i]
      {
        var word := ReadU32(REG_SECRET_BASE + i * 4);
        UnpackMore(slice, i);
        bytes := bytes + ToBigEndian(word.value);
      }
      assert bytes == UnpackSecret(slice);
      return true, bytes;
    }

    method SchemaPayloadBytes(id: nat) returns (r: Result<bv16, Error>)
      requires Valid()
      ensures r.Err? <==> id == 0 || id >= SCHEMA_TABLE_ENTRIES
      ensures r.Err? ==> r.error == SchemaIdOutOfRange(id)
      ensures r.Ok? ==> Observe(words[..], Payload(id)) == Short(r.value)
    {
      if id == 0 || id >= SCHEMA_TABLE_ENTRIES {
        return Err(SchemaIdOutOfRange(id));
      }
      var word := ReadU32(REG_SCHEMA_PAYLOAD_BASE + (id / 2) * 4);
      return Ok(Half(word.value, id));
    }

    method SchemaIdForOam(oam: int) returns (r: Result<bv8, Error>)
      requires Valid()
      ensures r.Err? <==> oam < -16 || oam > 16
      ensures r.Err? ==> r.error == OamOutOfRange(oam)
      ensures r.Ok? ==> Observe(words[..], Schema(oam)) == Octet(r.value)
    {
      var idx := oam + 16;
      if idx < 0 || idx > 32 {
        return Err(OamOutOfRange(oam));
      }
      var word := ReadU32(REG_OAM_TABLE_BASE + (idx / 4) * 4);
      return Ok(Lanes(word.value)[idx % 4]);
    }
  }
}
