/** How the slots of the ring lie in the shared byte region (crates/otap-modq/src/ring.rs,
    src/lib.rs, src/bar.rs): every access the protocol makes to one field of one slot is,
    on the bytes, a read or write of that field alone. */
module ModqRegion {
  import opened ByteStrings
  import opened Words
  import opened ModqRing
  import opened ModqRuns

  const REG_HEAD := 0x0000
  const REG_TAIL := 0x0008
  const REG_DEPTH := 0x0010
  const REG_SLOT_SIZE := 0x0018
  const REG_DOORBELL := 0x0040
  const RING_BASE := 0x1000

  const SLOT_HDR_STATUS := 0x00
  const SLOT_HDR_LENGTH := 0x04
  const SLOT_HDR_SID := 0x08
  const SLOT_PAYLOAD_OFFSET := 0x10

  const UINT32 := 0x1_0000_0000

  /** `(SLOT_PAYLOAD_OFFSET + slot_size + 63) & !63` in 32-bit arithmetic: the least multiple
      of 64 that holds header and payload, exactly when the sum does not wrap. */
  function Stride(slotSize: nat): (r: nat)
    requires slotSize < UINT32
    ensures r % 64 == 0 && r < UINT32
    ensures SLOT_PAYLOAD_OFFSET + slotSize <= r <==> slotSize <= UINT32 - 80
    ensures slotSize <= UINT32 - 80 ==> r < SLOT_PAYLOAD_OFFSET + slotSize + 64
    ensures slotSize > UINT32 - 80 ==> r <= 64
  {
    var up := (SLOT_PAYLOAD_OFFSET + slotSize + 63) % UINT32;
    up - up % 64
  }

  function SlotBase(i: nat, stride: nat): nat {
    RING_BASE + i * stride
  }

  /** `mem` is a mapped region with `depth` slots. */
  ghost predicate Region(mem: Bytes, depth: nat, stride: nat) {
    SLOT_PAYLOAD_OFFSET <= stride && |mem| == RING_BASE + depth * stride
  }

  function Get32(mem: Bytes, off: nat): nat
    requires off + 4 <= |mem|
  {
    mem[off] as int + 0x100 * (mem[off + 1] as int) + 0x1_0000 * (mem[off + 2] as int)
    + 0x100_0000 * (mem[off + 3] as int)
  }

  ghost function Put32(mem: Bytes, off: nat, v: nat): (r: Bytes)
    requires off + 4 <= |mem| && v < UINT32
    ensures |r| == |mem|
  {
    mem[off := v % 0x100][off + 1 := v / 0x100 % 0x100][off + 2 := v / 0x1_0000 % 0x100][off + 3 := v / 0x100_0000]
  }

  lemma PutGet(mem: Bytes, off: nat, v: nat)
    requires off + 4 <= |mem| && v < UINT32
    ensures Get32(Put32(mem, off, v), off) == v
  {
    FourBytes(v);
  }

  lemma FourBytes(v: nat)
    requires v < UINT32
    ensures v % 0x100 + 0x100 * (v / 0x100 % 0x100) + 0x1_0000 * (v / 0x1_0000 % 0x100) + 0x100_0000 * (v / 0x100_0000) == v
  {
  }

  lemma PutElsewhere(mem: Bytes, off: nat, v: nat)
    requires off + 4 <= |mem| && v < UINT32
    ensures forall k :: 0 <= k < |mem| && !(off <= k < off + 4) ==> Put32(mem, off, v)[k] == mem[k]
  {
  }

  lemma {:induction false} TimesMonotone(a: nat, b: nat, c: nat)
    requires a < b
    ensures a * c + c <= b * c
    decreases b
  {
    assert b * c == (b - 1) * c + c;
    if a < b - 1 {
      TimesMonotone(a, b - 1, c);
    }
  }

  lemma SlotInBounds(i: nat, depth: nat, stride: nat)
    requires i < depth
    ensures SlotBase(i, stride) + stride <= RING_BASE + depth * stride
  {
    TimesMonotone(i, depth, stride);
  }

  /** Slots never overlap. */
  lemma SlotsDisjoint(i: nat, j: nat, stride: nat)
    requires i < j
    ensures SlotBase(i, stride) + stride <= SlotBase(j, stride)
  {
    TimesMonotone(i, j, stride);
  }

  ghost function SlotAt(mem: Bytes, depth: nat, stride: nat, i: nat): (r: Slot)
    requires Region(mem, depth, stride) && i < depth
    ensures |r.payload| == stride - SLOT_PAYLOAD_OFFSET
  {
    SlotInBounds(i, depth, stride);
    var b := SlotBase(i, stride);
    Slot(Get32(mem, b + SLOT_HDR_STATUS), Get32(mem, b + SLOT_HDR_LENGTH), Get32(mem, b + SLOT_HDR_SID),
         mem[b + SLOT_PAYLOAD_OFFSET..b + stride])
  }

  /** The slots the protocol works on. */
  ghost function View(mem: Bytes, depth: nat, stride: nat): (r: seq<Slot>)
    requires Region(mem, depth, stride)
    ensures |r| == depth && forall i :: 0 <= i < depth ==> |r[i].payload| == stride - SLOT_PAYLOAD_OFFSET
  {
    seq(depth, i requires 0 <= i < depth => SlotAt(mem, depth, stride, i))
  }

  /** A change confined to slot i leaves the view of every other slot. */
  lemma OthersKept(mem: Bytes, mem': Bytes, depth: nat, stride: nat, i: nat, j: nat)
    requires Region(mem, depth, stride) && |mem'| == |mem| && i < depth && j < depth && i != j
    requires forall k :: 0 <= k < |mem| && !(SlotBase(i, stride) <= k < SlotBase(i, stride) + stride) ==> mem'[k] == mem[k]
    ensures SlotAt(mem', depth, stride, j) == SlotAt(mem, depth, stride, j)
  {
    SlotInBounds(j, depth, stride);
    if i < j {
      SlotsDisjoint(i, j, stride);
    } else {
      SlotsDisjoint(j, i, stride);
    }
  }

  datatype Field = Status | Length | Sid

  function Offset(f: Field): nat {
    match f case Status => SLOT_HDR_STATUS case Length => SLOT_HDR_LENGTH case Sid => SLOT_HDR_SID
  }

  ghost function WithField(s: Slot, f: Field, v: nat): Slot {
    match f case Status => s.(status := v) case Length => s.(length := v) case Sid => s.(sid := v)
  }

  lemma HeaderWriteInSlot(mem: Bytes, depth: nat, stride: nat, i: nat, f: Field, v: nat)
    requires Region(mem, depth, stride) && i < depth && v < UINT32
    ensures SlotBase(i, stride) + Offset(f) + 4 <= |mem|
    ensures
      var mem' := Put32(mem, SlotBase(i, stride) + Offset(f), v);
      SlotAt(mem', depth, stride, i) == WithField(SlotAt(mem, depth, stride, i), f, v)
  {
    SlotInBounds(i, depth, stride);
    var off := SlotBase(i, stride) + Offset(f);
    PutGet(mem, off, v);
    PutElsewhere(mem, off, v);
    assert SlotAt(Put32(mem, off, v), depth, stride, i).payload == SlotAt(mem, depth, stride, i).payload;
  }

  /** Writing a header word of slot i is, in the view, an update of that field of slot i. */
  lemma HeaderWriteRefines(mem: Bytes, depth: nat, stride: nat, i: nat, f: Field, v: nat)
    requires Region(mem, depth, stride) && i < depth && v < UINT32
    ensures SlotBase(i, stride) + Offset(f) + 4 <= |mem|
    ensures
      var mem' := Put32(mem, SlotBase(i, stride) + Offset(f), v);
      View(mem', depth, stride) == View(mem, depth, stride)[i := WithField(View(mem, depth, stride)[i], f, v)]
  {
    HeaderWriteInSlot(mem, depth, stride, i, f, v);
    var off := SlotBase(i, stride) + Offset(f);
    var mem' := Put32(mem, off, v);
    PutElsewhere(mem, off, v);
    forall j | 0 <= j < depth && j != i ensures SlotAt(mem', depth, stride, j) == SlotAt(mem, depth, stride, j) {
      OthersKept(mem, mem', depth, stride, i, j);
    }
  }

  /** Writing payload byte k of slot i is, in the view, an update of that byte of slot i. */
  lemma PayloadWriteRefines(mem: Bytes, depth: nat, stride: nat, i: nat, k: nat, v: Byte)
    requires Region(mem, depth, stride) && i < depth && k < stride - SLOT_PAYLOAD_OFFSET
    ensures SlotBase(i, stride) + SLOT_PAYLOAD_OFFSET + k < |mem|
    ensures
      var slot := View(mem, depth, stride)[i];
      View(mem[SlotBase(i, stride) + SLOT_PAYLOAD_OFFSET + k := v], depth, stride)
      == View(mem, depth, stride)[i := slot.(payload := slot.payload[k := v])]
  {
    SlotInBounds(i, depth, stride);
    var at := SlotBase(i, stride) + SLOT_PAYLOAD_OFFSET + k;
    var mem' := mem[at := v];
    var old', new' := SlotAt(mem, depth, stride, i), SlotAt(mem', depth, stride, i);
    assert new'.payload == old'.payload[k := v];
    forall j | 0 <= j < depth && j != i ensures SlotAt(mem', depth, stride, j) == SlotAt(mem, depth, stride, j) {
      OthersKept(mem, mem', depth, stride, i, j);
    }
  }

  // ---- the protocol on bytes ----

  /** The one write to the region that an action makes. */
  datatype Access = NoWrite | Header(slot: nat, field: Field, value: nat)
                  | PayloadByte(slot: nat, k: nat, b: Byte) | Doorbell(value: nat)

  ghost function WriteOf(s: State, a: Action): Access
    requires WellFormed(s) && Enabled(s, a)
  {
    match a
    case CopyByte =>
      var data, k := s.producer.data, s.producer.k;
      if k < |data| && k < s.capacity then PayloadByte(TailSlot(s), k, data[k]) else NoWrite
    case WriteLength => Header(TailSlot(s), Length, |s.producer.data| % UINT32)
    case WriteSid => Header(TailSlot(s), Sid, s.nextSid)
    case WriteReady => Header(TailSlot(s), Status, SLOT_READY)
    case RingDoorbell => Doorbell((s.tail + 1) % UINT32)
    case DeviceRelease => Header(DeviceSlot(s), Status, if s.mode.Loopback? then SLOT_FREE else SLOT_DONE)
    case PollFree => Header(HeadSlot(s), Status, SLOT_FREE)
    case _ => NoWrite
  }

  ghost predicate Fits(e: Access, depth: nat, stride: nat) {
    match e
    case NoWrite => true
    case Header(i, _, v) => i < depth && v < UINT32
    case PayloadByte(i, k, _) => i < depth && SLOT_PAYLOAD_OFFSET + k < stride
    case Doorbell(v) => v < UINT32
  }

  ghost function OnSlots(slots: seq<Slot>, e: Access, stride: nat): seq<Slot>
    requires Fits(e, |slots|, stride)
    requires forall i :: 0 <= i < |slots| ==> SLOT_PAYLOAD_OFFSET + |slots[i].payload| == stride
  {
    match e
    case Header(i, f, v) => slots[i := WithField(slots[i], f, v)]
    case PayloadByte(i, k, b) => slots[i := slots[i].(payload := slots[i].payload[k := b])]
    case _ => slots
  }

  ghost function OnBytes(mem: Bytes, depth: nat, stride: nat, e: Access): (r: Bytes)
    requires Region(mem, depth, stride) && Fits(e, depth, stride)
    ensures |r| == |mem|
  {
    match e
    case NoWrite => mem
    case Header(i, f, v) =>
      SlotInBounds(i, depth, stride);
      Put32(mem, SlotBase(i, stride) + Offset(f), v)
    case PayloadByte(i, k, b) =>
      SlotInBounds(i, depth, stride);
      mem[SlotBase(i, stride) + SLOT_PAYLOAD_OFFSET + k := b]
    case Doorbell(v) => Put32(mem, REG_DOORBELL, v)
  }

  lemma DoorbellKeepsSlots(mem: Bytes, depth: nat, stride: nat, v: nat)
    requires Region(mem, depth, stride) && v < UINT32
    ensures View(Put32(mem, REG_DOORBELL, v), depth, stride) == View(mem, depth, stride)
  {
    var mem' := Put32(mem, REG_DOORBELL, v);
    PutElsewhere(mem, REG_DOORBELL, v);
    forall i | 0 <= i < depth ensures SlotAt(mem', depth, stride, i) == SlotAt(mem, depth, stride, i) {
      SlotInBounds(i, depth, stride);
    }
  }

  /** On the bytes the access changes what it changes in the slots... */
  ghost predicate SlotsRefined(mem: Bytes, depth: nat, stride: nat, e: Access)
    requires Region(mem, depth, stride) && Fits(e, depth, stride)
  {
    View(OnBytes(mem, depth, stride, e), depth, stride) == OnSlots(View(mem, depth, stride), e, stride)
  }

  /** ...and the doorbell only if it is the doorbell that is written. */
  ghost predicate DoorbellRefined(mem: Bytes, depth: nat, stride: nat, e: Access)
    requires Region(mem, depth, stride) && Fits(e, depth, stride)
  {
    Get32(OnBytes(mem, depth, stride, e), REG_DOORBELL) == if e.Doorbell? then e.value else Get32(mem, REG_DOORBELL)
  }

  lemma AccessRefinesSlots(mem: Bytes, depth: nat, stride: nat, e: Access)
    requires Region(mem, depth, stride) && Fits(e, depth, stride)
    ensures SlotsRefined(mem, depth, stride, e)
  {
    match e
    case NoWrite =>
    case Header(i, f, v) => HeaderWriteRefines(mem, depth, stride, i, f, v);
    case PayloadByte(i, k, b) => PayloadWriteRefines(mem, depth, stride, i, k, b);
    case Doorbell(v) => DoorbellKeepsSlots(mem, depth, stride, v);
  }

  lemma PutKeepsDoorbell(mem: Bytes, off: nat, v: nat)
    requires RING_BASE <= off && off + 4 <= |mem| && v < UINT32
    ensures Get32(Put32(mem, off, v), REG_DOORBELL) == Get32(mem, REG_DOORBELL)
  {
    PutElsewhere(mem, off, v);
  }

  lemma HeaderKeepsDoorbell(mem: Bytes, depth: nat, stride: nat, i: nat, f: Field, v: nat)
    requires Region(mem, depth, stride) && i < depth && v < UINT32
    ensures DoorbellRefined(mem, depth, stride, Header(i, f, v))
  {
    SlotInBounds(i, depth, stride);
    PutKeepsDoorbell(mem, SlotBase(i, stride) + Offset(f), v);
  }

  lemma PayloadKeepsDoorbell(mem: Bytes, depth: nat, stride: nat, i: nat, k: nat, b: Byte)
    requires Region(mem, depth, stride) && i < depth && SLOT_PAYLOAD_OFFSET + k < stride
    ensures DoorbellRefined(mem, depth, stride, PayloadByte(i, k, b))
  {
    SlotInBounds(i, depth, stride);
  }

  lemma AccessRefinesDoorbell(mem: Bytes, depth: nat, stride: nat, e: Access)
    requires Region(mem, depth, stride) && Fits(e, depth, stride)
    ensures DoorbellRefined(mem, depth, stride, e)
  {
    match e
    case NoWrite =>
    case Header(i, f, v) => HeaderKeepsDoorbell(mem, depth, stride, i, f, v);
    case PayloadByte(i, k, b) => PayloadKeepsDoorbell(mem, depth, stride, i, k, b);
    case Doorbell(v) => PutGet(mem, REG_DOORBELL, v);
  }

  /** A queue over a region: the bytes, and what producer, device and poller keep themselves.
      `own.slots` and `own.doorbell` play no part; both live in the bytes. */
  datatype Mapped = Mapped(mem: Bytes, stride: nat, own: State)

  ghost predicate Sound(c: Mapped) {
    && c.own.depth > 0 && SLOT_PAYLOAD_OFFSET <= c.stride < UINT32
    && Region(c.mem, c.own.depth, c.stride) && c.own.capacity == c.stride - SLOT_PAYLOAD_OFFSET
  }

  ghost function Abs(c: Mapped): State
    requires Sound(c)
  {
    c.own.(slots := View(c.mem, c.own.depth, c.stride), doorbell := Get32(c.mem, REG_DOORBELL))
  }

  /** One action on bytes: everything it reads it decodes from the bytes, and it makes one write. */
  ghost function DoBytes(c: Mapped, a: Action): Mapped
    requires Sound(c) && Enabled(Abs(c), a) && Fits(WriteOf(Abs(c), a), c.own.depth, c.stride)
  {
    Mapped(OnBytes(c.mem, c.own.depth, c.stride, WriteOf(Abs(c), a)), c.stride,
           Do(Abs(c), a).(slots := c.own.slots, doorbell := c.own.doorbell))
  }

  /** What the invariant contributes: lengths and sids fit in 32 bits. */
  ghost predicate Narrow(s: State, a: Action) {
    && WellFormed(s) && Enabled(s, a) && s.nextSid < UINT32
    && (a.WriteLength? ==> |s.producer.data| < UINT32)
  }

  lemma InvIsNarrow(s: State, a: Action)
    requires Inv(s) && Enabled(s, a) && s.capacity < UINT32
    ensures Narrow(s, a)
  {
  }

  lemma WriteFits(s: State, a: Action, stride: nat)
    requires Narrow(s, a) && s.capacity == stride - SLOT_PAYLOAD_OFFSET
    ensures Fits(WriteOf(s, a), s.depth, stride)
  {
  }

  lemma ProducerWriteIsStep(s: State, a: Action, stride: nat)
    requires Narrow(s, a) && s.capacity == stride - SLOT_PAYLOAD_OFFSET && Fits(WriteOf(s, a), s.depth, stride)
    requires a.CopyByte? || a.WriteLength? || a.WriteSid?
    ensures Do(s, a).slots == OnSlots(s.slots, WriteOf(s, a), stride)
  {
  }

  lemma WriteIsStep(s: State, a: Action, stride: nat)
    requires Narrow(s, a) && s.capacity == stride - SLOT_PAYLOAD_OFFSET && Fits(WriteOf(s, a), s.depth, stride)
    ensures Do(s, a).slots == OnSlots(s.slots, WriteOf(s, a), stride)
  {
    if a.CopyByte? || a.WriteLength? || a.WriteSid? {
      ProducerWriteIsStep(s, a, stride);
    }
  }

  lemma WriteIsRing(s: State, a: Action)
    requires Narrow(s, a)
    ensures Do(s, a).doorbell == if WriteOf(s, a).Doorbell? then WriteOf(s, a).value else s.doorbell
    ensures Do(s, a).depth == s.depth && Do(s, a).capacity == s.capacity
  {
  }

  /** Every action on the bytes is that action of the protocol. */
  lemma ActionRefines(c: Mapped, a: Action)
    requires Sound(c) && Inv(Abs(c)) && Enabled(Abs(c), a)
    ensures Fits(WriteOf(Abs(c), a), c.own.depth, c.stride)
    ensures Sound(DoBytes(c, a)) && Abs(DoBytes(c, a)) == Do(Abs(c), a)
  {
    InvIsNarrow(Abs(c), a);
    WriteFits(Abs(c), a, c.stride);
    WriteIsStep(Abs(c), a, c.stride);
    WriteIsRing(Abs(c), a);
    AccessRefinesSlots(c.mem, c.own.depth, c.stride, WriteOf(Abs(c), a));
    AccessRefinesDoorbell(c.mem, c.own.depth, c.stride, WriteOf(Abs(c), a));
  }

  ghost predicate BytesStepped(c: Mapped, a: Action, c': Mapped) {
    && Sound(c) && Enabled(Abs(c), a) && Fits(WriteOf(Abs(c), a), c.own.depth, c.stride)
    && c' == DoBytes(c, a)
  }

  ghost predicate BytesRun(cs: seq<Mapped>, actions: seq<Action>) {
    && |cs| == |actions| + 1 && Sound(cs[0]) && Init(Abs(cs[0]))
    && forall i :: 0 <= i < |actions| ==> BytesStepped(cs[i], actions[i], cs[i + 1])
  }

  ghost predicate AllSound(cs: seq<Mapped>) {
    forall i :: 0 <= i < |cs| ==> Sound(cs[i])
  }

  ghost function AbsAll(cs: seq<Mapped>): (ss: seq<State>)
    requires AllSound(cs)
    ensures |ss| == |cs|
  {
    seq(|cs|, i requires 0 <= i < |cs| => Abs(cs[i]))
  }

  lemma {:induction false} BytesRunSound(cs: seq<Mapped>, actions: seq<Action>, i: nat)
    requires BytesRun(cs, actions) && i < |cs|
    ensures Sound(cs[i]) && Inv(Abs(cs[i]))
    ensures i > 0 ==> Sound(cs[i - 1]) && Stepped(Abs(cs[i - 1]), actions[i - 1], Abs(cs[i]))
  {
    if i == 0 {
      RunKeepsInv([Abs(cs[0])], [], 0);
    } else {
      BytesRunSound(cs, actions, i - 1);
      assert BytesStepped(cs[i - 1], actions[i - 1], cs[i]);
      ActionRefines(cs[i - 1], actions[i - 1]);
      StepKeepsInv(Abs(cs[i - 1]), actions[i - 1]);
    }
  }

  lemma AbsSteps(cs: seq<Mapped>, actions: seq<Action>, ss: seq<State>, i: nat)
    requires BytesRun(cs, actions) && AllSound(cs) && ss == AbsAll(cs) && i < |actions|
    ensures Stepped(ss[i], actions[i], ss[i + 1])
  {
    BytesRunSound(cs, actions, i + 1);
    assert ss[i] == Abs(cs[i]) && ss[i + 1] == Abs(cs[i + 1]);
  }

  lemma BytesRunIsSound(cs: seq<Mapped>, actions: seq<Action>)
    requires BytesRun(cs, actions)
    ensures AllSound(cs) && Init(AbsAll(cs)[0])
  {
    forall i | 0 <= i < |cs| ensures Sound(cs[i]) {
      BytesRunSound(cs, actions, i);
    }
  }

  /** Every run on the bytes is, slot by slot and step by step, a run of the protocol, so all
      that holds of its runs holds of the shared region. */
  lemma BytesRunRefines(cs: seq<Mapped>, actions: seq<Action>)
    requires BytesRun(cs, actions)
    ensures AllSound(cs) && Run(AbsAll(cs), actions)
  {
    BytesRunIsSound(cs, actions);
    var ss := AbsAll(cs);
    forall i | 0 <= i < |actions| ensures Stepped(ss[i], actions[i], ss[i + 1]) {
      AbsSteps(cs, actions, ss, i);
    }
  }

  // ---- opening a queue ----

  method Write32(mem: array<Byte>, off: nat, v: nat)
    requires off + 4 <= mem.Length && v < UINT32
    modifies mem
    ensures mem[..] == Put32(old(mem[..]), off, v)
  {
    mem[off] := v % 0x100;
    mem[off + 1] := v / 0x100 % 0x100;
    mem[off + 2] := v / 0x1_0000 % 0x100;
    mem[off + 3] := v / 0x100_0000;
  }

  function Get64(mem: Bytes, off: nat): nat
    requires off + 8 <= |mem|
  {
    Get32(mem, off) + UINT32 * Get32(mem, off + 4)
  }

  method Write64(mem: array<Byte>, off: nat, v: nat)
    requires off + 8 <= mem.Length && v < UINT32 * UINT32
    modifies mem
    ensures Get64(mem[..], off) == v
    ensures forall k :: 0 <= k < mem.Length && !(off <= k < off + 8) ==> mem[k] == old(mem[k])
  {
    ghost var m0 := mem[..];
    Write32(mem, off, v % UINT32);
    ghost var m1 := mem[..];
    Write32(mem, off + 4, v / UINT32);
    PutGet(m0, off, v % UINT32);
    PutGet(m1, off + 4, v / UINT32);
    PutElsewhere(m0, off, v % UINT32);
    PutElsewhere(m1, off + 4, v / UINT32);
  }

  /** The loop of `open`: marks every slot free and touches nothing below the ring. */
  method FreeSlots(mem: array<Byte>, depth: nat, stride: nat)
    requires Region(mem[..], depth, stride)
    modifies mem
    ensures Region(mem[..], depth, stride)
    ensures forall k :: 0 <= k < RING_BASE ==> mem[k] == old(mem[k])
    ensures forall i :: 0 <= i < depth ==> View(mem[..], depth, stride)[i].status == SLOT_FREE
  {
    var i := 0;
    while i < depth
      invariant 0 <= i <= depth && Region(mem[..], depth, stride)
      invariant forall k :: 0 <= k < RING_BASE ==> mem[k] == old(mem[k])
      invariant forall j :: 0 <= j < i ==> View(mem[..], depth, stride)[j].status == SLOT_FREE
    {
      ghost var m := mem[..];
      SlotInBounds(i, depth, stride);
      HeaderWriteRefines(m, depth, stride, i, Status, SLOT_FREE);
      PutElsewhere(m, SlotBase(i, stride), SLOT_FREE);
      Write32(mem, SlotBase(i, stride), SLOT_FREE);
      assert mem[..] == Put32(m, SlotBase(i, stride), SLOT_FREE);
      i := i + 1;
    }
  }

  /** ModqQueue::open in loopback mode: a depth that is not a power of two is refused;
      otherwise the registers are set, head and tail are zero and every slot is free. */
  method OpenLoopback(ringDepth: nat, slotSize: nat, mem: array<Byte>) returns (ok: bool)
    requires ringDepth < UINT32 && slotSize < UINT32
    requires Region(mem[..], ringDepth, Stride(slotSize))
    modifies mem
    ensures ok <==> PowerOfTwo(ringDepth)
    ensures !ok ==> mem[..] == old(mem[..])
    ensures Region(mem[..], ringDepth, Stride(slotSize))
    ensures ok ==> Get32(mem[..], REG_DEPTH) == ringDepth && Get32(mem[..], REG_SLOT_SIZE) == slotSize
    ensures ok ==> Get64(mem[..], REG_HEAD) == 0 && Get64(mem[..], REG_TAIL) == 0
    ensures ok ==> forall i :: 0 <= i < ringDepth ==> View(mem[..], ringDepth, Stride(slotSize))[i].status == SLOT_FREE
  {
    if !PowerOfTwo(ringDepth) {
      return false;
    }
    SetRegisters(mem, ringDepth, slotSize);
    FreeSlots(mem, ringDepth, Stride(slotSize));
    ok := true;
  }

  method SetRegisters(mem: array<Byte>, ringDepth: nat, slotSize: nat)
    requires ringDepth < UINT32 && slotSize < UINT32 && mem.Length >= RING_BASE
    modifies mem
    ensures Get32(mem[..], REG_DEPTH) == ringDepth && Get32(mem[..], REG_SLOT_SIZE) == slotSize
    ensures Get64(mem[..], REG_HEAD) == 0 && Get64(mem[..], REG_TAIL) == 0
  {
    ghost var m0 := mem[..];
    Write32(mem, REG_DEPTH, ringDepth);
    ghost var m1 := mem[..];
    Write32(mem, REG_SLOT_SIZE, slotSize);
    PutGet(m0, REG_DEPTH, ringDepth);
    PutGet(m1, REG_SLOT_SIZE, slotSize);
    PutElsewhere(m1, REG_SLOT_SIZE, slotSize);
    Write64(mem, REG_HEAD, 0);
    Write64(mem, REG_TAIL, 0);
  }

  /** A queue over an opened region is an initial state of the protocol, with room for the
      configured payload exactly when the stride did not wrap. */
  lemma OpenedIsInit(mem: Bytes, depth: nat, slotSize: nat, mode: Mode)
    requires PowerOfTwo(depth) && slotSize < UINT32 && Region(mem, depth, Stride(slotSize))
    requires forall i :: 0 <= i < depth ==> View(mem, depth, Stride(slotSize))[i].status == SLOT_FREE
    ensures var own := State(mode, depth, Stride(slotSize) - SLOT_PAYLOAD_OFFSET, [],
                             Idle, 0, 0, 0, Watching, 0, Waiting, 0, [], [], []);
      var c := Mapped(mem, Stride(slotSize), own);
      Sound(c) && Init(Abs(c)) && (Abs(c).capacity >= slotSize <==> slotSize <= UINT32 - 80)
  {
    forall i | 0 <= i < depth
      ensures |View(mem, depth, Stride(slotSize))[i].payload| == Stride(slotSize) - SLOT_PAYLOAD_OFFSET
    {
      SlotInBounds(i, depth, Stride(slotSize));
    }
  }
}
