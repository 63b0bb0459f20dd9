/** The MODQ single-producer/single-consumer ring (crates/otap-modq/src/ring.rs,
    src/lib.rs and the consumer in src/bin/modq_loopback.rs).

    Producer, device and completion poller share slots in memory.  Each of their accesses
    to shared memory is one atomic action; a run is any interleaving of actions.  The
    payload is copied, and read, one byte at a time.  `submitted`, `received` and
    `completions` record what was published, consumed and polled. */
module ModqRing {
  import opened ByteStrings
  import opened Words

  const SLOT_FREE := 0
  const SLOT_READY := 1
  const SLOT_DONE := 2

  const SID_SPACE := 0x1_0000_0000
  const MAX_SPINS := 1_000_000_000

  datatype Slot = Slot(status: nat, length: nat, sid: nat, payload: Bytes)

  /** Program counter of `submit`. */
  datatype Producer =
    | Idle
    | Spinning(data: Bytes, spins: nat)
    | Copying(data: Bytes, k: nat)
    | Copied(data: Bytes)
    | LengthSet(data: Bytes)
    | SidSet(data: Bytes)
    | Published(data: Bytes)

  /** Program counter of the device that consumes slots. */
  datatype Device =
    | Watching
    | SawReady
    | GotLength(len: nat)
    | Reading(len: nat, sid: nat, buf: Bytes)

  /** Program counter of `poll`. */
  datatype Poller = Waiting | SawDone | GotSid(sid: nat)

  datatype Message = Message(payload: Bytes, length: nat, sid: nat)

  /** The loopback device frees a slot itself; the real one marks it done for `poll`. */
  datatype Mode = Loopback | Completing

  datatype State = State(
    mode: Mode, depth: nat, capacity: nat, slots: seq<Slot>,
    producer: Producer, tail: nat, nextSid: nat, doorbell: nat,
    device: Device, consumed: nat,
    poller: Poller, head: nat,
    submitted: seq<Bytes>, received: seq<Message>, completions: seq<nat>)

  datatype Action =
    | Begin(data: Bytes)
    | Spin
    | CopyByte
    | WriteLength
    | WriteSid
    | WriteReady
    | RingDoorbell
    | DeviceStatus
    | DeviceLength
    | DeviceSid
    | DeviceByte
    | DeviceRelease
    | PollStatus
    | PollSid
    | PollFree

  ghost predicate WellFormed(s: State) {
    s.depth > 0 && |s.slots| == s.depth && forall i :: 0 <= i < s.depth ==> |s.slots[i].payload| == s.capacity
  }

  function TailSlot(s: State): nat
    requires s.depth > 0
  {
    s.tail % s.depth
  }

  function DeviceSlot(s: State): nat
    requires s.depth > 0
  {
    s.consumed % s.depth
  }

  function HeadSlot(s: State): nat
    requires s.depth > 0
  {
    s.head % s.depth
  }

  ghost predicate Enabled(s: State, a: Action) {
    match a
    case Begin(_) => s.producer.Idle?
    case Spin => s.producer.Spinning?
    case CopyByte => s.producer.Copying?
    case WriteLength => s.producer.Copied?
    case WriteSid => s.producer.LengthSet?
    case WriteReady => s.producer.SidSet?
    case RingDoorbell => s.producer.Published?
    case DeviceStatus => s.device.Watching?
    case DeviceLength => s.device.SawReady?
    case DeviceSid => s.device.GotLength?
    case DeviceByte => s.device.Reading? && |s.device.buf| < s.device.len
    case DeviceRelease => s.device.Reading? && |s.device.buf| >= s.device.len
    case PollStatus => s.poller.Waiting?
    case PollSid => s.poller.SawDone?
    case PollFree => s.poller.GotSid?
  }

  /** The effect of one action.  Reads of shared memory go to the current slots. */
  ghost function Do(s: State, a: Action): State
    requires WellFormed(s) && Enabled(s, a)
  {
    var t, d, h := TailSlot(s), DeviceSlot(s), HeadSlot(s);
    match a
    case Begin(data) =>
      if |data| > s.capacity then s else s.(producer := Spinning(data, 0))
    case Spin =>
      if s.slots[t].status == SLOT_FREE then s.(producer := Copying(s.producer.data, 0))
      else if s.producer.spins + 1 > MAX_SPINS then s.(producer := Idle)
      else s.(producer := Spinning(s.producer.data, s.producer.spins + 1))
    case CopyByte =>
      var data, k := s.producer.data, s.producer.k;
      if k >= |data| || k >= s.capacity then s.(producer := Copied(data))
      else
        s.(slots := s.slots[t := s.slots[t].(payload := s.slots[t].payload[k := data[k]])],
           producer := Copying(data, k + 1))
    case WriteLength =>
      s.(slots := s.slots[t := s.slots[t].(length := |s.producer.data|)], producer := LengthSet(s.producer.data))
    case WriteSid =>
      s.(slots := s.slots[t := s.slots[t].(sid := s.nextSid)], producer := SidSet(s.producer.data))
    case WriteReady =>
      s.(slots := s.slots[t := s.slots[t].(status := SLOT_READY)], producer := Published(s.producer.data),
         submitted := s.submitted + [s.producer.data])
    case RingDoorbell =>
      s.(producer := Idle, tail := s.tail + 1, nextSid := (s.nextSid + 1) % SID_SPACE,
         doorbell := (s.tail + 1) % SID_SPACE)
    case DeviceStatus =>
      if s.slots[d].status == SLOT_READY then s.(device := SawReady) else s
    case DeviceLength => s.(device := GotLength(s.slots[d].length))
    case DeviceSid => s.(device := Reading(s.device.len, s.slots[d].sid, []))
    case DeviceByte =>
      var k := |s.device.buf|;
      if k >= s.capacity then s
      else s.(device := Reading(s.device.len, s.device.sid, s.device.buf + [s.slots[d].payload[k]]))
    case DeviceRelease =>
      s.(slots := s.slots[d := s.slots[d].(status := if s.mode.Loopback? then SLOT_FREE else SLOT_DONE)],
         device := Watching, consumed := s.consumed + 1,
         received := s.received + [Message(s.device.buf, s.device.len, s.device.sid)])
    case PollStatus =>
      if s.slots[h].status == SLOT_DONE then s.(poller := SawDone) else s
    case PollSid => s.(poller := GotSid(s.slots[h].sid))
    case PollFree =>
      s.(slots := s.slots[h := s.slots[h].(status := SLOT_FREE)], poller := Waiting, head := s.head + 1,
         completions := s.completions + [s.poller.sid])
  }

  /** A freshly opened queue: every slot free, whatever else the memory holds. */
  ghost predicate Init(s: State) {
    && WellFormed(s)
    && s.producer.Idle? && s.tail == 0 && s.nextSid == 0
    && s.device.Watching? && s.consumed == 0
    && s.poller.Waiting? && s.head == 0
    && s.submitted == [] && s.received == [] && s.completions == []
    && forall i :: 0 <= i < s.depth ==> s.slots[i].status == SLOT_FREE
  }

  // ---- the invariant ----

  /** Number of slots that have been handed back to the producer. */
  ghost function Freed(s: State): nat {
    if s.mode.Loopback? then s.consumed else s.head
  }

  /** Submission k lies whole in its slot, marked as far as it has been processed. */
  ghost predicate Holds(s: State, k: nat)
    requires WellFormed(s) && k < |s.submitted|
  {
    var slot, data := s.slots[k % s.depth], s.submitted[k];
    && slot.status == (if k < s.consumed then SLOT_DONE else SLOT_READY)
    && |data| <= s.capacity
    && slot.length == |data|
    && slot.sid == k % SID_SPACE
    && slot.payload[..|data|] == data
  }

  ghost predicate IsFree(s: State, k: nat)
    requires WellFormed(s)
  {
    s.slots[k % s.depth].status == SLOT_FREE
  }

  ghost function Expected(data: Bytes, k: nat): Message {
    Message(data, |data|, k % SID_SPACE)
  }

  ghost predicate Counters(s: State) {
    && |s.submitted| == s.tail + (if s.producer.Published? then 1 else 0)
    && s.nextSid == s.tail % SID_SPACE
    && Freed(s) <= s.consumed <= |s.submitted| <= Freed(s) + s.depth
    && |s.received| == s.consumed
    && |s.completions| == s.head
    && (forall k :: 0 <= k < s.consumed ==> s.received[k] == Expected(s.submitted[k], k))
    && (forall k :: 0 <= k < s.head ==> s.completions[k] == k % SID_SPACE)
  }

  ghost predicate SlotsOk(s: State)
    requires WellFormed(s)
  {
    && (forall k :: Freed(s) <= k < |s.submitted| ==> Holds(s, k))
    && (forall k :: |s.submitted| <= k < Freed(s) + s.depth ==> IsFree(s, k))
  }

  /** The producer owns the free slot it found, and what it has written there so far. */
  ghost predicate ProducerOk(s: State)
    requires WellFormed(s)
  {
    var slot := s.slots[TailSlot(s)];
    match s.producer
    case Idle => true
    case Spinning(data, _) => |data| <= s.capacity
    case Copying(data, k) =>
      s.tail < Freed(s) + s.depth && k <= |data| <= s.capacity && slot.payload[..k] == data[..k]
    case Copied(data) =>
      s.tail < Freed(s) + s.depth && |data| <= s.capacity && slot.payload[..|data|] == data
    case LengthSet(data) =>
      && s.tail < Freed(s) + s.depth && |data| <= s.capacity && slot.payload[..|data|] == data
      && slot.length == |data|
    case SidSet(data) =>
      && s.tail < Freed(s) + s.depth && |data| <= s.capacity && slot.payload[..|data|] == data
      && slot.length == |data| && slot.sid == s.nextSid
    case Published(data) => |s.submitted| > 0 && s.submitted[|s.submitted| - 1] == data
  }

  /** What the device has read so far is part of the submission it is consuming. */
  ghost predicate DeviceOk(s: State) {
    match s.device
    case Watching => true
    case SawReady => s.consumed < |s.submitted|
    case GotLength(len) => s.consumed < |s.submitted| && len == |s.submitted[s.consumed]|
    case Reading(len, sid, buf) =>
      && s.consumed < |s.submitted| && len == |s.submitted[s.consumed]| && sid == s.consumed % SID_SPACE
      && |buf| <= len && buf == s.submitted[s.consumed][..|buf|]
  }

  ghost predicate PollerOk(s: State) {
    match s.poller
    case Waiting => true
    case SawDone => s.mode.Completing? && s.head < s.consumed
    case GotSid(sid) => s.mode.Completing? && s.head < s.consumed && sid == s.head % SID_SPACE
  }

  ghost predicate Inv(s: State) {
    WellFormed(s) && Counters(s) && SlotsOk(s) && ProducerOk(s) && DeviceOk(s) && PollerOk(s)
  }

  // ---- arithmetic of positions ----

  lemma SameResidue(a: nat, b: nat, d: nat)
    requires d > 0 && a < b < a + d
    ensures a % d != b % d
  {
    var q := b / d - a / d;
    assert b - a == d * q + (b % d - a % d);
    assert q >= 1 ==> d * q >= d;
    assert q <= 0 ==> d * q <= 0;
  }

  lemma NextLap(a: nat, d: nat)
    requires d > 0
    ensures (a + d) % d == a % d
  {
    assert a + d == d * (a / d + 1) + a % d;
    QuotientUnique(a + d, d, a / d + 1, a % d);
  }

  /** Positions of the current window occupy different slots. */
  lemma WindowSlotsDiffer(s: State, k: nat)
    requires WellFormed(s) && Freed(s) <= k < Freed(s) + s.depth
    ensures forall j: nat :: Freed(s) <= j < Freed(s) + s.depth && j != k ==> j % s.depth != k % s.depth
  {
    forall j: nat | Freed(s) <= j < Freed(s) + s.depth && j != k ensures j % s.depth != k % s.depth {
      if j < k {
        SameResidue(j, k, s.depth);
      } else {
        SameResidue(k, j, s.depth);
      }
    }
  }

  // ---- every action keeps the invariant ----

  /** While it writes into its free slot the producer disturbs no other position. */
  lemma ProducerWrite(s: State, slot: Slot, p: Producer)
    requires Inv(s) && s.tail == |s.submitted| < Freed(s) + s.depth && !p.Published?
    requires slot.status == s.slots[TailSlot(s)].status && |slot.payload| == s.capacity
    requires !s.producer.Published?
    requires ProducerOk(s.(slots := s.slots[TailSlot(s) := slot], producer := p))
    ensures Inv(s.(slots := s.slots[TailSlot(s) := slot], producer := p))
  {
    var s' := s.(slots := s.slots[TailSlot(s) := slot], producer := p);
    WindowSlotsDiffer(s, s.tail);
    forall k | Freed(s) <= k < |s.submitted| ensures Holds(s', k) {
      assert Holds(s, k);
    }
    forall k | |s.submitted| <= k < Freed(s) + s.depth ensures IsFree(s', k) {
      assert IsFree(s, k);
    }
  }

  /** In a full window the next position is the oldest one, still occupied. */
  lemma FullWindow(s: State)
    requires Inv(s) && |s.submitted| == Freed(s) + s.depth
    ensures s.slots[|s.submitted| % s.depth].status == (if Freed(s) < s.consumed then SLOT_DONE else SLOT_READY)
  {
    NextLap(Freed(s), s.depth);
    assert Holds(s, Freed(s));
  }

  lemma FreePosition(s: State, k: nat)
    requires Inv(s) && |s.submitted| <= k < Freed(s) + s.depth
    ensures s.slots[k % s.depth].status == SLOT_FREE
  {
    assert IsFree(s, k);
  }

  /** A free status at the tail means the window is not full. */
  lemma FreeTailIsInWindow(s: State)
    requires Inv(s) && s.producer.Spinning? && s.slots[TailSlot(s)].status == SLOT_FREE
    ensures s.tail < Freed(s) + s.depth
  {
    if s.tail == Freed(s) + s.depth {
      FullWindow(s);
    }
  }

  lemma WaitSteps(s: State, a: Action)
    requires Inv(s) && Enabled(s, a) && (a.Begin? || a.Spin?)
    ensures Inv(Do(s, a))
  {
    if a.Spin? && s.slots[TailSlot(s)].status == SLOT_FREE {
      FreeTailIsInWindow(s);
    }
    SameShared(s, Do(s, a));
  }

  lemma CopyStep(s: State)
    requires Inv(s) && s.producer.Copying?
    ensures Inv(Do(s, CopyByte))
  {
    var slot, data, k := s.slots[TailSlot(s)], s.producer.data, s.producer.k;
    if k < |data| {
      var slot' := slot.(payload := slot.payload[k := data[k]]);
      assert slot'.payload[..k + 1] == slot.payload[..k] + [data[k]] == data[..k + 1];
      ProducerWrite(s, slot', Copying(data, k + 1));
    } else {
      assert data[..k] == data;
      SameShared(s, Do(s, CopyByte));
    }
  }

  lemma HeaderSteps(s: State, a: Action)
    requires Inv(s) && Enabled(s, a) && (a.WriteLength? || a.WriteSid?)
    ensures Inv(Do(s, a))
  {
    var slot, data := s.slots[TailSlot(s)], s.producer.data;
    if a.WriteLength? {
      ProducerWrite(s, slot.(length := |data|), LengthSet(data));
    } else {
      ProducerWrite(s, slot.(sid := s.nextSid), SidSet(data));
    }
  }

  /** Steps that only move program counters leave memory and counters alone. */
  lemma SameShared(s: State, s': State)
    requires Inv(s) && s' == s.(producer := s'.producer, device := s'.device, poller := s'.poller)
    requires s'.producer.Published? == s.producer.Published?
    requires ProducerOk(s') && DeviceOk(s') && PollerOk(s')
    ensures Inv(s')
  {
    forall k | Freed(s) <= k < |s.submitted| ensures Holds(s', k) {
      assert Holds(s, k);
    }
    forall k | |s.submitted| <= k < Freed(s) + s.depth ensures IsFree(s', k) {
      assert IsFree(s, k);
    }
  }

  /** Publication: the slot was complete before its status changed. */
  lemma PublishStep(s: State)
    requires Inv(s) && s.producer.SidSet?
    ensures Inv(Do(s, WriteReady))
  {
    var s' := Do(s, WriteReady);
    WindowSlotsDiffer(s, s.tail);
    forall k | Freed(s') <= k < |s'.submitted| ensures Holds(s', k) {
      assert k < s.tail ==> Holds(s, k);
    }
    forall k | |s'.submitted| <= k < Freed(s') + s'.depth ensures IsFree(s', k) {
      assert IsFree(s, k);
    }
  }

  lemma SidsWrap(n: nat)
    ensures (n % SID_SPACE + 1) % SID_SPACE == (n + 1) % SID_SPACE
  {
  }

  lemma DoorbellStep(s: State)
    requires Inv(s) && s.producer.Published?
    ensures Inv(Do(s, RingDoorbell))
  {
    var s' := Do(s, RingDoorbell);
    SidsWrap(s.tail);
    forall k | Freed(s) <= k < |s.submitted| ensures Holds(s', k) {
      assert Holds(s, k);
    }
    forall k | |s.submitted| <= k < Freed(s) + s.depth ensures IsFree(s', k) {
      assert IsFree(s, k);
    }
  }

  /** A ready status at the device's position means it has something to consume. */
  lemma ReadyMeansPending(s: State)
    requires Inv(s) && s.slots[DeviceSlot(s)].status == SLOT_READY
    ensures s.consumed < |s.submitted|
  {
    if s.consumed == |s.submitted| {
      if s.consumed < Freed(s) + s.depth {
        FreePosition(s, s.consumed);
      } else {
        FullWindow(s);
      }
    }
  }

  lemma DeviceWatch(s: State)
    requires Inv(s) && s.device.Watching?
    ensures Inv(Do(s, DeviceStatus))
  {
    if s.slots[DeviceSlot(s)].status == SLOT_READY {
      ReadyMeansPending(s);
    }
    SameShared(s, Do(s, DeviceStatus));
  }

  lemma DeviceHeader(s: State, a: Action)
    requires Inv(s) && Enabled(s, a) && (a.DeviceLength? || a.DeviceSid?)
    ensures Inv(Do(s, a))
  {
    assert Holds(s, s.consumed);
    SameShared(s, Do(s, a));
  }

  lemma DeviceReadsByte(s: State)
    requires Inv(s) && Enabled(s, DeviceByte)
    ensures Inv(Do(s, DeviceByte))
  {
    assert Holds(s, s.consumed);
    var k, data := |s.device.buf|, s.submitted[s.consumed];
    assert s.slots[DeviceSlot(s)].payload[k] == s.slots[DeviceSlot(s)].payload[..|data|][k] == data[k];
    assert data[..k + 1] == data[..k] + [data[k]];
    SameShared(s, Do(s, DeviceByte));
  }

  /** Release: the message logged is the submission, and its slot changes hands. */
  lemma ReleaseStep(s: State)
    requires Inv(s) && Enabled(s, DeviceRelease)
    ensures Inv(Do(s, DeviceRelease))
  {
    var s' := Do(s, DeviceRelease);
    var c := s.consumed;
    assert s.submitted[c][..|s.submitted[c]|] == s.submitted[c];
    assert Holds(s, c);
    WindowSlotsDiffer(s, c);
    forall k | Freed(s') <= k < |s'.submitted| ensures Holds(s', k) {
      assert Holds(s, k);
    }
    forall k | |s'.submitted| <= k < Freed(s') + s'.depth ensures IsFree(s', k) {
      if k < Freed(s) + s.depth {
        assert IsFree(s, k);
      } else {
        NextLap(c, s.depth);
      }
    }
    TailUndisturbed(s, s', c);
  }

  /** The producer's slot is not the one being released. */
  lemma TailUndisturbed(s: State, s': State, c: nat)
    requires Inv(s) && WellFormed(s') && Freed(s) <= c < |s.submitted|
    requires s'.producer == s.producer && s'.tail == s.tail && s'.depth == s.depth && s'.capacity == s.capacity
    requires s'.nextSid == s.nextSid && s'.submitted == s.submitted && Freed(s) <= Freed(s')
    requires forall i :: 0 <= i < s.depth && i != c % s.depth ==> s'.slots[i] == s.slots[i]
    ensures ProducerOk(s')
  {
    if s.tail < Freed(s) + s.depth && !s.producer.Published? {
      WindowSlotsDiffer(s, c);
      assert s'.slots[TailSlot(s)] == s.slots[TailSlot(s)];
    }
  }

  lemma DoneMeansConsumed(s: State)
    requires Inv(s) && s.slots[HeadSlot(s)].status == SLOT_DONE
    ensures s.mode.Completing? && s.head < s.consumed
  {
    if s.mode.Completing? {
      if s.head < |s.submitted| {
        assert Holds(s, s.head);
      } else {
        FreePosition(s, s.head);
      }
    } else {
      NoDoneInLoopback(s, HeadSlot(s));
    }
  }

  lemma NoDoneInLoopback(s: State, i: nat)
    requires Inv(s) && s.mode.Loopback? && i < s.depth
    ensures s.slots[i].status != SLOT_DONE
  {
    var k := PositionOf(s, i);
    if k < |s.submitted| {
      assert Holds(s, k);
    } else {
      assert IsFree(s, k);
    }
  }

  /** Every slot is some position of the window. */
  ghost function PositionOf(s: State, i: nat): (k: nat)
    requires WellFormed(s) && i < s.depth
    ensures Freed(s) <= k < Freed(s) + s.depth && k % s.depth == i
  {
    var f, d := Freed(s), s.depth;
    var k := if i >= f % d then f - f % d + i else f - f % d + d + i;
    assert f == d * (f / d) + f % d;
    QuotientUnique(k, d, if i >= f % d then f / d else f / d + 1, i);
    k
  }

  lemma PollSteps(s: State, a: Action)
    requires Inv(s) && Enabled(s, a) && (a.PollStatus? || a.PollSid?)
    ensures Inv(Do(s, a))
  {
    if a.PollStatus? {
      if s.slots[HeadSlot(s)].status == SLOT_DONE {
        DoneMeansConsumed(s);
      }
    } else {
      assert Holds(s, s.head);
    }
    SameShared(s, Do(s, a));
  }

  lemma PollFreeStep(s: State)
    requires Inv(s) && Enabled(s, PollFree)
    ensures Inv(Do(s, PollFree))
  {
    var s' := Do(s, PollFree);
    WindowSlotsDiffer(s, s.head);
    forall k | Freed(s') <= k < |s'.submitted| ensures Holds(s', k) {
      assert Holds(s, k);
    }
    forall k | |s'.submitted| <= k < Freed(s') + s'.depth ensures IsFree(s', k) {
      if k < Freed(s) + s.depth {
        assert IsFree(s, k);
      } else {
        NextLap(s.head, s.depth);
      }
    }
    TailUndisturbed(s, s', s.head);
  }

  lemma StepKeepsInv(s: State, a: Action)
    requires Inv(s) && Enabled(s, a)
    ensures Inv(Do(s, a))
  {
    match a
    case WriteReady => PublishStep(s);
    case RingDoorbell => DoorbellStep(s);
    case DeviceStatus => DeviceWatch(s);
    case DeviceLength => DeviceHeader(s, a);
    case DeviceSid => DeviceHeader(s, a);
    case DeviceByte => DeviceReadsByte(s);
    case DeviceRelease => ReleaseStep(s);
    case PollStatus => PollSteps(s, a);
    case PollSid => PollSteps(s, a);
    case PollFree => PollFreeStep(s);
    case CopyByte => CopyStep(s);
    case WriteLength => HeaderSteps(s, a);
    case WriteSid => HeaderSteps(s, a);
    case _ => WaitSteps(s, a);
  }
}
