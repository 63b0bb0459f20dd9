/** The transmit and receive pipeline: work requests posted to a send queue become transients,
    cross the fabric and become completions (crates/otap-obg, otap-fabric, otap-codec).

    Trajectory derivation and verification, and what the line does to a transient's
    polarization and payload bits, are inputs. */
module Pipeline {
  import opened ByteStrings
  import opened SchemaCodec
  import opened Wrappers

  type Sequence = x: int | 0 <= x < 65536

  /** The polarization samples of a transient, three coordinates each. */
  type Trajectory = seq<real>

  datatype Context = Context(wavelength: nat, oam: int, sequence: Sequence, payload: Bytes)

  datatype Transient = Transient(
    wavelength: nat, polarization: Trajectory, oam: int, sequence: Sequence, payload: Bytes)

  datatype WorkRequest = WorkRequest(schema: SchemaId, wavelength: nat, payloadLen: nat, cookie: nat)

  datatype Posted = Posted(wr: WorkRequest, payload: Bytes)

  datatype Completion = Completion(value: Value, authOk: bool, sequence: Sequence, cookie: nat)

  datatype PostError = Mismatch(expected: nat, actual: nat) | SendQueueFull

  /** The derivation and verification functions of the authentication layer. */
  datatype Auth = Auth(
    derive: (Bytes, Context) -> Trajectory,
    verify: (Bytes, Context, Trajectory) -> bool)

  /** What the line does to the i-th transient it carries. */
  datatype Line = Line(rotate: Trajectory -> Trajectory, noise: (nat, Bytes) -> Bytes)

  // ---- queues ----

  class SendQueue {
    var requests: seq<Posted>
    const capacity: nat

    constructor (capacity: nat)
      ensures this.capacity == capacity && requests == []
    {
      this.capacity := capacity;
      requests := [];
    }

    /** Only the declared length is checked against the schema, not the payload's own. */
    method Post(wr: WorkRequest, payload: Bytes) returns (error: Option<PostError>)
      modifies this
      ensures error.None? <==> wr.payloadLen == PayloadBytes(wr.schema) && |old(requests)| < capacity
      ensures error.None? ==> requests == old(requests) + [Posted(wr, payload)]
      ensures error.Some? ==> requests == old(requests)
      ensures error == Some(SendQueueFull) ==> wr.payloadLen == PayloadBytes(wr.schema)
      ensures wr.payloadLen != PayloadBytes(wr.schema) ==>
        error == Some(Mismatch(PayloadBytes(wr.schema), wr.payloadLen))
    {
      if PayloadBytes(wr.schema) != wr.payloadLen {
        return Some(Mismatch(PayloadBytes(wr.schema), wr.payloadLen));
      }
      if |requests| >= capacity {
        return Some(SendQueueFull);
      }
      requests := requests + [Posted(wr, payload)];
      return None;
    }

    method Pop() returns (r: Option<Posted>)
      modifies this
      ensures r == if old(requests) == [] then None else Some(old(requests)[0])
      ensures requests == if old(requests) == [] then [] else old(requests)[1..]
    {
      if requests == [] {
        return None;
      }
      r := Some(requests[0]);
      requests := requests[1..];
    }
  }

  /** The newest entries a completion queue keeps; even with capacity 0 it keeps one. */
  ghost function Newest(s: seq<Completion>, capacity: nat): seq<Completion> {
    var n := if capacity == 0 then 1 else capacity;
    if |s| <= n then s else s[|s| - n..]
  }

  class CompletionQueue {
    var completions: seq<Completion>
    const capacity: nat

    ghost predicate Valid()
      reads this
    {
      completions == Newest(completions, capacity)
    }

    constructor (capacity: nat)
      ensures this.capacity == capacity && completions == [] && Valid()
    {
      this.capacity := capacity;
      completions := [];
    }

    method Push(c: Completion)
      requires Valid()
      modifies this
      ensures Valid() && completions == Newest(old(completions) + [c], capacity)
    {
      if |completions| >= capacity {
        completions := if completions == [] then [] else completions[1..];
      }
      completions := completions + [c];
    }

    method Poll() returns (r: Option<Completion>)
      requires Valid()
      modifies this
      ensures Valid()
      ensures r == if old(completions) == [] then None else Some(old(completions)[0])
      ensures completions == if old(completions) == [] then [] else old(completions)[1..]
    {
      if completions == [] {
        return None;
      }
      r := Some(completions[0]);
      completions := completions[1..];
    }
  }

  // ---- the driver ----

  function Next(s: Sequence): Sequence {
    if s == 65535 then 0 else s + 1
  }

  ghost function After(s: Sequence, n: nat): Sequence {
    (s + n) % 65536
  }

  function Encode(auth: Auth, secret: Bytes, wavelength: nat, s: Sequence, oam: int, payload: Bytes): Transient {
    Transient(wavelength, auth.derive(secret, Context(wavelength, oam, s, payload)), oam, s, payload)
  }

  /** What a receiver makes of a transient: nothing, or the completion it pushes. */
  function Receive(auth: Auth, secret: Bytes, wavelength: nat, t: Transient): Option<Completion> {
    if t.wavelength != wavelength then None
    else
      match Decode(t.oam, t.payload)
      case Err(_) => None
      case Ok(v) =>
        var ok := auth.verify(secret, Context(t.wavelength, t.oam, t.sequence, t.payload), t.polarization);
        Some(Completion(v, ok, t.sequence, 0))
  }

  function Carry(line: Line, i: nat, t: Transient): Transient {
    t.(polarization := line.rotate(t.polarization), payload := line.noise(i, t.payload))
  }

  class SoftDriver {
    const auth: Auth
    const secret: Bytes
    const wavelength: nat
    var nextSequence: Sequence

    constructor (auth: Auth, secret: Bytes, wavelength: nat)
      ensures this.auth == auth && this.secret == secret && this.wavelength == wavelength && nextSequence == 0
    {
      this.auth, this.secret, this.wavelength := auth, secret, wavelength;
      nextSequence := 0;
    }

    method EncodeRaw(oam: int, payload: Bytes) returns (t: Transient)
      modifies this
      ensures t == Encode(auth, secret, wavelength, old(nextSequence), oam, payload)
      ensures nextSequence == After(old(nextSequence), 1)
    {
      t := Encode(auth, secret, wavelength, nextSequence, oam, payload);
      nextSequence := Next(nextSequence);
    }

    ghost function Sent(s: Sequence, requests: seq<Posted>): (ts: seq<Transient>)
      ensures |ts| == |requests|
    {
      seq(|requests|, i requires 0 <= i < |requests| =>
        Encode(auth, secret, wavelength, After(s, i), OamFor(requests[i].wr.schema), requests[i].payload))
    }

    /** Drains the send queue: one transient for each request, in order, numbered on. */
    method TransmitPending(send: SendQueue) returns (out: seq<(Transient, nat)>)
      modifies this, send
      ensures send.requests == [] && |out| == |old(send.requests)|
      ensures nextSequence == After(old(nextSequence), |out|)
      ensures forall i :: 0 <= i < |out| ==>
        out[i] == (Sent(old(nextSequence), old(send.requests))[i], old(send.requests)[i].wr.cookie)
    {
      out := [];
      ghost var all, s := send.requests, nextSequence;
      while |send.requests| > 0
        invariant |out| <= |all| && send.requests == all[|out|..]
        invariant nextSequence == After(s, |out|)
        invariant forall i :: 0 <= i < |out| ==> out[i] == (Sent(s, all)[i], all[i].wr.cookie)
        decreases |send.requests|
      {
        var popped := send.Pop();
        var request := popped.value;
        var t := EncodeRaw(OamFor(request.wr.schema), request.payload);
        NumbersOn(s, |out|);
        out := out + [(t, request.wr.cookie)];
      }
    }

    method Accept(t: Transient, cq: CompletionQueue)
      requires cq.Valid()
      modifies cq
      ensures cq.Valid()
      ensures cq.completions == Pushed(old(cq.completions), Receive(auth, secret, wavelength, t), cq.capacity)
    {
      var r := Receive(auth, secret, wavelength, t);
      if r.Some? {
        cq.Push(r.value);
      }
    }
  }

  lemma NumbersOn(s: Sequence, n: nat)
    ensures After(After(s, n), 1) == After(s, n + 1)
  {
  }

  // ---- the fabric ----

  /** What becomes of each transient at a receiver. */
  ghost function Outcomes(d: SoftDriver, line: Line, ts: seq<Transient>): (os: seq<Option<Completion>>)
    ensures |os| == |ts|
  {
    seq(|ts|, i requires 0 <= i < |ts| => Receive(d.auth, d.secret, d.wavelength, Carry(line, i, ts[i])))
  }

  ghost function Somes(os: seq<Option<Completion>>): seq<Completion> {
    if os == [] then []
    else
      var before := Somes(os[..|os| - 1]);
      match os[|os| - 1] case None => before case Some(c) => before + [c]
  }

  /** The completions the transients produce at a receiver, in order. */
  ghost function Delivered(d: SoftDriver, line: Line, ts: seq<Transient>): seq<Completion> {
    Somes(Outcomes(d, line, ts))
  }

  lemma NewestOfNewest(s: seq<Completion>, c: Completion, capacity: nat)
    ensures Newest(Newest(s, capacity) + [c], capacity) == Newest(s + [c], capacity)
  {
  }

  ghost function Pushed(cs: seq<Completion>, o: Option<Completion>, capacity: nat): seq<Completion> {
    match o case None => cs case Some(c) => Newest(cs + [c], capacity)
  }

  lemma PushNext(os: seq<Option<Completion>>, i: nat, held: seq<Completion>, capacity: nat)
    requires i < |os|
    ensures Pushed(Newest(held + Somes(os[..i]), capacity), os[i], capacity) ==
      Newest(held + Somes(os[..i + 1]), capacity)
  {
    assert os[..i + 1][..i] == os[..i];
    if os[i].Some? {
      var c := os[i].value;
      NewestOfNewest(held + Somes(os[..i]), c, capacity);
      assert held + (Somes(os[..i]) + [c]) == held + Somes(os[..i]) + [c];
    }
  }

  /** One pump of one direction: the sender's queue is drained, and the receiver's completion
      queue is the newest of what it held followed by what was delivered. */
  method Pump(line: Line, a: SoftDriver, send: SendQueue, b: SoftDriver, cq: CompletionQueue) returns (n: nat)
    requires cq.Valid()
    modifies a, send, cq
    ensures n == |old(send.requests)| && send.requests == [] && cq.Valid()
    ensures a.nextSequence == After(old(a.nextSequence), n)
    ensures var ts := a.Sent(old(a.nextSequence), old(send.requests));
      cq.completions == Newest(old(cq.completions) + Delivered(b, line, ts), cq.capacity)
  {
    ghost var ts := a.Sent(a.nextSequence, send.requests);
    ghost var os := Outcomes(b, line, ts);
    ghost var held := cq.completions;
    var outgoing := a.TransmitPending(send);
    n := |outgoing|;
    assert held + [] == held;
    for i := 0 to n
      invariant cq.Valid() && send.requests == []
      invariant a.nextSequence == After(old(a.nextSequence), n)
      invariant cq.completions == Newest(held + Somes(os[..i]), cq.capacity)
    {
      var carried := Carry(line, i, outgoing[i].0);
      assert os[i] == Receive(b.auth, b.secret, b.wavelength, carried);
      PushNext(os, i, held, cq.capacity);
      b.Accept(carried, cq);
    }
    assert os[..n] == os;
  }

  // ---- what is delivered ----

  /** Each request carries the encoding of a value under that value's schema. */
  ghost predicate Carries(requests: seq<Posted>, values: seq<Value>) {
    && |requests| == |values|
    && forall i {:trigger values[i]} :: 0 <= i < |values| ==>
         requests[i].wr.schema == IdOf(values[i]) && requests[i].payload == Encoded(values[i])
  }

  ghost predicate ErrorFree(line: Line) {
    forall i, p {:trigger line.noise(i, p)} :: line.noise(i, p) == p
  }

  /** The completion is for this value and sequence number. */
  ghost predicate For(c: Completion, v: Value, s: Sequence) {
    c.value == v && c.sequence == s && c.cookie == 0
  }

  lemma {:induction false} AllSome(os: seq<Option<Completion>>)
    requires forall i :: 0 <= i < |os| ==> os[i].Some?
    ensures |Somes(os)| == |os| && forall i :: 0 <= i < |os| ==> Somes(os)[i] == os[i].value
  {
    if os != [] {
      AllSome(os[..|os| - 1]);
    }
  }

  lemma {:induction false} NoneSome(os: seq<Option<Completion>>)
    requires forall i :: 0 <= i < |os| ==> os[i].None?
    ensures Somes(os) == []
  {
    if os != [] {
      NoneSome(os[..|os| - 1]);
    }
  }

  lemma OneArrives(
      a: SoftDriver, b: SoftDriver, line: Line, s: Sequence, requests: seq<Posted>, values: seq<Value>, i: nat)
    requires Carries(requests, values) && ErrorFree(line) && a.wavelength == b.wavelength && i < |values|
    ensures var got := Outcomes(b, line, a.Sent(s, requests))[i];
      got.Some? && For(got.value, values[i], After(s, i))
  {
    RoundTrip(values[i]);
  }

  /** On an error-free line between drivers on one wavelength every value arrives, in order,
      none dropped, none altered, numbered on by one modulo 65536. */
  lemma EverythingArrives(
      a: SoftDriver, b: SoftDriver, line: Line, s: Sequence, requests: seq<Posted>, values: seq<Value>)
    requires Carries(requests, values) && ErrorFree(line) && a.wavelength == b.wavelength
    ensures var got := Delivered(b, line, a.Sent(s, requests));
      |got| == |values| && forall i :: 0 <= i < |values| ==> For(got[i], values[i], After(s, i))
  {
    var os := Outcomes(b, line, a.Sent(s, requests));
    forall i | 0 <= i < |os| ensures os[i].Some? && For(os[i].value, values[i], After(s, i)) {
      OneArrives(a, b, line, s, requests, values, i);
    }
    AllSome(os);
  }

  lemma OneAuthenticates(a: SoftDriver, b: SoftDriver, line: Line, s: Sequence, requests: seq<Posted>, i: nat)
    requires ErrorFree(line) && a.wavelength == b.wavelength && i < |requests| && Agree(a, b, line)
    ensures var got := Outcomes(b, line, a.Sent(s, requests))[i];
      got.Some? ==> got.value.authOk
  {
    var r := requests[i];
    var c := Context(a.wavelength, OamFor(r.wr.schema), After(s, i), r.payload);
    assert b.auth.verify(b.secret, c, line.rotate(a.auth.derive(a.secret, c)));
  }

  /** The receiver's verification accepts what the sender derives, as the line rotates it. */
  ghost predicate Agree(a: SoftDriver, b: SoftDriver, line: Line) {
    forall c {:trigger a.auth.derive(a.secret, c)} ::
      b.auth.verify(b.secret, c, line.rotate(a.auth.derive(a.secret, c)))
  }

  lemma {:induction false} SomesFrom(os: seq<Option<Completion>>, c: Completion) returns (i: nat)
    requires c in Somes(os)
    ensures i < |os| && os[i] == Some(c)
  {
    i := |os| - 1;
    if os[i] != Some(c) {
      i := SomesFrom(os[..|os| - 1], c);
    }
  }

  /** If moreover the receiver accepts the sender's trajectories, every completion is
      authenticated. */
  lemma EverythingAuthenticates(
      a: SoftDriver, b: SoftDriver, line: Line, s: Sequence, requests: seq<Posted>, c: Completion)
    requires ErrorFree(line) && a.wavelength == b.wavelength && Agree(a, b, line)
    requires c in Delivered(b, line, a.Sent(s, requests))
    ensures c.authOk
  {
    var i := SomesFrom(Outcomes(b, line, a.Sent(s, requests)), c);
    OneAuthenticates(a, b, line, s, requests, i);
  }

  /** Between drivers on different wavelengths nothing is delivered. */
  lemma WrongWavelengthDeliversNothing(a: SoftDriver, b: SoftDriver, line: Line, s: Sequence, requests: seq<Posted>)
    requires a.wavelength != b.wavelength
    ensures Delivered(b, line, a.Sent(s, requests)) == []
  {
    NoneSome(Outcomes(b, line, a.Sent(s, requests)));
  }

  /** When a received payload is one the schema of its request can decode. */
  predicate Decodable(id: SchemaId, payload: Bytes) {
    |payload| == PayloadBytes(id) && (id == OrderId ==> payload[4] <= 1)
  }

  /** On any line, a request is delivered exactly when the payload that arrives has its
      schema's length and, for an order, a side byte of 0 or 1; then under its own number, as the
      value that payload decodes to, and authenticated exactly when the receiver verifies, for
      the payload that arrived, the rotated trajectory the sender derived for the one it sent. */
  lemma DeliveredIff(a: SoftDriver, b: SoftDriver, line: Line, s: Sequence, requests: seq<Posted>, i: nat)
    requires a.wavelength == b.wavelength && i < |requests|
    ensures var got := Outcomes(b, line, a.Sent(s, requests))[i];
      && (got.Some? <==> Decodable(requests[i].wr.schema, line.noise(i, requests[i].payload)))
      && (got.Some? ==>
            var id, sent := requests[i].wr.schema, requests[i].payload;
            var arrived, n, w := line.noise(i, sent), After(s, i), a.wavelength;
            var derived := a.auth.derive(a.secret, Context(w, OamFor(id), n, sent));
            && got.value.sequence == n && got.value.cookie == 0
            && IdOf(got.value.value) == id && Decode(OamFor(id), arrived) == Ok(got.value.value)
            && got.value.authOk == b.auth.verify(b.secret, Context(w, OamFor(id), n, arrived), line.rotate(derived)))
  {
  }

  /** A request posted with the right declared length and a shorter payload is accepted,
      takes a sequence number, and is silently lost. */
  lemma ShortPayloadIsLost(a: SoftDriver, b: SoftDriver, line: Line, s: Sequence, wr: WorkRequest, payload: Bytes)
    requires a.wavelength == b.wavelength && ErrorFree(line)
    requires wr.payloadLen == PayloadBytes(wr.schema) && |payload| < wr.payloadLen
    ensures Delivered(b, line, a.Sent(s, [Posted(wr, payload)])) == []
  {
    DeliveredIff(a, b, line, s, [Posted(wr, payload)], 0);
    NoneSome(Outcomes(b, line, a.Sent(s, [Posted(wr, payload)])));
  }
}
