/** One call of `submit` on the MODQ ring, from call to return
    (crates/otap-modq/src/ring.rs). */
module ModqSubmit {
  import opened ByteStrings
  import opened ModqRing
  import opened ModqRuns

  /** In this step the producer wrote nothing: if a slot changed, the device or the poller
      changed it; and if the producer looked at its slot, the slot was not free. */
  ghost predicate Quiet(s: State, a: Action, s': State) {
    && WellFormed(s)
    && (s'.slots == s.slots || a.DeviceRelease? || a.PollFree?)
    && !a.CopyByte? && !a.WriteLength? && !a.WriteSid? && !a.WriteReady? && !a.RingDoorbell?
    && (a.Spin? ==> s.slots[TailSlot(s)].status != SLOT_FREE)
  }

  ghost predicate QuietSpan(states: seq<State>, actions: seq<Action>, i: nat, m: nat)
    requires i <= m < |states| == |actions| + 1
  {
    forall k :: i <= k < m ==> Quiet(states[k], actions[k], states[k + 1])
  }

  ghost predicate SameCounters(s: State, s': State) {
    s'.tail == s.tail && s'.nextSid == s.nextSid && s'.doorbell == s.doorbell && s'.submitted == s.submitted
  }

  /** The counters after a successful submit of `data`. */
  ghost predicate Accepted(s: State, s': State, data: Bytes) {
    && |data| <= s.capacity && s'.submitted == s.submitted + [data]
    && s'.tail == s.tail + 1 && s'.nextSid == (s.nextSid + 1) % SID_SPACE && s'.doorbell == (s.tail + 1) % SID_SPACE
  }

  /** How far a call begun in `s` has come in `s'`. */
  ghost predicate Underway(s: State, s': State, data: Bytes) {
    && s'.capacity == s.capacity
    && match s'.producer {
         case Idle => SameCounters(s, s') || Accepted(s, s', data)
         case Spinning(d, n) => d == data && |data| <= s.capacity && n <= MAX_SPINS && SameCounters(s, s')
         case Published(d) =>
           && d == data && |data| <= s.capacity && s'.submitted == s.submitted + [data]
           && s'.tail == s.tail && s'.nextSid == s.nextSid && s'.doorbell == s.doorbell
         case p => p.data == data && |data| <= s.capacity && SameCounters(s, s')
       }
  }

  /** How often the producer looked at its slot. */
  ghost function Looks(actions: seq<Action>, i: nat, m: nat): nat
    requires i <= m <= |actions|
  {
    if i == m then 0 else Looks(actions, i, m - 1) + if actions[m - 1].Spin? then 1 else 0
  }

  /** Why a call is refused: the payload is too large for a slot, or the slot was looked at
      once more than the spin limit. */
  ghost predicate GivenUp(s: State, data: Bytes, looks: nat) {
    |data| > s.capacity || looks == MAX_SPINS + 1
  }

  ghost predicate Call(states: seq<State>, actions: seq<Action>, i: nat, j: nat, data: Bytes) {
    && Run(states, actions) && i < j < |states| && actions[i] == Begin(data)
    && forall m :: i < m < j ==> !states[m].producer.Idle?
  }

  /** Progress of a call, with whether the producer was quiet so far and how often it looked. */
  ghost predicate Progress(s: State, s': State, data: Bytes, quiet: bool, looks: nat) {
    && Underway(s, s', data)
    && (s'.producer.Spinning? ==> quiet && s'.producer.spins == looks)
    && (s'.producer.Idle? && SameCounters(s, s') ==> quiet && GivenUp(s, data, looks))
  }

  lemma ProgressStep(s: State, x: State, a: Action, x': State, data: Bytes, quiet: bool, looks: nat)
    requires Stepped(x, a, x') && Progress(s, x, data, quiet, looks) && !x.producer.Idle?
    ensures Progress(s, x', data, quiet && Quiet(x, a, x'), looks + if a.Spin? then 1 else 0)
  {
  }

  lemma ProgressBegin(s: State, data: Bytes, s': State)
    requires Stepped(s, Begin(data), s')
    ensures Quiet(s, Begin(data), s') && Progress(s, s', data, true, 0)
  {
  }

  lemma QuietLonger(states: seq<State>, actions: seq<Action>, i: nat, m: nat)
    requires i <= m && m + 1 < |states| == |actions| + 1
    ensures QuietSpan(states, actions, i, m + 1) <==>
      QuietSpan(states, actions, i, m) && Quiet(states[m], actions[m], states[m + 1])
  {
  }

  ghost predicate ProgressAt(states: seq<State>, actions: seq<Action>, i: nat, m: nat, data: Bytes)
    requires i <= m < |states| == |actions| + 1
  {
    Progress(states[i], states[m], data, QuietSpan(states, actions, i, m), Looks(actions, i, m))
  }

  lemma CallBegins(states: seq<State>, actions: seq<Action>, i: nat, data: Bytes)
    requires i + 1 < |states| == |actions| + 1 && actions[i] == Begin(data)
    requires Stepped(states[i], actions[i], states[i + 1])
    ensures ProgressAt(states, actions, i, i + 1, data)
  {
    ProgressBegin(states[i], data, states[i + 1]);
    QuietLonger(states, actions, i, i);
  }

  lemma CallGoesOn(states: seq<State>, actions: seq<Action>, i: nat, m: nat, data: Bytes)
    requires i <= m && m + 1 < |states| == |actions| + 1 && ProgressAt(states, actions, i, m, data)
    requires Stepped(states[m], actions[m], states[m + 1]) && !states[m].producer.Idle?
    ensures ProgressAt(states, actions, i, m + 1, data)
  {
    ProgressStep(states[i], states[m], actions[m], states[m + 1], data,
                 QuietSpan(states, actions, i, m), Looks(actions, i, m));
    QuietLonger(states, actions, i, m);
  }

  lemma {:induction false} CallProgress(states: seq<State>, actions: seq<Action>, i: nat, j: nat, data: Bytes)
    requires Call(states, actions, i, j, data)
    ensures ProgressAt(states, actions, i, j, data)
    decreases j
  {
    if j == i + 1 {
      CallBegins(states, actions, i, data);
    } else {
      CallProgress(states, actions, i, j - 1, data);
      CallGoesOn(states, actions, i, j - 1, data);
    }
  }

  /** A submit is all or nothing, under every interleaving: from the call to the return,
      either the payload has been published as the next submission under the next sid, or
      the call was refused (too large, or its slot stayed occupied through every look) and
      the producer wrote nothing to any slot and moved no counter. */
  lemma SubmitIsAtomic(states: seq<State>, actions: seq<Action>, i: nat, j: nat, data: Bytes)
    requires Call(states, actions, i, j, data) && states[j].producer.Idle?
    ensures
      || Accepted(states[i], states[j], data)
      || (&& SameCounters(states[i], states[j]) && QuietSpan(states, actions, i, j)
          && GivenUp(states[i], data, Looks(actions, i, j)))
  {
    CallProgress(states, actions, i, j, data);
  }
}
