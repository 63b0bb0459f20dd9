/** Runs of the MODQ ring: every interleaving of producer, device and poller
    (crates/otap-modq/src/ring.rs, src/bin/modq_loopback.rs). */
module ModqRuns {
  import opened ByteStrings
  import opened ModqRing

  ghost predicate Stepped(s: State, a: Action, s': State) {
    WellFormed(s) && Enabled(s, a) && s' == Do(s, a)
  }

  ghost predicate Run(states: seq<State>, actions: seq<Action>) {
    && |states| == |actions| + 1
    && Init(states[0])
    && forall i :: 0 <= i < |actions| ==> Stepped(states[i], actions[i], states[i + 1])
  }

  lemma {:induction false} RunKeepsInv(states: seq<State>, actions: seq<Action>, i: nat)
    requires Run(states, actions) && i < |states|
    ensures Inv(states[i])
  {
    if i > 0 {
      RunKeepsInv(states, actions, i - 1);
      assert Stepped(states[i - 1], actions[i - 1], states[i]);
      StepKeepsInv(states[i - 1], actions[i - 1]);
    }
  }

  /** Ring safety: at every point of every interleaving, what the device has consumed is
      the submissions, whole and in order, none lost or repeated, with sids 0, 1, 2, ...
      modulo 2^32; polled sids are the same numbers in the same order; and the counters
      never cross or drift apart by more than the depth. */
  lemma RingSafety(states: seq<State>, actions: seq<Action>, i: nat)
    requires Run(states, actions) && i < |states|
    ensures var s := states[i];
      && |s.received| == s.consumed <= |s.submitted|
      && (forall k :: 0 <= k < s.consumed ==> s.received[k] == Message(s.submitted[k], |s.submitted[k]|, k % SID_SPACE))
      && |s.completions| == s.head
      && (forall k :: 0 <= k < s.head ==> s.completions[k] == k % SID_SPACE)
      && s.head <= s.consumed
      && s.tail <= |s.submitted| <= s.tail + 1
      && s.consumed <= |s.submitted| <= Freed(s) + s.depth
  {
    RunKeepsInv(states, actions, i);
    LoopbackNeverPolls(states, actions, i);
  }

  lemma LoopbackStep(s: State, a: Action, s': State)
    requires Inv(s) && Stepped(s, a, s') && (s.mode.Loopback? ==> s.head == 0 && s.poller.Waiting?)
    ensures s'.mode == s.mode && (s'.mode.Loopback? ==> s'.head == 0 && s'.poller.Waiting?)
  {
    if s.mode.Loopback? {
      NoDoneInLoopback(s, HeadSlot(s));
    }
  }

  /** In loopback mode `poll` never finds a completed slot. */
  lemma {:induction false} LoopbackNeverPolls(states: seq<State>, actions: seq<Action>, i: nat)
    requires Run(states, actions) && i < |states|
    ensures states[i].mode == states[0].mode
    ensures states[i].mode.Loopback? ==> states[i].head == 0 && states[i].poller.Waiting?
  {
    if i > 0 {
      LoopbackNeverPolls(states, actions, i - 1);
      RunKeepsInv(states, actions, i - 1);
      LoopbackStep(states[i - 1], actions[i - 1], states[i]);
    }
  }

  /** An unconsumed submission stays intact in its slot until the device takes it. */
  lemma PendingIsIntact(states: seq<State>, actions: seq<Action>, i: nat, k: nat)
    requires Run(states, actions) && i < |states|
    requires states[i].consumed <= k < |states[i].submitted|
    ensures WellFormed(states[i])
    ensures var s := states[i];
      var slot := s.slots[k % s.depth];
      slot.status == SLOT_READY && slot.length == |s.submitted[k]| && slot.sid == k % SID_SPACE
      && slot.length <= |slot.payload| && slot.payload[..slot.length] == s.submitted[k]
  {
    RunKeepsInv(states, actions, i);
    assert Holds(states[i], k);
  }
}
