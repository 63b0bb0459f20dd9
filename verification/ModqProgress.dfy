/** Progress on the MODQ ring (crates/otap-modq/src/ring.rs and the consumer in
    src/bin/modq_loopback.rs): what a number of actions of one party brings about, whatever the
    others do in between. */
module ModqProgress {
  import opened ByteStrings
  import opened ModqRing
  import opened ModqRuns

  datatype Party = Submitter | Consumer | Poll

  function Of(a: Action): Party {
    match a
    case DeviceStatus | DeviceLength | DeviceSid | DeviceByte | DeviceRelease => Consumer
    case PollStatus | PollSid | PollFree => Poll
    case _ => Submitter
  }

  /** How many of the actions from i up to j are the party's. */
  ghost function Turns(actions: seq<Action>, who: Party, i: nat, j: nat): nat
    requires i <= j <= |actions|
    decreases j - i
  {
    if i == j then 0 else (if Of(actions[i]) == who then 1 else 0) + Turns(actions, who, i + 1, j)
  }

  // ---- nobody is ever stuck ----

  /** The one action a party can take next; a submitter that is idle waits for a call. */
  ghost function Next(s: State, who: Party): Action {
    match who
    case Submitter =>
      (match s.producer
       case Idle => Begin([])
       case Spinning(_, _) => Spin
       case Copying(_, _) => CopyByte
       case Copied(_) => WriteLength
       case LengthSet(_) => WriteSid
       case SidSet(_) => WriteReady
       case Published(_) => RingDoorbell)
    case Consumer =>
      (match s.device
       case Watching => DeviceStatus
       case SawReady => DeviceLength
       case GotLength(_) => DeviceSid
       case Reading(len, _, buf) => if |buf| < len then DeviceByte else DeviceRelease)
    case Poll =>
      (match s.poller
       case Waiting => PollStatus
       case SawDone => PollSid
       case GotSid(_) => PollFree)
  }

  /** Each party can always act, in one way only but for the payload of a new call. */
  lemma NeverStuck(s: State, who: Party, a: Action)
    ensures Of(Next(s, who)) == who && Enabled(s, Next(s, who))
    ensures Of(a) == who && Enabled(s, a) ==> a == Next(s, who) || (a.Begin? && Next(s, who).Begin?)
  {
  }

  // ---- what is to be done, and how many turns it takes ----

  /** The device has a submission to consume. */
  ghost predicate Pending(s: State) {
    s.consumed < |s.submitted|
  }

  ghost function DeviceTurns(s: State): nat
    requires Pending(s)
  {
    var len := |s.submitted[s.consumed]|;
    match s.device
    case Watching => len + 4
    case SawReady => len + 3
    case GotLength(_) => len + 2
    case Reading(_, _, buf) => if |buf| < len then len - |buf| + 1 else 1
  }

  /** `poll` has a completion to return. */
  ghost predicate Completed(s: State) {
    s.mode.Completing? && s.head < s.consumed
  }

  ghost function PollTurns(s: State): nat {
    match s.poller
    case Waiting => 3
    case SawDone => 2
    case GotSid(_) => 1
  }

  /** A call of `submit` is under way and the slot at the tail is, or was when it looked, free. */
  ghost predicate Submitting(s: State)
    requires WellFormed(s)
  {
    match s.producer
    case Idle => false
    case Spinning(_, _) => s.slots[TailSlot(s)].status == SLOT_FREE
    case _ => true
  }

  ghost function SubmitTurns(s: State): nat
    requires WellFormed(s) && Submitting(s)
  {
    match s.producer
    case Spinning(data, _) => |data| + 6
    case Copying(data, k) => if k < |data| then |data| - k + 5 else 5
    case Copied(_) => 4
    case LengthSet(_) => 3
    case SidSet(_) => 2
    case Published(_) => 1
  }

  // ---- one step ----

  /** The submission log only grows. */
  lemma LogGrows(s: State, a: Action, s': State)
    requires Inv(s) && Stepped(s, a, s')
    ensures s.submitted <= s'.submitted && s.consumed <= s'.consumed && s.head <= s'.head && s.tail <= s'.tail
    ensures s'.mode == s.mode && s'.depth == s.depth && s'.capacity == s.capacity
  {
  }

  lemma DeviceTurn(s: State, a: Action, s': State)
    requires Inv(s) && Stepped(s, a, s') && Pending(s)
    ensures s'.consumed == s.consumed ==>
      Pending(s') && DeviceTurns(s') == DeviceTurns(s) - if Of(a) == Consumer then 1 else 0
    ensures Of(a) == Consumer && DeviceTurns(s) == 1 ==> s'.consumed == s.consumed + 1
  {
    assert Holds(s, s.consumed);
  }

  lemma PollTurn(s: State, a: Action, s': State)
    requires Inv(s) && Stepped(s, a, s') && Completed(s)
    ensures s'.head == s.head ==>
      Completed(s') && PollTurns(s') == PollTurns(s) - if Of(a) == Poll then 1 else 0
    ensures Of(a) == Poll && PollTurns(s) == 1 ==> s'.head == s.head + 1
  {
    assert Holds(s, s.head);
  }

  /** A free slot stays free until the submitter takes it. */
  lemma TailStaysFree(s: State, a: Action, s': State)
    requires Inv(s) && Stepped(s, a, s') && Of(a) != Submitter && s.slots[TailSlot(s)].status == SLOT_FREE
    ensures WellFormed(s') && s'.slots[TailSlot(s')].status == SLOT_FREE
  {
    if a.DeviceRelease? {
      assert Holds(s, s.consumed);
    }
  }

  lemma SubmitTurn(s: State, a: Action, s': State)
    requires Inv(s) && Stepped(s, a, s') && Submitting(s)
    ensures WellFormed(s')
    ensures s'.tail == s.tail ==>
      && Submitting(s') && s'.producer.data == s.producer.data
      && SubmitTurns(s') == SubmitTurns(s) - if Of(a) == Submitter then 1 else 0
    ensures Of(a) == Submitter && SubmitTurns(s) == 1 ==> s'.tail == s.tail + 1
    ensures s'.tail != s.tail ==>
      s'.producer.Idle? && s'.submitted == s.submitted && |s.submitted| == s.tail + 1 && s.submitted[s.tail] == s.producer.data
  {
    if Of(a) != Submitter && s.producer.Spinning? {
      TailStaysFree(s, a, s');
    }
  }

  // ---- any interleaving ----

  lemma {:induction false} RunsGrow(states: seq<State>, actions: seq<Action>, i: nat, j: nat)
    requires Run(states, actions) && i <= j < |states|
    ensures states[i].submitted <= states[j].submitted && states[i].consumed <= states[j].consumed
    ensures states[i].head <= states[j].head && states[i].tail <= states[j].tail
    decreases j - i
  {
    if i < j {
      RunKeepsInv(states, actions, i);
      LogGrows(states[i], actions[i], states[i + 1]);
      RunsGrow(states, actions, i + 1, j);
    }
  }

  lemma {:induction false} TurnsSplit(actions: seq<Action>, who: Party, i: nat, m: nat, j: nat)
    requires i <= m <= j <= |actions|
    ensures Turns(actions, who, i, j) == Turns(actions, who, i, m) + Turns(actions, who, m, j)
    decreases m - i
  {
    if i < m {
      TurnsSplit(actions, who, i + 1, m, j);
    }
  }

  /** While a submission is pending, DeviceTurns actions of the device consume it, however they
      are interleaved with the others'. */
  lemma {:induction false} DeviceConsumes(states: seq<State>, actions: seq<Action>, i: nat, j: nat) returns (m: nat)
    requires Run(states, actions) && i <= j < |states| && Pending(states[i])
    requires Turns(actions, Consumer, i, j) >= DeviceTurns(states[i])
    ensures i < m <= j && Turns(actions, Consumer, i, m) == DeviceTurns(states[i])
    ensures states[m].consumed == states[i].consumed + 1 && states[m].device.Watching?
    decreases j - i
  {
    RunKeepsInv(states, actions, i);
    DeviceTurn(states[i], actions[i], states[i + 1]);
    if states[i + 1].consumed == states[i].consumed {
      m := DeviceConsumes(states, actions, i + 1, j);
    } else {
      m := i + 1;
    }
  }

  /** The turns the device needs to consume everything up to submission k. */
  ghost function TurnsUpTo(s: State, k: nat): nat
    requires s.consumed <= k < |s.submitted|
  {
    if k == s.consumed then DeviceTurns(s) else TurnsUpTo(s, k - 1) + |s.submitted[k]| + 4
  }

  lemma {:induction false} TurnsLeft(s: State, s': State, k: nat)
    requires s.consumed < k < |s.submitted| && s.submitted <= s'.submitted
    requires s'.consumed == s.consumed + 1 && s'.device.Watching?
    ensures TurnsUpTo(s, k) == DeviceTurns(s) + TurnsUpTo(s', k)
  {
    if k > s'.consumed {
      TurnsLeft(s, s', k - 1);
    }
  }

  /** Every submission arrives: in any interleaving, after TurnsUpTo actions of the device it has
      received submission k whole and under its sid. */
  lemma {:induction false} SubmissionArrives(states: seq<State>, actions: seq<Action>, i: nat, j: nat, k: nat)
    requires Run(states, actions) && i <= j < |states| && states[i].consumed <= k < |states[i].submitted|
    requires Turns(actions, Consumer, i, j) >= TurnsUpTo(states[i], k)
    ensures k < |states[j].received| == states[j].consumed
    ensures states[j].received[k] == Message(states[i].submitted[k], |states[i].submitted[k]|, k % SID_SPACE)
    decreases k - states[i].consumed
  {
    NeededFirst(states[i], k);
    var m := DeviceConsumes(states, actions, i, j);
    RunsGrow(states, actions, i, m);
    RunsGrow(states, actions, m, j);
    if k > states[i].consumed {
      TurnsLeft(states[i], states[m], k);
      TurnsSplit(actions, Consumer, i, m, j);
      SubmissionArrives(states, actions, m, j, k);
    } else {
      RingSafety(states, actions, j);
    }
  }

  lemma {:induction false} NeededFirst(s: State, k: nat)
    requires s.consumed <= k < |s.submitted|
    ensures TurnsUpTo(s, k) >= DeviceTurns(s)
  {
    if k > s.consumed {
      NeededFirst(s, k - 1);
    }
  }

  /** While a completion is unpolled, PollTurns actions of the poller return it: the sid of the
      oldest submission not yet polled. */
  lemma {:induction false} PollReturns(states: seq<State>, actions: seq<Action>, i: nat, j: nat)
    requires Run(states, actions) && i <= j < |states| && Completed(states[i])
    requires Turns(actions, Poll, i, j) >= PollTurns(states[i])
    ensures var k := states[i].head;
      k < |states[j].completions| == states[j].head && states[j].completions[k] == k % SID_SPACE
    decreases j - i
  {
    RunKeepsInv(states, actions, i);
    PollTurn(states[i], actions[i], states[i + 1]);
    LogGrows(states[i], actions[i], states[i + 1]);
    if states[i + 1].head == states[i].head {
      PollReturns(states, actions, i + 1, j);
    } else {
      RunsGrow(states, actions, i + 1, j);
      RingSafety(states, actions, j);
    }
  }

  /** Between calls, and while a call waits, the slot at the tail is free exactly when fewer than
      `depth` submissions are waiting to be handed back. */
  lemma TailFreeIff(states: seq<State>, actions: seq<Action>, i: nat)
    requires Run(states, actions) && i < |states| && (states[i].producer.Idle? || states[i].producer.Spinning?)
    ensures WellFormed(states[i])
    ensures states[i].slots[TailSlot(states[i])].status == SLOT_FREE <==>
      |states[i].submitted| < (if states[i].mode.Loopback? then states[i].consumed else states[i].head) + states[i].depth
  {
    var s := states[i];
    RunKeepsInv(states, actions, i);
    if |s.submitted| < Freed(s) + s.depth {
      FreePosition(s, s.tail);
    } else {
      FullWindow(s);
    }
  }

  /** Once the slot at the tail is free, SubmitTurns actions of the submitter finish the call:
      its payload is the next submission. */
  lemma {:induction false} SubmitFinishes(states: seq<State>, actions: seq<Action>, i: nat, j: nat)
    requires Run(states, actions) && i <= j < |states| && WellFormed(states[i]) && Submitting(states[i])
    requires Turns(actions, Submitter, i, j) >= SubmitTurns(states[i])
    ensures var k := states[i].tail;
      k < states[j].tail && k < |states[j].submitted| && states[j].submitted[k] == states[i].producer.data
    decreases j - i
  {
    RunKeepsInv(states, actions, i);
    SubmitTurn(states[i], actions[i], states[i + 1]);
    LogGrows(states[i], actions[i], states[i + 1]);
    if states[i + 1].tail == states[i].tail {
      SubmitFinishes(states, actions, i + 1, j);
    } else {
      RunsGrow(states, actions, i + 1, j);
    }
  }

  // ---- alone ----

  /** Taking the actions in turn leads from s to s'. */
  ghost predicate Leads(s: State, actions: seq<Action>, s': State)
    decreases |actions|
  {
    if actions == [] then s' == s
    else WellFormed(s) && Enabled(s, actions[0]) && Leads(Do(s, actions[0]), actions[1..], s')
  }

  /** One call of `poll` in any reachable state: with a completion waiting it returns the sid of
      submission `head`, frees that slot and moves on; otherwise it changes nothing. */
  lemma PollAnswers(states: seq<State>, actions: seq<Action>, i: nat, s': State)
    requires Run(states, actions) && i < |states| && states[i].poller.Waiting?
    ensures var s := states[i];
      && WellFormed(s)
      && (Completed(s) ==>
            (Leads(s, [PollStatus, PollSid, PollFree], s') <==>
               s' == s.(slots := s.slots[s.head % s.depth := s.slots[s.head % s.depth].(status := SLOT_FREE)],
                        head := s.head + 1, completions := s.completions + [s.head % SID_SPACE])))
      && (!Completed(s) ==> Do(s, PollStatus) == s)
  {
    var s := states[i];
    RunKeepsInv(states, actions, i);
    var s1 := Do(s, PollStatus);
    if Completed(s) {
      assert Holds(s, s.head);
      var s2 := Do(s1, PollSid);
      ThreeActions(s, PollStatus, PollSid, PollFree, s');
    } else if s1 != s {
      DoneMeansConsumed(s);
    }
  }

  lemma ThreeActions(s: State, a: Action, b: Action, c: Action, s': State)
    ensures Leads(s, [a, b, c], s') <==>
      && WellFormed(s) && Enabled(s, a)
      && WellFormed(Do(s, a)) && Enabled(Do(s, a), b)
      && WellFormed(Do(Do(s, a), b)) && Enabled(Do(Do(s, a), b), c)
      && s' == Do(Do(Do(s, a), b), c)
  {
    assert [a, b, c][1..] == [b, c] && [b, c][1..] == [c] && [c][1..] == [];
    if WellFormed(s) && Enabled(s, a) {
      var s1 := Do(s, a);
      if WellFormed(s1) && Enabled(s1, b) {
        var s2 := Do(s1, b);
        if WellFormed(s2) && Enabled(s2, c) {
          assert Leads(Do(s2, c), [], s') <==> s' == Do(s2, c);
          assert Leads(s2, [c], s') <==> s' == Do(s2, c);
        }
        assert Leads(s1, [b, c], s') <==> Leads(s2, [c], s');
      }
      assert Leads(s, [a, b, c], s') <==> Leads(s1, [b, c], s');
    }
  }

  /** The device's own actions, from any reachable state with something pending, consume it in
      exactly DeviceTurns steps. */
  lemma {:induction false} DeviceAlone(s: State) returns (actions: seq<Action>, s': State)
    requires Inv(s) && Pending(s)
    ensures Leads(s, actions, s') && |actions| == DeviceTurns(s) && forall a :: a in actions ==> Of(a) == Consumer
    ensures s'.received == s.received + [Message(s.submitted[s.consumed], |s.submitted[s.consumed]|, s.consumed % SID_SPACE)]
    ensures s'.consumed == s.consumed + 1 && s'.submitted == s.submitted
    decreases DeviceTurns(s)
  {
    var a := Next(s, Consumer);
    var s1 := Do(s, a);
    StepKeepsInv(s, a);
    DeviceTurn(s, a, s1);
    if s1.consumed == s.consumed {
      var rest;
      rest, s' := DeviceAlone(s1);
      actions := [a] + rest;
      assert actions[1..] == rest;
    } else {
      actions, s' := [a], s1;
      assert [a][1..] == [];
      assert s.submitted[s.consumed][..|s.submitted[s.consumed]|] == s.submitted[s.consumed];
    }
  }
}
