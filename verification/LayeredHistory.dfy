/** What the layered drift detector's state and report say about the samples it has seen
    (stage-chronos/layered.py). */
module LayeredHistory {
  import opened Layered
  import opened Wrappers

  // ---- which layer is reported ----

  /** Frame f reached the fast layer and was a shock. */
  ghost predicate ShockAt(cfg: Config, rs: seq<Reading>, ss: seq<State>, f: nat)
    requires |ss| == |rs| + 1
  {
    cfg.window < f <= |rs| && ss[f - 1].link != COMPROMISED && IsShock(cfg, rs[f - 1])
  }

  /** Frame f was the shock that completes `confirm` in a row. */
  ghost predicate ConfirmedAt(cfg: Config, rs: seq<Reading>, ss: seq<State>, f: nat)
    requires |ss| == |rs| + 1
  {
    ShockAt(cfg, rs, ss, f) && Shocks(cfg, rs, f) >= cfg.confirm
  }

  /** Frame f reached the slow layer and left the baseline more than the threshold below the one
      longWindow - 1 frames earlier. */
  ghost predicate RatchetAt(cfg: Config, rs: seq<Reading>, ss: seq<State>, f: nat)
    requires |ss| == |rs| + 1
  {
    && cfg.window < f <= |rs| && ss[f - 1].link != COMPROMISED && !ConfirmedAt(cfg, rs, ss, f)
    && f >= cfg.longWindow > 0 && ss[f - cfg.longWindow + 1].baseline - ss[f].baseline > cfg.ratchetThr
  }

  /** Frame f was the first shock. */
  ghost predicate FirstShock(cfg: Config, rs: seq<Reading>, ss: seq<State>, f: nat)
    requires |ss| == |rs| + 1
  {
    ShockAt(cfg, rs, ss, f) && forall g :: 0 <= g < f ==> !ShockAt(cfg, rs, ss, g)
  }

  ghost predicate NoShock(cfg: Config, rs: seq<Reading>, ss: seq<State>, n: nat)
    requires |ss| == |rs| + 1
  {
    forall f :: 0 <= f <= n ==> !ShockAt(cfg, rs, ss, f)
  }

  ghost predicate NoRatchet(cfg: Config, rs: seq<Reading>, ss: seq<State>, n: nat)
    requires |ss| == |rs| + 1
  {
    forall f :: 0 <= f <= n ==> !RatchetAt(cfg, rs, ss, f)
  }

  /** The fast event holds the time of the first shock up to frame n, if there is one. */
  ghost predicate FastEventOk(cfg: Config, rs: seq<Reading>, ss: seq<State>, n: nat)
    requires |ss| == |rs| + 1 && n <= |rs|
  {
    match ss[n].fastEvent
    case None => NoShock(cfg, rs, ss, n)
    case Some(t) => exists f :: 0 < f <= n && FirstShock(cfg, rs, ss, f) && t == rs[f - 1].t
  }

  /** The slow event holds the time of the ratchet frame; there is at most one, the last frame
      that was looked at. */
  ghost predicate SlowEventOk(cfg: Config, rs: seq<Reading>, ss: seq<State>, n: nat)
    requires |ss| == |rs| + 1 && n <= |rs|
  {
    match ss[n].slowEvent
    case None => NoRatchet(cfg, rs, ss, n)
    case Some(t) =>
      exists f :: 0 < f <= n && RatchetAt(cfg, rs, ss, f) && t == rs[f - 1].t && ss[f].link == COMPROMISED
  }

  lemma FastLayerEvents(cfg: Config, s: State, r: Reading)
    requires cfg.window > 0 && s.link != COMPROMISED && (s.fastEvent.None? ==> s.shock == 0)
    ensures var s' := FastLayer(cfg, s, r);
      && s'.fastEvent == (if IsShock(cfg, r) && s.fastEvent.None? then Some(r.t) else s.fastEvent)
      && s'.slowEvent == s.slowEvent && s'.baselineHist == s.baselineHist
      && (s'.link == COMPROMISED <==> IsShock(cfg, r) && s.shock + 1 >= cfg.confirm)
  {
  }

  lemma SlowLayerEvents(cfg: Config, s: State, t: int)
    requires cfg.longWindow > 0
    ensures var s' := SlowLayer(cfg, s, t);
      && s'.fastEvent == s.fastEvent && s'.baseline == s.baseline
      && s'.slowEvent ==
           (if Ratcheted(cfg, Push(s.baselineHist, s.baseline, cfg.longWindow)) && s.slowEvent.None? then Some(t) else s.slowEvent)
  {
  }

  lemma EventStep(cfg: Config, s: State, r: Reading, s': State)
    requires StepsTo(cfg, s, r, s') && (s.fastEvent.None? ==> s.shock == 0)
    ensures |s.history| < cfg.window || s.link == COMPROMISED ==> s'.fastEvent == s.fastEvent && s'.slowEvent == s.slowEvent
    ensures |s.history| >= cfg.window && s.link != COMPROMISED ==>
      && s'.fastEvent == (if IsShock(cfg, r) && s.fastEvent.None? then Some(r.t) else s.fastEvent)
      && s'.slowEvent ==
           (if !(IsShock(cfg, r) && s.shock + 1 >= cfg.confirm) && Ratcheted(cfg, Push(s.baselineHist, s'.baseline, cfg.longWindow))
               && s.slowEvent.None? then Some(r.t) else s.slowEvent)
  {
    if |s.history| >= cfg.window && s.link != COMPROMISED {
      FastLayerEvents(cfg, s, r);
      SlowLayerEvents(cfg, FastLayer(cfg, s, r), r.t);
    }
  }

  /** Without a shock on record the counter is zero. */
  lemma {:induction false} NoEventNoShock(cfg: Config, rs: seq<Reading>, ss: seq<State>, n: nat)
    requires IsRun(cfg, rs, ss) && n <= |rs|
    ensures ss[n].fastEvent.None? ==> ss[n].shock == 0
  {
    if n > 0 {
      NoEventNoShock(cfg, rs, ss, n - 1);
      assert StepsTo(cfg, ss[n - 1], rs[n - 1], ss[n]);
    }
  }

  /** Where an uncompromised run stands before frame n. */
  ghost predicate Stands(cfg: Config, rs: seq<Reading>, ss: seq<State>, n: nat)
    requires |ss| == |rs| + 1 && 0 < n <= |rs|
  {
    && (|ss[n - 1].history| >= cfg.window <==> n > cfg.window)
    && (n > cfg.window && IsShock(cfg, rs[n - 1]) ==> ss[n - 1].shock + 1 == Shocks(cfg, rs, n))
    && (Ratcheted(cfg, Push(ss[n - 1].baselineHist, ss[n].baseline, cfg.longWindow)) <==>
          n >= cfg.longWindow > 0 && ss[n - cfg.longWindow + 1].baseline - ss[n].baseline > cfg.ratchetThr)
  }

  lemma BeforeFrame(cfg: Config, rs: seq<Reading>, ss: seq<State>, n: nat)
    requires IsRun(cfg, rs, ss) && 0 < n <= |rs| && ss[n - 1].link != COMPROMISED
    ensures Stands(cfg, rs, ss, n)
  {
    UncompromisedTrace(cfg, rs, ss, n - 1);
    ShockCounter(cfg, rs, ss, n - 1);
    WindowRatcheted(cfg, ss, n);
  }

  /** What one frame does to the two events. */
  ghost predicate EventsMove(cfg: Config, rs: seq<Reading>, ss: seq<State>, n: nat)
    requires |ss| == |rs| + 1 && 0 < n <= |rs|
  {
    && ss[n].fastEvent ==
         (if ShockAt(cfg, rs, ss, n) && ss[n - 1].fastEvent.None? then Some(rs[n - 1].t) else ss[n - 1].fastEvent)
    && ss[n].slowEvent ==
         (if RatchetAt(cfg, rs, ss, n) && ss[n - 1].slowEvent.None? then Some(rs[n - 1].t) else ss[n - 1].slowEvent)
  }

  lemma EventsOfFrame(cfg: Config, rs: seq<Reading>, ss: seq<State>, n: nat)
    requires |ss| == |rs| + 1 && 0 < n <= |rs| && StepsTo(cfg, ss[n - 1], rs[n - 1], ss[n])
    requires ss[n - 1].fastEvent.None? ==> ss[n - 1].shock == 0
    requires ss[n - 1].link != COMPROMISED ==> Stands(cfg, rs, ss, n)
    ensures EventsMove(cfg, rs, ss, n)
  {
    EventStep(cfg, ss[n - 1], rs[n - 1], ss[n]);
  }

  lemma EventFrame(cfg: Config, rs: seq<Reading>, ss: seq<State>, n: nat)
    requires IsRun(cfg, rs, ss) && 0 < n <= |rs|
    ensures EventsMove(cfg, rs, ss, n)
  {
    NoEventNoShock(cfg, rs, ss, n - 1);
    if ss[n - 1].link != COMPROMISED {
      BeforeFrame(cfg, rs, ss, n);
    }
    assert StepsTo(cfg, ss[n - 1], rs[n - 1], ss[n]);
    EventsOfFrame(cfg, rs, ss, n);
  }

  lemma FastEventNext(cfg: Config, rs: seq<Reading>, ss: seq<State>, n: nat)
    requires |ss| == |rs| + 1 && 0 < n <= |rs| && FastEventOk(cfg, rs, ss, n - 1)
    requires EventsMove(cfg, rs, ss, n)
    ensures FastEventOk(cfg, rs, ss, n)
  {
    if ss[n - 1].fastEvent.Some? {
      var f :| 0 < f <= n - 1 && FirstShock(cfg, rs, ss, f) && ss[n - 1].fastEvent.value == rs[f - 1].t;
      assert FirstShock(cfg, rs, ss, f);
    } else if ShockAt(cfg, rs, ss, n) {
      assert FirstShock(cfg, rs, ss, n);
    }
  }

  lemma {:induction false} FastEventTime(cfg: Config, rs: seq<Reading>, ss: seq<State>, n: nat)
    requires IsRun(cfg, rs, ss) && n <= |rs|
    ensures FastEventOk(cfg, rs, ss, n)
  {
    if n > 0 {
      FastEventTime(cfg, rs, ss, n - 1);
      EventFrame(cfg, rs, ss, n);
      FastEventNext(cfg, rs, ss, n);
    }
  }

  lemma RatchetCompromises(cfg: Config, rs: seq<Reading>, ss: seq<State>, f: nat)
    requires IsRun(cfg, rs, ss) && RatchetAt(cfg, rs, ss, f)
    ensures ss[f].link == COMPROMISED
  {
    CompromisedIff(cfg, rs, ss, f);
  }

  lemma SlowEventNext(cfg: Config, rs: seq<Reading>, ss: seq<State>, n: nat)
    requires |ss| == |rs| + 1 && 0 < n <= |rs| && SlowEventOk(cfg, rs, ss, n - 1)
    requires RatchetAt(cfg, rs, ss, n) ==> ss[n].link == COMPROMISED
    requires EventsMove(cfg, rs, ss, n)
    ensures SlowEventOk(cfg, rs, ss, n)
  {
    if ss[n - 1].slowEvent.Some? {
      var f :| 0 < f <= n - 1 && RatchetAt(cfg, rs, ss, f) && ss[n - 1].slowEvent.value == rs[f - 1].t && ss[f].link == COMPROMISED;
      assert RatchetAt(cfg, rs, ss, f);
    }
  }

  lemma {:induction false} SlowEventTime(cfg: Config, rs: seq<Reading>, ss: seq<State>, n: nat)
    requires IsRun(cfg, rs, ss) && n <= |rs|
    ensures SlowEventOk(cfg, rs, ss, n)
  {
    if n > 0 {
      SlowEventTime(cfg, rs, ss, n - 1);
      EventFrame(cfg, rs, ss, n);
      if RatchetAt(cfg, rs, ss, n) {
        RatchetCompromises(cfg, rs, ss, n);
      }
      SlowEventNext(cfg, rs, ss, n);
    }
  }

  /** There is one ratchet frame at most: it compromises the link, and no later frame is looked
      at. */
  lemma OneRatchet(cfg: Config, rs: seq<Reading>, ss: seq<State>, f: nat, g: nat)
    requires IsRun(cfg, rs, ss) && RatchetAt(cfg, rs, ss, f) && RatchetAt(cfg, rs, ss, g)
    ensures f == g
  {
    if f != g {
      var lo, hi := if f < g then f else g, if f < g then g else f;
      RatchetCompromises(cfg, rs, ss, lo);
      CompromisedLatches(cfg, rs, ss, lo, hi - 1);
    }
  }

  ghost function Via(s: State): Option<Via> {
    ViaOf(s.fastEvent, s.slowEvent)
  }

  lemma FirstShockIsOne(cfg: Config, rs: seq<Reading>, ss: seq<State>, f: nat, g: nat)
    requires |ss| == |rs| + 1 && FirstShock(cfg, rs, ss, f) && FirstShock(cfg, rs, ss, g)
    ensures f == g
  {
  }

  lemma FastEventFrom(cfg: Config, rs: seq<Reading>, ss: seq<State>, n: nat, f: nat)
    requires |ss| == |rs| + 1 && f <= n <= |rs| && FastEventOk(cfg, rs, ss, n) && FirstShock(cfg, rs, ss, f)
    ensures ss[n].fastEvent == Some(rs[f - 1].t)
  {
    if ss[n].fastEvent.Some? {
      var g :| 0 < g <= n && FirstShock(cfg, rs, ss, g) && ss[n].fastEvent.value == rs[g - 1].t;
      FirstShockIsOne(cfg, rs, ss, f, g);
    }
  }

  lemma FastEventOf(cfg: Config, rs: seq<Reading>, ss: seq<State>, n: nat, f: nat)
    requires IsRun(cfg, rs, ss) && f <= n <= |rs| && FirstShock(cfg, rs, ss, f)
    ensures ss[n].fastEvent == Some(rs[f - 1].t)
  {
    FastEventTime(cfg, rs, ss, n);
    FastEventFrom(cfg, rs, ss, n, f);
  }

  ghost predicate AtMostOneRatchet(cfg: Config, rs: seq<Reading>, ss: seq<State>)
    requires |ss| == |rs| + 1
  {
    forall f: nat, g: nat :: RatchetAt(cfg, rs, ss, f) && RatchetAt(cfg, rs, ss, g) ==> f == g
  }

  lemma RatchetsAgree(cfg: Config, rs: seq<Reading>, ss: seq<State>)
    requires IsRun(cfg, rs, ss)
    ensures AtMostOneRatchet(cfg, rs, ss)
  {
    forall f: nat, g: nat | RatchetAt(cfg, rs, ss, f) && RatchetAt(cfg, rs, ss, g) ensures f == g {
      OneRatchet(cfg, rs, ss, f, g);
    }
  }

  lemma SlowEventFrom(cfg: Config, rs: seq<Reading>, ss: seq<State>, n: nat, g: nat)
    requires |ss| == |rs| + 1 && g <= n <= |rs| && SlowEventOk(cfg, rs, ss, n) && AtMostOneRatchet(cfg, rs, ss)
    requires RatchetAt(cfg, rs, ss, g)
    ensures ss[n].slowEvent == Some(rs[g - 1].t)
  {
  }

  lemma SlowEventOf(cfg: Config, rs: seq<Reading>, ss: seq<State>, n: nat, g: nat)
    requires IsRun(cfg, rs, ss) && g <= n <= |rs| && RatchetAt(cfg, rs, ss, g)
    ensures ss[n].slowEvent == Some(rs[g - 1].t)
  {
    SlowEventTime(cfg, rs, ss, n);
    RatchetsAgree(cfg, rs, ss);
    SlowEventFrom(cfg, rs, ss, n, g);
  }

  lemma NoFastEvent(cfg: Config, rs: seq<Reading>, ss: seq<State>, n: nat)
    requires IsRun(cfg, rs, ss) && n <= |rs| && NoShock(cfg, rs, ss, n)
    ensures ss[n].fastEvent == None
  {
    FastEventTime(cfg, rs, ss, n);
  }

  lemma NoSlowEvent(cfg: Config, rs: seq<Reading>, ss: seq<State>, n: nat)
    requires IsRun(cfg, rs, ss) && n <= |rs| && NoRatchet(cfg, rs, ss, n)
    ensures ss[n].slowEvent == None
  {
    SlowEventTime(cfg, rs, ss, n);
  }

  /** The layer reported after frame n: none without shock or ratchet; FAST if there was a shock
      and no ratchet, or the first shock's time is not after the ratchet's; SLOW otherwise. */
  lemma ViaIff(cfg: Config, rs: seq<Reading>, ss: seq<State>, n: nat, f: nat, g: nat)
    requires IsRun(cfg, rs, ss) && f <= n <= |rs| && g <= n
    requires NoShock(cfg, rs, ss, n) || FirstShock(cfg, rs, ss, f)
    requires NoRatchet(cfg, rs, ss, n) || RatchetAt(cfg, rs, ss, g)
    ensures Via(ss[n]) ==
      if NoShock(cfg, rs, ss, n) then if NoRatchet(cfg, rs, ss, n) then None else Some(SLOW)
      else if NoRatchet(cfg, rs, ss, n) || rs[f - 1].t <= rs[g - 1].t then Some(FAST)
      else Some(SLOW)
  {
    if NoShock(cfg, rs, ss, n) {
      NoFastEvent(cfg, rs, ss, n);
    } else {
      FastEventOf(cfg, rs, ss, n, f);
    }
    if NoRatchet(cfg, rs, ss, n) {
      NoSlowEvent(cfg, rs, ss, n);
    } else {
      SlowEventOf(cfg, rs, ss, n, g);
    }
  }

  lemma NoEarlierRatchet(cfg: Config, rs: seq<Reading>, ss: seq<State>, n: nat)
    requires IsRun(cfg, rs, ss) && 0 < n <= |rs| && ss[n - 1].link != COMPROMISED
    ensures NoRatchet(cfg, rs, ss, n - 1)
  {
    forall f | 0 <= f <= n - 1 ensures !RatchetAt(cfg, rs, ss, f) {
      if RatchetAt(cfg, rs, ss, f) {
        RatchetCompromises(cfg, rs, ss, f);
        CompromisedLatches(cfg, rs, ss, f, n - 1);
      }
    }
  }

  lemma FindFirstShock(cfg: Config, rs: seq<Reading>, ss: seq<State>, n: nat) returns (f: nat)
    requires IsRun(cfg, rs, ss) && n <= |rs| && !NoShock(cfg, rs, ss, n)
    ensures f <= n && FirstShock(cfg, rs, ss, f)
  {
    FastEventTime(cfg, rs, ss, n);
    f :| 0 < f <= n && FirstShock(cfg, rs, ss, f);
  }

  lemma CauseOf(cfg: Config, rs: seq<Reading>, ss: seq<State>, n: nat)
    requires |ss| == |rs| + 1 && cfg.window < n <= |rs| && ss[n - 1].link != COMPROMISED && NoRatchet(cfg, rs, ss, n - 1)
    requires
      || (IsShock(cfg, rs[n - 1]) && Shocks(cfg, rs, n) >= cfg.confirm)
      || (n >= cfg.longWindow > 0 && ss[n - cfg.longWindow + 1].baseline - ss[n].baseline > cfg.ratchetThr)
    ensures ConfirmedAt(cfg, rs, ss, n) <==> !RatchetAt(cfg, rs, ss, n)
    ensures NoRatchet(cfg, rs, ss, n) <==> ConfirmedAt(cfg, rs, ss, n)
  {
  }

  lemma Cause(cfg: Config, rs: seq<Reading>, ss: seq<State>, n: nat)
    requires IsRun(cfg, rs, ss) && cfg.window < n <= |rs|
    requires ss[n - 1].link != COMPROMISED && ss[n].link == COMPROMISED
    ensures ConfirmedAt(cfg, rs, ss, n) <==> !RatchetAt(cfg, rs, ss, n)
    ensures NoRatchet(cfg, rs, ss, n) <==> ConfirmedAt(cfg, rs, ss, n)
  {
    CompromisedIff(cfg, rs, ss, n);
    NoEarlierRatchet(cfg, rs, ss, n);
    CauseOf(cfg, rs, ss, n);
  }

  /** The first shock up to frame n, if any, carries a time after that of frame n. */
  ghost predicate ShocksCarryLaterTime(cfg: Config, rs: seq<Reading>, ss: seq<State>, n: nat)
    requires |ss| == |rs| + 1 && 0 < n <= |rs|
  {
    forall f :: 0 <= f <= n && FirstShock(cfg, rs, ss, f) ==> rs[f - 1].t > rs[n - 1].t
  }

  lemma ShocksLaterIff(cfg: Config, rs: seq<Reading>, ss: seq<State>, n: nat, f: nat)
    requires |ss| == |rs| + 1 && 0 < n <= |rs| && f <= n && FirstShock(cfg, rs, ss, f)
    ensures ShocksCarryLaterTime(cfg, rs, ss, n) <==> rs[f - 1].t > rs[n - 1].t
  {
    forall h | 0 <= h <= n && FirstShock(cfg, rs, ss, h) ensures h == f {
      FirstShockIsOne(cfg, rs, ss, f, h);
    }
  }

  /** The report is documented as the layer that caused COMPROMISED.  At the frame that
      compromises the link it is that exactly when the cause was the fast layer, or no shock
      came before, or the first shock carries a later time. */
  lemma ViaNamesCauseIff(cfg: Config, rs: seq<Reading>, ss: seq<State>, n: nat)
    requires IsRun(cfg, rs, ss) && cfg.window < n <= |rs|
    requires ss[n - 1].link != COMPROMISED && ss[n].link == COMPROMISED
    ensures ConfirmedAt(cfg, rs, ss, n) <==> !RatchetAt(cfg, rs, ss, n)
    ensures Via(ss[n]) == Some(if ConfirmedAt(cfg, rs, ss, n) then FAST else SLOW) <==>
      ConfirmedAt(cfg, rs, ss, n) || ShocksCarryLaterTime(cfg, rs, ss, n)
  {
    Cause(cfg, rs, ss, n);
    if NoShock(cfg, rs, ss, n) {
      ViaIff(cfg, rs, ss, n, n, n);
    } else {
      var f := FindFirstShock(cfg, rs, ss, n);
      ViaIff(cfg, rs, ss, n, f, n);
      ShocksLaterIff(cfg, rs, ss, n, f);
    }
  }

  // ---- where it names the wrong one ----

  const SMALL := Config(1, 1.0, 4.0, 3, 2, 0.025)

  const WARMED := State([1.0], 1.0, 0.0001, HEALTHY, 0, [1.0], None, None)

  const SHOCKED := State([1.0], 1.0, 0.0001, ALARM, 1, [1.0, 1.0], Some(2), None)

  lemma WarmedUp()
    ensures Step(SMALL, Fresh(), Read(SMALL, Fresh(), 1.0, 1, 0.01)) == WARMED
  {
    assert [1.0][..0] == [];
    assert Sum([1.0]) == 1.0;
  }

  lemma ShockedOnce()
    ensures Step(SMALL, WARMED, Read(SMALL, WARMED, 0.0, 2, 0.01)) == SHOCKED
  {
    assert ZScore(0.0, 1.0, 0.01) == -100.0;
  }

  lemma RatchetsNext()
    ensures var s := Step(SMALL, SHOCKED, Read(SMALL, SHOCKED, 0.97, 3, 0.01));
      s.link == COMPROMISED && s.baseline == 0.97 && s.fastEvent == Some(2) && s.slowEvent == Some(3)
    ensures !IsShock(SMALL, Read(SMALL, SHOCKED, 0.97, 3, 0.01))
  {
    assert ZScore(0.97, 1.0, 0.01) == -3.0;
    assert Smooth(1.0, 0.97, 1.0) == 0.97;
    assert Push([1.0, 1.0], 0.97, 2) == [1.0, 0.97];
  }

  lemma RunOfThree(cfg: Config, r1: Reading, r2: Reading, r3: Reading, s0: State, s1: State, s2: State, s3: State)
    requires s0 == Fresh() && StepsTo(cfg, s0, r1, s1) && StepsTo(cfg, s1, r2, s2) && StepsTo(cfg, s2, r3, s3)
    ensures IsRun(cfg, [r1, r2, r3], [s0, s1, s2, s3])
  {
  }

  lemma RatchetOfThree(r1: Reading, r2: Reading, r3: Reading, s0: State, s1: State, s2: State, s3: State)
    requires s2.link != COMPROMISED && !IsShock(SMALL, r3) && s2.baseline - s3.baseline > SMALL.ratchetThr
    ensures RatchetAt(SMALL, [r1, r2, r3], [s0, s1, s2, s3], 3)
  {
  }

  lemma RunOfSamples(r1: Reading, r2: Reading, r3: Reading)
    requires r1 == Read(SMALL, Fresh(), 1.0, 1, 0.01) && r2 == Read(SMALL, WARMED, 0.0, 2, 0.01)
    requires r3 == Read(SMALL, SHOCKED, 0.97, 3, 0.01)
    ensures IsRun(SMALL, [r1, r2, r3], [Fresh(), WARMED, SHOCKED, Step(SMALL, SHOCKED, r3)])
  {
    WarmedUp();
    ShockedOnce();
    RunOfThree(SMALL, r1, r2, r3, Fresh(), WARMED, SHOCKED, Step(SMALL, SHOCKED, r3));
  }

  /** Samples 1.0, 0.0 and 0.97: a single shock, then a ratchet.  The slow layer compromises the
      link and FAST is reported. */
  lemma ShockThenRatchet(r1: Reading, r2: Reading, r3: Reading)
    requires r1 == Read(SMALL, Fresh(), 1.0, 1, 0.01) && r2 == Read(SMALL, WARMED, 0.0, 2, 0.01)
    requires r3 == Read(SMALL, SHOCKED, 0.97, 3, 0.01)
    ensures var rs, ss := [r1, r2, r3], [Fresh(), WARMED, SHOCKED, Step(SMALL, SHOCKED, r3)];
      && IsRun(SMALL, rs, ss) && RatchetAt(SMALL, rs, ss, 3)
      && ss[3].link == COMPROMISED && Via(ss[3]) == Some(FAST)
  {
    RunOfSamples(r1, r2, r3);
    RatchetsNext();
    RatchetOfThree(r1, r2, r3, Fresh(), WARMED, SHOCKED, Step(SMALL, SHOCKED, r3));
  }

  // ---- what the tracker remembers of its samples ----

  /** The samples that entered the history: the warm-up, and every later one that was no shock. */
  ghost function Passed(cfg: Config, xs: seq<Sample>, rs: seq<Reading>, n: nat): seq<real>
    requires |rs| == |xs| && n <= |xs|
  {
    if n == 0 then []
    else Passed(cfg, xs, rs, n - 1) + Entering(cfg, Passed(cfg, xs, rs, n - 1), xs[n - 1].phi, rs[n - 1])
  }

  ghost function Entering(cfg: Config, ps: seq<real>, phi: real, r: Reading): seq<real> {
    if |ps| < cfg.window || !IsShock(cfg, r) then [phi] else []
  }

  ghost function Power(b: real, n: nat): real {
    if n == 0 then 1.0 else b * Power(b, n - 1)
  }

  /** The sum of the samples, each weighted by b to the number of samples after it. */
  ghost function Decayed(b: real, ps: seq<real>): real {
    if ps == [] then 0.0 else Power(b, |ps| - 1) * ps[0] + Decayed(b, ps[1..])
  }

  lemma {:induction false} DecayedAppend(b: real, ps: seq<real>, p: real)
    ensures Decayed(b, ps + [p]) == b * Decayed(b, ps) + p
  {
    if ps == [] {
      assert Decayed(b, [p]) == Power(b, 0) * p + Decayed(b, []);
    } else {
      DecayedAppend(b, ps[1..], p);
      assert (ps + [p])[1..] == ps[1..] + [p];
      Distribute(b, Power(b, |ps| - 1), ps[0], Decayed(b, ps[1..]));
    }
  }

  lemma Distribute(b: real, w: real, x: real, d: real)
    ensures b * w * x + b * d == b * (w * x + d)
  {
  }

  /** Exponential smoothing of ps starting from m, in closed form; b is 1 - alpha. */
  ghost function Smoothed(alpha: real, b: real, m: real, ps: seq<real>): real {
    Power(b, |ps|) * m + alpha * Decayed(b, ps)
  }

  lemma SmoothingStep(alpha: real, b: real, w: real, w': real, m: real, d: real, d': real, p: real)
    requires w' == b * w && d' == b * d + p
    ensures w' * m + alpha * d' == alpha * p + b * (w * m + alpha * d)
  {
    assert w' * m == b * (w * m);
    assert b * (w * m + alpha * d) == b * (w * m) + b * (alpha * d);
    assert alpha * d' == alpha * (b * d) + alpha * p;
    assert alpha * (b * d) == b * (alpha * d);
  }

  lemma SmoothedAppend(alpha: real, b: real, m: real, ps: seq<real>, p: real)
    ensures Smoothed(alpha, b, m, ps + [p]) == alpha * p + b * Smoothed(alpha, b, m, ps)
  {
    var qs := ps + [p];
    DecayedAppend(b, ps, p);
    SmoothingStep(alpha, b, Power(b, |ps|), Power(b, |qs|), m, Decayed(b, ps), Decayed(b, qs), p);
  }

  lemma SmoothedNothing(alpha: real, b: real, m: real)
    ensures Smoothed(alpha, b, m, []) == m
  {
    assert Decayed(b, []) == 0.0;
  }

  /** The history is the last `window` samples that entered it, the variance is theirs, and the
      baseline is the mean of the warm-up smoothed by the samples since. */
  ghost predicate Remembers(cfg: Config, ps: seq<real>, s: State)
    requires cfg.window > 0
  {
    && TailOf(s.history, ps, cfg.window)
    && s.variance == (if |ps| <= 1 then 0.0001 else Variance(s.history))
    && s.baseline == BaselineOf(cfg, ps)
  }

  ghost function BaselineOf(cfg: Config, ps: seq<real>): real
    requires cfg.window > 0
  {
    if ps == [] then 1.0
    else if |ps| <= cfg.window then Mean(ps)
    else Smoothed(cfg.alpha, 1.0 - cfg.alpha, Mean(ps[..cfg.window]), ps[cfg.window..])
  }

  lemma BaselineNext(cfg: Config, ps: seq<real>, phi: real)
    requires |ps| >= cfg.window > 0
    ensures BaselineOf(cfg, ps + [phi]) == Smooth(cfg.alpha, phi, BaselineOf(cfg, ps))
  {
    var w := cfg.window;
    assert (ps + [phi])[..w] == ps[..w] && (ps + [phi])[w..] == ps[w..] + [phi];
    SmoothedAppend(cfg.alpha, 1.0 - cfg.alpha, Mean(ps[..w]), ps[w..], phi);
    if |ps| == w {
      assert ps[..w] == ps && ps[w..] == [];
      SmoothedNothing(cfg.alpha, 1.0 - cfg.alpha, Mean(ps));
    }
  }

  lemma WarmRemembers(cfg: Config, s: State, x: Sample, ps: seq<real>)
    requires cfg.longWindow > 0 && |ps| < cfg.window && Remembers(cfg, ps, s)
    ensures Remembers(cfg, ps + [x.phi], Step(cfg, s, Read(cfg, s, x.phi, x.t, x.std)))
  {
    PushKeepsTail(s.history, ps, x.phi, cfg.window);
  }

  lemma PassRemembers(cfg: Config, s: State, x: Sample, ps: seq<real>)
    requires cfg.longWindow > 0 && |ps| >= cfg.window > 0 && Remembers(cfg, ps, s) && s.link != COMPROMISED
    requires !IsShock(cfg, Read(cfg, s, x.phi, x.t, x.std))
    ensures Remembers(cfg, ps + [x.phi], Step(cfg, s, Read(cfg, s, x.phi, x.t, x.std)))
  {
    PushKeepsTail(s.history, ps, x.phi, cfg.window);
    BaselineNext(cfg, ps, x.phi);
  }

  lemma StepRemembers(cfg: Config, s: State, x: Sample, r: Reading, ps: seq<real>)
    requires cfg.longWindow > 0 && cfg.window > 0 && Remembers(cfg, ps, s) && s.link != COMPROMISED
    requires r == Read(cfg, s, x.phi, x.t, x.std)
    ensures Remembers(cfg, ps + Entering(cfg, ps, x.phi, r), Step(cfg, s, r))
  {
    if |ps| < cfg.window {
      WarmRemembers(cfg, s, x, ps);
    } else if !IsShock(cfg, r) {
      PassRemembers(cfg, s, x, ps);
    } else {
      assert ps + [] == ps;
    }
  }

  /** At every point of every run on samples, up to and including the frame that compromises the
      link, the tracker's numbers are those of the samples that entered its history. */
  lemma {:induction false} TrackerRemembers(cfg: Config, xs: seq<Sample>, rs: seq<Reading>, ss: seq<State>, n: nat)
    requires IsRun(cfg, rs, ss) && ReadFrom(cfg, xs, rs, ss) && cfg.longWindow > 0 && n <= |xs|
    requires n > 0 ==> ss[n - 1].link != COMPROMISED
    ensures Remembers(cfg, Passed(cfg, xs, rs, n), ss[n])
  {
    if n > 0 {
      if n > 1 && ss[n - 2].link == COMPROMISED {
        CompromisedLatches(cfg, rs, ss, n - 2, n - 1);
      }
      TrackerRemembers(cfg, xs, rs, ss, n - 1);
      assert rs[n - 1] == Read(cfg, ss[n - 1], xs[n - 1].phi, xs[n - 1].t, xs[n - 1].std);
      assert StepsTo(cfg, ss[n - 1], rs[n - 1], ss[n]);
      StepRemembers(cfg, ss[n - 1], xs[n - 1], rs[n - 1], Passed(cfg, xs, rs, n - 1));
    }
  }
}
