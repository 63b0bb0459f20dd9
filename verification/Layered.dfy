/** The layered drift detector (stage-chronos/layered.py), over exact reals.

    The square root of the variance is an input of each frame, so the results hold whatever
    the fast layer decides. */
module Layered {
  import opened Wrappers

  datatype LinkState = HEALTHY | ALARM | COMPROMISED

  datatype Config = Config(
    window: nat, alpha: real, zThr: real, confirm: nat, longWindow: nat, ratchetThr: real)

  /** What one frame contributes: the sample, the block, and the numbers computed from them. */
  datatype Reading = Reading(phi: real, t: int, z: real, mean: real, smoothed: real, variance: real)

  datatype State = State(
    history: seq<real>, baseline: real, variance: real, link: LinkState, shock: nat,
    baselineHist: seq<real>, fastEvent: Option<int>, slowEvent: Option<int>)

  datatype Via = FAST | SLOW

  function Sum(s: seq<real>): real {
    if s == [] then 0.0 else Sum(s[..|s| - 1]) + s[|s| - 1]
  }

  function Mean(s: seq<real>): real
    requires s != []
  {
    Sum(s) / |s| as real
  }

  function SquaredDeviations(s: seq<real>, m: real): real {
    if s == [] then 0.0
    else SquaredDeviations(s[..|s| - 1], m) + (s[|s| - 1] - m) * (s[|s| - 1] - m)
  }

  function Variance(s: seq<real>): real
    requires s != []
  {
    SquaredDeviations(s, Mean(s)) / |s| as real
  }

  /** Appending to a deque with a maximum length. */
  function Push(q: seq<real>, x: real, maxlen: nat): (r: seq<real>)
    ensures |r| == if |q| < maxlen then |q| + 1 else maxlen
    ensures maxlen > 0 ==> r != [] && r[|r| - 1] == x
  {
    var all := q + [x];
    if |all| <= maxlen then all else all[|all| - maxlen..]
  }

  function Fresh(): State {
    State([], 1.0, 0.0001, HEALTHY, 0, [], None, None)
  }

  /** The numbers the tracker computes for a sample: z-score, mean and variance of the short
      history with the sample in it, and exponentially smoothed baseline. */
  function Read(cfg: Config, s: State, phi: real, t: int, std: real): Reading
    requires cfg.window > 0
  {
    var history := Push(s.history, phi, cfg.window);
    Reading(phi, t, ZScore(phi, s.baseline, std), Mean(history), Smooth(cfg.alpha, phi, s.baseline), Variance(history))
  }

  function ZScore(phi: real, baseline: real, std: real): real {
    if std > 0.0 then (phi - baseline) / std else 0.0
  }

  function Smooth(alpha: real, phi: real, baseline: real): real {
    alpha * phi + (1.0 - alpha) * baseline
  }

  function WarmUp(cfg: Config, s: State, r: Reading): State
    requires |s.history| < cfg.window
  {
    var history := Push(s.history, r.phi, cfg.window);
    s.(history := history, baseline := r.mean, variance := if |history| > 1 then r.variance else s.variance,
       baselineHist := Push(s.baselineHist, r.mean, cfg.longWindow))
  }

  /** The fast layer, up to the point where the slow layer looks at the baseline. */
  function FastLayer(cfg: Config, s: State, r: Reading): State
    requires cfg.window > 0
  {
    if r.z < -cfg.zThr then
      s.(shock := s.shock + 1,
         link := if s.shock + 1 >= cfg.confirm then COMPROMISED else if s.shock == 0 then ALARM else s.link,
         fastEvent := if s.shock == 0 && s.fastEvent.None? then Some(r.t) else s.fastEvent)
    else
      s.(shock := 0, link := if s.link == ALARM then HEALTHY else s.link, baseline := r.smoothed,
         history := Push(s.history, r.phi, cfg.window), variance := r.variance)
  }

  function SlowLayer(cfg: Config, s: State, t: int): State
    requires cfg.longWindow > 0
  {
    var hist := Push(s.baselineHist, s.baseline, cfg.longWindow);
    if |hist| == cfg.longWindow && hist[0] - hist[|hist| - 1] > cfg.ratchetThr then
      s.(baselineHist := hist, slowEvent := if s.slowEvent.None? then Some(t) else s.slowEvent, link := COMPROMISED)
    else s.(baselineHist := hist)
  }

  function Step(cfg: Config, s: State, r: Reading): State
    requires cfg.window > 0 && cfg.longWindow > 0
  {
    if |s.history| < cfg.window then WarmUp(cfg, s, r)
    else if s.link == COMPROMISED then s
    else
      var fast := FastLayer(cfg, s, r);
      if fast.link == COMPROMISED then fast else SlowLayer(cfg, fast, r.t)
  }

  function ViaOf(fast: Option<int>, slow: Option<int>): Option<Via> {
    if fast.Some? && slow.Some? then Some(if fast.value <= slow.value then FAST else SLOW)
    else if fast.Some? then Some(FAST)
    else if slow.Some? then Some(SLOW)
    else None
  }

  class LayeredTracker {
    const cfg: Config
    var history: seq<real>
    var baseline: real
    var variance: real
    var link: LinkState
    var shock: nat
    var baselineHist: seq<real>
    var fastEvent: Option<int>
    var slowEvent: Option<int>

    ghost function View(): State
      reads this
    {
      State(history, baseline, variance, link, shock, baselineHist, fastEvent, slowEvent)
    }

    constructor (cfg: Config)
      ensures this.cfg == cfg && View() == Fresh()
    {
      this.cfg := cfg;
      history, baseline, variance, link, shock := [], 1.0, 0.0001, HEALTHY, 0;
      baselineHist, fastEvent, slowEvent := [], None, None;
    }

    /** After `ack` the tracker is as newly constructed. */
    method Ack()
      modifies this
      ensures View() == Fresh()
    {
      link, shock, history, baseline, variance := HEALTHY, 0, [], 1.0, 0.0001;
      baselineHist, fastEvent, slowEvent := [], None, None;
    }

    method Process(phi: real, t: int, std: real) returns (state: LinkState, via: Option<Via>)
      requires cfg.window > 0 && cfg.longWindow > 0
      modifies this
      ensures View() == Step(cfg, old(View()), Read(cfg, old(View()), phi, t, std))
      ensures state == link
      ensures via == if |old(history)| < cfg.window then None else ViaOf(fastEvent, slowEvent)
    {
      if |history| < cfg.window {
        Learn(phi, t, std);
        return link, None;
      }
      if link != COMPROMISED {
        RunFastLayer(phi, t, std);
        if link != COMPROMISED {
          RunSlowLayer(t);
        }
      }
      return link, ViaOf(fastEvent, slowEvent);
    }

    method Learn(phi: real, t: int, ghost std: real)
      requires |history| < cfg.window
      modifies this
      ensures View() == WarmUp(cfg, old(View()), Read(cfg, old(View()), phi, t, std))
    {
      history := Push(history, phi, cfg.window);
      baseline := Mean(history);
      if |history| > 1 {
        variance := Variance(history);
      }
      baselineHist := Push(baselineHist, baseline, cfg.longWindow);
    }

    /** The differential z-score layer. */
    method RunFastLayer(phi: real, t: int, std: real)
      requires cfg.window > 0
      modifies this
      ensures View() == FastLayer(cfg, old(View()), Read(cfg, old(View()), phi, t, std))
    {
      var z := ZScore(phi, baseline, std);
      if z < -cfg.zThr {
        shock := shock + 1;
        if shock == 1 {
          link := ALARM;
          if fastEvent.None? {
            fastEvent := Some(t);
          }
        }
        if shock >= cfg.confirm {
          link := COMPROMISED;
        }
      } else {
        shock := 0;
        if link == ALARM {
          link := HEALTHY;
        }
        baseline := Smooth(cfg.alpha, phi, baseline);
        history := Push(history, phi, cfg.window);
        variance := Variance(history);
      }
    }

    /** The net baseline displacement layer. */
    method RunSlowLayer(t: int)
      requires cfg.longWindow > 0
      modifies this
      ensures View() == SlowLayer(cfg, old(View()), t)
    {
      baselineHist := Push(baselineHist, baseline, cfg.longWindow);
      if |baselineHist| == cfg.longWindow {
        var netDrop := baselineHist[0] - baselineHist[|baselineHist| - 1];
        if netDrop > cfg.ratchetThr {
          if slowEvent.None? {
            slowEvent := Some(t);
          }
          link := COMPROMISED;
        }
      }
    }
  }

  // ---- runs ----

  ghost predicate StepsTo(cfg: Config, s: State, r: Reading, s': State) {
    cfg.window > 0 && cfg.longWindow > 0 && s' == Step(cfg, s, r)
  }

  /** The states of a run since construction or `ack`: ss[i] is the state after i frames. */
  ghost predicate IsRun(cfg: Config, rs: seq<Reading>, ss: seq<State>) {
    && |ss| == |rs| + 1 && ss[0] == Fresh()
    && forall i {:trigger rs[i]} :: 0 <= i < |rs| ==> StepsTo(cfg, ss[i], rs[i], ss[i + 1])
  }

  /** COMPROMISED, once reached, stays until `ack`. */
  lemma {:induction false} CompromisedLatches(cfg: Config, rs: seq<Reading>, ss: seq<State>, i: nat, j: nat)
    requires IsRun(cfg, rs, ss) && i <= j <= |rs|
    requires ss[i].link == COMPROMISED
    ensures ss[j].link == COMPROMISED
    decreases j - i
  {
    if i < j {
      assert StepsTo(cfg, ss[i], rs[i], ss[i + 1]);
      CompromisedLatches(cfg, rs, ss, i + 1, j);
    }
  }

  ghost function Baselines(ss: seq<State>, n: nat): (bs: seq<real>)
    requires n < |ss|
    ensures |bs| == n
  {
    seq(n, i requires 0 <= i < n => ss[i + 1].baseline)
  }

  lemma BaselinesGrow(ss: seq<State>, n: nat)
    requires 0 < n < |ss|
    ensures Baselines(ss, n) == Baselines(ss, n - 1) + [ss[n].baseline]
  {
  }

  /** `hist` is what a deque of length `maxlen` holds of `bs`. */
  ghost predicate TailOf(hist: seq<real>, bs: seq<real>, maxlen: nat) {
    hist == if |bs| <= maxlen then bs else bs[|bs| - maxlen..]
  }

  lemma PushKeepsTail(hist: seq<real>, bs: seq<real>, b: real, maxlen: nat)
    requires TailOf(hist, bs, maxlen)
    ensures TailOf(Push(hist, b, maxlen), bs + [b], maxlen)
  {
  }

  /** While the link is not COMPROMISED the slow layer's window is the tail of the
      baselines, one for each frame, and once it is full its net fall is within the
      threshold, provided it filled only after the warm-up. */
  ghost predicate TraceOk(cfg: Config, s: State, bs: seq<real>) {
    && |s.history| == (if |bs| < cfg.window then |bs| else cfg.window)
    && TailOf(s.baselineHist, bs, cfg.longWindow)
    && (|bs| >= cfg.longWindow > 0 && |bs| > cfg.window ==>
          bs[|bs| - cfg.longWindow] - bs[|bs| - 1] <= cfg.ratchetThr)
  }

  /** What an uncompromised step does to the two windows. */
  ghost predicate Advances(cfg: Config, s: State, s': State) {
    && |s'.history| == (if |s.history| < cfg.window then |s.history| + 1 else |s.history|)
    && s'.baselineHist == Push(s.baselineHist, s'.baseline, cfg.longWindow)
    && (|s'.baselineHist| == cfg.longWindow > 0 && |s.history| >= cfg.window ==>
          s'.baselineHist[0] - s'.baseline <= cfg.ratchetThr)
  }

  lemma StepAdvances(cfg: Config, s: State, r: Reading, s': State)
    requires StepsTo(cfg, s, r, s') && |s.history| <= cfg.window
    requires s.link != COMPROMISED && s'.link != COMPROMISED
    ensures Advances(cfg, s, s')
  {
  }

  lemma AdvanceKeepsTrace(cfg: Config, s: State, s': State, bs: seq<real>)
    requires Advances(cfg, s, s') && TraceOk(cfg, s, bs) && cfg.longWindow > 0
    ensures TraceOk(cfg, s', bs + [s'.baseline])
  {
    PushKeepsTail(s.baselineHist, bs, s'.baseline, cfg.longWindow);
  }

  lemma {:induction false} UncompromisedTrace(cfg: Config, rs: seq<Reading>, ss: seq<State>, n: nat)
    requires IsRun(cfg, rs, ss) && n <= |rs| && ss[n].link != COMPROMISED
    ensures TraceOk(cfg, ss[n], Baselines(ss, n))
  {
    if n > 0 {
      if ss[n - 1].link == COMPROMISED {
        CompromisedLatches(cfg, rs, ss, n - 1, n);
      }
      UncompromisedTrace(cfg, rs, ss, n - 1);
      BaselinesGrow(ss, n);
      StepAdvances(cfg, ss[n - 1], rs[n - 1], ss[n]);
      AdvanceKeepsTrace(cfg, ss[n - 1], ss[n], Baselines(ss, n - 1));
    }
  }

  /** One full window: the fall across it is within the threshold. */
  lemma WindowBound(cfg: Config, rs: seq<Reading>, ss: seq<State>, i: nat, j: nat)
    requires IsRun(cfg, rs, ss) && 0 < cfg.window < cfg.longWindow && i >= 1
    requires j == i + cfg.longWindow - 1 <= |rs| && ss[|rs|].link != COMPROMISED
    ensures ss[i].baseline - ss[j].baseline <= cfg.ratchetThr
  {
    if ss[j].link == COMPROMISED {
      CompromisedLatches(cfg, rs, ss, j, |rs|);
    }
    UncompromisedTrace(cfg, rs, ss, j);
    var bs := Baselines(ss, j);
    assert bs[i - 1] == ss[i].baseline && bs[j - 1] == ss[j].baseline;
  }

  lemma OneWindowBack(i: int, k: nat, l: int)
    requires k > 0 && l >= 0
    ensures i + k * l == i + (k - 1) * l + l && (k - 1) * l >= 0
  {
  }

  lemma OneThresholdMore(k: nat, thr: real)
    requires k > 0
    ensures k as real * thr == (k - 1) as real * thr + thr
  {
    assert k as real == (k - 1) as real + 1.0;
  }

  /** The ratchet bound: with a long window longer than the short one, in every run since
      construction or `ack` that has not reached COMPROMISED, the baseline falls by at most
      k times the threshold over any k * (longWindow - 1) frames, whatever numbers the
      frames carry. */
  lemma {:induction false} RatchetBound(
      cfg: Config, rs: seq<Reading>, ss: seq<State>, i: nat, k: nat, end: nat)
    requires IsRun(cfg, rs, ss) && 0 < cfg.window < cfg.longWindow && i >= 1
    requires end == i + k * (cfg.longWindow - 1) <= |rs| && ss[|rs|].link != COMPROMISED
    ensures ss[i].baseline - ss[end].baseline <= k as real * cfg.ratchetThr
  {
    if k > 0 {
      var mid := end - (cfg.longWindow - 1);
      OneWindowBack(i, k, cfg.longWindow - 1);
      OneThresholdMore(k, cfg.ratchetThr);
      RatchetBound(cfg, rs, ss, i, k - 1, mid);
      WindowBound(cfg, rs, ss, mid, end);
    }
  }

  // ---- exactly when a link is compromised ----

  ghost predicate IsShock(cfg: Config, r: Reading) {
    r.z < -cfg.zThr
  }

  /** How many frames up to frame n, after the warm-up, were shocks without a break. */
  ghost function Shocks(cfg: Config, rs: seq<Reading>, n: nat): nat
    requires n <= |rs|
  {
    if n <= cfg.window || !IsShock(cfg, rs[n - 1]) then 0 else 1 + Shocks(cfg, rs, n - 1)
  }

  lemma SmoothMoves(alpha: real, phi: real, b: real)
    ensures Smooth(alpha, phi, b) - b == alpha * (phi - b)
  {
  }

  lemma Scaled(a: real, x: real, y: real)
    requires a >= 0.0 && x <= y
    ensures a * x <= a * y
  {
  }

  /** A sample the fast layer lets pass lowers the baseline by at most alpha * zThr standard
      deviations. */
  lemma PassingSampleDrop(cfg: Config, s: State, phi: real, t: int, std: real)
    requires cfg.window > 0 && cfg.alpha >= 0.0 && std > 0.0
    requires !IsShock(cfg, Read(cfg, s, phi, t, std))
    ensures s.baseline - Read(cfg, s, phi, t, std).smoothed <= cfg.alpha * (cfg.zThr * std)
  {
    var x := phi - s.baseline;
    var q := ZScore(phi, s.baseline, std);
    Quotient(x, std);
    Scaled(std, 0.0 - cfg.zThr, q);
    Negated(std, cfg.zThr);
    Scaled(cfg.alpha, 0.0 - x, cfg.zThr * std);
    SmoothMoves(cfg.alpha, phi, s.baseline);
    Negated(cfg.alpha, x);
  }

  lemma Quotient(x: real, d: real)
    requires d > 0.0
    ensures d * (x / d) == x
  {
  }

  lemma Negated(a: real, b: real)
    ensures (0.0 - a) * b == 0.0 - a * b == a * (0.0 - b)
  {
  }

  lemma StepCountsShocks(cfg: Config, s: State, r: Reading, s': State)
    requires StepsTo(cfg, s, r, s') && s.link != COMPROMISED && (s.link == ALARM <==> s.shock > 0)
    ensures s'.link != COMPROMISED ==> (s'.link == ALARM <==> s'.shock > 0)
    ensures s'.shock == if |s.history| < cfg.window then s.shock else if IsShock(cfg, r) then s.shock + 1 else 0
  {
  }

  /** While the link is not COMPROMISED the counter holds the unbroken shocks, and the link is
      in ALARM exactly while there are any. */
  lemma {:induction false} ShockCounter(cfg: Config, rs: seq<Reading>, ss: seq<State>, n: nat)
    requires IsRun(cfg, rs, ss) && n <= |rs| && ss[n].link != COMPROMISED
    ensures ss[n].shock == Shocks(cfg, rs, n) && (ss[n].link == ALARM <==> Shocks(cfg, rs, n) > 0)
  {
    if n > 0 {
      if ss[n - 1].link == COMPROMISED {
        CompromisedLatches(cfg, rs, ss, n - 1, n);
      }
      ShockCounter(cfg, rs, ss, n - 1);
      UncompromisedTrace(cfg, rs, ss, n - 1);
      StepCountsShocks(cfg, ss[n - 1], rs[n - 1], ss[n]);
    }
  }

  ghost predicate Ratcheted(cfg: Config, hist: seq<real>) {
    |hist| == cfg.longWindow > 0 && hist[0] - hist[|hist| - 1] > cfg.ratchetThr
  }

  lemma StepCompromisesIff(cfg: Config, s: State, r: Reading, s': State)
    requires StepsTo(cfg, s, r, s') && s.link != COMPROMISED && |s.history| >= cfg.window
    ensures s'.link == COMPROMISED <==>
      || (IsShock(cfg, r) && s.shock + 1 >= cfg.confirm)
      || Ratcheted(cfg, Push(s.baselineHist, s'.baseline, cfg.longWindow))
  {
  }

  /** After the warm-up a frame compromises the link exactly when it is a shock that completes
      `confirm` in a row, or the baseline it leaves lies more than the threshold below the one
      longWindow - 1 frames earlier. */
  lemma CompromisedIff(cfg: Config, rs: seq<Reading>, ss: seq<State>, n: nat)
    requires IsRun(cfg, rs, ss) && cfg.window < n <= |rs| && ss[n - 1].link != COMPROMISED
    ensures ss[n].link == COMPROMISED <==>
      || (IsShock(cfg, rs[n - 1]) && Shocks(cfg, rs, n) >= cfg.confirm)
      || (n >= cfg.longWindow > 0 && ss[n - cfg.longWindow + 1].baseline - ss[n].baseline > cfg.ratchetThr)
  {
    ShockCounter(cfg, rs, ss, n - 1);
    UncompromisedTrace(cfg, rs, ss, n - 1);
    StepCompromisesIff(cfg, ss[n - 1], rs[n - 1], ss[n]);
    WindowRatcheted(cfg, ss, n);
  }

  lemma WindowRatcheted(cfg: Config, ss: seq<State>, n: nat)
    requires 0 < n < |ss| && TraceOk(cfg, ss[n - 1], Baselines(ss, n - 1))
    ensures Ratcheted(cfg, Push(ss[n - 1].baselineHist, ss[n].baseline, cfg.longWindow)) <==>
      n >= cfg.longWindow > 0 && ss[n - cfg.longWindow + 1].baseline - ss[n].baseline > cfg.ratchetThr
  {
    var hist := ss[n - 1].baselineHist;
    PushKeepsTail(hist, Baselines(ss, n - 1), ss[n].baseline, cfg.longWindow);
    BaselinesGrow(ss, n);
    TailRatcheted(cfg, Push(hist, ss[n].baseline, cfg.longWindow), Baselines(ss, n));
  }

  lemma TailRatcheted(cfg: Config, hist: seq<real>, bs: seq<real>)
    requires TailOf(hist, bs, cfg.longWindow) && bs != []
    ensures Ratcheted(cfg, hist) <==>
      |bs| >= cfg.longWindow > 0 && bs[|bs| - cfg.longWindow] - bs[|bs| - 1] > cfg.ratchetThr
  {
  }

  // ---- the condition is needed ----

  datatype Sample = Sample(phi: real, t: int, std: real)

  /** The readings are the ones the tracker computes for these samples in these states. */
  ghost predicate ReadFrom(cfg: Config, xs: seq<Sample>, rs: seq<Reading>, ss: seq<State>) {
    && cfg.window > 0 && |ss| == |rs| + 1 == |xs| + 1
    && forall i {:trigger xs[i]} :: 0 <= i < |xs| ==>
         rs[i] == Read(cfg, ss[i], xs[i].phi, xs[i].t, xs[i].std)
  }

  lemma WarmStep(cfg: Config, s: State, x: Sample)
    requires cfg.longWindow > 0 && |s.history| < cfg.window
    ensures var s' := Step(cfg, s, Read(cfg, s, x.phi, x.t, x.std));
      s'.link == s.link && s'.history == s.history + [x.phi] && s'.baseline == Mean(s'.history)
  {
  }

  ghost function Phis(xs: seq<Sample>): seq<real> {
    seq(|xs|, j requires 0 <= j < |xs| => xs[j].phi)
  }

  ghost predicate Warm(s: State, phis: seq<real>) {
    s.link == HEALTHY && s.history == phis && (phis != [] ==> s.baseline == Mean(phis))
  }

  lemma ExtendRun(cfg: Config, rs: seq<Reading>, ss: seq<State>, r: Reading, s: State)
    requires IsRun(cfg, rs, ss) && StepsTo(cfg, ss[|rs|], r, s)
    ensures IsRun(cfg, rs + [r], ss + [s])
  {
  }

  lemma ExtendReadings(cfg: Config, xs: seq<Sample>, rs: seq<Reading>, ss: seq<State>, r: Reading, s: State)
    requires xs != [] && ReadFrom(cfg, xs[..|xs| - 1], rs, ss)
    requires var x := xs[|xs| - 1]; r == Read(cfg, ss[|rs|], x.phi, x.t, x.std)
    ensures ReadFrom(cfg, xs, rs + [r], ss + [s])
  {
  }

  lemma PrefixPhis(xs: seq<Sample>, n: nat, i: nat)
    requires i <= n < |xs|
    ensures xs[..n][..i] == xs[..i] && Phis(xs[..n + 1]) == Phis(xs[..n]) + [xs[n].phi]
  {
  }

  lemma {:induction false} WarmingUp(cfg: Config, xs: seq<Sample>) returns (rs: seq<Reading>, ss: seq<State>)
    requires cfg.longWindow > 0 && 0 < cfg.window && |xs| <= cfg.window
    ensures IsRun(cfg, rs, ss) && ReadFrom(cfg, xs, rs, ss)
    ensures forall i {:trigger ss[i]} :: 0 <= i <= |xs| ==> Warm(ss[i], Phis(xs[..i]))
  {
    if xs == [] {
      rs, ss := [], [Fresh()];
    } else {
      var n := |xs| - 1;
      rs, ss := WarmingUp(cfg, xs[..n]);
      var s, x := ss[n], xs[n];
      var r := Read(cfg, s, x.phi, x.t, x.std);
      var s' := Step(cfg, s, r);
      WarmStep(cfg, s, x);
      ExtendRun(cfg, rs, ss, r, s');
      ExtendReadings(cfg, xs, rs, ss, r, s');
      forall i | 0 <= i <= |xs| ensures Warm((ss + [s'])[i], Phis(xs[..i])) {
        PrefixPhis(xs, n, if i <= n then i else n);
      }
      rs, ss := rs + [r], ss + [s'];
    }
  }

  lemma {:induction false} SumOfZeros(n: nat)
    ensures Sum(seq(n, _ => 0.0)) == 0.0
  {
    if n > 0 {
      SumOfZeros(n - 1);
      assert seq(n, _ => 0.0)[..n - 1] == seq(n - 1, _ => 0.0);
    }
  }

  lemma MeanOfDrop(h: seq<real>, fall: real)
    requires h != [] && Sum(h) == 0.0 - |h| as real * fall
    ensures Mean(h) == 0.0 - fall
  {
    var n := |h| as real;
    assert n * Mean(h) == Sum(h);
    assert n * (Mean(h) + fall) == 0.0;
  }

  ghost function FallingSamples(l: nat, fall: real): seq<Sample>
    requires l >= 2
  {
    seq(l - 1, _ => Sample(0.0, 0, 0.0)) + [Sample(0.0 - l as real * fall, 0, 0.0)]
  }

  lemma FallingMeans(l: nat, fall: real)
    requires l >= 2
    ensures var xs := FallingSamples(l, fall);
      Mean(Phis(xs[..l])) == 0.0 - fall && Mean(Phis(xs[..1])) == 0.0
  {
    var xs := FallingSamples(l, fall);
    var h, h1 := Phis(xs[..l]), Phis(xs[..1]);
    SumOfZeros(l - 1);
    assert h[..l - 1] == seq(l - 1, _ => 0.0);
    MeanOfDrop(h, fall);
    assert h1 == [0.0] && h1[..0] == [];
    assert Sum(h1) == 0.0;
  }

  /** When the long window fits inside the warm-up the bound fails: whatever the threshold,
      some run of samples stays HEALTHY and yet falls further than it over longWindow - 1
      frames.  With RatchetBound: for a long window of at least two, the bound holds for
      every run exactly when longWindow > window. */
  lemma RatchetBlindInWarmUp(cfg: Config) returns (xs: seq<Sample>, rs: seq<Reading>, ss: seq<State>)
    requires 2 <= cfg.longWindow <= cfg.window
    ensures IsRun(cfg, rs, ss) && ReadFrom(cfg, xs, rs, ss) && |xs| == cfg.longWindow
    ensures ss[|rs|].link == HEALTHY
    ensures ss[1].baseline - ss[cfg.longWindow].baseline > cfg.ratchetThr
  {
    var fall := if cfg.ratchetThr > 0.0 then cfg.ratchetThr + 1.0 else 1.0;
    xs := FallingSamples(cfg.longWindow, fall);
    rs, ss := WarmingUp(cfg, xs);
    assert Warm(ss[cfg.longWindow], Phis(xs[..cfg.longWindow])) && Warm(ss[1], Phis(xs[..1]));
    FallingMeans(cfg.longWindow, fall);
  }
}
