/** Transport chains and the coherence measure (stage-chronos/coherence.py, transport.py,
    fiber_channel.py). */
module CoherenceKernel {
  import opened Coherence
  import opened Wrappers

  // ---- transport ----

  datatype Transport = Boost(v: real, gamma: real) | Pmd(a1: Angle, a2: Angle, a3: Angle)

  ghost predicate ValidTransport(tr: Transport) {
    match tr
    case Boost(v, gamma) => IsGamma(gamma, v)
    case Pmd(a1, a2, a3) => IsAngle(a1) && IsAngle(a2) && IsAngle(a3)
  }

  function Move(tr: Transport, p: Point): Point {
    match tr
    case Boost(v, gamma) => BoostPoint(v, gamma, p)
    case Pmd(a1, a2, a3) => Rotate(ChannelMatrix(a1, a2, a3), p)
  }

  lemma MoveKeepsInterval(tr: Transport, p: Point, q: Point)
    requires ValidTransport(tr)
    ensures Interval(Move(tr, p), Move(tr, q)) == Interval(p, q)
  {
    match tr {
      case Boost(v, gamma) =>
        BoostIsLinear(v, gamma, p, q);
        BoostKeepsNorm(v, gamma, Minus(p, q));
      case Pmd(a1, a2, a3) =>
        RotateIsLinear(ChannelMatrix(a1, a2, a3), p, q);
        ChannelMatrixKeepsNorm(a1, a2, a3, Minus(p, q));
    }
  }

  ghost function MoveThrough(chain: seq<Transport>, p: Point): Point {
    if chain == [] then p else Move(chain[|chain| - 1], MoveThrough(chain[..|chain| - 1], p))
  }

  ghost predicate ValidChain(chain: seq<Transport>) {
    forall i :: 0 <= i < |chain| ==> ValidTransport(chain[i])
  }

  lemma {:induction false} ChainKeepsInterval(chain: seq<Transport>, p: Point, q: Point)
    requires ValidChain(chain)
    ensures Interval(MoveThrough(chain, p), MoveThrough(chain, q)) == Interval(p, q)
  {
    if chain != [] {
      var n := |chain| - 1;
      ChainKeepsInterval(chain[..n], p, q);
      MoveKeepsInterval(chain[n], MoveThrough(chain[..n], p), MoveThrough(chain[..n], q));
    }
  }

  /** Refused outside |v| < 1, as there is no Lorentz factor. */
  method ApplyLorentzBoost(manifold: seq<Point>, velocity: real, gamma: real) returns (r: Option<seq<Point>>)
    requires -1.0 < velocity < 1.0 ==> IsGamma(gamma, velocity)
    ensures r.Some? <==> -1.0 < velocity < 1.0
    ensures r.Some? ==> |r.value| == |manifold| && ValidTransport(Boost(velocity, gamma))
    ensures r.Some? ==> forall i :: 0 <= i < |manifold| ==> r.value[i] == Move(Boost(velocity, gamma), manifold[i])
  {
    if !(-1.0 < velocity < 1.0) {
      return None;
    }
    var boosted := [];
    for i := 0 to |manifold|
      invariant |boosted| == i
      invariant forall k :: 0 <= k < i ==> boosted[k] == Move(Boost(velocity, gamma), manifold[k])
    {
      boosted := boosted + [BoostPoint(velocity, gamma, manifold[i])];
    }
    return Some(boosted);
  }

  // ---- the measure ----

  /** A sampled point before and after transport. */
  datatype Sample = Sample(before: Point, after: Point)

  function Deviation(p: Sample, q: Sample): real {
    Sq(Interval(p.after, q.after) - Interval(p.before, q.before))
  }

  ghost function Samples(b: seq<Point>, a: seq<Point>, i: nat, step: nat): seq<Sample>
    requires |a| >= |b| && step > 0
    decreases |b| - i
  {
    if i >= |b| then [] else [Sample(b[i], a[i])] + Samples(b, a, i + step, step)
  }

  ghost function RowSum(p: Sample, rest: seq<Sample>): real {
    if rest == [] then 0.0 else Deviation(p, rest[0]) + RowSum(p, rest[1..])
  }

  ghost function PairSum(s: seq<Sample>): real {
    if s == [] then 0.0 else RowSum(s[0], s[1..]) + PairSum(s[1..])
  }

  ghost function Pairs(m: nat): nat {
    if m == 0 then 0 else m - 1 + Pairs(m - 1)
  }

  ghost function Mse(s: seq<Sample>): real {
    PairSum(s) / (if Pairs(|s|) >= 1 then Pairs(|s|) else 1) as real
  }

  function Stride(n: nat, sampleSize: int): (step: nat)
    requires sampleSize != 0
    ensures step > 0
    ensures n >= sampleSize > 0 ==> step * sampleSize <= n < (step + 1) * sampleSize
    ensures sampleSize < 0 || n < sampleSize ==> step == 1
  {
    if sampleSize > 0 && n / sampleSize > 1 then n / sampleSize else 1
  }

  lemma RowStep(p: Sample, b: seq<Point>, a: seq<Point>, j: nat, step: nat)
    requires |a| >= |b| && step > 0 && j < |b|
    ensures var here, after := Samples(b, a, j, step), Samples(b, a, j + step, step);
      |here| == |after| + 1 && RowSum(p, here) == Deviation(p, Sample(b[j], a[j])) + RowSum(p, after)
  {
    assert Samples(b, a, j, step)[1..] == Samples(b, a, j + step, step);
  }

  lemma PairStep(b: seq<Point>, a: seq<Point>, i: nat, step: nat)
    requires |a| >= |b| && step > 0 && i < |b|
    ensures var here, after := Samples(b, a, i, step), Samples(b, a, i + step, step);
      |here| == |after| + 1 && PairSum(here) == RowSum(Sample(b[i], a[i]), after) + PairSum(after)
  {
    assert Samples(b, a, i, step)[1..] == Samples(b, a, i + step, step);
  }

  /** One row of the double loop. */
  method AddRow(b: seq<Point>, a: seq<Point>, i: nat, step: nat, sum: real, count: nat) returns (mse: real, comparisons: nat)
    requires |a| == |b| && step > 0 && i < |b|
    ensures mse == sum + RowSum(Sample(b[i], a[i]), Samples(b, a, i + step, step))
    ensures comparisons == count + |Samples(b, a, i + step, step)|
  {
    mse, comparisons := sum, count;
    var j := i + step;
    ghost var p := Sample(b[i], a[i]);
    while j < |b|
      invariant mse + RowSum(p, Samples(b, a, j, step)) == sum + RowSum(p, Samples(b, a, i + step, step))
      invariant comparisons + |Samples(b, a, j, step)| == count + |Samples(b, a, i + step, step)|
      decreases |b| - j
    {
      RowStep(p, b, a, j, step);
      mse := mse + Sq(Interval(a[i], a[j]) - Interval(b[i], b[j]));
      comparisons := comparisons + 1;
      j := j + step;
    }
  }

  /** The double loop computes the mean squared deviation over all sampled pairs. */
  method MeasureCoherence(b: seq<Point>, a: seq<Point>, sampleSize: int) returns (mse: real)
    requires |a| == |b| && sampleSize != 0
    ensures mse == Mse(Samples(b, a, 0, Stride(|b|, sampleSize)))
  {
    var step := Stride(|b|, sampleSize);
    mse := 0.0;
    var comparisons: nat := 0;
    var i := 0;
    ghost var all := Samples(b, a, 0, step);
    while i < |b|
      invariant mse + PairSum(Samples(b, a, i, step)) == PairSum(all)
      invariant comparisons + Pairs(|Samples(b, a, i, step)|) == Pairs(|all|)
      decreases |b| - i
    {
      PairStep(b, a, i, step);
      mse, comparisons := AddRow(b, a, i, step, mse, comparisons);
      i := i + step;
    }
    mse := mse / (if comparisons >= 1 then comparisons else 1) as real;
  }

  // ---- zero exactly when nothing changed ----

  ghost predicate Kept(p: Sample, q: Sample) {
    Interval(p.after, q.after) == Interval(p.before, q.before)
  }

  lemma DeviationZeroIff(p: Sample, q: Sample)
    ensures Deviation(p, q) >= 0.0 && (Deviation(p, q) == 0.0 <==> Kept(p, q))
  {
    SquareZeroIff(Interval(p.after, q.after) - Interval(p.before, q.before));
  }

  lemma SameSignProduct(d: real, e: real, s: real)
    requires s == d * e && ((d > 0.0 && e > 0.0) || (d < 0.0 && e < 0.0))
    ensures s > 0.0
  {
  }

  lemma SquareZeroIff(d: real)
    ensures Sq(d) >= 0.0 && (Sq(d) == 0.0 <==> d == 0.0)
  {
    if d != 0.0 {
      SameSignProduct(d, d, Sq(d));
    }
  }

  lemma {:induction false} RowSumZeroIff(p: Sample, rest: seq<Sample>)
    ensures RowSum(p, rest) >= 0.0
    ensures RowSum(p, rest) == 0.0 <==> forall j :: 0 <= j < |rest| ==> Kept(p, rest[j])
  {
    if rest != [] {
      DeviationZeroIff(p, rest[0]);
      RowSumZeroIff(p, rest[1..]);
      assert forall j :: 0 < j < |rest| ==> rest[j] == rest[1..][j - 1];
    }
  }

  ghost predicate AllKept(s: seq<Sample>) {
    forall i, j :: 0 <= i < j < |s| ==> Kept(s[i], s[j])
  }

  lemma {:induction false} PairSumZeroIff(s: seq<Sample>)
    ensures PairSum(s) >= 0.0 && (PairSum(s) == 0.0 <==> AllKept(s))
  {
    if s != [] {
      var rest := s[1..];
      RowSumZeroIff(s[0], rest);
      PairSumZeroIff(rest);
      assert forall i, j :: 0 < i < j < |s| ==> s[i] == rest[i - 1] && s[j] == rest[j - 1];
      assert AllKept(s) <==> AllKept(rest) && forall j :: 0 <= j < |rest| ==> Kept(s[0], rest[j]);
    }
  }

  lemma QuotientZeroIff(x: real, d: real)
    requires d >= 1.0
    ensures x / d == 0.0 <==> x == 0.0
  {
    assert x / d * d == x;
  }

  /** The measure is zero exactly when the interval of every sampled pair is unchanged. */
  lemma {:induction false} MseZeroIff(s: seq<Sample>)
    ensures Mse(s) == 0.0 <==> AllKept(s)
  {
    PairSumZeroIff(s);
    QuotientZeroIff(PairSum(s), (if Pairs(|s|) >= 1 then Pairs(|s|) else 1) as real);
  }

  lemma {:induction false} SampleOf(b: seq<Point>, a: seq<Point>, i: nat, step: nat, k: nat) returns (j: nat)
    requires |a| >= |b| && step > 0 && k < |Samples(b, a, i, step)|
    ensures j < |b| && Samples(b, a, i, step)[k] == Sample(b[j], a[j])
    decreases k
  {
    if k == 0 {
      j := i;
    } else {
      j := SampleOf(b, a, i + step, step, k - 1);
    }
  }

  /** Any chain of boosts and rotations leaves the measure at exactly zero, for every manifold
      and every sample size. */
  lemma {:induction false} ChainsAreCoherent(chain: seq<Transport>, b: seq<Point>, a: seq<Point>, sampleSize: int)
    requires ValidChain(chain) && sampleSize != 0 && |a| == |b|
    requires forall i :: 0 <= i < |b| ==> a[i] == MoveThrough(chain, b[i])
    ensures Mse(Samples(b, a, 0, Stride(|b|, sampleSize))) == 0.0
  {
    var step := Stride(|b|, sampleSize);
    var s := Samples(b, a, 0, step);
    forall i, j | 0 <= i < j < |s| ensures Kept(s[i], s[j]) {
      var k := SampleOf(b, a, 0, step, i);
      var m := SampleOf(b, a, 0, step, j);
      ChainKeepsInterval(chain, b[k], b[m]);
    }
    MseZeroIff(s);
  }

  // ---- chromatic dispersion is not such a transport ----

  /** The group-delay walk-off: time is sheared along x, x is not. */
  function Disperse(k: real, p: Point): Point {
    Point(p.t + k * p.x, p.x, p.y, p.z)
  }

  /** What dispersion takes from the interval of two points dt and dx apart. */
  function Walk(k: real, dt: real, dx: real): real {
    k * dx * (2.0 * dt + k * dx)
  }

  lemma ShearedSquare(k: real, dt: real, dx: real)
    ensures Sq(dt + k * dx) == Sq(dt) + Walk(k, dt, dx)
  {
    var e := k * dx;
    assert Sq(dt + e) == dt * dt + e * (2.0 * dt + e);
  }

  lemma DispersionPair(k: real, p: Point, q: Point)
    ensures Interval(Disperse(k, p), Disperse(k, q)) == Interval(p, q) - Walk(k, p.t - q.t, p.x - q.x)
  {
    assert k * p.x - k * q.x == k * (p.x - q.x);
    ShearedSquare(k, p.t - q.t, p.x - q.x);
  }

  lemma DispersedKeptIff(k: real, p: Point, q: Point)
    ensures Kept(Sample(p, Disperse(k, p)), Sample(q, Disperse(k, q))) <==> Walk(k, p.t - q.t, p.x - q.x) == 0.0
  {
    DispersionPair(k, p, q);
  }

  /** The walk-off between two points of a manifold vanishes. */
  ghost predicate NoWalk(k: real, p: Point, q: Point) {
    Walk(k, p.t - q.t, p.x - q.x) == 0.0
  }

  /** Dispersion keeps the measure at zero exactly when no two sampled points walk off from
      each other: k * dx * (2 * dt + k * dx) is zero for each pair. */
  lemma {:induction false} DispersionCoherentIff(k: real, b: seq<Point>, a: seq<Point>, sampleSize: int)
    requires sampleSize != 0 && |a| == |b|
    requires forall i :: 0 <= i < |b| ==> a[i] == Disperse(k, b[i])
    ensures var s := Samples(b, a, 0, Stride(|b|, sampleSize));
      Mse(s) == 0.0 <==> forall i, j :: 0 <= i < j < |s| ==> NoWalk(k, s[i].before, s[j].before)
  {
    var step := Stride(|b|, sampleSize);
    var s := Samples(b, a, 0, step);
    MseZeroIff(s);
    forall i, j | 0 <= i < j < |s| ensures Kept(s[i], s[j]) <==> NoWalk(k, s[i].before, s[j].before) {
      var m := SampleOf(b, a, 0, step, i);
      var n := SampleOf(b, a, 0, step, j);
      DispersedKeptIff(k, b[m], b[n]);
    }
  }

  lemma ProductZeroIff(k: real, x: real)
    ensures k * x == 0.0 <==> k == 0.0 || x == 0.0
  {
  }

  /** Between points emitted at one time the walk-off vanishes exactly when the dispersion has
      no slope or the points have one x. */
  lemma SameTimeWalk(k: real, p: Point, q: Point)
    requires p.t == q.t
    ensures NoWalk(k, p, q) <==> k == 0.0 || p.x == q.x
  {
    var dx := p.x - q.x;
    assert Walk(k, 0.0, dx) == Sq(k * dx);
    SquareZeroIff(k * dx);
    ProductZeroIff(k, dx);
  }
}
