/** The vectorised coherence kernel (stage-chronos/holographic.py): full interval matrices, a
    triangular mask, a mean. */
module Holographic {
  import opened Coherence
  import opened CoherenceKernel
  import opened Wrappers

  function Arange(i: nat, n: nat, step: nat): seq<nat>
    requires step > 0
    decreases n - i
  {
    if i >= n then [] else [i] + Arange(i + step, n, step)
  }

  lemma {:induction false} ArangeBelow(i: nat, n: nat, step: nat)
    requires step > 0
    ensures forall k :: 0 <= k < |Arange(i, n, step)| ==> Arange(i, n, step)[k] < n
    decreases n - i
  {
    if i < n {
      ArangeBelow(i + step, n, step);
    }
  }

  function Pick(points: seq<Point>, idx: seq<nat>): (r: seq<Point>)
    requires forall k :: 0 <= k < |idx| ==> idx[k] < |points|
    ensures |r| == |idx|
  {
    seq(|idx|, k requires 0 <= k < |idx| => points[idx[k]])
  }

  /** The coordinate array of the sampled points. */
  method ManifoldToCoords(manifold: seq<Point>, idx: seq<nat>) returns (coords: seq<Point>)
    requires forall k :: 0 <= k < |idx| ==> idx[k] < |manifold|
    ensures coords == Pick(manifold, idx)
  {
    var out := new Point[|idx|](_ => Point(0.0, 0.0, 0.0, 0.0));
    for k := 0 to |idx|
      invariant forall j :: 0 <= j < k ==> out[j] == manifold[idx[j]]
    {
      out[k] := manifold[idx[k]];
    }
    coords := out[..];
  }

  ghost predicate IsSquare(g: seq<seq<real>>, m: nat) {
    |g| == m && forall i :: 0 <= i < m ==> |g[i]| == m
  }

  /** All m * m intervals, of every point with every point. */
  function PairwiseIntervals(c: seq<Point>): (g: seq<seq<real>>)
    ensures IsSquare(g, |c|)
  {
    seq(|c|, i requires 0 <= i < |c| => seq(|c|, j requires 0 <= j < |c| => Interval(c[i], c[j])))
  }

  /** The boolean mask of the entries at least one above the diagonal. */
  function Triu(m: nat): (mask: seq<seq<bool>>)
    ensures |mask| == m && forall i :: 0 <= i < m ==> |mask[i]| == m
  {
    seq(m, i requires 0 <= i < m => seq(m, j requires 0 <= j < m => j - i >= 1))
  }

  function SelectRow(row: seq<real>, mask: seq<bool>): seq<real>
    requires |row| == |mask|
  {
    if row == [] then []
    else (if mask[0] then [row[0]] else []) + SelectRow(row[1..], mask[1..])
  }

  /** Indexing by a mask: the marked entries in row-major order. */
  function Select(g: seq<seq<real>>, mask: seq<seq<bool>>): seq<real>
    requires |g| == |mask| && forall i :: 0 <= i < |g| ==> |g[i]| == |mask[i]|
  {
    if g == [] then [] else SelectRow(g[0], mask[0]) + Select(g[1..], mask[1..])
  }

  function SquaredDifferences(x: seq<real>, y: seq<real>): (r: seq<real>)
    requires |x| == |y|
    ensures |r| == |x|
  {
    seq(|x|, k requires 0 <= k < |x| => Sq(x[k] - y[k]))
  }

  function Sum(s: seq<real>): real {
    if s == [] then 0.0 else s[0] + Sum(s[1..])
  }

  // ---- the selection is the strict upper triangle ----

  lemma {:induction false} SelectTail(row: seq<real>, mask: seq<bool>, p: nat)
    requires |row| == |mask| && p <= |row| && forall j :: 0 <= j < |mask| ==> (mask[j] <==> j >= p)
    ensures SelectRow(row, mask) == row[p..]
  {
    if row != [] {
      SelectTail(row[1..], mask[1..], if p == 0 then 0 else p - 1);
      assert p > 0 ==> row[1..][p - 1..] == row[p..];
      assert p == 0 ==> row == [row[0]] + row[1..];
    }
  }

  /** The rows from i on, each cut off after the diagonal. */
  ghost function UpperFrom(g: seq<seq<real>>, i: nat): seq<real>
    requires IsSquare(g, |g|) && i <= |g|
    decreases |g| - i
  {
    if i == |g| then [] else g[i][i + 1..] + UpperFrom(g, i + 1)
  }

  lemma {:induction false} SelectIsUpper(g: seq<seq<real>>, i: nat)
    requires IsSquare(g, |g|) && i <= |g|
    ensures Select(g[i..], Triu(|g|)[i..]) == UpperFrom(g, i)
    decreases |g| - i
  {
    if i < |g| {
      var mask := Triu(|g|);
      SelectTail(g[i], mask[i], i + 1);
      SelectIsUpper(g, i + 1);
      assert g[i..][1..] == g[i + 1..] && mask[i..][1..] == mask[i + 1..];
    }
  }

  lemma {:induction false} UpperLength(g: seq<seq<real>>, i: nat)
    requires IsSquare(g, |g|) && i <= |g|
    ensures |UpperFrom(g, i)| == Pairs(|g| - i)
    decreases |g| - i
  {
    if i < |g| {
      UpperLength(g, i + 1);
    }
  }

  /** What the mask selects: every entry strictly above the diagonal, row by row, and no other. */
  lemma MaskSelectsUpper(g: seq<seq<real>>)
    requires IsSquare(g, |g|)
    ensures Select(g, Triu(|g|)) == UpperFrom(g, 0) && |Select(g, Triu(|g|))| == Pairs(|g|)
  {
    assert g[0..] == g && Triu(|g|)[0..] == Triu(|g|);
    SelectIsUpper(g, 0);
    UpperLength(g, 0);
  }

  lemma {:induction false} SumAppend(s: seq<real>, t: seq<real>)
    ensures Sum(s + t) == Sum(s) + Sum(t)
  {
    if s == [] {
      assert s + t == t;
    } else {
      SumAppend(s[1..], t);
      assert (s + t)[1..] == s[1..] + t;
    }
  }

  ghost predicate Zipped(s: seq<Sample>, o: seq<Point>, r: seq<Point>) {
    |s| == |o| == |r| && forall k :: 0 <= k < |s| ==> s[k] == Sample(o[k], r[k])
  }

  lemma SquareOfOpposite(a: real, b: real)
    ensures Sq(a - b) == Sq(b - a)
  {
  }

  lemma {:induction false} RowIsRowSum(s: seq<Sample>, o: seq<Point>, r: seq<Point>, i: nat, j: nat)
    requires Zipped(s, o, r) && i < |o| && j <= |o|
    ensures Sum(SquaredDifferences(PairwiseIntervals(o)[i][j..], PairwiseIntervals(r)[i][j..])) == RowSum(s[i], s[j..])
    decreases |o| - j
  {
    var x, y := PairwiseIntervals(o)[i], PairwiseIntervals(r)[i];
    if j < |o| {
      RowIsRowSum(s, o, r, i, j + 1);
      SquareOfOpposite(x[j], y[j]);
      assert s[j..][1..] == s[j + 1..];
      assert SquaredDifferences(x[j..], y[j..])[1..] == SquaredDifferences(x[j + 1..], y[j + 1..]);
    }
  }

  lemma DifferencesAppend(x: seq<real>, y: seq<real>, v: seq<real>, w: seq<real>)
    requires |x| == |y| && |v| == |w|
    ensures SquaredDifferences(x + v, y + w) == SquaredDifferences(x, y) + SquaredDifferences(v, w)
  {
  }

  lemma {:induction false} UpperIsPairs(s: seq<Sample>, o: seq<Point>, r: seq<Point>, i: nat)
    requires Zipped(s, o, r) && i <= |o|
    ensures |UpperFrom(PairwiseIntervals(o), i)| == |UpperFrom(PairwiseIntervals(r), i)|
    ensures Sum(SquaredDifferences(UpperFrom(PairwiseIntervals(o), i), UpperFrom(PairwiseIntervals(r), i))) == PairSum(s[i..])
    decreases |o| - i
  {
    var g, h := PairwiseIntervals(o), PairwiseIntervals(r);
    if i < |o| {
      UpperIsPairs(s, o, r, i + 1);
      RowIsRowSum(s, o, r, i, i + 1);
      DifferencesAppend(g[i][i + 1..], h[i][i + 1..], UpperFrom(g, i + 1), UpperFrom(h, i + 1));
      SumAppend(SquaredDifferences(g[i][i + 1..], h[i][i + 1..]),
                SquaredDifferences(UpperFrom(g, i + 1), UpperFrom(h, i + 1)));
      assert s[i..][1..] == s[i + 1..];
    }
  }

  ghost predicate Picks(s: seq<Sample>, b: seq<Point>, a: seq<Point>, idx: seq<nat>) {
    |s| == |idx| && |a| >= |b|
    && forall k :: 0 <= k < |idx| ==> idx[k] < |b| && s[k] == Sample(b[idx[k]], a[idx[k]])
  }

  lemma PickOneMore(s: seq<Sample>, b: seq<Point>, a: seq<Point>, idx: seq<nat>, i: nat)
    requires Picks(s, b, a, idx) && i < |b|
    ensures Picks([Sample(b[i], a[i])] + s, b, a, [i] + idx)
  {
  }

  lemma {:induction false} ArangeSamples(b: seq<Point>, a: seq<Point>, i: nat, step: nat)
    requires |a| >= |b| && step > 0
    ensures Picks(Samples(b, a, i, step), b, a, Arange(i, |b|, step))
    decreases |b| - i
  {
    if i < |b| {
      ArangeSamples(b, a, i + step, step);
      PickOneMore(Samples(b, a, i + step, step), b, a, Arange(i + step, |b|, step), i);
    }
  }

  lemma {:induction false} PairsClosedForm(m: nat)
    ensures 2 * Pairs(m) == m * m - m
  {
    if m > 0 {
      PairsClosedForm(m - 1);
    }
  }

  /** The masked matrices hold one entry for each pair of samples, and the squares of their
      differences add up to what the double loop adds up. */
  lemma {:induction false} KernelsAgree(s: seq<Sample>, o: seq<Point>, r: seq<Point>)
    requires Zipped(s, o, r)
    ensures var x, y := Select(PairwiseIntervals(o), Triu(|o|)), Select(PairwiseIntervals(r), Triu(|r|));
      |x| == |y| == Pairs(|s|) && Sum(SquaredDifferences(x, y)) == PairSum(s)
  {
    MaskSelectsUpper(PairwiseIntervals(o));
    MaskSelectsUpper(PairwiseIntervals(r));
    UpperIsPairs(s, o, r, 0);
    assert s[0..] == s;
  }

  /** The vectorised form: full interval matrices, a triangular mask, a mean.  It is the double
      loop's measure whenever at least two points are sampled; otherwise there is nothing to
      average, and None stands for the resulting not-a-number. */
  method MeasureHolographicCoherence(original: seq<Point>, recovered: seq<Point>, sampleSize: int)
    returns (mse: Option<real>)
    requires |recovered| >= |original| && sampleSize != 0
    ensures var s := Samples(original, recovered, 0, Stride(|original|, sampleSize));
      mse == if |s| >= 2 then Some(Mse(s)) else None
  {
    var step := Stride(|original|, sampleSize);
    var idx := Arange(0, |original|, step);
    ArangeBelow(0, |original|, step);
    var o := ManifoldToCoords(original, idx);
    var r := ManifoldToCoords(recovered, idx);
    ghost var s := Samples(original, recovered, 0, step);
    ArangeSamples(original, recovered, 0, step);
    KernelsAgree(s, o, r);
    PairsClosedForm(|s|);
    assert |s| >= 2 <==> Pairs(|s|) >= 1;
    var mask := Triu(|idx|);
    var squares := SquaredDifferences(Select(PairwiseIntervals(o), mask), Select(PairwiseIntervals(r), mask));
    mse := if squares == [] then None else Some(Sum(squares) / |squares| as real);
  }
}
