/** What callers of Go's `sort.Slice` may rely on: the result is a permutation of the
    input in which no element precedes a smaller one.  The sort is not stable, so the
    order of elements that compare equal is not promised. */
module Sorting {

  ghost predicate TotalPreorder<T(!new)>(leq: (T, T) -> bool) {
    && (forall x, y :: leq(x, y) || leq(y, x))
    && (forall x, y, z :: leq(x, y) && leq(y, z) ==> leq(x, z))
  }

  ghost predicate SortedBy<T>(leq: (T, T) -> bool, s: seq<T>) {
    forall i, j :: 0 <= i < j < |s| ==> leq(s[i], s[j])
  }

  /** `out` is an admissible result of sorting `s`. */
  ghost predicate IsSortOf<T>(leq: (T, T) -> bool, out: seq<T>, s: seq<T>) {
    multiset(out) == multiset(s) && SortedBy(leq, out)
  }

  /** Elements that `leq` ties are equal, so sorting `s` has only one outcome. */
  ghost predicate NoTies<T>(leq: (T, T) -> bool, s: seq<T>) {
    forall x, y :: x in s && y in s && leq(x, y) && leq(y, x) ==> x == y
  }

  lemma RemoveAt<T>(s: seq<T>, k: nat)
    requires k < |s|
    ensures multiset(s) == multiset(s[..k] + s[k + 1..]) + multiset{s[k]}
  {
    assert s == s[..k] + [s[k]] + s[k + 1..];
  }

  lemma Cancel<T>(a: multiset<T>, b: multiset<T>, x: T)
    requires a + multiset{x} == b + multiset{x}
    ensures a == b
  {
    assert a == (a + multiset{x}) - multiset{x};
    assert b == (b + multiset{x}) - multiset{x};
  }

  lemma SplitFirst<T>(s: seq<T>)
    requires s != []
    ensures multiset(s) == multiset(s[1..]) + multiset{s[0]}
  {
    RemoveAt(s, 0);
    assert s[..0] + s[1..] == s[1..];
  }

  lemma PrependKeepsSorted<T>(leq: (T, T) -> bool, x: T, s: seq<T>)
    requires SortedBy(leq, s) && forall y :: y in s ==> leq(x, y)
    ensures SortedBy(leq, [x] + s)
  {
  }

  function Insert<T>(leq: (T, T) -> bool, x: T, s: seq<T>): seq<T> {
    if s == [] || leq(x, s[0]) then [x] + s else [s[0]] + Insert(leq, x, s[1..])
  }

  lemma {:induction false} InsertSorts<T(!new)>(leq: (T, T) -> bool, x: T, s: seq<T>)
    requires TotalPreorder(leq) && SortedBy(leq, s)
    ensures multiset(Insert(leq, x, s)) == multiset(s) + multiset{x}
    ensures SortedBy(leq, Insert(leq, x, s))
  {
    if s == [] || leq(x, s[0]) {
      PrependKeepsSorted(leq, x, s);
    } else {
      var rest := Insert(leq, x, s[1..]);
      InsertSorts(leq, x, s[1..]);
      SplitFirst(s);
      forall y | y in rest ensures leq(s[0], y) {
        assert y in multiset(rest);
      }
      PrependKeepsSorted(leq, s[0], rest);
    }
  }

  method Sort<T(!new)>(leq: (T, T) -> bool, s: seq<T>) returns (out: seq<T>)
    requires TotalPreorder(leq)
    ensures IsSortOf(leq, out, s)
  {
    out := [];
    for i := 0 to |s|
      invariant IsSortOf(leq, out, s[..i])
    {
      assert s[..i + 1] == s[..i] + [s[i]];
      InsertSorts(leq, s[i], out);
      out := Insert(leq, s[i], out);
    }
    assert s[..|s|] == s;
  }

  /** The last element of one ordering occurs in every other; the rest are orderings too. */
  lemma MatchLast<T>(a: seq<T>, b: seq<T>) returns (k: nat)
    requires multiset(a) == multiset(b) && a != []
    ensures k < |b| == |a| && b[k] == a[|a| - 1]
    ensures multiset(a[..|a| - 1]) == multiset(b[..k] + b[k + 1..])
  {
    var n := |a| - 1;
    assert |a| == |multiset(a)| == |multiset(b)| == |b|;
    assert a[n] in multiset(b);
    k :| 0 <= k < |b| && b[k] == a[n];
    RemoveAt(a, n);
    assert a[..n] + a[n + 1..] == a[..n];
    RemoveAt(b, k);
    Cancel(multiset(a[..n]), multiset(b[..k] + b[k + 1..]), a[n]);
  }

  ghost function Map<T, U>(f: T -> U, s: seq<T>): (r: seq<U>)
    ensures |r| == |s|
  {
    seq(|s|, i requires 0 <= i < |s| => f(s[i]))
  }

  lemma MapRemove<T, U>(f: T -> U, s: seq<T>, k: nat)
    requires k < |s|
    ensures multiset(Map(f, s)) == multiset(Map(f, s[..k] + s[k + 1..])) + multiset{f(s[k])}
  {
    var r := Map(f, s);
    RemoveAt(r, k);
    assert Map(f, s[..k] + s[k + 1..]) == r[..k] + r[k + 1..];
  }

  /** The images of two orderings are orderings of each other. */
  lemma {:induction false} MapIgnoresOrder<T, U>(f: T -> U, a: seq<T>, b: seq<T>)
    requires multiset(a) == multiset(b)
    ensures multiset(Map(f, a)) == multiset(Map(f, b))
  {
    if a == [] {
      assert |b| == |multiset(b)| == 0;
    } else {
      var n := |a| - 1;
      var k := MatchLast(a, b);
      MapRemove(f, a, n);
      assert a[..n] + a[n + 1..] == a[..n];
      MapRemove(f, b, k);
      MapIgnoresOrder(f, a[..n], b[..k] + b[k + 1..]);
    }
  }

  lemma SameFirst<T>(leq: (T, T) -> bool, a: seq<T>, b: seq<T>)
    requires multiset(a) == multiset(b) && a != [] && b != []
    requires SortedBy(leq, a) && SortedBy(leq, b) && NoTies(leq, a)
    ensures a[0] == b[0]
  {
    assert a[0] in multiset(b) && b[0] in multiset(a);
    var i :| 0 <= i < |b| && b[i] == a[0];
    var j :| 0 <= j < |a| && a[j] == b[0];
    assert i == 0 || leq(b[0], b[i]);
    assert j == 0 || leq(a[0], a[j]);
  }

  /** Without ties the sorted order is the same for every ordering of the input. */
  lemma {:induction false} SortIsUnique<T>(leq: (T, T) -> bool, a: seq<T>, b: seq<T>)
    requires multiset(a) == multiset(b)
    requires SortedBy(leq, a) && SortedBy(leq, b) && NoTies(leq, a)
    ensures a == b
  {
    assert |a| == |multiset(a)| == |multiset(b)| == |b|;
    if a != [] {
      SameFirst(leq, a, b);
      SplitFirst(a);
      SplitFirst(b);
      Cancel(multiset(a[1..]), multiset(b[1..]), a[0]);
      SortIsUnique(leq, a[1..], b[1..]);
      assert a == [a[0]] + a[1..] && b == [b[0]] + b[1..];
    }
  }
}
