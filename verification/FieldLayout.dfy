/** Payload layouts and the canonical form a schema signature covers
    (flr/internal/models/schema.go, flr/internal/crypto/schema.go).

    Offsets and lengths are 32-bit: offset + length wraps. */
module FieldLayout {
  import opened Sorting

  type Int32 = x: int | -2147483648 <= x < 2147483648

  datatype FieldDef = FieldDef(name: string, offset: Int32, length: Int32, kind: Int32, description: string)

  /** The width of a primitive type; -1 for ascii (11), bytes (12) and unknown codes. */
  function SizeBytes(kind: Int32): int {
    if kind in {1, 5, 13} then 1
    else if kind in {2, 6} then 2
    else if kind in {3, 7, 9} then 4
    else if kind in {4, 8, 10} then 8
    else -1
  }

  predicate ValidField(f: FieldDef) {
    f.name != "" && f.length > 0 && f.offset >= 0 && (SizeBytes(f.kind) > 0 ==> f.length == SizeBytes(f.kind))
  }

  function WrappedEnd(f: FieldDef): Int32 {
    var sum := f.offset + f.length;
    if sum >= 2147483648 then sum - 4294967296 else if sum < -2147483648 then sum + 4294967296 else sum
  }

  predicate Overflows(f: FieldDef) {
    f.offset + f.length >= 2147483648
  }

  /** The bytes the occupancy loop visits for a field. */
  predicate Covers(f: FieldDef, b: int) {
    f.offset <= b < WrappedEnd(f)
  }

  /** How many fields cover byte b. */
  ghost function Count(fields: seq<FieldDef>, b: int): nat {
    if fields == [] then 0
    else Count(fields[..|fields| - 1], b) + if Covers(fields[|fields| - 1], b) then 1 else 0
  }

  /** Every byte of [0, total) is covered by exactly one field. */
  ghost predicate Tiles(fields: seq<FieldDef>, total: int) {
    forall b :: 0 <= b < total ==> Count(fields, b) == 1
  }

  ghost predicate AllValid(fields: seq<FieldDef>) {
    forall i :: 0 <= i < |fields| ==> ValidField(fields[i])
  }

  ghost predicate EndsWithin(fields: seq<FieldDef>, total: int) {
    forall i :: 0 <= i < |fields| ==> WrappedEnd(fields[i]) <= total
  }

  /** The total is the largest wrapped end, or 0. */
  ghost predicate IsTotal(fields: seq<FieldDef>, total: int) {
    && total >= 0 && EndsWithin(fields, total)
    && (total > 0 ==> exists i :: 0 <= i < |fields| && WrappedEnd(fields[i]) == total)
  }

  method TotalBytes(fields: seq<FieldDef>) returns (maxEnd: Int32)
    ensures IsTotal(fields, maxEnd)
  {
    maxEnd := 0;
    for i := 0 to |fields|
      invariant IsTotal(fields[..i], maxEnd)
    {
      var end := WrappedEnd(fields[i]);
      ghost var before := maxEnd;
      assert fields[..i + 1] == fields[..i] + [fields[i]];
      if end > maxEnd {
        maxEnd := end;
        assert WrappedEnd(fields[..i + 1][i]) == maxEnd;
      } else if before > 0 {
        var k :| 0 <= k < i && WrappedEnd(fields[..i][k]) == before;
        assert fields[..i + 1][k] == fields[..i][k];
      }
    }
    assert fields[..|fields|] == fields;
  }

  /** The occupancy map after some fields: a byte is marked if one of them covers it, and no
      two of them cover the same byte. */
  ghost predicate Occupancy(fields: seq<FieldDef>, marks: seq<bool>) {
    forall b :: 0 <= b < |marks| ==> Count(fields, b) == if marks[b] then 1 else 0
  }

  method Occupy(f: FieldDef, occupied: array<bool>) returns (free: bool)
    requires 0 <= f.offset && WrappedEnd(f) <= occupied.Length
    modifies occupied
    ensures free <==> forall b :: 0 <= b < occupied.Length && Covers(f, b) ==> !old(occupied[b])
    ensures free ==> forall b :: 0 <= b < occupied.Length ==> occupied[b] == (old(occupied[b]) || Covers(f, b))
  {
    var b: int := f.offset;
    while b < WrappedEnd(f)
      invariant f.offset <= b && (b <= WrappedEnd(f) || b == f.offset)
      invariant forall k :: 0 <= k < occupied.Length ==> occupied[k] == (old(occupied[k]) || (Covers(f, k) && k < b))
      invariant forall k :: 0 <= k < occupied.Length && Covers(f, k) && k < b ==> !old(occupied[k])
    {
      // The bounds check in the source cannot fail here.
      assert 0 <= b < occupied.Length;
      if occupied[b] {
        assert Covers(f, b) && old(occupied[b]);
        return false;
      }
      occupied[b] := true;
      b := b + 1;
    }
    return true;
  }

  lemma {:induction false} CountGrows(fields: seq<FieldDef>, n: nat, b: int)
    requires n <= |fields|
    ensures Count(fields[..n], b) <= Count(fields, b)
    decreases |fields| - n
  {
    if n == |fields| {
      assert fields[..n] == fields;
    } else {
      assert fields[..n + 1][..n] == fields[..n];
      CountGrows(fields, n + 1, b);
    }
  }

  /** A layout is accepted exactly when it has a field, its fields are valid, and the bytes up
      to the total are each covered exactly once. */
  ghost predicate Accepted(fields: seq<FieldDef>) {
    fields != [] && AllValid(fields) && forall total :: IsTotal(fields, total) ==> Tiles(fields, total)
  }

  lemma TotalUnique(fields: seq<FieldDef>, s: int, t: int)
    requires IsTotal(fields, s) && IsTotal(fields, t)
    ensures s == t
  {
  }

  method ValidFields(fields: seq<FieldDef>) returns (ok: bool)
    ensures ok <==> AllValid(fields)
  {
    for i := 0 to |fields|
      invariant AllValid(fields[..i])
    {
      if !ValidField(fields[i]) {
        return false;
      }
    }
    return true;
  }

  method FillOccupancy(fields: seq<FieldDef>, occupied: array<bool>) returns (free: bool)
    requires AllValid(fields) && EndsWithin(fields, occupied.Length)
    requires forall b :: 0 <= b < occupied.Length ==> !occupied[b]
    modifies occupied
    ensures free ==> Occupancy(fields, occupied[..])
    ensures !free ==> !Tiles(fields, occupied.Length)
  {
    for i := 0 to |fields|
      invariant Occupancy(fields[..i], occupied[..])
    {
      ghost var before := occupied[..];
      ghost var upTo := fields[..i + 1];
      assert upTo[..i] == fields[..i];
      free := Occupy(fields[i], occupied);
      if !free {
        ghost var b :| 0 <= b < occupied.Length && Covers(fields[i], b) && before[b];
        assert Count(upTo, b) == 2;
        CountGrows(fields, i + 1, b);
        return false;
      }
      forall b | 0 <= b < occupied.Length ensures Count(upTo, b) == if occupied[..][b] then 1 else 0 {
        assert occupied[b] == (before[b] || Covers(fields[i], b));
      }
    }
    assert fields[..|fields|] == fields;
    return true;
  }

  method ValidateLayout(fields: seq<FieldDef>) returns (ok: bool)
    ensures ok <==> Accepted(fields)
  {
    if |fields| == 0 {
      return false;
    }
    ok := ValidFields(fields);
    if !ok {
      return;
    }
    var total := TotalBytes(fields);
    var occupied := new bool[total](_ => false);
    var free := FillOccupancy(fields, occupied);
    ok := free;
    if free {
      for b := 0 to total
        invariant ok && forall k :: 0 <= k < b ==> occupied[k]
      {
        if !occupied[b] {
          ok := false;
          break;
        }
      }
      assert ok <==> Tiles(fields, total);
    }
    forall t | IsTotal(fields, t) ensures t == total {
      TotalUnique(fields, t, total);
    }
  }

  // ---- sizes ----

  ghost function SumLengths(fields: seq<FieldDef>): int {
    if fields == [] then 0 else SumLengths(fields[..|fields| - 1]) + fields[|fields| - 1].length
  }

  /** Coverings of the first n bytes, counted byte by byte. */
  ghost function Coverings(fields: seq<FieldDef>, n: nat): nat {
    if n == 0 then 0 else Coverings(fields, n - 1) + Count(fields, n - 1)
  }

  ghost function Span(f: FieldDef): int {
    if Overflows(f) then 0 else f.length
  }

  ghost function SumSpans(fields: seq<FieldDef>): int {
    if fields == [] then 0 else SumSpans(fields[..|fields| - 1]) + Span(fields[|fields| - 1])
  }

  ghost function Clip(f: FieldDef, n: int): int {
    if WrappedEnd(f) <= f.offset || n <= f.offset then 0
    else if n <= WrappedEnd(f) then n - f.offset
    else WrappedEnd(f) - f.offset
  }

  lemma {:induction false} CoveringsAdd(fields: seq<FieldDef>, n: nat)
    requires fields != [] && fields[|fields| - 1].offset >= 0
    ensures Coverings(fields, n) == Coverings(fields[..|fields| - 1], n) + Clip(fields[|fields| - 1], n)
  {
    if n > 0 {
      CoveringsAdd(fields, n - 1);
    }
  }

  lemma {:induction false} CoveringsAreSpans(fields: seq<FieldDef>, total: nat)
    requires AllValid(fields) && EndsWithin(fields, total)
    ensures Coverings(fields, total) == SumSpans(fields)
  {
    if fields == [] {
      NoCoverings(total);
    } else {
      CoveringsAdd(fields, total);
      CoveringsAreSpans(fields[..|fields| - 1], total);
    }
  }

  lemma {:induction false} NoCoverings(n: nat)
    ensures Coverings([], n) == 0
  {
    if n > 0 {
      NoCoverings(n - 1);
    }
  }

  lemma {:induction false} TilesCoverOnce(fields: seq<FieldDef>, n: nat)
    requires Tiles(fields, n)
    ensures Coverings(fields, n) == n
  {
    if n > 0 {
      TilesCoverOnce(fields, n - 1);
    }
  }

  ghost predicate NoOverflow(fields: seq<FieldDef>) {
    forall i :: 0 <= i < |fields| ==> !Overflows(fields[i])
  }

  lemma {:induction false} SpansVersusLengths(fields: seq<FieldDef>)
    requires AllValid(fields)
    ensures SumSpans(fields) <= SumLengths(fields)
    ensures SumSpans(fields) == SumLengths(fields) <==> NoOverflow(fields)
  {
    if fields != [] {
      var n := |fields| - 1;
      SpansVersusLengths(fields[..n]);
      assert fields == fields[..n] + [fields[n]];
      assert NoOverflow(fields) <==> NoOverflow(fields[..n]) && !Overflows(fields[n]);
    }
  }

  /** In an accepted layout the lengths add up to the total exactly when no offset + length
      exceeds the 32-bit range. */
  lemma LengthsSumToTotalIff(fields: seq<FieldDef>, total: nat)
    requires Accepted(fields) && IsTotal(fields, total)
    ensures SumLengths(fields) == total <==> NoOverflow(fields)
  {
    TilesCoverOnce(fields, total);
    CoveringsAreSpans(fields, total);
    SpansVersusLengths(fields);
  }

  /** A field whose end wraps occupies nothing: this layout of five declared bytes is
      accepted with a total of four. */
  lemma OverflowIsAccepted() returns (fields: seq<FieldDef>)
    ensures Accepted(fields) && IsTotal(fields, 4) && SumLengths(fields) == 5
  {
    var a, b := FieldDef("a", 0, 4, 3, ""), FieldDef("b", 2147483647, 1, 1, "");
    fields := [a, b];
    assert fields[..1] == [a] && [a][..0] == [];
    assert WrappedEnd(fields[0]) == 4;
    forall k | 0 <= k < 4 ensures Count(fields, k) == 1 {
      assert Count([a], k) == 1;
    }
    assert SumLengths([a]) == 4;
    forall t | IsTotal(fields, t) ensures t == 4 {
      TotalUnique(fields, t, 4);
    }
  }

  // ---- the payload is the concatenation of its fields ----

  lemma {:induction false} CountIsPositive(fields: seq<FieldDef>, i: nat, b: int)
    requires i < |fields| && Covers(fields[i], b)
    ensures Count(fields, b) >= 1
  {
    if i < |fields| - 1 {
      CountIsPositive(fields[..|fields| - 1], i, b);
    }
  }

  lemma {:induction false} CountIsTwo(fields: seq<FieldDef>, i: nat, j: nat, b: int)
    requires i < j < |fields| && Covers(fields[i], b) && Covers(fields[j], b)
    ensures Count(fields, b) >= 2
  {
    if j < |fields| - 1 {
      CountIsTwo(fields[..|fields| - 1], i, j, b);
    } else {
      CountIsPositive(fields[..j], i, b);
    }
  }

  lemma {:induction false} CoveringField(fields: seq<FieldDef>, b: int) returns (i: nat)
    requires Count(fields, b) >= 1
    ensures i < |fields| && Covers(fields[i], b)
  {
    i := |fields| - 1;
    if !Covers(fields[i], b) {
      i := CoveringField(fields[..|fields| - 1], b);
    }
  }

  ghost predicate SoundTiling(fields: seq<FieldDef>, total: int) {
    AllValid(fields) && NoOverflow(fields) && EndsWithin(fields, total) && Tiles(fields, total)
  }

  lemma FieldsAreApart(fields: seq<FieldDef>, total: int, i: nat, j: nat)
    requires SoundTiling(fields, total) && i < |fields| && j < |fields| && i != j
    ensures fields[i].offset + fields[i].length <= fields[j].offset
         || fields[j].offset + fields[j].length <= fields[i].offset
  {
    var b := if fields[i].offset <= fields[j].offset then fields[j].offset else fields[i].offset;
    if Covers(fields[i], b) && Covers(fields[j], b) {
      CountIsTwo(fields, if i < j then i else j, if i < j then j else i, b);
    }
  }

  ghost predicate OffsetOrder(fields: seq<FieldDef>) {
    forall i, j :: 0 <= i < j < |fields| ==> fields[i].offset <= fields[j].offset
  }

  ghost function EndOf(f: FieldDef): int {
    f.offset + f.length
  }

  /** In offset order the fields follow one another without gap or overlap, from byte 0. */
  lemma NextStartsAtEnd(fields: seq<FieldDef>, total: int, i: nat)
    requires SoundTiling(fields, total) && OffsetOrder(fields) && i < |fields|
    ensures i + 1 < |fields| ==> fields[i + 1].offset == EndOf(fields[i])
    ensures i + 1 == |fields| ==> EndOf(fields[i]) == total
  {
    var e := EndOf(fields[i]);
    if i + 1 < |fields| {
      FieldsAreApart(fields, total, i, i + 1);
    }
    if e < total {
      var g := CoveringField(fields, e);
      FieldsAreApart(fields, total, i, g);
    }
    assert forall j :: 0 <= j < |fields| ==> WrappedEnd(fields[j]) <= total;
  }

  lemma FirstStartsAtZero(fields: seq<FieldDef>, total: int)
    requires SoundTiling(fields, total) && OffsetOrder(fields) && fields != []
    ensures fields[0].offset == 0
  {
    assert WrappedEnd(fields[0]) <= total;
    var g := CoveringField(fields, 0);
  }

  lemma {:induction false} CountRemove(fields: seq<FieldDef>, k: nat, b: int)
    requires k < |fields|
    ensures Count(fields, b) == Count(fields[..k] + fields[k + 1..], b) + if Covers(fields[k], b) then 1 else 0
  {
    var n := |fields| - 1;
    var rest := fields[..k] + fields[k + 1..];
    if k == n {
      assert rest == fields[..n];
    } else {
      CountRemove(fields[..n], k, b);
      assert rest[..|rest| - 1] == fields[..n][..k] + fields[..n][k + 1..];
      assert rest[|rest| - 1] == fields[n];
    }
  }

  lemma {:induction false} CountIgnoresOrder(a: seq<FieldDef>, c: seq<FieldDef>, b: int)
    requires multiset(a) == multiset(c)
    ensures Count(a, b) == Count(c, b)
  {
    if a == [] {
      assert |c| == |multiset(c)| == 0;
    } else {
      var k := MatchLast(a, c);
      CountRemove(c, k, b);
      CountIgnoresOrder(a[..|a| - 1], c[..k] + c[k + 1..], b);
    }
  }

  lemma SortKeepsTiling(fields: seq<FieldDef>, sorted: seq<FieldDef>, total: int)
    requires SoundTiling(fields, total) && multiset(sorted) == multiset(fields)
    ensures SoundTiling(sorted, total)
  {
    forall b | 0 <= b < total ensures Count(sorted, b) == 1 {
      CountIgnoresOrder(fields, sorted, b);
    }
    forall i | 0 <= i < |sorted|
      ensures ValidField(sorted[i]) && !Overflows(sorted[i]) && WrappedEnd(sorted[i]) <= total
    {
      assert sorted[i] in multiset(fields);
    }
  }

  predicate OffsetLeq(f: FieldDef, g: FieldDef) {
    f.offset <= g.offset
  }

  /** The payload of an accepted layout is its fields, in offset order, end to end. */
  lemma PayloadIsConcatenation(fields: seq<FieldDef>, sorted: seq<FieldDef>, total: nat)
    requires Accepted(fields) && NoOverflow(fields) && IsTotal(fields, total)
    requires IsSortOf(OffsetLeq, sorted, fields)
    ensures sorted != [] && sorted[0].offset == 0 && EndOf(sorted[|sorted| - 1]) == total
    ensures forall i :: 0 <= i < |sorted| - 1 ==> sorted[i + 1].offset == EndOf(sorted[i])
  {
    SortKeepsTiling(fields, sorted, total);
    assert |sorted| == |multiset(sorted)| == |fields|;
    assert forall i, j :: 0 <= i < j < |sorted| ==> OffsetLeq(sorted[i], sorted[j]);
    FirstStartsAtZero(sorted, total);
    forall i | 0 <= i < |sorted|
      ensures i + 1 < |sorted| ==> sorted[i + 1].offset == EndOf(sorted[i])
      ensures i + 1 == |sorted| ==> EndOf(sorted[i]) == total
    {
      NextStartsAtEnd(sorted, total, i);
    }
  }
}
