/** Schema validation and the canonical form a schema signature covers
    (flr/internal/models/schema.go, flr/internal/crypto/schema.go).  The form is kept as the
    record that is rendered to JSON. */
module CanonicalSchema {
  import opened Sorting
  import opened FieldLayout
  import opened Wrappers

  datatype ApplicationSchema = ApplicationSchema(
    id: string, oamMode: Int32, payloadBytes: Int32, name: string, version: Int32,
    layout: Option<seq<FieldDef>>, operatorId: string, status: int, createdAt: string,
    updatedAt: string, signature: string)

  datatype CanonicalField = CanonicalField(name: string, offset: Int32, length: Int32, kind: Int32)

  datatype Canonical = Canonical(
    id: string, oamMode: Int32, payloadBytes: Int32, name: string, version: Int32,
    fields: seq<CanonicalField>, operatorId: string, createdAt: string)

  /** The payload size is the layout's total, and the layout tiles exactly that many bytes. */
  ghost predicate ValidSchema(s: ApplicationSchema) {
    && s.id != "" && s.name != "" && s.operatorId != "" && -16 <= s.oamMode <= 16
    && s.payloadBytes > 0 && s.layout.Some? && s.layout.value != [] && AllValid(s.layout.value)
    && IsTotal(s.layout.value, s.payloadBytes) && Tiles(s.layout.value, s.payloadBytes)
  }

  method ValidateSchema(s: ApplicationSchema) returns (ok: bool)
    ensures ok <==> ValidSchema(s)
  {
    if s.id == "" || s.name == "" || s.operatorId == "" || s.oamMode < -16 || s.oamMode > 16
       || s.payloadBytes <= 0 || s.layout.None? {
      return false;
    }
    var fields := s.layout.value;
    var total := TotalBytes(fields);
    ok := ValidateLayout(fields);
    forall t | IsTotal(fields, t) ensures t == total {
      TotalUnique(fields, t, total);
    }
    ok := ok && total == s.payloadBytes;
  }

  function StripField(f: FieldDef): CanonicalField {
    CanonicalField(f.name, f.offset, f.length, f.kind)
  }

  function Strip(fields: seq<FieldDef>): (r: seq<CanonicalField>)
    ensures |r| == |fields|
  {
    seq(|fields|, i requires 0 <= i < |fields| => StripField(fields[i]))
  }

  function Render(s: ApplicationSchema, fields: seq<CanonicalField>): Canonical {
    Canonical(s.id, s.oamMode, s.payloadBytes, s.name, s.version, fields, s.operatorId, s.createdAt)
  }

  /** `c` is a form the code may produce for `s`: sorting may order equal offsets either way. */
  ghost predicate IsCanonical(s: ApplicationSchema, c: Canonical) {
    s.layout.Some? && exists sorted :: IsSortOf(OffsetLeq, sorted, s.layout.value) && c == Render(s, Strip(sorted))
  }

  method CanonicalForm(s: ApplicationSchema) returns (r: Option<Canonical>)
    ensures r.None? <==> s.layout.None?
    ensures r.Some? ==> IsCanonical(s, r.value)
    ensures r.Some? ==> forall i, j :: 0 <= i < j < |r.value.fields| ==> r.value.fields[i].offset <= r.value.fields[j].offset
  {
    if s.layout.None? {
      return None;
    }
    var sorted := Sort(OffsetLeq, s.layout.value);
    var fields := [];
    for i := 0 to |sorted|
      invariant fields == Strip(sorted[..i])
    {
      fields := fields + [StripField(sorted[i])];
    }
    assert sorted[..|sorted|] == sorted;
    assert forall i, j :: 0 <= i < j < |sorted| ==> OffsetLeq(sorted[i], sorted[j]);
    return Some(Render(s, fields));
  }

  predicate StrippedLeq(f: CanonicalField, g: CanonicalField) {
    f.offset <= g.offset
  }

  /** Stripping depends on the fields, not on their order. */
  lemma StripIgnoresOrder(a: seq<FieldDef>, b: seq<FieldDef>)
    requires multiset(a) == multiset(b)
    ensures multiset(Strip(a)) == multiset(Strip(b))
  {
    assert Strip(a) == Map(StripField, a) && Strip(b) == Map(StripField, b);
    MapIgnoresOrder(StripField, a, b);
  }

  function Undescribed(f: FieldDef): FieldDef {
    f.(description := "")
  }

  function Restored(c: CanonicalField): FieldDef {
    FieldDef(c.name, c.offset, c.length, c.kind, "")
  }

  lemma RestoreStripped(fields: seq<FieldDef>)
    ensures Map(Restored, Strip(fields)) == Map(Undescribed, fields)
  {
    var r, u := Map(Restored, Strip(fields)), Map(Undescribed, fields);
    forall i | 0 <= i < |fields| ensures r[i] == u[i] {
      assert r[i] == Restored(StripField(fields[i]));
    }
  }

  lemma StripUndescribed(fields: seq<FieldDef>)
    ensures Map(StripField, Map(Undescribed, fields)) == Strip(fields)
  {
    var r, s := Map(StripField, Map(Undescribed, fields)), Strip(fields);
    forall i | 0 <= i < |fields| ensures r[i] == s[i] {
      assert r[i] == StripField(Undescribed(fields[i]));
    }
  }

  /** Stripped layouts have the same fields exactly when the layouts have, descriptions apart. */
  lemma SameStrippedIff(a: seq<FieldDef>, b: seq<FieldDef>)
    ensures multiset(Strip(a)) == multiset(Strip(b)) <==> multiset(Map(Undescribed, a)) == multiset(Map(Undescribed, b))
  {
    if multiset(Strip(a)) == multiset(Strip(b)) {
      MapIgnoresOrder(Restored, Strip(a), Strip(b));
      RestoreStripped(a);
      RestoreStripped(b);
    }
    if multiset(Map(Undescribed, a)) == multiset(Map(Undescribed, b)) {
      MapIgnoresOrder(StripField, Map(Undescribed, a), Map(Undescribed, b));
      StripUndescribed(a);
      StripUndescribed(b);
    }
  }

  lemma CanonicalFields(s: ApplicationSchema, c: Canonical)
    requires IsCanonical(s, c)
    ensures c == Render(s, c.fields) && multiset(c.fields) == multiset(Strip(s.layout.value))
    ensures SortedBy(StrippedLeq, c.fields)
  {
    var sorted :| IsSortOf(OffsetLeq, sorted, s.layout.value) && c == Render(s, Strip(sorted));
    StripIgnoresOrder(sorted, s.layout.value);
    assert forall i, j :: 0 <= i < j < |sorted| ==> OffsetLeq(sorted[i], sorted[j]);
  }

  /** A valid schema whose fields stay in the 32-bit range has no two fields at one offset. */
  lemma ValidHasNoTies(s: ApplicationSchema)
    requires ValidSchema(s) && NoOverflow(s.layout.value)
    ensures NoTies(StrippedLeq, Strip(s.layout.value))
  {
    var fields := s.layout.value;
    var stripped := Strip(fields);
    forall i, j | 0 <= i < |fields| && 0 <= j < |fields| && i != j
      ensures stripped[i].offset != stripped[j].offset
    {
      FieldsAreApart(fields, s.payloadBytes, i, j);
    }
  }

  /** The two schemas agree on everything signed, whatever the order of their fields. */
  ghost predicate SameSigned(s: ApplicationSchema, t: ApplicationSchema)
    requires s.layout.Some? && t.layout.Some?
  {
    && s.id == t.id && s.oamMode == t.oamMode && s.payloadBytes == t.payloadBytes && s.name == t.name
    && s.version == t.version && s.operatorId == t.operatorId && s.createdAt == t.createdAt
    && multiset(Map(Undescribed, s.layout.value)) == multiset(Map(Undescribed, t.layout.value))
  }

  /** For valid schemas in range the canonical form identifies the signed content: two forms
      are equal exactly when the schemas agree but for field order, descriptions, status,
      update time and signature. */
  lemma CanonicalIff(s: ApplicationSchema, t: ApplicationSchema, c: Canonical, d: Canonical)
    requires IsCanonical(s, c) && IsCanonical(t, d)
    requires ValidSchema(s) && NoOverflow(s.layout.value)
    ensures c == d <==> SameSigned(s, t)
  {
    CanonicalFields(s, c);
    CanonicalFields(t, d);
    ValidHasNoTies(s);
    SameStrippedIff(s.layout.value, t.layout.value);
    if SameSigned(s, t) {
      forall x | x in c.fields ensures x in Strip(s.layout.value) {
        assert x in multiset(c.fields);
      }
      SortIsUnique(StrippedLeq, c.fields, d.fields);
    }
  }

  /** For any schema the canonical form is determined exactly when no two different fields
      share an offset: here the form is the only one... */
  lemma UniqueWithoutTies(s: ApplicationSchema, c: Canonical, d: Canonical)
    requires IsCanonical(s, c) && IsCanonical(s, d) && NoTies(StrippedLeq, Strip(s.layout.value))
    ensures c == d
  {
    CanonicalFields(s, c);
    CanonicalFields(s, d);
    forall x | x in c.fields ensures x in Strip(s.layout.value) {
      assert x in multiset(c.fields);
    }
    SortIsUnique(StrippedLeq, c.fields, d.fields);
  }

  /** ...and here there is another one. */
  lemma TieGivesAnother(s: ApplicationSchema, c: Canonical) returns (d: Canonical)
    requires IsCanonical(s, c) && !NoTies(StrippedLeq, Strip(s.layout.value))
    ensures IsCanonical(s, d) && d != c
  {
    var sorted :| IsSortOf(OffsetLeq, sorted, s.layout.value) && c == Render(s, Strip(sorted));
    var i, j := TiedPositions(s, c);
    SwapKeepsSort(sorted, i, j);
    var swapped := sorted[i := sorted[j]][j := sorted[i]];
    d := Render(s, Strip(swapped));
    assert IsSortOf(OffsetLeq, swapped, s.layout.value);
    assert d.fields[i] == c.fields[j] && d.fields[i] != c.fields[i];
  }

  lemma TiedPositions(s: ApplicationSchema, c: Canonical) returns (i: nat, j: nat)
    requires IsCanonical(s, c) && !NoTies(StrippedLeq, Strip(s.layout.value))
    ensures i < |c.fields| && j < |c.fields|
    ensures c.fields[i] != c.fields[j] && c.fields[i].offset == c.fields[j].offset
  {
    var x, y :| x in Strip(s.layout.value) && y in Strip(s.layout.value)
             && StrippedLeq(x, y) && StrippedLeq(y, x) && x != y;
    CanonicalFields(s, c);
    assert x in multiset(c.fields) && y in multiset(c.fields);
    i :| 0 <= i < |c.fields| && c.fields[i] == x;
    j :| 0 <= j < |c.fields| && c.fields[j] == y;
  }

  lemma SwapKeepsSort(sorted: seq<FieldDef>, i: nat, j: nat)
    requires i < |sorted| && j < |sorted| && sorted[i].offset == sorted[j].offset
    requires SortedBy(OffsetLeq, sorted)
    ensures var swapped := sorted[i := sorted[j]][j := sorted[i]];
      SortedBy(OffsetLeq, swapped) && multiset(swapped) == multiset(sorted)
  {
    var swapped := sorted[i := sorted[j]][j := sorted[i]];
    assert forall k :: 0 <= k < |sorted| ==> swapped[k].offset == sorted[k].offset;
    assert forall k, m :: 0 <= k < m < |sorted| ==> OffsetLeq(sorted[k], sorted[m]);
  }

  /** A valid schema can have such a tie, between two fields whose ends wrap. */
  lemma ValidSchemaWithTie() returns (s: ApplicationSchema)
    ensures ValidSchema(s) && !NoTies(StrippedLeq, Strip(s.layout.value))
  {
    var a := FieldDef("a", 0, 4, 3, "");
    var b, c := FieldDef("b", 2147483647, 1, 1, ""), FieldDef("c", 2147483647, 1, 1, "");
    var fields := [a, b, c];
    s := ApplicationSchema("id", 1, 4, "n", 1, Some(fields), "op", 1, "", "", "");
    assert fields[..2] == [a, b] && [a, b][..1] == [a] && [a][..0] == [];
    assert WrappedEnd(fields[0]) == 4;
    forall k | 0 <= k < 4 ensures Count(fields, k) == 1 {
      assert Count([a], k) == 1;
      assert !Covers(b, k) && !Covers(c, k);
      assert Count([a, b], k) == 1;
    }
    var x, y := StripField(b), StripField(c);
    assert Strip(fields)[1] == x && Strip(fields)[2] == y;
    assert StrippedLeq(x, y) && StrippedLeq(y, x) && x.name != y.name;
  }
}
