/** What callers of the schema store see of its index: when GetActiveSchemaForOam and the
    filtered ListSchemas disagree, and when a revocation is undone
    (flr/internal/registry/schema_store.go and schema_engine.go). */
module SchemaVisibility {
  import opened SchemaKeys
  import opened SchemaStore
  import opened Wrappers

  function ActiveFilter(operatorId: string, oamMode: int): SchemaFilter {
    SchemaFilter(operatorId, Some(oamMode), Active, "")
  }

  /** Key k is listed for the pair exactly when the lookup for the pair returns its record. */
  ghost predicate AgreesAt(db: Db, operatorId: string, oamMode: int, k: string) {
    var r := GetActiveOutcome(db, operatorId, oamMode);
    Listed(db, k, ActiveFilter(operatorId, oamMode)) <==>
      r.Ok? && k == PrimaryKey(r.value.id) && Load(db, r.value.id) == Some(r.value)
  }

  /** Lookup and listing agree for every pair a caller can look up. */
  ghost predicate Agrees(db: Db) {
    forall operatorId, oamMode, k :: operatorId != "" ==> AgreesAt(db, operatorId, oamMode, k)
  }

  lemma IndexedAgrees(db: Db)
    requires Indexed(db)
    ensures Agrees(db)
  {
    forall operatorId, oamMode, k | operatorId != "" ensures AgreesAt(db, operatorId, oamMode, k) {
      LookupIsScan(db, operatorId, oamMode, k);
    }
  }

  /** An update that moves an ACTIVE schema to another operator or OAM mode. */
  ghost predicate Moves(db: Db, s: Schema) {
    && Load(db, s.id).Some? && Load(db, s.id).value.status == Active
    && var e := Load(db, s.id).value; e.operatorId != s.operatorId || e.oamMode != s.oamMode
  }

  /** What a caller can ask before such an update: does the schema stay ACTIVE, or is the place
      it moves to held by another ACTIVE schema. */
  ghost predicate Misleads(db: Db, s: Schema)
    requires Load(db, s.id).Some?
  {
    if s.status == Active then Load(db, s.id).value.operatorId != "" || s.operatorId != ""
    else s.operatorId != "" && GetActiveOutcome(db, s.operatorId, s.oamMode).Ok?
  }

  /** Facts about the moved record e and its old and new keys. */
  lemma MovedKeys(db: Db, s: Schema)
    requires Indexed(db) && Moves(db, s)
    ensures var e := Load(db, s.id).value;
      && e.id == s.id && KeyOf(e) != KeyOf(s) && KeyOf(e) in db && db[KeyOf(e)] == Ref(s.id)
      && PrimaryKey(s.id) != KeyOf(s) && PrimaryKey(s.id) != KeyOf(e)
  {
    var e := Load(db, s.id).value;
    assert RecordOk(db, PrimaryKey(s.id));
    PrimaryKeyIsInjective(s.id, e.id);
    Separate(s.id, s);
    Separate(s.id, e);
    if KeyOf(e) == KeyOf(s) {
      IndexKeyIsInjective(e.operatorId, e.oamMode, s.operatorId, s.oamMode);
    }
  }

  /** The map after the update: the record replaced, and the new key gone unless s is ACTIVE. */
  lemma MovedMap(db: Db, s: Schema, k: string)
    requires Indexed(db) && Moves(db, s) && UpdateOutcome(db, s).Ok?
    ensures var db' := UpdateOutcome(db, s).value;
      && PrimaryKey(s.id) in db' && db'[PrimaryKey(s.id)] == Record(s)
      && (k != PrimaryKey(s.id) && k != KeyOf(s) ==> (k in db' <==> k in db) && (k in db ==> db'[k] == db[k]))
      && (s.status == Active ==> (KeyOf(s) in db' <==> KeyOf(s) in db) && (KeyOf(s) in db ==> db'[KeyOf(s)] == db[KeyOf(s)]))
      && (s.status != Active ==> KeyOf(s) !in db')
  {
    MovedKeys(db, s);
  }

  lemma MovedLoads(db: Db, s: Schema, id: string)
    requires Indexed(db) && Moves(db, s) && UpdateOutcome(db, s).Ok?
    ensures Load(UpdateOutcome(db, s).value, id) == if id == s.id then Some(s) else Load(db, id)
  {
    var db' := UpdateOutcome(db, s).value;
    forall k ensures k != PrimaryKey(s.id) && k != KeyOf(s) ==> (k in db' <==> k in db) && (k in db ==> db'[k] == db[k]) {
      MovedMap(db, s, k);
    }
    MovedMap(db, s, "");
    LoadAfterStore(db, db', s, id);
  }

  // ---- the two sides that mislead ----

  /** Moved and still ACTIVE: the old key answers with a schema of another pair. */
  lemma OldKeyMisleads(db: Db, s: Schema)
    requires Indexed(db) && Moves(db, s) && UpdateOutcome(db, s).Ok? && s.status == Active
    requires Load(db, s.id).value.operatorId != ""
    ensures var e := Load(db, s.id).value;
      && GetActiveOutcome(UpdateOutcome(db, s).value, e.operatorId, e.oamMode) == Ok(s)
      && !AgreesAt(UpdateOutcome(db, s).value, e.operatorId, e.oamMode, PrimaryKey(s.id))
  {
    var e := Load(db, s.id).value;
    MovedKeys(db, s);
    MovedMap(db, s, KeyOf(e));
    MovedLoads(db, s, s.id);
  }

  /** Moved and still ACTIVE: the schema is listed under its new pair, where no lookup finds it. */
  lemma NewKeyMisleads(db: Db, s: Schema)
    requires Indexed(db) && Moves(db, s) && UpdateOutcome(db, s).Ok? && s.status == Active && s.operatorId != ""
    ensures !AgreesAt(UpdateOutcome(db, s).value, s.operatorId, s.oamMode, PrimaryKey(s.id))
  {
    var db' := UpdateOutcome(db, s).value;
    MovedKeys(db, s);
    MovedMap(db, s, PrimaryKey(s.id));
    KeySpacesAreDisjoint(s.id, s.operatorId, s.oamMode);
    var r := GetActiveOutcome(db', s.operatorId, s.oamMode);
    if r.Ok? {
      var id := db'[KeyOf(s)].id;
      MovedLoads(db, s, id);
      assert RefOk(db, KeyOf(s));
      assert RecordOk(db, PrimaryKey(id));
      PrimaryKeyIsInjective(id, r.value.id);
      if PrimaryKey(r.value.id) == PrimaryKey(s.id) {
        PrimaryKeyIsInjective(r.value.id, s.id);
      }
    }
  }

  /** Moved and retired onto a held place: the holder stays listed but can no longer be looked up. */
  lemma HolderIsLost(db: Db, s: Schema)
    requires Indexed(db) && Moves(db, s) && UpdateOutcome(db, s).Ok? && s.status != Active && s.operatorId != ""
    requires GetActiveOutcome(db, s.operatorId, s.oamMode).Ok?
    ensures var holder := GetActiveOutcome(db, s.operatorId, s.oamMode).value;
      !AgreesAt(UpdateOutcome(db, s).value, s.operatorId, s.oamMode, PrimaryKey(holder.id))
  {
    var db' := UpdateOutcome(db, s).value;
    var holder := GetActiveOutcome(db, s.operatorId, s.oamMode).value;
    var id := db[KeyOf(s)].id;
    MovedKeys(db, s);
    assert RefOk(db, KeyOf(s));
    assert RecordOk(db, PrimaryKey(id));
    PrimaryKeyIsInjective(id, holder.id);
    IndexKeyIsInjective(holder.operatorId, holder.oamMode, s.operatorId, s.oamMode);
    KeySpacesAreDisjoint(id, s.operatorId, s.oamMode);
    if PrimaryKey(id) == PrimaryKey(s.id) {
      PrimaryKeyIsInjective(id, s.id);
    }
    MovedMap(db, s, PrimaryKey(id));
  }

  // ---- and where nothing shows ----

  /** A pair whose key is not the new one: its index entry is unchanged, and points at the moved
      record only if it is the old key. */
  lemma OtherPairAgrees(db: Db, s: Schema, operatorId: string, oamMode: int, k: string)
    requires Indexed(db) && Moves(db, s) && UpdateOutcome(db, s).Ok? && operatorId != ""
    requires operatorId != s.operatorId || oamMode != s.oamMode
    requires s.status == Active ==> Load(db, s.id).value.operatorId == ""
    ensures AgreesAt(UpdateOutcome(db, s).value, operatorId, oamMode, k)
  {
    var db', e, key := UpdateOutcome(db, s).value, Load(db, s.id).value, IndexKey(operatorId, oamMode);
    MovedKeys(db, s);
    LookupIsScan(db, operatorId, oamMode, k);
    if key == KeyOf(s) {
      IndexKeyIsInjective(operatorId, oamMode, s.operatorId, s.oamMode);
    }
    KeySpacesAreDisjoint(s.id, operatorId, oamMode);
    MovedMap(db, s, key);
    MovedMap(db, s, k);
    var f := ActiveFilter(operatorId, oamMode);
    OtherPairListing(db, db', s, k, f);
    if IndexedId(db, key).Some? {
      var id := db[key].id;
      assert RefOk(db, key);
      assert RecordOk(db, PrimaryKey(id));
      PrimaryKeyIsInjective(id, Load(db, id).value.id);
      MovedLoads(db, s, id);
      if id == s.id {
        IndexKeyIsInjective(operatorId, oamMode, e.operatorId, e.oamMode);
      } else if PrimaryKey(id) == PrimaryKey(s.id) {
        PrimaryKeyIsInjective(id, s.id);
      }
    }
  }

  /** Listing for another pair: the moved record drops out, everything else stays. */
  lemma OtherPairListing(db: Db, db': Db, s: Schema, k: string, f: SchemaFilter)
    requires f.operatorId != "" && f.oamMode.Some? && (f.operatorId != s.operatorId || f.oamMode.value != s.oamMode)
    requires PrimaryKey(s.id) in db' && db'[PrimaryKey(s.id)] == Record(s)
    requires k != PrimaryKey(s.id) && k != KeyOf(s) ==> (k in db' <==> k in db) && (k in db ==> db'[k] == db[k])
    ensures Listed(db', k, f) <==> k != PrimaryKey(s.id) && Listed(db, k, f)
  {
    KeySpacesAreDisjoint(s.id, s.operatorId, s.oamMode);
  }

  /** Retired onto a free place: nothing is listed there and nothing is found. */
  lemma FreePlaceAgrees(db: Db, s: Schema, k: string)
    requires Indexed(db) && Moves(db, s) && UpdateOutcome(db, s).Ok? && s.status != Active && s.operatorId != ""
    requires GetActiveOutcome(db, s.operatorId, s.oamMode).Err?
    ensures AgreesAt(UpdateOutcome(db, s).value, s.operatorId, s.oamMode, k)
  {
    MovedKeys(db, s);
    MovedMap(db, s, k);
    LookupIsScan(db, s.operatorId, s.oamMode, k);
    KeySpacesAreDisjoint(s.id, s.operatorId, s.oamMode);
  }

  lemma MoveAgrees(db: Db, s: Schema)
    requires Indexed(db) && Moves(db, s) && UpdateOutcome(db, s).Ok? && !Misleads(db, s)
    ensures Agrees(UpdateOutcome(db, s).value)
  {
    var db' := UpdateOutcome(db, s).value;
    forall operatorId, oamMode, k | operatorId != "" ensures AgreesAt(db', operatorId, oamMode, k) {
      if operatorId == s.operatorId && oamMode == s.oamMode {
        FreePlaceAgrees(db, s, k);
      } else {
        OtherPairAgrees(db, s, operatorId, oamMode, k);
      }
    }
  }

  /** What a caller sees of an update to an exact store: lookup and listing still agree for
      every pair if and only if the update does not move an ACTIVE schema, or moves it where
      nobody looks: retired onto a place no ACTIVE schema holds, or between pairs whose
      operator is empty. */
  lemma UpdateAgreesIff(db: Db, s: Schema)
    requires Indexed(db) && UpdateOutcome(db, s).Ok?
    ensures Agrees(UpdateOutcome(db, s).value) <==> !(Moves(db, s) && Misleads(db, s))
  {
    if !Moves(db, s) {
      UpdateKeepsIndexedIff(db, s);
      IndexedAgrees(UpdateOutcome(db, s).value);
    } else if !Misleads(db, s) {
      MoveAgrees(db, s);
    } else if s.status != Active {
      HolderIsLost(db, s);
    } else if s.operatorId != "" {
      NewKeyMisleads(db, s);
    } else {
      OldKeyMisleads(db, s);
    }
  }

  /** Over every run that moves no ACTIVE schema, each lookup gives the one element of the
      filtered listing. */
  lemma RunsLookUpExactly(ops: seq<Op>, operatorId: string, oamMode: int, out: seq<Schema>, keys: seq<string>)
    requires AllKeepBinding(map[], ops) && operatorId != ""
    requires IsListing(RunFrom(map[], ops), ActiveFilter(operatorId, oamMode), out, keys)
    ensures var r := GetActiveOutcome(RunFrom(map[], ops), operatorId, oamMode);
      out == if r.Ok? then [r.value] else []
  {
    RunsStayIndexedIff(ops);
    LookupIsListing(RunFrom(map[], ops), operatorId, oamMode, out, keys);
  }

  // ---- at an input ----

  /** Two ACTIVE schemas are created for modes 1 and 2, and the first is updated to mode 2: then
      mode 2 has two ACTIVE schemas, and the lookup for mode 1 returns a schema of mode 2. */
  lemma MovedSchemaMisleads()
    ensures
      var a := Schema("a", "op", 1, Active, "", 1, "");
      var b := Schema("b", "op", 2, Active, "", 1, "");
      var db := RunFrom(map[], [Create(a), Create(b), Update(a.(oamMode := 2))]);
      && Listed(db, PrimaryKey("a"), ActiveFilter("op", 2)) && Listed(db, PrimaryKey("b"), ActiveFilter("op", 2))
      && PrimaryKey("a") != PrimaryKey("b")
      && GetActiveOutcome(db, "op", 1) == Ok(a.(oamMode := 2))
  {
    var a := Schema("a", "op", 1, Active, "", 1, "");
    var b := Schema("b", "op", 2, Active, "", 1, "");
    var s := a.(oamMode := 2);
    var ka, kb, k1, k2 := PrimaryKey("a"), PrimaryKey("b"), IndexKey("op", 1), IndexKey("op", 2);
    FourKeys();
    var db1 := Apply(map[], Create(a));
    assert db1 == map[ka := Record(a), k1 := Ref("a")];
    var db2 := Apply(db1, Create(b));
    assert db2 == db1[kb := Record(b)][k2 := Ref("b")];
    var db3 := Apply(db2, Update(s));
    assert db3 == db2[ka := Record(s)];
    RunOfThree(map[], Create(a), Create(b), Update(s));
  }

  lemma FourKeys()
    ensures PrimaryKey("a") != PrimaryKey("b") && IndexKey("op", 1) != IndexKey("op", 2)
    ensures forall id, m :: PrimaryKey(id) != IndexKey("op", m) && PREFIX_SCHEMA <= PrimaryKey(id)
  {
    if PrimaryKey("a") == PrimaryKey("b") {
      PrimaryKeyIsInjective("a", "b");
    }
    if IndexKey("op", 1) == IndexKey("op", 2) {
      IndexKeyIsInjective("op", 1, "op", 2);
    }
    forall id, m ensures PrimaryKey(id) != IndexKey("op", m) && PREFIX_SCHEMA <= PrimaryKey(id) {
      KeySpacesAreDisjoint(id, "op", m);
    }
  }

  lemma RunOfThree(db: Db, x: Op, y: Op, z: Op)
    ensures RunFrom(db, [x, y, z]) == Apply(Apply(Apply(db, x), y), z)
  {
    assert [x, y, z][..2] == [x, y] && [x, y][..1] == [x] && [x][..0] == [];
    assert RunFrom(db, [x]) == Apply(db, x);
    assert RunFrom(db, [x, y]) == Apply(Apply(db, x), y);
  }

  // ---- revocation ----

  ghost predicate IsRevoked(db: Db, id: string) {
    Load(db, id).Some? && Load(db, id).value.status == Revoked
  }

  /** The one operation that undoes a revocation: its owner deprecating the schema. */
  ghost predicate Undoes(db: Db, operator: string, op: EngineOp, id: string) {
    op.Deprecate? && op.id == id && id != "" && Load(db, id).Some? && Load(db, id).value.operatorId == operator
  }

  lemma RevokedStepIff(db: Db, operator: string, op: EngineOp, id: string)
    requires Indexed(db) && IsRevoked(db, id)
    ensures IsRevoked(EngineApply(db, operator, op), id) <==> !Undoes(db, operator, op, id)
  {
    var r := EngineOutcome(db, operator, op);
    if op.Register? && r.Ok? {
      var s := Prepared(operator, op);
      Separate(s.id, s);
      LoadAfterStore(db, r.value, s, id);
    } else if !op.Register? && r.Ok? {
      RetiredLoad(db, operator, op, id);
    }
  }

  lemma RetiredLoad(db: Db, operator: string, op: EngineOp, id: string)
    requires Indexed(db) && !op.Register? && EngineOutcome(db, operator, op).Ok?
    ensures Load(db, op.id).Some?
    ensures var s := Load(db, op.id).value.(status := if op.Deprecate? then Deprecated else Revoked, signature := op.signature);
      Load(EngineOutcome(db, operator, op).value, id) == if id == op.id then Some(s) else Load(db, id)
  {
    var e := Load(db, op.id).value;
    var s := e.(status := if op.Deprecate? then Deprecated else Revoked, signature := op.signature);
    assert RecordOk(db, PrimaryKey(op.id));
    PrimaryKeyIsInjective(op.id, e.id);
    Separate(s.id, s);
    LoadAfterStore(db, EngineOutcome(db, operator, op).value, s, id);
  }

  ghost predicate AlwaysRevoked(db: Db, operator: string, ops: seq<EngineOp>, id: string) {
    && IsRevoked(EngineRun(db, operator, ops), id)
    && (ops != [] ==> AlwaysRevoked(db, operator, ops[..|ops| - 1], id))
  }

  ghost predicate NeverUndone(db: Db, operator: string, ops: seq<EngineOp>, id: string) {
    ops != [] ==>
      var n := |ops| - 1;
      NeverUndone(db, operator, ops[..n], id) && !Undoes(EngineRun(db, operator, ops[..n]), operator, ops[n], id)
  }

  /** A revocation is final over a run of the engine exactly when its owner never deprecates
      the schema: DeprecateSchema does not look at the status. */
  lemma {:induction false} RevocationIsFinalIff(db: Db, operator: string, ops: seq<EngineOp>, id: string)
    requires Indexed(db) && IsRevoked(db, id)
    ensures AlwaysRevoked(db, operator, ops, id) <==> NeverUndone(db, operator, ops, id)
  {
    if ops != [] {
      var n := |ops| - 1;
      RevocationIsFinalIff(db, operator, ops[..n], id);
      EngineNeverReactivates(db, operator, ops[..n], id);
      if AlwaysRevoked(db, operator, ops[..n], id) {
        RevokedStepIff(EngineRun(db, operator, ops[..n]), operator, ops[n], id);
      }
    }
  }

  /** A revoked schema of the operator, deprecated, is DEPRECATED: valid for decoding again. */
  lemma DeprecateUndoesRevoke(db: Db, operator: string, id: string, signature: string)
    requires Indexed(db) && IsRevoked(db, id) && id != "" && Load(db, id).value.operatorId == operator
    ensures var db' := EngineApply(db, operator, Deprecate(id, signature));
      Load(db', id).Some? && Load(db', id).value.status == Deprecated
  {
    assert RecordOk(db, PrimaryKey(id));
    PrimaryKeyIsInjective(id, Load(db, id).value.id);
    RetiredLoad(db, operator, Deprecate(id, signature), id);
  }
}
