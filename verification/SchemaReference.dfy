/** The schema store as a plain map from ID to schema: what CreateSchema, UpdateSchema,
    DeleteSchema, GetSchema and GetActiveSchemaForOam do, without keys and index
    (flr/internal/registry/schema_store.go). */
module SchemaReference {
  import opened SchemaKeys
  import opened SchemaStore
  import opened Wrappers

  type Plain = map<string, Schema>

  /** Another schema is ACTIVE for this operator and OAM mode. */
  ghost predicate HeldByOther(m: Plain, s: Schema) {
    exists id :: id in m && id != s.id && m[id].status == Active && m[id].operatorId == s.operatorId && m[id].oamMode == s.oamMode
  }

  ghost function PlainOutcome(m: Plain, op: Op): Result<Plain, Error> {
    match op
    case Create(s) =>
      if s.id == "" then Err(InvalidArgument)
      else if s.id in m then Err(AlreadyExists)
      else if s.status == Active && HeldByOther(m, s) then Err(SlotTaken)
      else Ok(m[s.id := s])
    case Update(s) =>
      if s.id == "" then Err(InvalidArgument)
      else if s.id !in m then Err(NotFound)
      else if m[s.id].status != Active && s.status == Active && HeldByOther(m, s) then Err(SlotTaken)
      else Ok(m[s.id := s])
    case Delete(id) =>
      if id == "" then Err(InvalidArgument)
      else if id !in m then Err(NotFound)
      else Ok(m - {id})
  }

  ghost function PlainApply(m: Plain, op: Op): Plain {
    if PlainOutcome(m, op).Ok? then PlainOutcome(m, op).value else m
  }

  ghost function PlainRun(m: Plain, ops: seq<Op>): Plain {
    if ops == [] then m else PlainApply(PlainRun(m, ops[..|ops| - 1]), ops[|ops| - 1])
  }

  /** Every schema loads from the store exactly as the map has it. */
  ghost predicate Represents(db: Db, m: Plain) {
    forall id :: LoadsAs(db, m, id)
  }

  ghost predicate LoadsAs(db: Db, m: Plain, id: string) {
    Load(db, id) == if id in m then Some(m[id]) else None
  }

  /** Same result, and on success the new store represents the new map. */
  ghost predicate Matches(r: Result<Db, Error>, p: Result<Plain, Error>) {
    match p
    case Err(e) => r == Err(e)
    case Ok(m) => r.Ok? && Represents(r.value, m)
  }

  // ---- an exact index answers for the records ----

  lemma LoadedIsItself(db: Db, id: string)
    requires Indexed(db) && Load(db, id).Some?
    ensures RecordOk(db, PrimaryKey(id)) && Load(db, id).value.id == id
  {
    assert RecordOk(db, PrimaryKey(id));
    PrimaryKeyIsInjective(id, Load(db, id).value.id);
  }

  /** Under a primary key there is a record or nothing. */
  lemma PrimaryHoldsRecord(db: Db, id: string)
    requires Indexed(db) && PrimaryKey(id) in db
    ensures Load(db, id).Some?
  {
    if db[PrimaryKey(id)].Ref? {
      assert RefOk(db, PrimaryKey(id));
      Separate(id, Load(db, db[PrimaryKey(id)].id).value);
    }
  }

  /** An index key leads to a schema exactly when that schema is the ACTIVE one of the pair. */
  lemma IndexedIff(db: Db, key: Schema, id: string)
    requires Indexed(db)
    ensures IndexedId(db, KeyOf(key)) == Some(id) <==>
      && Load(db, id).Some? && Load(db, id).value.status == Active
      && Load(db, id).value.operatorId == key.operatorId && Load(db, id).value.oamMode == key.oamMode
  {
    if IndexedId(db, KeyOf(key)) == Some(id) {
      assert RefOk(db, KeyOf(key));
      var s := Load(db, id).value;
      IndexKeyIsInjective(s.operatorId, s.oamMode, key.operatorId, key.oamMode);
    }
    if Load(db, id).Some? {
      LoadedIsItself(db, id);
    }
  }

  lemma TakenIff(db: Db, m: Plain, s: Schema)
    requires Indexed(db) && Represents(db, m) && (s.id !in m || m[s.id].status != Active)
    ensures Taken(db, KeyOf(s)) <==> HeldByOther(m, s)
  {
    if Taken(db, KeyOf(s)) {
      var id := IndexedId(db, KeyOf(s)).value;
      IndexedIff(db, s, id);
      assert LoadsAs(db, m, id);
    }
    if HeldByOther(m, s) {
      var id :| id in m && id != s.id && m[id].status == Active && m[id].operatorId == s.operatorId && m[id].oamMode == s.oamMode;
      assert LoadsAs(db, m, id);
      IndexedIff(db, s, id);
    }
  }

  /** GetActiveSchemaForOam returns a schema exactly when it is on record, ACTIVE and of that
      operator and OAM mode; otherwise it finds nothing. */
  lemma LookupIff(db: Db, operatorId: string, oamMode: int, x: Schema)
    requires Indexed(db) && operatorId != ""
    ensures GetActiveOutcome(db, operatorId, oamMode) == Ok(x) <==>
      Load(db, x.id) == Some(x) && x.status == Active && x.operatorId == operatorId && x.oamMode == oamMode
    ensures GetActiveOutcome(db, operatorId, oamMode).Err? ==> GetActiveOutcome(db, operatorId, oamMode) == Err(NotFound)
  {
    var r, key := GetActiveOutcome(db, operatorId, oamMode), x.(operatorId := operatorId, oamMode := oamMode);
    if IndexedId(db, KeyOf(key)).Some? {
      IndexedIff(db, key, IndexedId(db, KeyOf(key)).value);
      LoadedIsItself(db, IndexedId(db, KeyOf(key)).value);
    }
    IndexedIff(db, key, x.id);
  }

  // ---- the transactions do what the plain map does ----

  lemma CreateMatches(db: Db, m: Plain, s: Schema)
    requires Indexed(db) && Represents(db, m)
    ensures Matches(CreateOutcome(db, s), PlainOutcome(m, Create(s)))
  {
    assert LoadsAs(db, m, s.id);
    if PrimaryKey(s.id) in db {
      PrimaryHoldsRecord(db, s.id);
    } else {
      TakenIff(db, m, s);
      Separate(s.id, s);
      if CreateOutcome(db, s).Ok? {
        StoredMatches(db, CreateOutcome(db, s).value, m, s);
      }
    }
  }

  /** Writing s under its key, and at most its index key besides, is adding s to the map. */
  lemma StoredMatches(db: Db, db': Db, m: Plain, s: Schema)
    requires Represents(db, m) && PrimaryKey(s.id) in db' && db'[PrimaryKey(s.id)] == Record(s)
    requires forall k :: k != PrimaryKey(s.id) && k != KeyOf(s) ==> (k in db' <==> k in db) && (k in db ==> db'[k] == db[k])
    ensures Represents(db', m[s.id := s])
  {
    var m' := m[s.id := s];
    forall id ensures LoadsAs(db', m', id) {
      assert LoadsAs(db, m, id);
      LoadAfterStore(db, db', s, id);
    }
  }

  lemma UpdateMatches(db: Db, m: Plain, s: Schema)
    requires Indexed(db) && Represents(db, m)
    ensures Matches(UpdateOutcome(db, s), PlainOutcome(m, Update(s)))
  {
    assert LoadsAs(db, m, s.id);
    if s.id != "" && s.id in m {
      Separate(s.id, s);
      if m[s.id].status != Active && s.status == Active {
        TakenIff(db, m, s);
        TakenAfterWrite(db, s);
      }
      if UpdateOutcome(db, s).Ok? {
        StoredMatches(db, UpdateOutcome(db, s).value, m, s);
      }
    }
  }

  /** The index read that follows the write of an inactive record finds what it found before. */
  lemma TakenAfterWrite(db: Db, s: Schema)
    requires Indexed(db) && Load(db, s.id).Some? && Load(db, s.id).value.status != Active
    ensures var db1 := db[PrimaryKey(s.id) := Record(s)];
      (IndexedId(db1, KeyOf(s)).Some? && IndexedId(db1, KeyOf(s)).value != s.id && Taken(db1, KeyOf(s))) <==> Taken(db, KeyOf(s))
  {
    var db1 := db[PrimaryKey(s.id) := Record(s)];
    Separate(s.id, s);
    if IndexedId(db, KeyOf(s)).Some? {
      var id := IndexedId(db, KeyOf(s)).value;
      IndexedIff(db, s, id);
      LoadAfterStore(db, db1, s, id);
    }
  }

  lemma DeleteMatches(db: Db, m: Plain, id: string)
    requires Indexed(db) && Represents(db, m)
    ensures Matches(DeleteOutcome(db, id), PlainOutcome(m, Delete(id)))
  {
    assert LoadsAs(db, m, id);
    if DeleteOutcome(db, id).Ok? {
      var db', s := DeleteOutcome(db, id).value, Load(db, id).value;
      forall other ensures LoadsAs(db', m - {id}, other) {
        assert LoadsAs(db, m, other);
        Separate(other, s);
        if other != id && PrimaryKey(other) == PrimaryKey(id) {
          PrimaryKeyIsInjective(other, id);
        }
      }
    }
  }

  lemma StepMatches(db: Db, m: Plain, op: Op)
    requires Indexed(db) && Represents(db, m)
    ensures Matches(Outcome(db, op), PlainOutcome(m, op)) && Represents(Apply(db, op), PlainApply(m, op))
  {
    match op
    case Create(s) => CreateMatches(db, m, s);
    case Update(s) => UpdateMatches(db, m, s);
    case Delete(id) => DeleteMatches(db, m, id);
  }

  /** The store refines the plain map: over every run from empty that moves no ACTIVE schema,
      each schema loads as the plain map has it, and the next operation succeeds, or fails with
      the same error, as on the map. */
  lemma {:induction false} RunsMatch(ops: seq<Op>, next: Op)
    requires AllKeepBinding(map[], ops)
    ensures Represents(RunFrom(map[], ops), PlainRun(map[], ops))
    ensures Matches(Outcome(RunFrom(map[], ops), next), PlainOutcome(PlainRun(map[], ops), next))
  {
    RunsStayIndexedIff(ops);
    if ops == [] {
      forall id ensures LoadsAs(map[], map[], id) {
      }
    } else {
      RunsMatch(ops[..|ops| - 1], ops[|ops| - 1]);
    }
    StepMatches(RunFrom(map[], ops), PlainRun(map[], ops), next);
  }

  // ---- what one operation does to loads and lookups ----

  /** Deleting a schema on record removes it and nothing else; the lookup for its pair then finds
      nothing if it was ACTIVE, and every other lookup answers as before. */
  lemma DeleteEffect(db: Db, id: string, other: string, operatorId: string, oamMode: int)
    requires Indexed(db) && id != "" && Load(db, id).Some? && operatorId != ""
    ensures DeleteOutcome(db, id).Ok?
    ensures var db', s := DeleteOutcome(db, id).value, Load(db, id).value;
      && Load(db', other) == (if other == id then None else Load(db, other))
      && GetActiveOutcome(db', operatorId, oamMode) ==
           if s.status == Active && s.operatorId == operatorId && s.oamMode == oamMode then Err(NotFound)
           else GetActiveOutcome(db, operatorId, oamMode)
  {
    var db', s := DeleteOutcome(db, id).value, Load(db, id).value;
    var m := PlainOf(db);
    DeleteMatches(db, m, id);
    DeleteKeepsIndexed(db, id);
    LoadedIsItself(db, id);
    assert LoadsAs(db, m, other) && LoadsAs(db', m - {id}, other);
    LookupChange(db, db', operatorId, oamMode, id, m, m - {id});
  }

  /** Creating or updating a schema replaces its record and no other; if it is ACTIVE the lookup
      for its pair returns it; if it was ACTIVE before, and the update keeps its pair, the lookup
      finds nothing; every other lookup answers as before. */
  lemma StoreEffect(db: Db, op: Op, other: string, operatorId: string, oamMode: int)
    requires Indexed(db) && !op.Delete? && KeepsBinding(db, op) && Outcome(db, op).Ok? && operatorId != ""
    ensures var db', s := Outcome(db, op).value, op.s;
      && Load(db', other) == (if other == s.id then Some(s) else Load(db, other))
      && GetActiveOutcome(db', operatorId, oamMode) ==
           if s.operatorId == operatorId && s.oamMode == oamMode && s.status == Active then Ok(s)
           else if s.operatorId == operatorId && s.oamMode == oamMode && Load(db, s.id).Some? && Load(db, s.id).value.status == Active
           then Err(NotFound)
           else GetActiveOutcome(db, operatorId, oamMode)
  {
    var db', s := Outcome(db, op).value, op.s;
    var m := PlainOf(db);
    StepMatches(db, m, op);
    StepIndexedIff(db, op);
    assert LoadsAs(db, m, other) && LoadsAs(db', m[s.id := s], other);
    assert LoadsAs(db, m, s.id) && LoadsAs(db', m[s.id := s], s.id);
    LookupChange(db, db', operatorId, oamMode, s.id, m, m[s.id := s]);
  }

  /** The plain map a store represents. */
  ghost function PlainOf(db: Db): (m: Plain)
    requires Indexed(db)
    ensures Represents(db, m)
  {
    var ids := set k | k in db && db[k].Record? :: db[k].schema.id;
    var m := map id | id in ids && Load(db, id).Some? :: Load(db, id).value;
    assert forall id :: LoadsAs(db, m, id) by {
      forall id ensures LoadsAs(db, m, id) {
        if Load(db, id).Some? {
          LoadedIsItself(db, id);
          assert PrimaryKey(id) in db && db[PrimaryKey(id)].Record? && db[PrimaryKey(id)].schema.id == id;
        }
      }
    }
    m
  }

  /** Two exact stores that differ in one record: the lookup of a pair changes only with it. */
  lemma LookupChange(db: Db, db': Db, operatorId: string, oamMode: int, id: string, m: Plain, m': Plain)
    requires Indexed(db) && Indexed(db') && operatorId != "" && Represents(db, m) && Represents(db', m')
    requires forall other :: other != id ==> (other in m <==> other in m') && (other in m ==> m[other] == m'[other])
    ensures
      var active := id in m && m[id].status == Active && m[id].operatorId == operatorId && m[id].oamMode == oamMode;
      var active' := id in m' && m'[id].status == Active && m'[id].operatorId == operatorId && m'[id].oamMode == oamMode;
      GetActiveOutcome(db', operatorId, oamMode) ==
        if active' then Ok(m'[id]) else if active then Err(NotFound) else GetActiveOutcome(db, operatorId, oamMode)
  {
    var r, r' := GetActiveOutcome(db, operatorId, oamMode), GetActiveOutcome(db', operatorId, oamMode);
    assert LoadsAs(db, m, id) && LoadsAs(db', m', id);
    if id in m {
      LoadedIsItself(db, id);
      LookupIff(db, operatorId, oamMode, m[id]);
    }
    if id in m' {
      LoadedIsItself(db', id);
      LookupIff(db', operatorId, oamMode, m'[id]);
    }
    if r.Ok? {
      LookupIff(db, operatorId, oamMode, r.value);
      LookupIff(db', operatorId, oamMode, r.value);
      assert LoadsAs(db, m, r.value.id) && LoadsAs(db', m', r.value.id);
    }
    if r'.Ok? {
      LookupIff(db, operatorId, oamMode, r'.value);
      LookupIff(db', operatorId, oamMode, r'.value);
      assert LoadsAs(db, m, r'.value.id) && LoadsAs(db', m', r'.value.id);
    }
    var x := Schema("", "", 0, Active, "", 0, "");
    LookupIff(db, operatorId, oamMode, x);
    LookupIff(db', operatorId, oamMode, x);
  }

  // ---- the engine's operations ----

  /** RegisterSchema succeeds exactly when the schema is the operator's own or nobody's, is valid,
      has a new ID, and does not ask for a held place; the record then has the operator, an ID,
      a status and the new signature, and is otherwise as given. */
  lemma RegisterEffect(db: Db, m: Plain, operator: string, op: EngineOp)
    requires Indexed(db) && Represents(db, m) && op.Register?
    ensures
      var r, s := EngineOutcome(db, operator, op), op.s;
      var id := if s.id == "" then op.newId else s.id;
      var status := if s.status == Unspecified then Active else s.status;
      var stored := Schema(id, operator, s.oamMode, status, s.name, s.version, op.signature);
      && (r.Ok? <==>
            && (s.operatorId == "" || s.operatorId == operator) && op.valid && id != "" && id !in m
            && (status == Active ==> !HeldByOther(m, stored)))
      && (r.Ok? ==> Represents(r.value, m[id := stored]))
  {
    CreateMatches(db, m, Prepared(operator, op));
  }

  /** DeprecateSchema and RevokeSchema succeed exactly for a schema on record that is the
      operator's, whatever its status; they change its status and signature and nothing else. */
  lemma RetireEffect(db: Db, m: Plain, operator: string, op: EngineOp)
    requires Indexed(db) && Represents(db, m) && !op.Register?
    ensures
      var r := EngineOutcome(db, operator, op);
      && (r.Ok? <==> op.id != "" && op.id in m && m[op.id].operatorId == operator)
      && (r.Ok? ==>
            Represents(r.value, m[op.id := m[op.id].(status := if op.Deprecate? then Deprecated else Revoked, signature := op.signature)]))
  {
    assert LoadsAs(db, m, op.id);
    if op.id in m {
      LoadedIsItself(db, op.id);
      UpdateMatches(db, m, m[op.id].(status := if op.Deprecate? then Deprecated else Revoked, signature := op.signature));
    }
  }
}
