/** The schema store and the engine operations over it
    (flr/internal/registry/schema_store.go and schema_engine.go).

    Records and the secondary index live in one flat map with string keys.  A transaction
    that returns an error leaves the map as it was. */
module SchemaStore {
  import opened SchemaKeys
  import opened Wrappers

  datatype SchemaStatus = Unspecified | Active | Deprecated | Revoked

  datatype Schema = Schema(
    id: string, operatorId: string, oamMode: int, status: SchemaStatus, name: string, version: int, signature: string)

  /** A record under its primary key, or the ID an index key points at. */
  datatype Value = Record(schema: Schema) | Ref(id: string)

  type Db = map<string, Value>

  datatype Error = InvalidArgument | AlreadyExists | NotFound | SlotTaken | NotActive | NotOwner | Invalid

  function KeyOf(s: Schema): string {
    IndexKey(s.operatorId, s.oamMode)
  }

  function Load(db: Db, id: string): Option<Schema> {
    if PrimaryKey(id) in db && db[PrimaryKey(id)].Record? then Some(db[PrimaryKey(id)].schema) else None
  }

  function IndexedId(db: Db, key: string): Option<string> {
    if key in db && db[key].Ref? then Some(db[key].id) else None
  }

  /** Some ACTIVE schema already holds the index key. */
  predicate Taken(db: Db, key: string) {
    IndexedId(db, key).Some?
    && Load(db, IndexedId(db, key).value).Some?
    && Load(db, IndexedId(db, key).value).value.status == Active
  }

  // ---- transactions ----

  function CreateOutcome(db: Db, s: Schema): Result<Db, Error> {
    if s.id == "" then Err(InvalidArgument)
    else if PrimaryKey(s.id) in db then Err(AlreadyExists)
    else if s.status == Active && Taken(db, KeyOf(s)) then Err(SlotTaken)
    else
      var db1 := db[PrimaryKey(s.id) := Record(s)];
      Ok(if s.status == Active then db1[KeyOf(s) := Ref(s.id)] else db1)
  }

  /** The record is written first; the index reads that follow see it. */
  function UpdateOutcome(db: Db, s: Schema): Result<Db, Error> {
    if s.id == "" then Err(InvalidArgument)
    else if Load(db, s.id).None? then Err(NotFound)
    else
      var existing := Load(db, s.id).value;
      var db1 := db[PrimaryKey(s.id) := Record(s)];
      if existing.status == Active && s.status != Active then Ok(db1 - {KeyOf(s)})
      else if existing.status != Active && s.status == Active then
        if IndexedId(db1, KeyOf(s)).Some? && IndexedId(db1, KeyOf(s)).value != s.id && Taken(db1, KeyOf(s))
        then Err(SlotTaken)
        else Ok(db1[KeyOf(s) := Ref(s.id)])
      else Ok(db1)
  }

  function DeleteOutcome(db: Db, id: string): Result<Db, Error> {
    if id == "" then Err(InvalidArgument)
    else if Load(db, id).None? then Err(NotFound)
    else
      var key := KeyOf(Load(db, id).value);
      var db1 := db - {PrimaryKey(id)};
      Ok(if IndexedId(db1, key) == Some(id) then db1 - {key} else db1)
  }

  function GetActiveOutcome(db: Db, operatorId: string, oamMode: int): Result<Schema, Error> {
    var key := IndexKey(operatorId, oamMode);
    if operatorId == "" then Err(InvalidArgument)
    else if IndexedId(db, key).None? then Err(NotFound)
    else if Load(db, IndexedId(db, key).value).None? then Err(NotFound)
    else if Load(db, IndexedId(db, key).value).value.status != Active then Err(NotActive)
    else Ok(Load(db, IndexedId(db, key).value).value)
  }

  // ---- the filtered scan ----

  datatype SchemaFilter = SchemaFilter(operatorId: string, oamMode: Option<int>, status: SchemaStatus, nameLike: string)

  predicate Contains(s: string, sub: string) {
    sub <= s || (s != [] && Contains(s[1..], sub))
  }

  ghost predicate OccursAt(s: string, sub: string, i: nat) {
    i + |sub| <= |s| && s[i..i + |sub|] == sub
  }

  lemma OccursInTail(s: string, sub: string, i: nat)
    requires s != []
    ensures OccursAt(s[1..], sub, i) <==> OccursAt(s, sub, i + 1)
  {
    if i + 1 + |sub| <= |s| {
      assert s[1..][i..i + |sub|] == s[i + 1..i + 1 + |sub|];
    }
  }

  /** The name filter is a substring test. */
  lemma {:induction false} ContainsIff(s: string, sub: string)
    ensures Contains(s, sub) <==> exists i: nat :: OccursAt(s, sub, i)
  {
    if sub <= s {
      assert OccursAt(s, sub, 0);
    } else if s != [] {
      ContainsIff(s[1..], sub);
      if i: nat :| OccursAt(s[1..], sub, i) {
        OccursInTail(s, sub, i);
      }
      if i: nat :| OccursAt(s, sub, i) {
        assert i > 0;
        OccursInTail(s, sub, i - 1);
      }
    }
  }

  predicate SchemaMatches(s: Schema, f: SchemaFilter) {
    && (f.operatorId == "" || s.operatorId == f.operatorId)
    && (f.oamMode.None? || s.oamMode == f.oamMode.value)
    && (f.status == Unspecified || s.status == f.status)
    && (f.nameLike == "" || Contains(s.name, f.nameLike))
  }

  /** A record the scan of the "schema:" namespace visits. */
  predicate Listed(db: Db, key: string, f: SchemaFilter) {
    key in db && PREFIX_SCHEMA <= key && db[key].Record? && SchemaMatches(db[key].schema, f)
  }

  /** Each matching record once, in some order; `keys` are the keys they came from. */
  ghost predicate IsListing(db: Db, f: SchemaFilter, out: seq<Schema>, keys: seq<string>) {
    && |out| == |keys|
    && (forall i, j :: 0 <= i < j < |keys| ==> keys[i] != keys[j])
    && (forall i :: 0 <= i < |keys| ==> Listed(db, keys[i], f) && out[i] == db[keys[i]].schema)
    && (forall k :: Listed(db, k, f) ==> k in keys)
  }

  class BadgerStore {
    var db: Db

    constructor ()
      ensures db == map[]
    {
      db := map[];
    }

    method CreateSchema(s: Schema) returns (r: Result<(), Error>)
      modifies this
      ensures match CreateOutcome(old(db), s)
              case Ok(db') => r.Ok? && db == db'
              case Err(e) => r == Err(e) && db == old(db)
    {
      if s.id == "" {
        return Err(InvalidArgument);
      }
      if PrimaryKey(s.id) in db {
        return Err(AlreadyExists);
      }
      if s.status == Active {
        var existingID := IndexedId(db, KeyOf(s));
        if existingID.Some? {
          var existing := Load(db, existingID.value);
          if existing.Some? && existing.value.status == Active {
            return Err(SlotTaken);
          }
        }
      }
      db := db[PrimaryKey(s.id) := Record(s)];
      if s.status == Active {
        db := db[KeyOf(s) := Ref(s.id)];
      }
      return Ok(());
    }

    method UpdateSchema(s: Schema) returns (r: Result<(), Error>)
      modifies this
      ensures match UpdateOutcome(old(db), s)
              case Ok(db') => r.Ok? && db == db'
              case Err(e) => r == Err(e) && db == old(db)
    {
      if s.id == "" {
        return Err(InvalidArgument);
      }
      var existing := Load(db, s.id);
      if existing.None? {
        return Err(NotFound);
      }
      var txn := db[PrimaryKey(s.id) := Record(s)];
      if existing.value.status == Active && s.status != Active {
        txn := txn - {KeyOf(s)};
      } else if existing.value.status != Active && s.status == Active {
        var currentID := IndexedId(txn, KeyOf(s));
        if currentID.Some? && currentID.value != s.id {
          var other := Load(txn, currentID.value);
          if other.Some? && other.value.status == Active {
            return Err(SlotTaken);
          }
        }
        txn := txn[KeyOf(s) := Ref(s.id)];
      }
      db := txn;
      return Ok(());
    }

    method DeleteSchema(id: string) returns (r: Result<(), Error>)
      modifies this
      ensures match DeleteOutcome(old(db), id)
              case Ok(db') => r.Ok? && db == db'
              case Err(e) => r == Err(e) && db == old(db)
    {
      if id == "" {
        return Err(InvalidArgument);
      }
      var existing := Load(db, id);
      if existing.None? {
        return Err(NotFound);
      }
      var key := KeyOf(existing.value);
      db := db - {PrimaryKey(id)};
      if IndexedId(db, key) == Some(id) {
        db := db - {key};
      }
      return Ok(());
    }

    /** ListSchemas: a scan of the "schema:" namespace. */
    method ListSchemas(f: SchemaFilter) returns (out: seq<Schema>)
      ensures exists keys :: IsListing(db, f, out, keys)
    {
      out := [];
      ghost var keys := [];
      var todo := db.Keys;
      while todo != {}
        invariant todo <= db.Keys && |out| == |keys|
        invariant forall i, j :: 0 <= i < j < |keys| ==> keys[i] != keys[j]
        invariant forall i :: 0 <= i < |keys| ==>
          keys[i] !in todo && Listed(db, keys[i], f) && out[i] == db[keys[i]].schema
        invariant forall k :: Listed(db, k, f) && k !in todo ==> k in keys
        decreases todo
      {
        var key :| key in todo;
        todo := todo - {key};
        if PREFIX_SCHEMA <= key && db[key].Record? && SchemaMatches(db[key].schema, f) {
          out, keys := out + [db[key].schema], keys + [key];
        }
      }
      assert IsListing(db, f, out, keys);
    }
  }

  // ---- the index is exact ----

  /** A record sits under its own primary key; an ACTIVE one is what its index key names. */
  ghost predicate RecordOk(db: Db, k: string)
    requires k in db && db[k].Record?
  {
    var s := db[k].schema;
    k == PrimaryKey(s.id) && (s.status == Active ==> KeyOf(s) in db && db[KeyOf(s)] == Ref(s.id))
  }

  /** An index entry names an ACTIVE record whose index key it is. */
  ghost predicate RefOk(db: Db, k: string)
    requires k in db && db[k].Ref?
  {
    var s := Load(db, db[k].id);
    s.Some? && s.value.status == Active && KeyOf(s.value) == k
  }

  ghost predicate Indexed(db: Db) {
    && (forall k :: k in db && db[k].Record? ==> RecordOk(db, k))
    && (forall k :: k in db && db[k].Ref? ==> RefOk(db, k))
  }

  /** Each (operator, OAM mode) has at most one ACTIVE schema. */
  lemma AtMostOneActive(db: Db, k: string, k': string)
    requires Indexed(db) && k in db && k' in db && db[k].Record? && db[k'].Record?
    requires db[k].schema.status == Active && db[k'].schema.status == Active
    requires db[k].schema.operatorId == db[k'].schema.operatorId && db[k].schema.oamMode == db[k'].schema.oamMode
    ensures k == k'
  {
    assert RecordOk(db, k) && RecordOk(db, k');
  }

  /** The one-step lookup returns exactly what the filtered scan finds. */
  lemma LookupIsScan(db: Db, operatorId: string, oamMode: int, k: string)
    requires Indexed(db) && operatorId != ""
    ensures
      var f := SchemaFilter(operatorId, Some(oamMode), Active, "");
      Listed(db, k, f) <==>
        GetActiveOutcome(db, operatorId, oamMode).Ok?
        && k == PrimaryKey(GetActiveOutcome(db, operatorId, oamMode).value.id)
        && Load(db, GetActiveOutcome(db, operatorId, oamMode).value.id) == Some(GetActiveOutcome(db, operatorId, oamMode).value)
  {
    var f := SchemaFilter(operatorId, Some(oamMode), Active, "");
    var key := IndexKey(operatorId, oamMode);
    if Listed(db, k, f) {
      assert RecordOk(db, k);
    }
    var r := GetActiveOutcome(db, operatorId, oamMode);
    if r.Ok? {
      assert RefOk(db, key);
      IndexKeyIsInjective(r.value.operatorId, r.value.oamMode, operatorId, oamMode);
      assert RecordOk(db, PrimaryKey(db[key].id));
      PrimaryKeyIsInjective(r.value.id, db[key].id);
    }
  }

  /** GetActiveSchemaForOam gives the one element of the filtered listing, and an error
      exactly when the listing is empty. */
  lemma LookupIsListing(db: Db, operatorId: string, oamMode: int, out: seq<Schema>, keys: seq<string>)
    requires Indexed(db) && operatorId != ""
    requires IsListing(db, SchemaFilter(operatorId, Some(oamMode), Active, ""), out, keys)
    ensures
      var r := GetActiveOutcome(db, operatorId, oamMode);
      out == if r.Ok? then [r.value] else []
  {
    var f := SchemaFilter(operatorId, Some(oamMode), Active, "");
    var r := GetActiveOutcome(db, operatorId, oamMode);
    forall i | 0 <= i < |keys| ensures r.Ok? && keys[i] == PrimaryKey(r.value.id) && out[i] == r.value {
      LookupIsScan(db, operatorId, oamMode, keys[i]);
    }
    assert |keys| > 0 ==> r.Ok? && keys[0] == PrimaryKey(r.value.id);
    if r.Ok? {
      var key := IndexKey(operatorId, oamMode);
      assert RefOk(db, key);
      assert RecordOk(db, PrimaryKey(db[key].id));
      PrimaryKeyIsInjective(r.value.id, db[key].id);
      LookupIsScan(db, operatorId, oamMode, PrimaryKey(r.value.id));
      var i :| 0 <= i < |keys| && keys[i] == PrimaryKey(r.value.id);
      assert forall j :: 0 <= j < |keys| ==> keys[j] == keys[i] && j == i;
      assert |keys| - 1 == i == 0 by {
        assert keys[0] == keys[i] && keys[|keys| - 1] == keys[i];
      }
    }
  }

  // ---- what transactions keep ----

  lemma Separate(id: string, s: Schema)
    ensures PrimaryKey(id) != KeyOf(s)
  {
    KeySpacesAreDisjoint(id, s.operatorId, s.oamMode);
  }

  /** Storing a record leaves every other record loadable as before. */
  lemma LoadAfterStore(db: Db, db': Db, s: Schema, id: string)
    requires PrimaryKey(s.id) in db' && db'[PrimaryKey(s.id)] == Record(s)
    requires forall k :: k != PrimaryKey(s.id) && k != KeyOf(s) ==> (k in db' <==> k in db) && (k in db ==> db'[k] == db[k])
    ensures Load(db', id) == if id == s.id then Some(s) else Load(db, id)
  {
    Separate(id, s);
    if id != s.id && PrimaryKey(id) == PrimaryKey(s.id) {
      PrimaryKeyIsInjective(id, s.id);
    }
  }

  lemma CreateKeepsIndexed(db: Db, s: Schema)
    requires Indexed(db) && CreateOutcome(db, s).Ok?
    ensures Indexed(CreateOutcome(db, s).value)
  {
    var db' := CreateOutcome(db, s).value;
    Separate(s.id, s);
    forall k | k in db' && db'[k].Record? ensures RecordOk(db', k) {
      if k != PrimaryKey(s.id) {
        assert RecordOk(db, k);
        if db[k].schema.status == Active {
          Separate(s.id, db[k].schema);
          assert RefOk(db, KeyOf(db[k].schema));
        }
      }
    }
    forall k | k in db' && db'[k].Ref? ensures RefOk(db', k) {
      if s.status == Active && k == KeyOf(s) {
        LoadAfterStore(db, db', s, s.id);
      } else {
        assert RefOk(db, k);
        LoadAfterStore(db, db', s, db[k].id);
      }
    }
  }

  lemma DeleteKeepsIndexed(db: Db, id: string)
    requires Indexed(db) && DeleteOutcome(db, id).Ok?
    ensures Indexed(DeleteOutcome(db, id).value)
  {
    var db' := DeleteOutcome(db, id).value;
    var s := Load(db, id).value;
    assert RecordOk(db, PrimaryKey(id));
    PrimaryKeyIsInjective(id, s.id);
    Separate(id, s);
    forall k | k in db' && db'[k].Record? ensures RecordOk(db', k) {
      assert RecordOk(db, k);
      if db[k].schema.status == Active {
        Separate(id, db[k].schema);
      }
    }
    forall k | k in db' && db'[k].Ref? ensures RefOk(db', k) {
      assert RefOk(db, k);
      if db[k].id != id && PrimaryKey(db[k].id) == PrimaryKey(id) {
        PrimaryKeyIsInjective(db[k].id, id);
      }
      Separate(db[k].id, s);
    }
  }

  ghost predicate UpdateKeepsKey(db: Db, s: Schema) {
    && Indexed(db) && UpdateOutcome(db, s).Ok?
    && (Load(db, s.id).value.status != Active || KeyOf(s) == KeyOf(Load(db, s.id).value))
  }

  lemma UpdateKeepsRecord(db: Db, s: Schema, k: string)
    requires UpdateKeepsKey(db, s)
    requires var db' := UpdateOutcome(db, s).value; k in db' && db'[k].Record?
    ensures RecordOk(UpdateOutcome(db, s).value, k)
  {
    var e := Load(db, s.id).value;
    assert RecordOk(db, PrimaryKey(s.id));
    PrimaryKeyIsInjective(s.id, e.id);
    Separate(s.id, s);
    if k != PrimaryKey(s.id) {
      assert RecordOk(db, k);
      if db[k].schema.status == Active {
        Separate(s.id, db[k].schema);
        assert RefOk(db, KeyOf(db[k].schema));
        LoadAfterStore(db, db[PrimaryKey(s.id) := Record(s)], s, db[k].schema.id);
      }
    }
  }

  lemma UpdateKeepsRef(db: Db, s: Schema, k: string)
    requires UpdateKeepsKey(db, s)
    requires var db' := UpdateOutcome(db, s).value; k in db' && db'[k].Ref?
    ensures RefOk(UpdateOutcome(db, s).value, k)
  {
    var db' := UpdateOutcome(db, s).value;
    var e := Load(db, s.id).value;
    assert RecordOk(db, PrimaryKey(s.id));
    PrimaryKeyIsInjective(s.id, e.id);
    Separate(s.id, s);
    if k == KeyOf(s) && e.status != Active && s.status == Active {
      LoadAfterStore(db, db', s, s.id);
    } else {
      assert RefOk(db, k);
      LoadAfterStore(db, db', s, db[k].id);
    }
  }

  lemma UpdateKeepsIndexed(db: Db, s: Schema)
    requires UpdateKeepsKey(db, s)
    ensures Indexed(UpdateOutcome(db, s).value)
  {
    var db' := UpdateOutcome(db, s).value;
    forall k | k in db' && db'[k].Record? ensures RecordOk(db', k) {
      UpdateKeepsRecord(db, s, k);
    }
    forall k | k in db' && db'[k].Ref? ensures RefOk(db', k) {
      UpdateKeepsRef(db, s, k);
    }
  }

  /** UpdateSchema keeps the index exact if and only if the stored record was not ACTIVE or
      the update keeps its operator and OAM mode: the code consults only the new key. */
  lemma UpdateKeepsIndexedIff(db: Db, s: Schema)
    requires Indexed(db) && UpdateOutcome(db, s).Ok?
    ensures Indexed(UpdateOutcome(db, s).value) <==>
      var e := Load(db, s.id).value;
      e.status != Active || (e.operatorId == s.operatorId && e.oamMode == s.oamMode)
  {
    var db' := UpdateOutcome(db, s).value;
    var e := Load(db, s.id).value;
    if e.status != Active || (e.operatorId == s.operatorId && e.oamMode == s.oamMode) {
      UpdateKeepsIndexed(db, s);
    } else {
      if KeyOf(e) == KeyOf(s) {
        IndexKeyIsInjective(e.operatorId, e.oamMode, s.operatorId, s.oamMode);
      }
      assert RecordOk(db, PrimaryKey(s.id));
      PrimaryKeyIsInjective(s.id, e.id);
      Separate(s.id, e);
      Separate(s.id, s);
      assert KeyOf(e) in db' && db'[KeyOf(e)] == Ref(s.id);
      LoadAfterStore(db, db', s, s.id);
      assert !RefOk(db', KeyOf(e));
    }
  }

  // ---- runs of the store ----

  datatype Op = Create(s: Schema) | Update(s: Schema) | Delete(id: string)

  function Outcome(db: Db, op: Op): Result<Db, Error> {
    match op
    case Create(s) => CreateOutcome(db, s)
    case Update(s) => UpdateOutcome(db, s)
    case Delete(id) => DeleteOutcome(db, id)
  }

  function Apply(db: Db, op: Op): Db {
    var r := Outcome(db, op);
    if r.Ok? then r.value else db
  }

  function RunFrom(db: Db, ops: seq<Op>): Db {
    if ops == [] then db else Apply(RunFrom(db, ops[..|ops| - 1]), ops[|ops| - 1])
  }

  /** A successful update of an ACTIVE record keeps its operator and OAM mode. */
  ghost predicate KeepsBinding(db: Db, op: Op) {
    op.Update? && UpdateOutcome(db, op.s).Ok? && Load(db, op.s.id).value.status == Active ==>
      var e := Load(db, op.s.id).value;
      e.operatorId == op.s.operatorId && e.oamMode == op.s.oamMode
  }

  ghost predicate AllKeepBinding(db: Db, ops: seq<Op>) {
    ops != [] ==> AllKeepBinding(db, ops[..|ops| - 1]) && KeepsBinding(RunFrom(db, ops[..|ops| - 1]), ops[|ops| - 1])
  }

  ghost predicate AlwaysIndexed(db: Db, ops: seq<Op>) {
    Indexed(RunFrom(db, ops)) && (ops != [] ==> AlwaysIndexed(db, ops[..|ops| - 1]))
  }

  lemma StepIndexedIff(db: Db, op: Op)
    requires Indexed(db)
    ensures Indexed(Apply(db, op)) <==> KeepsBinding(db, op)
  {
    if Outcome(db, op).Ok? {
      match op
      case Create(s) => CreateKeepsIndexed(db, s);
      case Update(s) => UpdateKeepsIndexedIff(db, s);
      case Delete(id) => DeleteKeepsIndexed(db, id);
    }
  }

  /** Over every run from an empty store the index is exact at every point, exactly when
      no update moved an ACTIVE schema to another operator or OAM mode. */
  lemma {:induction false} RunsStayIndexedIff(ops: seq<Op>)
    ensures AlwaysIndexed(map[], ops) <==> AllKeepBinding(map[], ops)
  {
    if ops != [] {
      var n := |ops| - 1;
      RunsStayIndexedIff(ops[..n]);
      if AlwaysIndexed(map[], ops[..n]) {
        StepIndexedIff(RunFrom(map[], ops[..n]), ops[n]);
      }
    }
  }

  // ---- the engine ----

  /** `valid` and `signature` stand for structural validation and signing, `newId` for the
      generated UUID. */
  datatype EngineOp =
    | Register(s: Schema, valid: bool, newId: string, signature: string)
    | Deprecate(id: string, signature: string)
    | Revoke(id: string, signature: string)

  function Prepared(operator: string, op: EngineOp): Schema
    requires op.Register?
  {
    op.s.(operatorId := if op.s.operatorId == "" then operator else op.s.operatorId,
          id := if op.s.id == "" then op.newId else op.s.id,
          status := if op.s.status == Unspecified then Active else op.s.status,
          signature := op.signature)
  }

  function Retire(db: Db, operator: string, id: string, status: SchemaStatus, signature: string): Result<Db, Error> {
    if id == "" then Err(InvalidArgument)
    else if Load(db, id).None? then Err(NotFound)
    else if Load(db, id).value.operatorId != operator then Err(NotOwner)
    else UpdateOutcome(db, Load(db, id).value.(status := status, signature := signature))
  }

  function EngineOutcome(db: Db, operator: string, op: EngineOp): Result<Db, Error> {
    match op
    case Register(s, valid, newId, signature) =>
      if Prepared(operator, op).operatorId != operator then Err(NotOwner)
      else if !valid then Err(Invalid)
      else CreateOutcome(db, Prepared(operator, op))
    case Deprecate(id, signature) => Retire(db, operator, id, Deprecated, signature)
    case Revoke(id, signature) => Retire(db, operator, id, Revoked, signature)
  }

  function EngineApply(db: Db, operator: string, op: EngineOp): Db {
    var r := EngineOutcome(db, operator, op);
    if r.Ok? then r.value else db
  }

  function EngineRun(db: Db, operator: string, ops: seq<EngineOp>): Db {
    if ops == [] then db else EngineApply(EngineRun(db, operator, ops[..|ops| - 1]), operator, ops[|ops| - 1])
  }

  /** A schema keeps its binding, and its inactivity if it is inactive. */
  ghost predicate Persists(db: Db, db': Db, id: string) {
    Load(db, id).Some? ==>
      && Load(db', id).Some?
      && Load(db', id).value.operatorId == Load(db, id).value.operatorId
      && Load(db', id).value.oamMode == Load(db, id).value.oamMode
      && (Load(db, id).value.status != Active ==> Load(db', id).value.status != Active)
  }

  lemma RetireStep(db: Db, operator: string, target: string, status: SchemaStatus, signature: string, id: string)
    requires Indexed(db) && status != Active && Retire(db, operator, target, status, signature).Ok?
    ensures Indexed(Retire(db, operator, target, status, signature).value)
    ensures Persists(db, Retire(db, operator, target, status, signature).value, id)
  {
    var existing := Load(db, target).value;
    var s := existing.(status := status, signature := signature);
    assert RecordOk(db, PrimaryKey(target));
    PrimaryKeyIsInjective(target, existing.id);
    UpdateKeepsIndexedIff(db, s);
    Separate(s.id, s);
    LoadAfterStore(db, UpdateOutcome(db, s).value, s, id);
  }

  lemma EngineStep(db: Db, operator: string, op: EngineOp, id: string)
    requires Indexed(db)
    ensures Indexed(EngineApply(db, operator, op)) && Persists(db, EngineApply(db, operator, op), id)
  {
    var r := EngineOutcome(db, operator, op);
    if r.Ok? {
      match op
      case Register(_, _, _, _) =>
        var s := Prepared(operator, op);
        CreateKeepsIndexed(db, s);
        Separate(s.id, s);
        LoadAfterStore(db, r.value, s, id);
      case Deprecate(target, signature) => RetireStep(db, operator, target, Deprecated, signature, id);
      case Revoke(target, signature) => RetireStep(db, operator, target, Revoked, signature, id);
    }
  }

  /** Through the engine, from any exact store: the store stays exact; no schema disappears
      or changes operator or OAM mode; and one that is not ACTIVE never becomes ACTIVE. */
  lemma {:induction false} EngineNeverReactivates(db: Db, operator: string, ops: seq<EngineOp>, id: string)
    requires Indexed(db)
    ensures Indexed(EngineRun(db, operator, ops)) && Persists(db, EngineRun(db, operator, ops), id)
  {
    if ops != [] {
      var n := |ops| - 1;
      EngineNeverReactivates(db, operator, ops[..n], id);
      EngineStep(EngineRun(db, operator, ops[..n]), operator, ops[n], id);
    }
  }
}
