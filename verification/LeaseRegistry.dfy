/** Lease lifecycle and lease tokens (flr/internal/registry/engine.go, with the token
    functions of flr/internal/crypto/engine.go).

    Every reading of the clock, the new lease ID and the token nonce are inputs of the
    operation that uses them.  Formatting, SHA3-256 and ECDSA are functions of `Env`; store
    calls succeed.  The record fields that no decision reads are left out. */
module LeaseRegistry {
  import opened Wrappers

  type Time = int

  datatype Error =
    | InvalidArgument | WavelengthConflict | AlreadyExists | NotFound | NotActive | AlreadyRevoked
    | LeaseExpired | TokenExpired | BadSignature | HashMismatch

  datatype LeaseStatus = Unspecified | Active | Expired | Revoked | Pending

  datatype Wavelength = Wavelength(lambdaNm: real, channelNum: int, band: int, gridGHz: real)

  datatype Lease = Lease(
    id: string, wavelength: Wavelength, endpointId: string, operatorId: string, status: LeaseStatus,
    startTime: Time, endTime: Time, tokenHash: string)

  /** The fields a signature covers. */
  datatype TokenFields = TokenFields(
    version: int, leaseId: string, operatorId: string, wavelength: Wavelength, endpointId: string,
    startTime: Time, endTime: Time, nonce: string)

  datatype LeaseToken = LeaseToken(fields: TokenFields, signature: string)

  type Store = map<string, Lease>

  datatype Env = Env(
    operatorId: string,
    toKey: Wavelength -> string,
    format: Time -> string,
    decimal: int -> string,
    sha3: string -> string,
    sign: TokenFields -> string,
    verifies: (TokenFields, string) -> bool)

  /** Signatures made with the engine's key verify under its public key. */
  ghost predicate SignsCorrectly(env: Env) {
    forall f :: env.verifies(f, env.sign(f))
  }

  /** RFC 3339 rendering with nanoseconds tells UTC instants apart. */
  ghost predicate FormatsFaithfully(env: Env) {
    forall a, b :: env.format(a) == env.format(b) ==> a == b
  }

  // ---- tokens ----

  function MakeToken(env: Env, l: Lease, nonce: string): LeaseToken {
    var f := TokenFields(1, l.id, env.operatorId, l.wavelength, l.endpointId, l.startTime, l.endTime, nonce);
    LeaseToken(f, env.sign(f))
  }

  /** The part of the hashed text that renewals of one lease have in common. */
  function TokenPrefix(env: Env, f: TokenFields): string {
    f.leaseId + ":" + f.operatorId + ":" + f.endpointId + ":" + env.toKey(f.wavelength) + ":" + env.decimal(f.version)
    + ":" + env.format(f.startTime) + ":"
  }

  function TokenText(env: Env, f: TokenFields): string {
    TokenPrefix(env, f) + env.format(f.endTime)
  }

  function HashToken(env: Env, t: LeaseToken): string {
    env.sha3(TokenText(env, t.fields))
  }

  // ---- the store as the engine queries it ----

  /** ListLeases with the engine's operator and status ACTIVE; an empty operator matches all. */
  predicate ListsActive(env: Env, l: Lease) {
    (env.operatorId == "" || l.operatorId == env.operatorId) && l.status == Active
  }

  /** `l` holds the wavelength key at time t. */
  predicate Occupies(env: Env, l: Lease, w: Wavelength, t: Time) {
    ListsActive(env, l) && env.toKey(l.wavelength) == env.toKey(w) && t < l.endTime
  }

  ghost predicate HasConflict(env: Env, st: Store, w: Wavelength, exclude: string, t: Time) {
    exists id :: id in st && st[id].id != exclude && Occupies(env, st[id], w, t)
  }

  /** Records are stored under their own ID, which is not empty. */
  ghost predicate Keyed(st: Store) {
    forall id :: id in st ==> st[id].id == id && id != ""
  }

  // ---- what the operations do ----

  datatype Grant = Grant(lease: Lease, token: LeaseToken)

  function NewLease(env: Env, w: Wavelength, endpoint: string, duration: int, now: Time, id: string, nonce: string): Grant {
    var l := Lease(id, w, endpoint, env.operatorId, Active, now, now + duration, "");
    var token := MakeToken(env, l, nonce);
    Grant(l.(tokenHash := HashToken(env, token)), token)
  }

  function RenewedLease(env: Env, l: Lease, extension: int, nonce: string): Grant {
    var l' := l.(endTime := l.endTime + extension);
    var token := MakeToken(env, l', nonce);
    Grant(l'.(tokenHash := HashToken(env, token)), token)
  }

  /** `now` is read on entry, `check` inside the conflict scan. */
  ghost function AllocateOutcome(
    env: Env, st: Store, w: Option<Wavelength>, endpoint: string, duration: int, now: Time, check: Time, id: string, nonce: string)
    : Result<Grant, Error>
  {
    if w.None? || endpoint == "" || duration <= 0 then Err(InvalidArgument)
    else if HasConflict(env, st, w.value, "", check) then Err(WavelengthConflict)
    else if id == "" then Err(InvalidArgument)
    else if id in st then Err(AlreadyExists)
    else Ok(NewLease(env, w.value, endpoint, duration, now, id, nonce))
  }

  function RenewOutcome(env: Env, st: Store, id: string, extension: int, nonce: string): Result<Grant, Error> {
    if id == "" || extension <= 0 then Err(InvalidArgument)
    else if id !in st then Err(NotFound)
    else if st[id].status != Active then Err(NotActive)
    else Ok(RenewedLease(env, st[id], extension, nonce))
  }

  function RevokeOutcome(st: Store, id: string): Result<Lease, Error> {
    if id == "" then Err(InvalidArgument)
    else if id !in st then Err(NotFound)
    else if st[id].status == Revoked then Err(AlreadyRevoked)
    else Ok(st[id].(status := Revoked))
  }

  predicate Lapsed(env: Env, l: Lease, now: Time) {
    ListsActive(env, l) && now > l.endTime
  }

  function Expiring(env: Env, st: Store, now: Time): set<string> {
    set id | id in st && Lapsed(env, st[id], now)
  }

  function ExpireStore(env: Env, st: Store, now: Time): Store {
    map id | id in st :: if Lapsed(env, st[id], now) then st[id].(status := Expired) else st[id]
  }

  function Stored(st: Store, r: Result<Grant, Error>): Store {
    if r.Ok? then st[r.value.lease.id := r.value.lease] else st
  }

  /** VerifyLease: `t1` is read for the lease, `t2` for the token. */
  function VerifyOutcome(env: Env, st: Store, token: LeaseToken, t1: Time, t2: Time): Result<(), Error> {
    var f := token.fields;
    if f.leaseId == "" || f.leaseId !in st then Err(NotFound)
    else if st[f.leaseId].status != Active then Err(NotActive)
    else if t1 > st[f.leaseId].endTime then Err(LeaseExpired)
    else if t2 > f.endTime then Err(TokenExpired)
    else if !env.verifies(f, token.signature) then Err(BadSignature)
    else if HashToken(env, token) != st[f.leaseId].tokenHash then Err(HashMismatch)
    else Ok(())
  }

  // ---- the engine ----

  class Engine {
    const env: Env
    var store: Store

    constructor (env: Env)
      ensures this.env == env && store == map[]
    {
      this.env := env;
      store := map[];
    }

    /** ListLeases: every matching record once, in some order. */
    method ListActive() returns (leases: seq<Lease>)
      ensures forall l :: l in leases <==> exists id :: id in store && store[id] == l && ListsActive(env, l)
    {
      leases := [];
      var todo := store.Keys;
      while todo != {}
        invariant todo <= store.Keys
        invariant forall l :: l in leases <==>
          exists id :: id in store && id !in todo && store[id] == l && ListsActive(env, l)
        decreases todo
      {
        var id :| id in todo;
        if ListsActive(env, store[id]) {
          leases := leases + [store[id]];
        }
        todo := todo - {id};
      }
    }

    /** checkConflictLocked: a conflict is found exactly when there is one. */
    method CheckConflict(w: Wavelength, exclude: string, now: Time) returns (conflict: Option<Lease>)
      ensures conflict.Some? <==> HasConflict(env, store, w, exclude, now)
      ensures conflict.Some? ==> conflict.value.id != exclude && Occupies(env, conflict.value, w, now)
    {
      var leases := ListActive();
      for i := 0 to |leases|
        invariant forall j :: 0 <= j < i ==> !(leases[j].id != exclude && Occupies(env, leases[j], w, now))
      {
        var l := leases[i];
        if l.id != exclude && env.toKey(l.wavelength) == env.toKey(w) && now < l.endTime {
          assert l in leases;
          return Some(l);
        }
      }
      forall id | id in store && ListsActive(env, store[id])
        ensures !(store[id].id != exclude && Occupies(env, store[id], w, now))
      {
        assert store[id] in leases;
      }
      return None;
    }

    method AllocateLease(
      w: Option<Wavelength>, endpoint: string, duration: int, now: Time, check: Time, id: string, nonce: string)
      returns (r: Result<Grant, Error>)
      modifies this
      ensures r == AllocateOutcome(env, old(store), w, endpoint, duration, now, check, id, nonce)
      ensures store == Stored(old(store), r)
    {
      if w.None? || endpoint == "" || duration <= 0 {
        return Err(InvalidArgument);
      }
      var conflict := CheckConflict(w.value, "", check);
      if conflict.Some? {
        return Err(WavelengthConflict);
      }
      var grant := NewLease(env, w.value, endpoint, duration, now, id, nonce);
      if id == "" {
        return Err(InvalidArgument);
      }
      if id in store {
        return Err(AlreadyExists);
      }
      store := store[id := grant.lease];
      return Ok(grant);
    }

    method RenewLease(id: string, extension: int, nonce: string) returns (r: Result<Grant, Error>)
      requires Keyed(store)
      modifies this
      ensures Keyed(store)
      ensures r == RenewOutcome(env, old(store), id, extension, nonce)
      ensures store == Stored(old(store), r)
    {
      if id == "" || extension <= 0 {
        return Err(InvalidArgument);
      }
      if id !in store {
        return Err(NotFound);
      }
      if store[id].status != Active {
        return Err(NotActive);
      }
      var grant := RenewedLease(env, store[id], extension, nonce);
      store := store[id := grant.lease];
      return Ok(grant);
    }

    method RevokeLease(id: string) returns (r: Result<Lease, Error>)
      modifies this
      ensures r == RevokeOutcome(old(store), id)
      ensures store == if r.Ok? then old(store)[id := r.value] else old(store)
    {
      if id == "" {
        return Err(InvalidArgument);
      }
      if id !in store {
        return Err(NotFound);
      }
      if store[id].status == Revoked {
        return Err(AlreadyRevoked);
      }
      r := Ok(store[id].(status := Revoked));
      store := store[id := r.value];
    }

    /** ExpireLeases: marks every lapsed lease, counts them, and touches no other. */
    method ExpireLeases(now: Time) returns (expired: nat)
      modifies this
      ensures store == ExpireStore(env, old(store), now)
      ensures expired == |Expiring(env, old(store), now)|
    {
      expired := 0;
      var todo := store.Keys;
      ghost var marked: set<string> := {};
      while todo != {}
        invariant todo <= store.Keys == old(store).Keys
        invariant forall id :: id in store ==>
          store[id] == if id !in todo && Lapsed(env, old(store)[id], now) then old(store)[id].(status := Expired) else old(store)[id]
        invariant marked == set id | id in old(store) && id !in todo && Lapsed(env, old(store)[id], now)
        invariant expired == |marked|
        decreases todo
      {
        var id :| id in todo;
        if Lapsed(env, store[id], now) {
          store := store[id := store[id].(status := Expired)];
          expired := expired + 1;
          marked := marked + {id};
        }
        todo := todo - {id};
      }
      assert marked == Expiring(env, old(store), now);
    }
  }

  // ---- runs ----

  datatype Op =
    | Allocate(w: Option<Wavelength>, endpoint: string, duration: int, check: Time, id: string, nonce: string)
    | Renew(id: string, extension: int, nonce: string)
    | Revoke(id: string)
    | Expire

  /** `issued[id]` records the tokens handed out for a lease, oldest first. */
  datatype State = State(store: Store, clock: Time, issued: map<string, seq<LeaseToken>>)

  ghost const INITIAL: State := State(map[], 0, map[])

  ghost function Issue(s: State, r: Result<Grant, Error>): map<string, seq<LeaseToken>> {
    if r.Err? then s.issued
    else
      var id := r.value.lease.id;
      s.issued[id := (if id in s.issued then s.issued[id] else []) + [r.value.token]]
  }

  /** One operation starting at time `now`; the clock then stands at its last reading. */
  ghost function Apply(env: Env, s: State, op: Op, now: Time): State {
    match op
    case Allocate(w, endpoint, duration, check, id, nonce) =>
      var r := AllocateOutcome(env, s.store, w, endpoint, duration, now, check, id, nonce);
      State(Stored(s.store, r), check, Issue(s, r))
    case Renew(id, extension, nonce) =>
      var r := RenewOutcome(env, s.store, id, extension, nonce);
      State(Stored(s.store, r), now, Issue(s, r))
    case Revoke(id) =>
      var r := RevokeOutcome(s.store, id);
      State(if r.Ok? then s.store[id := r.value] else s.store, now, s.issued)
    case Expire => State(ExpireStore(env, s.store, now), now, s.issued)
  }

  /** The clock never runs backwards. */
  ghost predicate InOrder(s: State, op: Op, now: Time) {
    s.clock <= now && (op.Allocate? ==> now <= op.check)
  }

  ghost predicate Distinguish(a: string, b: string) {
    a != b
  }

  /** At most one ACTIVE lease of the operator per wavelength key has time left. */
  ghost predicate Exclusive(env: Env, st: Store, t: Time) {
    forall a, b :: a in st && b in st && Distinguish(a, b) && Occupies(env, st[a], st[b].wavelength, t) ==>
      !Occupies(env, st[b], st[a].wavelength, t)
  }

  /** What a caller can check before renewing: the lease stays lapsed, or is not listed for
      this operator, or CheckConflict finds no other holder of its wavelength. */
  ghost predicate RenewIsSafe(env: Env, st: Store, id: string, extension: int, t: Time)
    requires id in st
  {
    || !ListsActive(env, st[id])
    || st[id].endTime + extension <= t
    || !HasConflict(env, st, st[id].wavelength, id, t)
  }

  lemma AllocateKeepsExclusion(
    env: Env, st: Store, w: Option<Wavelength>, endpoint: string, duration: int, now: Time, check: Time, id: string, nonce: string)
    requires Keyed(st) && Exclusive(env, st, now) && now <= check
    ensures
      var r := AllocateOutcome(env, st, w, endpoint, duration, now, check, id, nonce);
      Keyed(Stored(st, r)) && Exclusive(env, Stored(st, r), check)
  {
    var r := AllocateOutcome(env, st, w, endpoint, duration, now, check, id, nonce);
    var st' := Stored(st, r);
    ExclusionOutlivesTime(env, st, now, check);
    forall a, b | a in st' && b in st' && Distinguish(a, b) && Occupies(env, st'[a], st'[b].wavelength, check)
      ensures !Occupies(env, st'[b], st'[a].wavelength, check)
    {
      if r.Ok? && (a == id || b == id) {
        var other := if a == id then b else a;
        assert other in st && st[other].id != "";
      }
    }
  }

  /** Renewal keeps exclusion exactly when it is safe.  RenewLease checks only the status,
      so the caller has to check the rest. */
  lemma RenewKeepsExclusionIff(env: Env, st: Store, id: string, extension: int, nonce: string, t: Time)
    requires Keyed(st) && Exclusive(env, st, t) && RenewOutcome(env, st, id, extension, nonce).Ok?
    ensures Keyed(Stored(st, RenewOutcome(env, st, id, extension, nonce)))
    ensures Exclusive(env, Stored(st, RenewOutcome(env, st, id, extension, nonce)), t)
            <==> RenewIsSafe(env, st, id, extension, t)
  {
    var st' := Stored(st, RenewOutcome(env, st, id, extension, nonce));
    if RenewIsSafe(env, st, id, extension, t) {
      forall a, b | a in st' && b in st' && Distinguish(a, b) && Occupies(env, st'[a], st'[b].wavelength, t)
        ensures !Occupies(env, st'[b], st'[a].wavelength, t)
      {
        if a == id || b == id {
          var other := if a == id then b else a;
          assert st[other].id != id;
          assert HasConflict(env, st, st[id].wavelength, id, t) || !Occupies(env, st[other], st[id].wavelength, t);
        }
      }
    } else {
      var other :| other in st && st[other].id != id && Occupies(env, st[other], st[id].wavelength, t);
      assert Distinguish(other, id) && Occupies(env, st'[other], st'[id].wavelength, t);
      assert Occupies(env, st'[id], st'[other].wavelength, t);
    }
  }

  /** Renewing a lease that has not lapsed is always safe. */
  lemma UnlapsedRenewIsSafe(env: Env, st: Store, id: string, extension: int, t: Time)
    requires Keyed(st) && Exclusive(env, st, t) && id in st && t < st[id].endTime
    ensures RenewIsSafe(env, st, id, extension, t)
  {
    if ListsActive(env, st[id]) && HasConflict(env, st, st[id].wavelength, id, t) {
      var other :| other in st && st[other].id != id && Occupies(env, st[other], st[id].wavelength, t);
      assert Distinguish(other, id) && Occupies(env, st[id], st[other].wavelength, t);
    }
  }

  lemma RevokeKeepsExclusion(env: Env, st: Store, id: string, t: Time)
    requires Keyed(st) && Exclusive(env, st, t) && RevokeOutcome(st, id).Ok?
    ensures Keyed(st[id := RevokeOutcome(st, id).value]) && Exclusive(env, st[id := RevokeOutcome(st, id).value], t)
  {
  }

  lemma ExpireKeepsExclusion(env: Env, st: Store, t: Time)
    requires Keyed(st) && Exclusive(env, st, t)
    ensures Keyed(ExpireStore(env, st, t)) && Exclusive(env, ExpireStore(env, st, t), t)
  {
  }

  /** Time only frees wavelengths. */
  lemma ExclusionOutlivesTime(env: Env, st: Store, t: Time, later: Time)
    requires Exclusive(env, st, t) && t <= later
    ensures Exclusive(env, st, later)
  {
    forall a, b | a in st && b in st && Distinguish(a, b) && Occupies(env, st[a], st[b].wavelength, later)
      ensures !Occupies(env, st[b], st[a].wavelength, later)
    {
      assert Occupies(env, st[a], st[b].wavelength, t);
    }
  }

  ghost function RunFrom(env: Env, s: State, ops: seq<Op>, times: seq<Time>): State
    requires |ops| == |times|
  {
    if ops == [] then s
    else Apply(env, RunFrom(env, s, ops[..|ops| - 1], times[..|ops| - 1]), ops[|ops| - 1], times[|ops| - 1])
  }

  ghost predicate ClockRuns(env: Env, s: State, ops: seq<Op>, times: seq<Time>)
    requires |ops| == |times|
  {
    ops != [] ==>
      var n := |ops| - 1;
      ClockRuns(env, s, ops[..n], times[..n]) && InOrder(RunFrom(env, s, ops[..n], times[..n]), ops[n], times[n])
  }

  ghost predicate SafeStep(env: Env, s: State, op: Op, now: Time) {
    op.Renew? && RenewOutcome(env, s.store, op.id, op.extension, op.nonce).Ok? ==>
      RenewIsSafe(env, s.store, op.id, op.extension, now)
  }

  /** Every successful renewal of the run was safe when it was made. */
  ghost predicate RenewsSafely(env: Env, s: State, ops: seq<Op>, times: seq<Time>)
    requires |ops| == |times|
  {
    ops != [] ==>
      var n := |ops| - 1;
      RenewsSafely(env, s, ops[..n], times[..n]) && SafeStep(env, RunFrom(env, s, ops[..n], times[..n]), ops[n], times[n])
  }

  /** Exclusion holds now and held after every earlier operation. */
  ghost predicate AlwaysExclusive(env: Env, s: State, ops: seq<Op>, times: seq<Time>)
    requires |ops| == |times|
  {
    var now := RunFrom(env, s, ops, times);
    && Exclusive(env, now.store, now.clock)
    && (ops != [] ==> AlwaysExclusive(env, s, ops[..|ops| - 1], times[..|ops| - 1]))
  }

  lemma StepExclusionIff(env: Env, s: State, op: Op, now: Time)
    requires Keyed(s.store) && Exclusive(env, s.store, s.clock) && InOrder(s, op, now)
    ensures var s' := Apply(env, s, op, now);
      Keyed(s'.store) && (Exclusive(env, s'.store, s'.clock) <==> SafeStep(env, s, op, now))
  {
    ExclusionOutlivesTime(env, s.store, s.clock, now);
    match op
    case Allocate(w, endpoint, duration, check, id, nonce) =>
      AllocateKeepsExclusion(env, s.store, w, endpoint, duration, now, check, id, nonce);
    case Renew(id, extension, nonce) =>
      if RenewOutcome(env, s.store, id, extension, nonce).Ok? {
        RenewKeepsExclusionIff(env, s.store, id, extension, nonce, now);
      }
    case Revoke(id) =>
      if RevokeOutcome(s.store, id).Ok? {
        RevokeKeepsExclusion(env, s.store, id, now);
      }
    case Expire =>
      ExpireKeepsExclusion(env, s.store, now);
  }

  /** Lease exclusion: over every run with a clock that never runs backwards, at most one
      ACTIVE lease of the operator per wavelength key has time left, at every point of the
      run, exactly when every successful renewal was safe.  Renewals of unlapsed leases
      always are (UnlapsedRenewIsSafe). */
  lemma {:induction false} RunsAreExclusiveIff(env: Env, ops: seq<Op>, times: seq<Time>)
    requires |ops| == |times| && ClockRuns(env, INITIAL, ops, times)
    ensures AlwaysExclusive(env, INITIAL, ops, times) <==> RenewsSafely(env, INITIAL, ops, times)
  {
    RunKeepsIssued(env, ops, times);
    if ops != [] {
      var n := |ops| - 1;
      RunsAreExclusiveIff(env, ops[..n], times[..n]);
      RunKeepsIssued(env, ops[..n], times[..n]);
      if AlwaysExclusive(env, INITIAL, ops[..n], times[..n]) {
        StepExclusionIff(env, RunFrom(env, INITIAL, ops[..n], times[..n]), ops[n], times[n]);
      }
    }
  }

  // ---- where exclusion ends ----

  /** Without the condition exclusion fails: a lapsed lease, not yet expired by a sweep, is
      renewed after its wavelength was granted again. */
  lemma LapsedRenewBreaksExclusion(env: Env, w: Wavelength)
    ensures
      var ops := [Allocate(Some(w), "e", 10, 0, "a", ""), Allocate(Some(w), "e", 10, 20, "b", ""), Renew("a", 100, "")];
      var s := RunFrom(env, INITIAL, ops, [0, 20, 21]);
      && ClockRuns(env, INITIAL, ops, [0, 20, 21])
      && "a" in s.store && "b" in s.store && !Exclusive(env, s.store, s.clock)
  {
    var op1, op2, op3 := Allocate(Some(w), "e", 10, 0, "a", ""), Allocate(Some(w), "e", 10, 20, "b", ""), Renew("a", 100, "");
    var s1 := Apply(env, INITIAL, op1, 0);
    var s2 := Apply(env, s1, op2, 20);
    var s3 := Apply(env, s2, op3, 21);
    assert s1.store == map["a" := NewLease(env, w, "e", 10, 0, "a", "").lease];
    assert s2.store == s1.store["b" := NewLease(env, w, "e", 10, 20, "b", "").lease];
    RunOfThree(env, INITIAL, op1, op2, op3, 0, 20, 21);
    ClockOfThree(env, INITIAL, op1, op2, op3, 0, 20, 21);
    assert Distinguish("a", "b") && Occupies(env, s3.store["a"], w, 21) && Occupies(env, s3.store["b"], w, 21);
  }

  lemma ClockOfThree(env: Env, s: State, a: Op, b: Op, c: Op, t: Time, u: Time, v: Time)
    requires InOrder(s, a, t) && InOrder(Apply(env, s, a, t), b, u)
    requires InOrder(Apply(env, Apply(env, s, a, t), b, u), c, v)
    ensures ClockRuns(env, s, [a, b, c], [t, u, v])
  {
    RunOfTwo(env, s, a, b, t, u);
    assert [a, b, c][..2] == [a, b] && [t, u, v][..2] == [t, u];
    assert [a, b][..1] == [a] && [t, u][..1] == [t] && [a][..0] == [] && [t][..0] == [];
    assert RunFrom(env, s, [a], [t]) == Apply(env, s, a, t);
    assert ClockRuns(env, s, [a], [t]) && ClockRuns(env, s, [a, b], [t, u]);
  }

  lemma RunOfThree(env: Env, s: State, a: Op, b: Op, c: Op, t: Time, u: Time, v: Time)
    ensures RunFrom(env, s, [a, b, c], [t, u, v]) == Apply(env, Apply(env, Apply(env, s, a, t), b, u), c, v)
  {
    RunOfTwo(env, s, a, b, t, u);
    assert [a, b, c][..2] == [a, b] && [t, u, v][..2] == [t, u];
  }

  lemma RunOfTwo(env: Env, s: State, a: Op, b: Op, t: Time, u: Time)
    ensures RunFrom(env, s, [a, b], [t, u]) == Apply(env, Apply(env, s, a, t), b, u)
  {
    assert [a, b][..1] == [a] && [t, u][..1] == [t];
    assert [a][..0] == [] && [t][..0] == [];
    assert RunFrom(env, s, [a], [t]) == Apply(env, RunFrom(env, s, [], []), a, t);
  }

  /** The conflict scan treats a lease as over at its EndTime, verification only after it:
      under exclusion two leases of one wavelength can both verify only at an instant that
      is the EndTime of one of them. */
  lemma OverlapOnlyAtBoundary(env: Env, st: Store, a: string, b: string, x: LeaseToken, y: LeaseToken, t: Time)
    requires Exclusive(env, st, t) && a in st && b in st && a != b
    requires ListsActive(env, st[a]) && ListsActive(env, st[b]) && env.toKey(st[a].wavelength) == env.toKey(st[b].wavelength)
    requires x.fields.leaseId == a && y.fields.leaseId == b
    requires VerifyOutcome(env, st, x, t, t).Ok? && VerifyOutcome(env, st, y, t, t).Ok?
    ensures st[a].endTime == t || st[b].endTime == t
  {
    assert Distinguish(a, b);
    assert t < st[a].endTime ==> Occupies(env, st[a], st[b].wavelength, t);
  }

  /** That instant is reachable: both tokens are accepted at it. */
  lemma BoundaryOverlapHappens(env: Env, w: Wavelength)
    requires SignsCorrectly(env)
    ensures
      var ops := [Allocate(Some(w), "e", 10, 0, "a", ""), Allocate(Some(w), "e", 10, 10, "b", "")];
      var s := RunFrom(env, INITIAL, ops, [0, 10]);
      && ClockRuns(env, INITIAL, ops, [0, 10]) && s.clock == 10
      && "a" in s.issued && "b" in s.issued && |s.issued["a"]| == 1 && |s.issued["b"]| == 1
      && VerifyOutcome(env, s.store, s.issued["a"][0], 10, 10).Ok?
      && VerifyOutcome(env, s.store, s.issued["b"][0], 10, 10).Ok?
  {
    var op1, op2 := Allocate(Some(w), "e", 10, 0, "a", ""), Allocate(Some(w), "e", 10, 10, "b", "");
    var s1 := Apply(env, INITIAL, op1, 0);
    var s2 := Apply(env, s1, op2, 10);
    assert s1.store == map["a" := NewLease(env, w, "e", 10, 0, "a", "").lease];
    assert s2.store == s1.store["b" := NewLease(env, w, "e", 10, 10, "b", "").lease];
    RunOfTwo(env, INITIAL, op1, op2, 0, 10);
    assert [op1, op2][..1] == [op1] && [0, 10][..1] == [0];
    assert [op1][..0] == [] && [0][..0] == [];
    assert RunFrom(env, INITIAL, [op1], [0]) == s1;
    assert ClockRuns(env, INITIAL, [op1], [0]);
  }

  // ---- token freshness ----

  ghost predicate SameLease(f: TokenFields, g: TokenFields) {
    && f.version == g.version && f.leaseId == g.leaseId && f.operatorId == g.operatorId
    && f.wavelength == g.wavelength && f.endpointId == g.endpointId && f.startTime == g.startTime
  }

  /** The tokens of one lease: signed, alike but for their end times, which increase; the
      last one is the one whose hash the lease carries. */
  ghost predicate TokensOk(env: Env, l: Lease, tokens: seq<LeaseToken>) {
    && tokens != []
    && (forall i :: 0 <= i < |tokens| ==>
          tokens[i].signature == env.sign(tokens[i].fields) && SameLease(tokens[i].fields, tokens[|tokens| - 1].fields))
    && (forall i, j :: 0 <= i < j < |tokens| ==> tokens[i].fields.endTime < tokens[j].fields.endTime)
    && var last := tokens[|tokens| - 1];
       last == MakeToken(env, l, last.fields.nonce) && l.tokenHash == HashToken(env, last)
  }

  ghost predicate IssuedOk(env: Env, s: State) {
    && Keyed(s.store)
    && s.issued.Keys == s.store.Keys
    && forall id :: id in s.store ==> HasTokens(env, s, id)
  }

  ghost predicate HasTokens(env: Env, s: State, id: string)
    requires id in s.store && id in s.issued
  {
    TokensOk(env, s.store[id], s.issued[id])
  }

  lemma FirstToken(env: Env, w: Wavelength, endpoint: string, duration: int, now: Time, id: string, nonce: string)
    ensures var g := NewLease(env, w, endpoint, duration, now, id, nonce); TokensOk(env, g.lease, [g.token])
  {
  }

  lemma RenewalExtends(env: Env, l: Lease, tokens: seq<LeaseToken>, extension: int, nonce: string)
    requires TokensOk(env, l, tokens) && extension > 0
    ensures var g := RenewedLease(env, l, extension, nonce); TokensOk(env, g.lease, tokens + [g.token])
  {
  }

  /** The tokens of a lease do not depend on its status. */
  lemma StatusKeepsTokens(env: Env, l: Lease, status: LeaseStatus, tokens: seq<LeaseToken>)
    requires TokensOk(env, l, tokens)
    ensures TokensOk(env, l.(status := status), tokens)
  {
  }

  lemma GrantKeepsIssued(env: Env, s: State, r: Result<Grant, Error>, clock: Time)
    requires IssuedOk(env, s) && r.Ok? && r.value.lease.id != ""
    requires var id := r.value.lease.id;
      TokensOk(env, r.value.lease, (if id in s.issued then s.issued[id] else []) + [r.value.token])
    ensures IssuedOk(env, State(Stored(s.store, r), clock, Issue(s, r)))
  {
    var s' := State(Stored(s.store, r), clock, Issue(s, r));
    forall id | id in s'.store ensures HasTokens(env, s', id) {
      assert id != r.value.lease.id ==> HasTokens(env, s, id);
    }
  }

  lemma AllocateKeepsIssued(env: Env, s: State, op: Op, now: Time)
    requires IssuedOk(env, s) && op.Allocate?
    ensures IssuedOk(env, Apply(env, s, op, now))
  {
    var r := AllocateOutcome(env, s.store, op.w, op.endpoint, op.duration, now, op.check, op.id, op.nonce);
    if r.Ok? {
      FirstToken(env, op.w.value, op.endpoint, op.duration, now, op.id, op.nonce);
      assert [] + [r.value.token] == [r.value.token];
      GrantKeepsIssued(env, s, r, op.check);
    }
  }

  lemma RenewKeepsIssued(env: Env, s: State, op: Op, now: Time)
    requires IssuedOk(env, s) && op.Renew?
    ensures IssuedOk(env, Apply(env, s, op, now))
  {
    var r := RenewOutcome(env, s.store, op.id, op.extension, op.nonce);
    if r.Ok? {
      assert HasTokens(env, s, op.id);
      RenewalExtends(env, s.store[op.id], s.issued[op.id], op.extension, op.nonce);
      GrantKeepsIssued(env, s, r, now);
    }
  }

  /** Changing only statuses keeps every lease's tokens. */
  lemma StatusStepKeepsIssued(env: Env, s: State, st: Store, now: Time)
    requires IssuedOk(env, s) && st.Keys == s.store.Keys
    requires forall id :: id in st ==> st[id] == s.store[id].(status := st[id].status)
    ensures IssuedOk(env, State(st, now, s.issued))
  {
    forall id | id in st ensures HasTokens(env, State(st, now, s.issued), id) {
      assert HasTokens(env, s, id);
      StatusKeepsTokens(env, s.store[id], st[id].status, s.issued[id]);
    }
  }

  lemma RevokeKeepsIssued(env: Env, s: State, op: Op, now: Time)
    requires IssuedOk(env, s) && op.Revoke?
    ensures IssuedOk(env, Apply(env, s, op, now))
  {
    var r := RevokeOutcome(s.store, op.id);
    StatusStepKeepsIssued(env, s, if r.Ok? then s.store[op.id := r.value] else s.store, now);
  }

  lemma StepKeepsIssued(env: Env, s: State, op: Op, now: Time)
    requires IssuedOk(env, s)
    ensures IssuedOk(env, Apply(env, s, op, now))
  {
    match op
    case Allocate(_, _, _, _, _, _) => AllocateKeepsIssued(env, s, op, now);
    case Renew(_, _, _) => RenewKeepsIssued(env, s, op, now);
    case Revoke(id) => RevokeKeepsIssued(env, s, op, now);
    case Expire => StatusStepKeepsIssued(env, s, ExpireStore(env, s.store, now), now);
  }

  lemma {:induction false} RunKeepsIssued(env: Env, ops: seq<Op>, times: seq<Time>)
    requires |ops| == |times|
    ensures IssuedOk(env, RunFrom(env, INITIAL, ops, times))
  {
    if ops != [] {
      var n := |ops| - 1;
      RunKeepsIssued(env, ops[..n], times[..n]);
      StepKeepsIssued(env, RunFrom(env, INITIAL, ops[..n], times[..n]), ops[n], times[n]);
    }
  }

  /** Token freshness, over every run of the four operations with no condition on clocks or
      renewals: the latest token of an ACTIVE lease is accepted up to and including its
      EndTime; an earlier one is accepted at no time, unless SHA3 maps its text and the
      latest token's text, which differ, to one digest. */
  lemma TokenFreshness(env: Env, ops: seq<Op>, times: seq<Time>, id: string, k: nat, t1: Time, t2: Time)
    requires |ops| == |times| && SignsCorrectly(env) && FormatsFaithfully(env)
    requires id in RunFrom(env, INITIAL, ops, times).issued
    requires k < |RunFrom(env, INITIAL, ops, times).issued[id]|
    ensures
      var s := RunFrom(env, INITIAL, ops, times);
      var tokens := s.issued[id];
      var last := tokens[|tokens| - 1];
      && id in s.store
      && (k == |tokens| - 1 ==>
            (VerifyOutcome(env, s.store, tokens[k], t1, t2).Ok? <==>
             s.store[id].status == Active && t1 <= s.store[id].endTime && t2 <= s.store[id].endTime))
      && (k < |tokens| - 1 && VerifyOutcome(env, s.store, tokens[k], t1, t2).Ok? ==>
            TokenText(env, tokens[k].fields) != TokenText(env, last.fields)
            && env.sha3(TokenText(env, tokens[k].fields)) == env.sha3(TokenText(env, last.fields)))
  {
    RunKeepsIssued(env, ops, times);
    var s := RunFrom(env, INITIAL, ops, times);
    var tokens := s.issued[id];
    var last := tokens[|tokens| - 1];
    assert HasTokens(env, s, id);
    if k < |tokens| - 1 {
      TextsDiffer(env, tokens[k].fields, last.fields);
    }
  }

  lemma TextsDiffer(env: Env, f: TokenFields, g: TokenFields)
    requires FormatsFaithfully(env) && SameLease(f, g) && f.endTime != g.endTime
    ensures TokenText(env, f) != TokenText(env, g)
  {
    var p := TokenPrefix(env, f);
    assert TokenPrefix(env, g) == p;
    assert (p + env.format(f.endTime))[|p|..] == env.format(f.endTime);
    assert (p + env.format(g.endTime))[|p|..] == env.format(g.endTime);
  }

  /** The latest token of a lease in a state of a run. */
  ghost function Latest(s: State, id: string): LeaseToken
    requires id in s.issued && s.issued[id] != []
  {
    s.issued[id][|s.issued[id]| - 1]
  }

  /** Two token texts are the same, or SHA3 maps them to one digest though they differ. */
  ghost predicate SameOrCollide(env: Env, x: string, y: string) {
    x == y || (x != y && env.sha3(x) == env.sha3(y))
  }

  /** What a token has to be to be accepted at t1 and t2. */
  ghost predicate Acceptable(env: Env, s: State, token: LeaseToken, t1: Time, t2: Time) {
    var id := token.fields.leaseId;
    && id in s.store && s.store[id].status == Active && t1 <= s.store[id].endTime && t2 <= token.fields.endTime
    && env.verifies(token.fields, token.signature)
    && id in s.issued && s.issued[id] != []
    && SameOrCollide(env, TokenText(env, token.fields), TokenText(env, Latest(s, id).fields))
  }

  lemma AcceptedInStateIff(env: Env, s: State, token: LeaseToken, t1: Time, t2: Time)
    requires IssuedOk(env, s)
    ensures VerifyOutcome(env, s.store, token, t1, t2).Ok? <==> Acceptable(env, s, token, t1, t2)
  {
    if token.fields.leaseId in s.store {
      assert HasTokens(env, s, token.fields.leaseId);
    }
  }

  /** Over every run, whatever token is presented, issued or not: it is accepted if and only if
      its lease is ACTIVE, neither lease nor token has ended, its signature verifies, and its
      text is that of the latest token of the lease or collides with it under SHA3. */
  lemma AcceptedIff(env: Env, ops: seq<Op>, times: seq<Time>, token: LeaseToken, t1: Time, t2: Time)
    requires |ops| == |times|
    ensures VerifyOutcome(env, RunFrom(env, INITIAL, ops, times).store, token, t1, t2).Ok?
            <==> Acceptable(env, RunFrom(env, INITIAL, ops, times), token, t1, t2)
  {
    RunKeepsIssued(env, ops, times);
    AcceptedInStateIff(env, RunFrom(env, INITIAL, ops, times), token, t1, t2);
  }

  /** The conflict scan treats a lease as over at its EndTime, verification only after it.  So
      in any state of a run that is exclusive at t, two ACTIVE leases of one wavelength both
      verify at t exactly when t is the EndTime of one of them and not after that of the other. */
  lemma BothVerifyIff(env: Env, ops: seq<Op>, times: seq<Time>, a: string, b: string, t: Time)
    requires |ops| == |times| && SignsCorrectly(env) && FormatsFaithfully(env) && a != b
    requires var s := RunFrom(env, INITIAL, ops, times);
      && Exclusive(env, s.store, t) && a in s.store && b in s.store
      && ListsActive(env, s.store[a]) && ListsActive(env, s.store[b])
      && env.toKey(s.store[a].wavelength) == env.toKey(s.store[b].wavelength)
    ensures
      var s := RunFrom(env, INITIAL, ops, times);
      && a in s.issued && b in s.issued && s.issued[a] != [] && s.issued[b] != []
      && (VerifyOutcome(env, s.store, Latest(s, a), t, t).Ok? && VerifyOutcome(env, s.store, Latest(s, b), t, t).Ok?
          <==> s.store[a].endTime == t <= s.store[b].endTime || s.store[b].endTime == t <= s.store[a].endTime)
  {
    var s := RunFrom(env, INITIAL, ops, times);
    RunKeepsIssued(env, ops, times);
    assert HasTokens(env, s, a) && HasTokens(env, s, b);
    TokenFreshness(env, ops, times, a, |s.issued[a]| - 1, t, t);
    TokenFreshness(env, ops, times, b, |s.issued[b]| - 1, t, t);
    if t <= s.store[a].endTime && t <= s.store[b].endTime {
      OverlapOnlyAtBoundary(env, s.store, a, b, Latest(s, a), Latest(s, b), t);
    }
  }
}
