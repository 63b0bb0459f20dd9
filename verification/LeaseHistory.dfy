/** What the records and tokens of the lease registry say about the run that produced them
    (flr/internal/registry/engine.go, with the token functions of
    flr/internal/crypto/engine.go). */
module LeaseHistory {
  import opened LeaseRegistry
  import opened Wrappers

  ghost function After(env: Env, ops: seq<Op>, times: seq<Time>, n: nat): State
    requires |ops| == |times| && n <= |ops|
  {
    RunFrom(env, INITIAL, ops[..n], times[..n])
  }

  lemma AfterNext(env: Env, ops: seq<Op>, times: seq<Time>, n: nat)
    requires |ops| == |times| && n < |ops|
    ensures After(env, ops, times, n + 1) == Apply(env, After(env, ops, times, n), ops[n], times[n])
  {
    assert ops[..n + 1][..n] == ops[..n] && times[..n + 1][..n] == times[..n];
  }

  lemma AfterKeyed(env: Env, ops: seq<Op>, times: seq<Time>, n: nat)
    requires |ops| == |times| && n <= |ops|
    ensures Keyed(After(env, ops, times, n).store)
  {
    RunKeepsIssued(env, ops[..n], times[..n]);
  }

  // ---- when a lease is granted ----

  /** A request is granted exactly when it is complete, its ID is new, and no ACTIVE lease the
      operator lists holds the wavelength key past the time of the scan. */
  lemma GrantedIff(
    env: Env, st: Store, w: Option<Wavelength>, endpoint: string, duration: int, now: Time, check: Time, id: string, nonce: string)
    requires Keyed(st)
    ensures AllocateOutcome(env, st, w, endpoint, duration, now, check, id, nonce).Ok? <==>
      && w.Some? && endpoint != "" && duration > 0 && id != "" && id !in st
      && forall other :: other in st && env.toKey(st[other].wavelength) == env.toKey(w.value) ==>
           || st[other].status != Active || st[other].endTime <= check
           || (env.operatorId != "" && st[other].operatorId != env.operatorId)
  {
    if w.Some? && HasConflict(env, st, w.value, "", check) {
      var other :| other in st && st[other].id != "" && Occupies(env, st[other], w.value, check);
    }
  }

  // ---- what a record says ----

  /** The time added to a lease by the renewals that found it ACTIVE. */
  ghost function Extended(env: Env, ops: seq<Op>, times: seq<Time>, id: string, n: nat): int
    requires |ops| == |times| && n <= |ops|
  {
    if n == 0 then 0
    else
      var st, op := After(env, ops, times, n - 1).store, ops[n - 1];
      Extended(env, ops, times, id, n - 1)
      + if op.Renew? && op.id == id && op.extension > 0 && id in st && st[id].status == Active then op.extension else 0
  }

  /** Operation a granted the lease: the record has what was asked for, starts when it was
      granted, and ends after the time asked for and every extension since. */
  ghost predicate GrantedAt(env: Env, ops: seq<Op>, times: seq<Time>, n: nat, id: string, l: Lease, a: nat)
    requires |ops| == |times| && n <= |ops|
  {
    && a < n && ops[a].Allocate? && ops[a].id == id && ops[a].w == Some(l.wavelength)
    && l.id == id && l.endpointId == ops[a].endpoint && l.operatorId == env.operatorId && l.startTime == times[a]
    && l.endTime == times[a] + ops[a].duration + Extended(env, ops, times, id, n)
  }

  lemma {:induction false} NotYetExtended(env: Env, ops: seq<Op>, times: seq<Time>, id: string, n: nat)
    requires |ops| == |times| && n <= |ops| && id !in After(env, ops, times, n).store
    ensures Extended(env, ops, times, id, n) == 0
  {
    if n > 0 {
      AfterNext(env, ops, times, n - 1);
      NotYetExtended(env, ops, times, id, n - 1);
    }
  }

  /** What one operation does to the record of one lease that is already there. */
  lemma RecordStep(env: Env, s: State, op: Op, now: Time, id: string)
    requires Keyed(s.store) && id in s.store
    ensures id in Apply(env, s, op, now).store
    ensures var l, l' := s.store[id], Apply(env, s, op, now).store[id];
      && l'.id == l.id && l'.wavelength == l.wavelength && l'.endpointId == l.endpointId
      && l'.operatorId == l.operatorId && l'.startTime == l.startTime
      && l'.endTime == l.endTime
           + (if op.Renew? && op.id == id && op.extension > 0 && l.status == Active then op.extension else 0)
      && l'.status ==
           (if op.Revoke? && op.id == id then Revoked
            else if op.Expire? && l.status == Active && now > l.endTime
                    && (env.operatorId == "" || l.operatorId == env.operatorId) then Expired
            else l.status)
  {
  }

  /** Every record of every run is the one its allocation granted, extended by exactly the
      renewals that found it ACTIVE. */
  lemma {:induction false} RecordsAsGranted(env: Env, ops: seq<Op>, times: seq<Time>, n: nat, id: string) returns (a: nat)
    requires |ops| == |times| && n <= |ops| && id in After(env, ops, times, n).store
    ensures GrantedAt(env, ops, times, n, id, After(env, ops, times, n).store[id], a)
  {
    AfterNext(env, ops, times, n - 1);
    AfterKeyed(env, ops, times, n - 1);
    var s, op := After(env, ops, times, n - 1), ops[n - 1];
    if id in s.store {
      a := RecordsAsGranted(env, ops, times, n - 1, id);
      RecordStep(env, s, op, times[n - 1], id);
    } else {
      a := n - 1;
      NotYetExtended(env, ops, times, id, n - 1);
    }
  }

  // ---- what a token says ----

  /** Every token of every run describes its lease as recorded, apart from the end time, which
      only the latest has; and the engine signed it. */
  lemma TokensDescribeLease(env: Env, ops: seq<Op>, times: seq<Time>, id: string, k: nat)
    requires |ops| == |times|
    requires var s := RunFrom(env, INITIAL, ops, times); id in s.issued && k < |s.issued[id]|
    ensures
      var s := RunFrom(env, INITIAL, ops, times);
      id in s.store &&
      var l, token, n := s.store[id], s.issued[id][k], |s.issued[id]|;
      && token.fields == TokenFields(
           1, id, env.operatorId, l.wavelength, l.endpointId, l.startTime, token.fields.endTime, token.fields.nonce)
      && token.signature == env.sign(token.fields)
      && (if k == n - 1 then token.fields.endTime == l.endTime else token.fields.endTime < l.endTime)
  {
    RunKeepsIssued(env, ops, times);
    assert HasTokens(env, RunFrom(env, INITIAL, ops, times), id);
  }

  ghost function Join(parts: seq<string>): string {
    if parts == [] then "" else if |parts| == 1 then parts[0] else parts[0] + (":" + Join(parts[1..]))
  }

  lemma {:induction false} JoinBinds(p: seq<string>, q: seq<string>, i: nat)
    requires i < |p| == |q| && q == p[i := q[i]] && Join(p) == Join(q)
    ensures p[i] == q[i]
  {
    if |p| > 1 && i == 0 {
      var rest := ":" + Join(p[1..]);
      assert q[1..] == p[1..] && |p[0]| == |q[0]|;
      assert p[0] == (p[0] + rest)[..|p[0]|] && q[0] == (q[0] + rest)[..|q[0]|];
    } else if |p| > 1 {
      assert (p[0] + (":" + Join(p[1..])))[|p[0]| + 1..] == Join(p[1..]);
      assert (q[0] + (":" + Join(q[1..])))[|p[0]| + 1..] == Join(q[1..]);
      JoinBinds(p[1..], q[1..], i - 1);
    }
  }

  ghost function Parts(env: Env, f: TokenFields): seq<string> {
    [f.leaseId, f.operatorId, f.endpointId, env.toKey(f.wavelength), env.decimal(f.version), env.format(f.startTime), env.format(f.endTime)]
  }

  lemma JoinOfSeven(a: string, b: string, c: string, d: string, e: string, f: string, g: string)
    ensures Join([a, b, c, d, e, f, g]) ==
      a + ":" + b + ":" + c + ":" + d + ":" + e + ":" + f + ":" + g
  {
    assert Join([g]) == g;
    assert [f, g][1..] == [g] && [e, f, g][1..] == [f, g] && [d, e, f, g][1..] == [e, f, g];
    assert [c, d, e, f, g][1..] == [d, e, f, g] && [b, c, d, e, f, g][1..] == [c, d, e, f, g];
    assert [a, b, c, d, e, f, g][1..] == [b, c, d, e, f, g];
    assert Join([e, f, g]) == e + (":" + (f + (":" + g)));
    assert Join([c, d, e, f, g]) == c + (":" + (d + (":" + Join([e, f, g]))));
    assert Join([a, b, c, d, e, f, g]) == a + (":" + (b + (":" + Join([c, d, e, f, g]))));
  }

  /** The hashed text is seven renderings joined by colons, and depends on each: texts of tokens
      that differ in one rendering only are different. */
  lemma TextBindsEachPart(env: Env, f: TokenFields, g: TokenFields, i: nat)
    ensures TokenText(env, f) == Join(Parts(env, f))
    ensures i < 7 && Parts(env, g) == Parts(env, f)[i := Parts(env, g)[i]] && TokenText(env, f) == TokenText(env, g) ==>
      Parts(env, f)[i] == Parts(env, g)[i]
  {
    var p, q := Parts(env, f), Parts(env, g);
    JoinOfSeven(p[0], p[1], p[2], p[3], p[4], p[5], p[6]);
    JoinOfSeven(q[0], q[1], q[2], q[3], q[4], q[5], q[6]);
    if i < 7 && q == p[i := q[i]] && Join(p) == Join(q) {
      JoinBinds(p, q, i);
    }
  }

  // ---- the end of a lease ----

  ghost predicate Ended(s: State, id: string) {
    id in s.store && s.store[id].status != Active
  }

  /** A lease that has left ACTIVE stays out of it for the rest of the run; and one that is
      REVOKED stays that. */
  lemma {:induction false} EndedStaysEnded(env: Env, ops: seq<Op>, times: seq<Time>, id: string, n: nat, m: nat)
    requires |ops| == |times| && n <= m <= |ops| && Ended(After(env, ops, times, n), id)
    ensures Ended(After(env, ops, times, m), id)
    ensures After(env, ops, times, n).store[id].status == Revoked ==> After(env, ops, times, m).store[id].status == Revoked
    decreases m - n
  {
    if n < m {
      EndedStaysEnded(env, ops, times, id, n, m - 1);
      AfterNext(env, ops, times, m - 1);
      AfterKeyed(env, ops, times, m - 1);
      RecordStep(env, After(env, ops, times, m - 1), ops[m - 1], times[m - 1], id);
    }
  }

  /** After RevokeLease of a lease on record it is REVOKED, and no token of it, issued or not, is
      accepted at any later point of the run. */
  lemma RevokeIsFinal(env: Env, ops: seq<Op>, times: seq<Time>, n: nat, m: nat, token: LeaseToken, t1: Time, t2: Time)
    requires |ops| == |times| && n < m <= |ops| && ops[n] == Revoke(token.fields.leaseId)
    requires token.fields.leaseId in After(env, ops, times, n).store
    ensures var s := After(env, ops, times, m);
      && token.fields.leaseId in s.store && s.store[token.fields.leaseId].status == Revoked
      && VerifyOutcome(env, s.store, token, t1, t2) == Err(NotActive)
  {
    var id := token.fields.leaseId;
    AfterNext(env, ops, times, n);
    AfterKeyed(env, ops, times, n);
    AfterKeyed(env, ops, times, m);
    RecordStep(env, After(env, ops, times, n), ops[n], times[n], id);
    EndedStaysEnded(env, ops, times, id, n + 1, m);
  }

  /** A sweep leaves exactly the ACTIVE leases of the operator that have ended EXPIRED, and no
      token of those is accepted at any later point of the run. */
  lemma ExpireIsFinal(env: Env, ops: seq<Op>, times: seq<Time>, n: nat, m: nat, token: LeaseToken, t1: Time, t2: Time)
    requires |ops| == |times| && n < m <= |ops| && ops[n] == Expire && token.fields.leaseId in After(env, ops, times, n).store
    ensures
      var id := token.fields.leaseId;
      var l, st := After(env, ops, times, n).store[id], After(env, ops, times, n + 1).store;
      && id in st
      && (if l.status == Active && times[n] > l.endTime && (env.operatorId == "" || l.operatorId == env.operatorId)
          then st[id] == l.(status := Expired) && VerifyOutcome(env, After(env, ops, times, m).store, token, t1, t2) == Err(NotActive)
          else st[id] == l)
  {
    var id := token.fields.leaseId;
    AfterNext(env, ops, times, n);
    AfterKeyed(env, ops, times, n);
    AfterKeyed(env, ops, times, m);
    if Ended(After(env, ops, times, n + 1), id) {
      EndedStaysEnded(env, ops, times, id, n + 1, m);
    }
  }
}
