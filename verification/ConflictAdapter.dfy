/** The adapter that maps registry leases onto the bit-woven index
    (flr/internal/bitweave/adapter.go). */
module ConflictAdapter {
  import opened Words
  import opened Bitweave
  import opened Wrappers

  /** ChannelNum and Band are Go int32 values. */
  datatype Wavelength = Wavelength(channelNum: int, band: int)

  datatype Lease = Lease(id: string, wavelength: Option<Wavelength>, operatorId: string)

  /** Each step wraps to 16 bits, as Go's uint16 arithmetic does. */
  function TenantHash(operatorId: string): (h: nat)
    ensures h < UINT16
  {
    if operatorId == "" then 0
    else
      var n := |operatorId| - 1;
      (TenantHash(operatorId[..n]) * 31 + operatorId[n] as int % UINT16) % UINT16
  }

  /** leaseTenantID: a 16-bit polynomial hash over the runes of the operator ID. */
  method LeaseTenantID(operatorId: string) returns (h: nat)
    ensures h == TenantHash(operatorId)
  {
    h := 0;
    for i := 0 to |operatorId|
      invariant h == TenantHash(operatorId[..i])
    {
      assert operatorId[..i + 1][..i] == operatorId[..i];
      h := (h * 31 + operatorId[i] as int % UINT16) % UINT16;
    }
    assert operatorId[..|operatorId|] == operatorId;
  }

  /** The same polynomial over the integers, most significant term first. */
  ghost function Polynomial(operatorId: string): nat {
    if operatorId == "" then 0
    else operatorId[0] as int * Power31(|operatorId| - 1) + Polynomial(operatorId[1..])
  }

  ghost function Power31(n: nat): nat {
    if n == 0 then 1 else 31 * Power31(n - 1)
  }

  lemma {:induction false} PolynomialAppend(s: string, c: char)
    ensures Polynomial(s + [c]) == 31 * Polynomial(s) + c as int
  {
    if s == "" {
      assert Polynomial([c]) == c as int * Power31(0) + Polynomial([]);
    } else {
      var n := |s| - 1;
      PolynomialAppend(s[1..], c);
      assert (s + [c])[1..] == s[1..] + [c];
      assert s[0] as int * (31 * Power31(n)) == 31 * (s[0] as int * Power31(n));
    }
  }

  /** Wrapping at every step is wrapping once at the end. */
  lemma WrapOnce(h: nat, p: nat, c: nat)
    requires h == p % UINT16
    ensures (h * 31 + c % UINT16) % UINT16 == (31 * p + c) % UINT16
  {
  }

  /** The hash is the polynomial of the runes in 31, modulo 2^16. */
  lemma {:induction false} TenantHashIsPolynomial(operatorId: string)
    ensures TenantHash(operatorId) == Polynomial(operatorId) % UINT16
  {
    if operatorId != "" {
      var n := |operatorId| - 1;
      TenantHashIsPolynomial(operatorId[..n]);
      PolynomialAppend(operatorId[..n], operatorId[n]);
      assert operatorId[..n] + [operatorId[n]] == operatorId;
      WrapOnce(TenantHash(operatorId[..n]), Polynomial(operatorId[..n]), operatorId[n] as int);
    }
  }

  // ---- what a conflict between two leases is ----

  ghost function ChannelOf(l: Lease): int {
    if l.wavelength.Some? then l.wavelength.value.channelNum else 0
  }

  ghost function BandOf(l: Lease): int {
    if l.wavelength.Some? then l.wavelength.value.band else 0
  }

  ghost predicate Same(x: int, y: int, modulus: nat)
    requires modulus > 0
  {
    x % modulus == y % modulus
  }

  /** One channel of one band; one port of one band, where the port is the low half of the
      channel; one channel of one band with different tenant hashes. */
  ghost predicate Collide(kind: ConflictType, l: Lease, p: Lease) {
    match kind
    case LambdaCollision => Same(ChannelOf(l), ChannelOf(p), UINT32) && Same(BandOf(l), BandOf(p), UINT16)
    case AwgPortCollision => Same(BandOf(l), BandOf(p), UINT16) && Same(ChannelOf(l), ChannelOf(p), UINT16)
    case TenantIsolation =>
      && Same(ChannelOf(l), ChannelOf(p), UINT32) && Same(BandOf(l), BandOf(p), UINT16)
      && !Same(Polynomial(l.operatorId), Polynomial(p.operatorId), UINT16)
  }

  /** Band stands for the AWG, the channel also for its port; every lease is exclusive. */
  ghost function AttributesOf(l: Lease): (a: Attributes)
    ensures InRange(a)
  {
    var w := if l.wavelength.Some? then l.wavelength.value else Wavelength(0, 0);
    Attributes(l.id, w.channelNum % UINT32, w.band % UINT16, TenantHash(l.operatorId), w.channelNum % UINT16, true)
  }

  method Convert(l: Lease) returns (a: Attributes)
    ensures a == AttributesOf(l)
  {
    var tenant := LeaseTenantID(l.operatorId);
    var w := if l.wavelength.Some? then l.wavelength.value else Wavelength(0, 0);
    a := Attributes(l.id, w.channelNum % UINT32, w.band % UINT16, tenant, w.channelNum % UINT16, true);
  }

  function QueryFor(a: Attributes, excludeSlot: int): Query {
    Query(a.channelNum, a.awgId, a.tenantId, a.awgPort, a.exclusive, excludeSlot)
  }

  lemma AttributesCollide(kind: ConflictType, l: Lease, p: Lease)
    ensures Conflicts(kind, AttributesOf(l), QueryFor(AttributesOf(p), -1)) <==> Collide(kind, l, p)
  {
    TenantHashIsPolynomial(l.operatorId);
    TenantHashIsPolynomial(p.operatorId);
  }

  /** The ID-to-slot map and the table name each other: every ID maps to a live slot that
      carries it, and every live slot is the one its ID maps to. */
  ghost predicate Linked(slots: map<string, nat>, t: Table) {
    && (forall id :: id in slots ==> IdLinked(slots, t, id))
    && (forall s :: 0 <= s < |t| ==> SlotLinked(slots, t, s))
  }

  ghost predicate IdLinked(slots: map<string, nat>, t: Table, id: string) {
    id in slots && slots[id] < |t| && t[slots[id]].Some? && t[slots[id]].value.leaseId == id
  }

  ghost predicate SlotLinked(slots: map<string, nat>, t: Table, s: int)
    requires 0 <= s < |t|
  {
    t[s].Some? ==> t[s].value.leaseId in slots && slots[t[s].value.leaseId] == s
  }

  ghost predicate Reports(results: seq<Conflict>, kind: ConflictType, id: string) {
    exists c :: c in results && c.kind == kind && c.leaseId == id
  }

  /** The first n leases sit in slots 0..n, and nothing else does. */
  ghost predicate Loaded(t: Table, loads: seq<Attributes>, n: nat) {
    && n <= |loads| && n <= |t|
    && (forall i :: 0 <= i < n ==> t[i] == Some(loads[i]))
    && (forall s :: n <= s < |t| ==> t[s].None?)
  }

  /** Each ID maps to the last slot that carries it. */
  ghost predicate LastSlots(slots: map<string, nat>, loads: seq<Attributes>, n: nat)
    requires n <= |loads|
  {
    && (forall i :: 0 <= i < n ==> loads[i].leaseId in slots && i <= slots[loads[i].leaseId])
    && (forall id :: id in slots ==> slots[id] < n && loads[slots[id]].leaseId == id)
  }

  ghost predicate DistinctIds(loads: seq<Attributes>, n: nat)
    requires n <= |loads|
  {
    forall i, j :: 0 <= i < j < n ==> loads[i].leaseId != loads[j].leaseId
  }

  /** A rebuilt engine is linked exactly when the loaded IDs are distinct: a duplicate
      leaves an earlier slot live that no ID reaches, so no removal can clear it. */
  lemma RebuiltIsLinkedIffDistinct(slots: map<string, nat>, t: Table, loads: seq<Attributes>, n: nat)
    requires Loaded(t, loads, n) && LastSlots(slots, loads, n)
    ensures Linked(slots, t) <==> DistinctIds(loads, n)
  {
    if Linked(slots, t) {
      forall i, j | 0 <= i < j < n ensures loads[i].leaseId != loads[j].leaseId {
        assert SlotLinked(slots, t, i) && SlotLinked(slots, t, j);
      }
    }
    if DistinctIds(loads, n) {
      forall s | 0 <= s < |t| ensures SlotLinked(slots, t, s) {
        if s < n {
          assert loads[slots[loads[s].leaseId]].leaseId == loads[s].leaseId;
        }
      }
    }
  }

  /** The attributes of the registered leases by ID. */
  ghost function LeasesOf(slots: map<string, nat>, t: Table): map<string, Attributes>
    requires Linked(slots, t)
  {
    map id | id in slots :: assert IdLinked(slots, t, id); t[slots[id]].value
  }

  lemma LinkInserted(slots: map<string, nat>, t: Table, slot: nat, a: Attributes)
    requires Linked(slots, t) && slot < |t| && t[slot].None? && a.leaseId !in slots
    ensures Linked(slots[a.leaseId := slot], t[slot := Some(a)])
    ensures LeasesOf(slots[a.leaseId := slot], t[slot := Some(a)]) == LeasesOf(slots, t)[a.leaseId := a]
  {
    var slots', t' := slots[a.leaseId := slot], t[slot := Some(a)];
    forall id | id in slots' ensures IdLinked(slots', t', id) {
      assert id != a.leaseId ==> IdLinked(slots, t, id);
    }
    forall s | 0 <= s < |t'| ensures SlotLinked(slots', t', s) {
      assert SlotLinked(slots, t, s);
    }
  }

  lemma LinkRemoved(slots: map<string, nat>, t: Table, id: string)
    requires Linked(slots, t) && id in slots && IdLinked(slots, t, id)
    ensures Linked(slots - {id}, t[slots[id] := None])
    ensures LeasesOf(slots - {id}, t[slots[id] := None]) == LeasesOf(slots, t) - {id}
  {
    var slots', t' := slots - {id}, t[slots[id] := None];
    forall other | other in slots' ensures IdLinked(slots', t', other) {
      assert IdLinked(slots, t, other);
    }
    forall s | 0 <= s < |t'| ensures SlotLinked(slots', t', s) {
      assert SlotLinked(slots, t, s);
    }
  }

  lemma LoadedNext(slots: map<string, nat>, t: Table, loads: seq<Attributes>, n: nat)
    requires Loaded(t, loads, n) && LastSlots(slots, loads, n) && n < |loads| && n < |t|
    ensures Loaded(t[n := Some(loads[n])], loads, n + 1)
    ensures LastSlots(slots[loads[n].leaseId := n], loads, n + 1)
  {
  }

  ghost function ExcludedSlot(slots: map<string, nat>, renewLeaseID: string): int {
    if renewLeaseID != "" && renewLeaseID in slots then slots[renewLeaseID] else -1
  }

  /** A registered lease other than the one being renewed conflicts with the proposal. */
  ghost predicate InConflict(leases: map<string, Attributes>, proposed: Attributes, renewLeaseID: string, kind: ConflictType, id: string) {
    && id in leases
    && !(id == renewLeaseID && renewLeaseID != "")
    && Conflicts(kind, leases[id], QueryFor(proposed, -1))
  }

  ghost function AttributesOfAll(leases: map<string, Lease>): map<string, Attributes> {
    map id | id in leases :: AttributesOf(leases[id])
  }

  ghost predicate Collides(leases: map<string, Lease>, proposed: Lease, renewLeaseID: string, kind: ConflictType, id: string) {
    id in leases && !(id == renewLeaseID && renewLeaseID != "") && Collide(kind, leases[id], proposed)
  }

  lemma InConflictIff(leases: map<string, Lease>, proposed: Lease, renewLeaseID: string, kind: ConflictType, id: string)
    ensures InConflict(AttributesOfAll(leases), AttributesOf(proposed), renewLeaseID, kind, id)
            <==> Collides(leases, proposed, renewLeaseID, kind, id)
  {
    if id in leases {
      AttributesCollide(kind, leases[id], proposed);
    }
  }

  /** The first n leases of a list by ID, a later one replacing an earlier one. */
  ghost function ById(leases: seq<Lease>, n: nat): map<string, Lease>
    requires n <= |leases|
  {
    if n == 0 then map[] else ById(leases, n - 1)[leases[n - 1].id := leases[n - 1]]
  }

  lemma ReportsExactly(
    slots: map<string, nat>, t: Table, words: nat, proposed: Attributes, renewLeaseID: string, kind: ConflictType, id: string)
    requires Linked(slots, t) && 64 * words <= |t|
    requires forall s :: 64 * words <= s < |t| ==> t[s].None?
    ensures
      var q := QueryFor(proposed, ExcludedSlot(slots, renewLeaseID));
      Reports(Scan(t, q, words), kind, id) <==> InConflict(LeasesOf(slots, t), proposed, renewLeaseID, kind, id)
  {
    var q := QueryFor(proposed, ExcludedSlot(slots, renewLeaseID));
    if Reports(Scan(t, q, words), kind, id) {
      var c :| c in Scan(t, q, words) && c.kind == kind && c.leaseId == id;
      ScanExact(t, q, words, c);
      assert SlotLinked(slots, t, c.slotIndex);
    }
    if InConflict(LeasesOf(slots, t), proposed, renewLeaseID, kind, id) {
      assert IdLinked(slots, t, id);
      assert renewLeaseID in slots ==> IdLinked(slots, t, renewLeaseID);
      ScanExact(t, q, words, Conflict(kind, id, slots[id]));
    }
  }

  lemma AttributesAdded(leases: map<string, Lease>, l: Lease)
    ensures AttributesOfAll(leases[l.id := l]) == AttributesOfAll(leases)[l.id := AttributesOf(l)]
  {
  }

  lemma AttributesRemoved(leases: map<string, Lease>, id: string)
    ensures AttributesOfAll(leases - {id}) == AttributesOfAll(leases) - {id}
  {
  }

  /** Each ID names the lease loaded into its slot. */
  ghost predicate Named(slots: map<string, nat>, list: seq<Lease>, n: nat, leases: map<string, Lease>) {
    && n <= |list| && leases.Keys == slots.Keys
    && forall id :: id in slots ==> slots[id] < n && leases[id] == list[slots[id]]
  }

  lemma NamedLeases(
    slots: map<string, nat>, t: Table, list: seq<Lease>, loads: seq<Attributes>, n: nat, leases: map<string, Lease>)
    requires Named(slots, list, n, leases) && |loads| == |list| && Loaded(t, loads, n) && Linked(slots, t)
    requires forall i :: 0 <= i < |list| ==> loads[i] == AttributesOf(list[i])
    ensures LeasesOf(slots, t) == AttributesOfAll(leases)
  {
    forall id | id in slots ensures LeasesOf(slots, t)[id] == AttributesOfAll(leases)[id] {
      assert IdLinked(slots, t, id);
    }
  }

  ghost function Loads(list: seq<Lease>): (loads: seq<Attributes>)
    ensures |loads| == |list|
  {
    seq(|list|, i requires 0 <= i < |list| => AttributesOf(list[i]))
  }

  /** The first n leases of the list have been loaded. */
  ghost predicate Rebuilt(slots: map<string, nat>, t: Table, list: seq<Lease>, n: nat, leases: map<string, Lease>) {
    && n <= |list| && Loaded(t, Loads(list), n) && LastSlots(slots, Loads(list), n)
    && Named(slots, list, n, leases) && leases == ById(list, n)
  }

  lemma RebuiltNext(slots: map<string, nat>, t: Table, list: seq<Lease>, n: nat, leases: map<string, Lease>)
    requires Rebuilt(slots, t, list, n, leases) && n < |list| && n < |t|
    ensures Rebuilt(slots[list[n].id := n], t[n := Some(AttributesOf(list[n]))], list, n + 1, leases[list[n].id := list[n]])
  {
    LoadedNext(slots, t, Loads(list), n);
  }

  lemma RebuiltIsValidIff(slots: map<string, nat>, t: Table, list: seq<Lease>, n: nat, leases: map<string, Lease>)
    requires Rebuilt(slots, t, list, n, leases)
    ensures Linked(slots, t) && LeasesOf(slots, t) == AttributesOfAll(leases)
            <==> forall i, j :: 0 <= i < j < n ==> list[i].id != list[j].id
  {
    RebuiltIsLinkedIffDistinct(slots, t, Loads(list), n);
    if Linked(slots, t) {
      NamedLeases(slots, t, list, Loads(list), n, leases);
    }
    if forall i, j :: 0 <= i < j < n ==> list[i].id != list[j].id {
      assert DistinctIds(Loads(list), n);
    } else {
      var i, j :| 0 <= i < j < n && list[i].id == list[j].id;
      assert Loads(list)[i].leaseId == Loads(list)[j].leaseId;
    }
  }

  class ConflictEngine {
    var index: LeaseIndex
    var slots: map<string, nat>
    /** The registered leases by ID. */
    ghost var leases: map<string, Lease>

    ghost predicate Valid()
      reads this, index, index.Planes
    {
      index.Valid() && Linked(slots, index.table) && LeasesOf(slots, index.table) == AttributesOfAll(leases)
    }

    constructor ()
      ensures Valid() && fresh(index) && fresh(index.Planes) && leases == map[] && index.count == 0
    {
      index := new LeaseIndex();
      slots := map[];
      leases := map[];
    }

    lemma RegisteredIffSlot(id: string)
      requires Valid()
      ensures id in slots <==> id in leases
    {
      assert id in LeasesOf(slots, index.table) <==> id in AttributesOfAll(leases);
    }

    /** Adds a lease once.  The index is full after 1024 insertions over its life,
        whatever was removed since. */
    method IndexLease(l: Lease) returns (ok: bool)
      requires Valid()
      modifies this, index, index.Planes
      ensures Valid() && index == old(index)
      ensures ok <==> l.id in old(leases) || old(index.count) < MAX_LEASES
      ensures !ok || l.id in old(leases) ==> leases == old(leases) && index.count == old(index.count)
      ensures ok && l.id !in old(leases) ==> leases == old(leases)[l.id := l] && index.count == old(index.count) + 1
    {
      RegisteredIffSlot(l.id);
      if l.id in slots {
        return true;
      }
      var a := Convert(l);
      ghost var t := index.table;
      assert index.count < MAX_LEASES ==> t[index.count].None?;
      var slot := index.Insert(a);
      if slot.None? {
        return false;
      }
      LinkInserted(slots, t, slot.value, a);
      AttributesAdded(leases, l);
      slots := slots[l.id := slot.value];
      leases := leases[l.id := l];
      return true;
    }

    method RemoveLease(leaseID: string)
      requires Valid()
      modifies this, index, index.Planes
      ensures Valid() && index == old(index) && index.count == old(index.count)
      ensures leases == old(leases) - {leaseID}
    {
      RegisteredIffSlot(leaseID);
      if leaseID !in slots {
        return;
      }
      assert IdLinked(slots, index.table, leaseID);
      LinkRemoved(slots, index.table, leaseID);
      AttributesRemoved(leases, leaseID);
      index.Remove(slots[leaseID]);
      slots := slots - {leaseID};
      leases := leases - {leaseID};
    }

    /** The answer names, for each kind, exactly the registered leases in conflict, other
        than the one being renewed. */
    method CheckLeaseConflicts(proposed: Lease, renewLeaseID: string) returns (results: seq<Conflict>)
      requires Valid()
      ensures StrictlyOrdered(results)
      ensures forall kind, id :: Reports(results, kind, id) <==> Collides(leases, proposed, renewLeaseID, kind, id)
    {
      var excludeSlot: int := -1;
      if renewLeaseID != "" && renewLeaseID in slots {
        excludeSlot := slots[renewLeaseID];
      }
      var a := Convert(proposed);
      var q := QueryFor(a, excludeSlot);
      results := index.CheckConflicts(q);
      ScanOrdered(index.table, q, index.Words());
      forall s | 64 * index.Words() <= s < MAX_LEASES ensures index.table[s].None? {
        index.FreeBeyondCount(s);
      }
      forall kind, id ensures Reports(results, kind, id) <==> Collides(leases, proposed, renewLeaseID, kind, id) {
        ReportsExactly(slots, index.table, index.Words(), a, renewLeaseID, kind, id);
        InConflictIff(leases, proposed, renewLeaseID, kind, id);
      }
    }

    method LoadNext(list: seq<Lease>, i: nat) returns (ok: bool)
      requires index.Valid() && index.count == i < |list| && Rebuilt(slots, index.table, list, i, leases)
      modifies this, index, index.Planes
      ensures index == old(index) && index.Valid()
      ensures ok <==> i < MAX_LEASES
      ensures var n := if ok then i + 1 else i; index.count == n && Rebuilt(slots, index.table, list, n, leases)
    {
      var a := Convert(list[i]);
      ghost var t := index.table;
      var slot := index.Insert(a);
      if slot.None? {
        return false;
      }
      RebuiltNext(slots, t, list, i, leases);
      slots := slots[list[i].id := slot.value];
      leases := leases[list[i].id := list[i]];
      return true;
    }

    /** Rebuilds from a list, in order; stops with an error when the index is full. */
    method RebuildFrom(list: seq<Lease>) returns (ok: bool, n: nat)
      modifies this
      ensures fresh(index) && fresh(index.Planes) && index.Valid() && index.count == n
      ensures ok <==> |list| <= MAX_LEASES
      ensures n == if ok then |list| else MAX_LEASES
      ensures leases == ById(list, n)
      ensures Valid() <==> forall i, j :: 0 <= i < j < n ==> list[i].id != list[j].id
    {
      index := new LeaseIndex();
      slots := map[];
      leases := map[];
      ok, n := true, 0;
      while n < |list| && ok
        invariant fresh(index) && fresh(index.Planes) && index.Valid()
        invariant index.count == n <= |list| && Rebuilt(slots, index.table, list, n, leases)
        invariant n <= MAX_LEASES && (!ok ==> n == MAX_LEASES < |list|)
        decreases |list| - n, ok
      {
        ok := LoadNext(list, n);
        n := if ok then n + 1 else n;
      }
      RebuiltIsValidIff(slots, index.table, list, n, leases);
    }
  }
}
