/** The bit-woven conflict index (flr/internal/bitweave/bitweave.go).

    Lease attributes are transposed into bit planes: bit `slot % 64` of word `slot / 64`
    of plane p is bit p of the attribute stored at `slot`.  The class keeps, as a ghost,
    the plain table the planes stand for; `Valid` ties the two together. */
module Bitweave {
  import opened Words
  import opened Wrappers

  const MAX_LEASES := 1024
  const WORDS_PER_PLANE := 16

  const UINT32 := 0x1_0000_0000
  const UINT16 := 0x1_0000

  datatype Attributes = Attributes(
    leaseId: string, channelNum: nat, awgId: nat, tenantId: nat, awgPort: nat, exclusive: bool)

  /** channelNum is a uint32, the other attributes are uint16. */
  predicate InRange(a: Attributes) {
    a.channelNum < UINT32 && a.awgId < UINT16 && a.tenantId < UINT16 && a.awgPort < UINT16
  }

  lemma Widths()
    ensures Pow2(32) == UINT32 && Pow2(16) == UINT16
  {
    assert Pow2(1) == 2;
    Pow2Splits(1, 1);
    Pow2Splits(2, 2);
    Pow2Splits(4, 4);
    Pow2Splits(8, 8);
    Pow2Splits(16, 16);
  }

  // ---- reading the transposed representation ----

  ghost predicate BitAt(a: array<Word>, s: int)
    requires a.Length == WORDS_PER_PLANE && 0 <= s < MAX_LEASES
    reads a
  {
    a[s / 64][s % 64]
  }

  /** The attribute bits stored for one slot, one from each plane. */
  ghost function Column(planes: array2<Word>, s: int): (r: seq<bool>)
    requires planes.Length1 == WORDS_PER_PLANE && 0 <= s < MAX_LEASES
    reads planes
    ensures |r| == planes.Length0
  {
    seq(planes.Length0, p requires 0 <= p < planes.Length0 reads planes => planes[p, s / 64][s % 64])
  }

  ghost function Blank(width: nat): seq<bool> {
    seq(width, _ => false)
  }

  method SetBit(a: array<Word>, slot: nat)
    requires a.Length == WORDS_PER_PLANE && slot < MAX_LEASES
    modifies a
    ensures forall s :: 0 <= s < MAX_LEASES ==> (BitAt(a, s) <==> s == slot || old(BitAt(a, s)))
  {
    a[slot / 64] := Or(a[slot / 64], OneBit(slot % 64));
  }

  method ClearBit(a: array<Word>, slot: nat)
    requires a.Length == WORDS_PER_PLANE && slot < MAX_LEASES
    modifies a
    ensures forall s :: 0 <= s < MAX_LEASES ==> (BitAt(a, s) <==> s != slot && old(BitAt(a, s)))
  {
    a[slot / 64] := And(a[slot / 64], Not(OneBit(slot % 64)));
  }

  method ZeroPlanes(width: nat) returns (planes: array2<Word>)
    ensures fresh(planes) && planes.Length0 == width && planes.Length1 == WORDS_PER_PLANE
    ensures forall s :: 0 <= s < MAX_LEASES ==> Column(planes, s) == Blank(width)
  {
    planes := new Word[width, WORDS_PER_PLANE]((_, _) => Zero());
  }

  /** ORs the bits of `value` into the column of one slot. */
  method SetColumn(planes: array2<Word>, value: nat, slot: nat)
    requires planes.Length1 == WORDS_PER_PLANE && slot < MAX_LEASES
    requires Column(planes, slot) == Blank(planes.Length0)
    modifies planes
    ensures Column(planes, slot) == Bits(value, planes.Length0)
    ensures forall s :: 0 <= s < MAX_LEASES && s != slot ==> Column(planes, s) == old(Column(planes, s))
  {
    var word, bit := slot / 64, slot % 64;
    for p := 0 to planes.Length0
      invariant forall q, w :: 0 <= q < planes.Length0 && 0 <= w < WORDS_PER_PLANE ==>
        planes[q, w] == if q < p && w == word && BitOf(value, q)
                        then Or(old(planes[q, w]), OneBit(bit)) else old(planes[q, w])
    {
      if BitOf(value, p) {
        planes[p, word] := Or(planes[p, word], OneBit(bit));
      }
    }
    forall q | 0 <= q < planes.Length0
      ensures Column(planes, slot)[q] == Bits(value, planes.Length0)[q]
    {
      assert !old(Column(planes, slot))[q];
    }
    forall s | 0 <= s < MAX_LEASES && s != slot
      ensures Column(planes, s) == old(Column(planes, s))
    {
      forall q | 0 <= q < planes.Length0
        ensures Column(planes, s)[q] == old(Column(planes, s))[q]
      {
        assert s / 64 != word || s % 64 != bit;
      }
    }
  }

  /** ANDs the complement of one slot's mask into every plane. */
  method ClearColumn(planes: array2<Word>, slot: nat)
    requires planes.Length1 == WORDS_PER_PLANE && slot < MAX_LEASES
    modifies planes
    ensures Column(planes, slot) == Blank(planes.Length0)
    ensures forall s :: 0 <= s < MAX_LEASES && s != slot ==> Column(planes, s) == old(Column(planes, s))
  {
    var word, bit := slot / 64, slot % 64;
    var mask := Not(OneBit(bit));
    for p := 0 to planes.Length0
      invariant forall q, w :: 0 <= q < planes.Length0 && 0 <= w < WORDS_PER_PLANE ==>
        planes[q, w] == if q < p && w == word then And(old(planes[q, w]), mask) else old(planes[q, w])
    {
      planes[p, word] := And(planes[p, word], mask);
    }
    forall s | 0 <= s < MAX_LEASES && s != slot
      ensures Column(planes, s) == old(Column(planes, s))
    {
      forall q | 0 <= q < planes.Length0
        ensures Column(planes, s)[q] == old(Column(planes, s))[q]
      {
        assert s / 64 != word || s % 64 != bit;
      }
    }
  }

  // ---- the plain table and the reference scan ----

  type Table = seq<Option<Attributes>>

  datatype ConflictType = LambdaCollision | AwgPortCollision | TenantIsolation

  datatype Conflict = Conflict(kind: ConflictType, leaseId: string, slotIndex: nat)

  datatype Query = Query(
    channelNum: nat, awgId: nat, tenantId: nat, awgPort: nat, exclusive: bool, excludeSlot: int)

  predicate QueryInRange(q: Query) {
    q.channelNum < UINT32 && q.awgId < UINT16 && q.tenantId < UINT16 && q.awgPort < UINT16
  }

  predicate Conflicts(kind: ConflictType, a: Attributes, q: Query) {
    match kind
    case LambdaCollision => a.channelNum == q.channelNum && a.awgId == q.awgId && (a.exclusive || q.exclusive)
    case AwgPortCollision => a.awgId == q.awgId && a.awgPort == q.awgPort
    case TenantIsolation => a.channelNum == q.channelNum && a.awgId == q.awgId && a.tenantId != q.tenantId
  }

  predicate Hit(kind: ConflictType, t: Table, q: Query, s: int)
    requires 0 <= s < |t|
  {
    t[s].Some? && s != q.excludeSlot && Conflicts(kind, t[s].value, q)
  }

  /** A plain loop over slots lo..hi, for one kind of conflict. */
  function ScanSlots(kind: ConflictType, t: Table, q: Query, lo: nat, hi: nat): seq<Conflict>
    requires lo <= hi <= |t|
    decreases hi - lo
  {
    if lo == hi then []
    else (if Hit(kind, t, q, lo) then [Conflict(kind, t[lo].value.leaseId, lo)] else [])
         + ScanSlots(kind, t, q, lo + 1, hi)
  }

  function ScanWord(t: Table, q: Query, w: nat): seq<Conflict>
    requires 64 * w + 64 <= |t|
  {
    ScanSlots(LambdaCollision, t, q, 64 * w, 64 * w + 64)
    + ScanSlots(AwgPortCollision, t, q, 64 * w, 64 * w + 64)
    + ScanSlots(TenantIsolation, t, q, 64 * w, 64 * w + 64)
  }

  /** The reference answer: word by word, each kind in turn, slots in order. */
  function Scan(t: Table, q: Query, words: nat): seq<Conflict>
    requires 64 * words <= |t|
  {
    if words == 0 then [] else Scan(t, q, words - 1) + ScanWord(t, q, words - 1)
  }

  lemma {:induction false} ScanSlotsExact(kind: ConflictType, t: Table, q: Query, lo: nat, hi: nat, c: Conflict)
    requires lo <= hi <= |t|
    ensures c in ScanSlots(kind, t, q, lo, hi) <==>
            c.kind == kind && lo <= c.slotIndex < hi && Hit(kind, t, q, c.slotIndex)
            && c.leaseId == t[c.slotIndex].value.leaseId
    decreases hi - lo
  {
    if lo < hi {
      ScanSlotsExact(kind, t, q, lo + 1, hi, c);
    }
  }

  lemma ScanWordExact(t: Table, q: Query, w: nat, c: Conflict)
    requires 64 * w + 64 <= |t|
    ensures c in ScanWord(t, q, w) <==>
            64 * w <= c.slotIndex < 64 * w + 64 && Hit(c.kind, t, q, c.slotIndex)
            && c.leaseId == t[c.slotIndex].value.leaseId
  {
    var lo, hi := 64 * w, 64 * w + 64;
    var a, b, d := ScanSlots(LambdaCollision, t, q, lo, hi), ScanSlots(AwgPortCollision, t, q, lo, hi),
                   ScanSlots(TenantIsolation, t, q, lo, hi);
    ScanSlotsExact(LambdaCollision, t, q, lo, hi, c);
    ScanSlotsExact(AwgPortCollision, t, q, lo, hi, c);
    ScanSlotsExact(TenantIsolation, t, q, lo, hi, c);
    assert c in a + b + d <==> c in a || c in b || c in d;
  }

  /** The scan reports exactly the conflicts there are: every one, and no other. */
  lemma {:induction false} ScanExact(t: Table, q: Query, words: nat, c: Conflict)
    requires 64 * words <= |t|
    ensures c in Scan(t, q, words) <==>
            c.slotIndex < 64 * words && Hit(c.kind, t, q, c.slotIndex)
            && c.leaseId == t[c.slotIndex].value.leaseId
  {
    if words > 0 {
      ScanExact(t, q, words - 1, c);
      ScanWordExact(t, q, words - 1, c);
    }
  }

  function Rank(kind: ConflictType): nat {
    match kind case LambdaCollision => 1 case AwgPortCollision => 2 case TenantIsolation => 3
  }

  /** Reporting order: 64-slot word, then conflict type, then slot. */
  predicate Before(x: Conflict, y: Conflict) {
    var wx, wy := x.slotIndex / 64, y.slotIndex / 64;
    wx < wy || (wx == wy && (Rank(x.kind) < Rank(y.kind) || (x.kind == y.kind && x.slotIndex < y.slotIndex)))
  }

  ghost predicate StrictlyOrdered(r: seq<Conflict>) {
    forall i, j :: 0 <= i < j < |r| ==> Before(r[i], r[j])
  }

  lemma {:induction false} ScanSlotsOrdered(kind: ConflictType, t: Table, q: Query, lo: nat, hi: nat)
    requires lo <= hi <= |t|
    ensures StrictlyOrdered(ScanSlots(kind, t, q, lo, hi))
    decreases hi - lo
  {
    if lo < hi {
      ScanSlotsOrdered(kind, t, q, lo + 1, hi);
      forall c | c in ScanSlots(kind, t, q, lo + 1, hi) ensures c.kind == kind && lo < c.slotIndex {
        ScanSlotsExact(kind, t, q, lo + 1, hi, c);
      }
    }
  }

  lemma OrderedConcat(a: seq<Conflict>, b: seq<Conflict>)
    requires StrictlyOrdered(a) && StrictlyOrdered(b)
    requires forall x, y :: x in a && y in b ==> Before(x, y)
    ensures StrictlyOrdered(a + b)
  {
  }

  lemma ScanWordOrdered(t: Table, q: Query, w: nat)
    requires 64 * w + 64 <= |t|
    ensures StrictlyOrdered(ScanWord(t, q, w))
    ensures forall c :: c in ScanWord(t, q, w) ==> c.slotIndex / 64 == w
  {
    var lo, hi := 64 * w, 64 * w + 64;
    forall kind: ConflictType, c | c in ScanSlots(kind, t, q, lo, hi)
      ensures c.kind == kind && c.slotIndex / 64 == w
    {
      ScanSlotsExact(kind, t, q, lo, hi, c);
    }
    ScanSlotsOrdered(LambdaCollision, t, q, lo, hi);
    ScanSlotsOrdered(AwgPortCollision, t, q, lo, hi);
    ScanSlotsOrdered(TenantIsolation, t, q, lo, hi);
    var a, b, c := ScanSlots(LambdaCollision, t, q, lo, hi), ScanSlots(AwgPortCollision, t, q, lo, hi),
                   ScanSlots(TenantIsolation, t, q, lo, hi);
    OrderedConcat(a, b);
    OrderedConcat(a + b, c);
  }

  /** The reference answer is strictly ordered by (word, type, slot); so it has no
      duplicates, and together with ScanExact it is the only sequence with its members. */
  lemma {:induction false} ScanOrdered(t: Table, q: Query, words: nat)
    requires 64 * words <= |t|
    ensures StrictlyOrdered(Scan(t, q, words))
  {
    if words > 0 {
      ScanOrdered(t, q, words - 1);
      ScanWordOrdered(t, q, words - 1);
      forall c | c in Scan(t, q, words - 1) ensures c.slotIndex / 64 < words - 1 {
        ScanExact(t, q, words - 1, c);
      }
      OrderedConcat(Scan(t, q, words - 1), ScanWord(t, q, words - 1));
    }
  }

  // ---- walking a mask ----

  /** One item for each one bit of a mask whose bit 0 stands for slot `base`, in slot order. */
  ghost function Listed<T>(mask: seq<bool>, base: nat, item: nat -> T): seq<T> {
    if mask == [] then []
    else (if mask[0] then [item(base)] else []) + Listed(mask[1..], base + 1, item)
  }

  lemma {:induction false} ListedStep<T>(mask: seq<bool>, base: nat, item: nat -> T)
    requires true in mask
    ensures
      var t := TrailingZeros(mask);
      Listed(mask, base, item) == [item(base + t)] + Listed(mask[t := false], base, item)
  {
    var t := TrailingZeros(mask);
    if mask[0] {
      assert mask[0 := false][1..] == mask[1..];
    } else {
      assert mask == [mask[0]] + mask[1..];
      ListedStep(mask[1..], base + 1, item);
      assert mask[t := false][1..] == mask[1..][t - 1 := false];
    }
  }

  lemma {:induction false} ListedNothing<T>(mask: seq<bool>, base: nat, item: nat -> T)
    requires true !in mask
    ensures Listed(mask, base, item) == []
  {
    if mask != [] {
      ListedNothing(mask[1..], base + 1, item);
    }
  }

  lemma {:induction false} ClearingShrinks(bits: seq<bool>, i: nat)
    requires i < |bits| && bits[i]
    ensures Value(bits[i := false]) < Value(bits)
  {
    if i > 0 {
      ClearingShrinks(bits[1..], i - 1);
      assert bits[i := false][1..] == bits[1..][i - 1 := false];
    } else {
      assert bits[i := false][1..] == bits[1..];
    }
  }

  /** One turn of every mask-walking loop: the lowest bit's item comes first, and
      b & (b - 1) leaves exactly the others. */
  lemma WalkStep<T>(done: seq<T>, b: Word, base: nat, item: nat -> T)
    requires true in b
    ensures done + Listed(b, base, item)
            == (done + [item(base + TrailingZeros(b))]) + Listed(And(b, MinusOne(b)), base, item)
    ensures Value(And(b, MinusOne(b))) < Value(b)
  {
    ListedStep(b, base, item);
    ClearLowest(b);
    ClearingShrinks(b, TrailingZeros(b));
  }

  function Reporter(kind: ConflictType, ids: seq<string>): nat -> Conflict {
    (s: nat) => Conflict(kind, if s < |ids| then ids[s] else "", s)
  }

  method ExtractWord(kind: ConflictType, mask: Word, base: nat, ids: seq<string>, before: seq<Conflict>)
    returns (results: seq<Conflict>)
    requires base + 64 <= |ids|
    ensures results == before + Listed(mask, base, Reporter(kind, ids))
  {
    results := before;
    var b := mask;
    while true in b
      invariant results + Listed(b, base, Reporter(kind, ids)) == before + Listed(mask, base, Reporter(kind, ids))
      decreases Value(b)
    {
      WalkStep(results, b, base, Reporter(kind, ids));
      var slot := base + TrailingZeros(b);
      results := results + [Conflict(kind, ids[slot], slot)];
      b := And(b, MinusOne(b));
    }
    ListedNothing(b, base, Reporter(kind, ids));
  }

  lemma {:induction false} ListedIsScan(kind: ConflictType, mask: seq<bool>, base: nat, ids: seq<string>, t: Table, q: Query)
    requires base + |mask| <= |t| == |ids|
    requires forall i :: 0 <= i < |mask| ==> (mask[i] <==> Hit(kind, t, q, base + i))
    requires forall s :: 0 <= s < |t| && t[s].Some? ==> ids[s] == t[s].value.leaseId
    ensures Listed(mask, base, Reporter(kind, ids)) == ScanSlots(kind, t, q, base, base + |mask|)
  {
    if mask != [] {
      forall i | 0 <= i < |mask| - 1 ensures mask[1..][i] <==> Hit(kind, t, q, base + 1 + i) {
        assert mask[1..][i] == mask[i + 1];
      }
      ListedIsScan(kind, mask[1..], base + 1, ids, t, q);
    }
  }

  /** Bit s of the mask says whether slot s is a hit of that kind. */
  ghost predicate Marks(mask: seq<Word>, kind: ConflictType, t: Table, q: Query) {
    && |mask| == WORDS_PER_PLANE && |t| == MAX_LEASES
    && forall w, b :: 0 <= w < WORDS_PER_PLANE && 0 <= b < 64 ==> (mask[w][b] <==> Hit(kind, t, q, 64 * w + b))
  }

  ghost predicate IdsOf(ids: seq<string>, t: Table) {
    |ids| == |t| && forall s :: 0 <= s < |t| && t[s].Some? ==> ids[s] == t[s].value.leaseId
  }

  lemma MarksListScan(kind: ConflictType, mask: seq<Word>, t: Table, q: Query, w: nat, ids: seq<string>)
    requires Marks(mask, kind, t, q) && IdsOf(ids, t) && w < WORDS_PER_PLANE
    ensures Listed(mask[w], 64 * w, Reporter(kind, ids)) == ScanSlots(kind, t, q, 64 * w, 64 * w + 64)
  {
    ListedIsScan(kind, mask[w], 64 * w, ids, t, q);
  }

  /** Masks that mark the hits list exactly one word of the reference scan. */
  lemma MasksListScan(t: Table, q: Query, w: nat, ids: seq<string>, lambda: seq<Word>, port: seq<Word>, tenant: seq<Word>)
    requires Marks(lambda, LambdaCollision, t, q) && Marks(port, AwgPortCollision, t, q)
    requires Marks(tenant, TenantIsolation, t, q) && IdsOf(ids, t) && w < WORDS_PER_PLANE
    ensures ScanWord(t, q, w)
            == Listed(lambda[w], 64 * w, Reporter(LambdaCollision, ids))
               + Listed(port[w], 64 * w, Reporter(AwgPortCollision, ids))
               + Listed(tenant[w], 64 * w, Reporter(TenantIsolation, ids))
  {
    MarksListScan(LambdaCollision, lambda, t, q, w, ids);
    MarksListScan(AwgPortCollision, port, t, q, w, ids);
    MarksListScan(TenantIsolation, tenant, t, q, w, ids);
  }

  /** The match masks, one bit for each slot. */
  datatype MatchMasks = Matches(
    active: seq<Word>, exclusive: seq<Word>, channel: seq<Word>, awg: seq<Word>, port: seq<Word>, tenant: seq<Word>)
  {
    predicate Sized() {
      && |active| == |exclusive| == |channel| == WORDS_PER_PLANE
      && |awg| == |port| == |tenant| == WORDS_PER_PLANE
    }
  }

  type Matches = m: MatchMasks | m.Sized()
    witness Matches(seq(16, _ => Zero()), seq(16, _ => Zero()), seq(16, _ => Zero()),
                    seq(16, _ => Zero()), seq(16, _ => Zero()), seq(16, _ => Zero()))

  ghost predicate MatchedAt(m: Matches, t: Table, q: Query, w: nat, b: nat)
    requires w < WORDS_PER_PLANE && b < 64 && |t| == MAX_LEASES
  {
    var e := t[64 * w + b];
    && m.active[w][b] == e.Some?
    && m.exclusive[w][b] == (e.Some? && e.value.exclusive)
    && m.channel[w][b] == (e.Some? && e.value.channelNum == q.channelNum)
    && m.awg[w][b] == (e.Some? && e.value.awgId == q.awgId)
    && m.port[w][b] == (e.Some? && e.value.awgPort == q.awgPort)
    && m.tenant[w][b] == (e.Some? && e.value.tenantId == q.tenantId)
  }

  ghost predicate MarksWord(mask: Word, kind: ConflictType, t: Table, q: Query, w: nat)
    requires w < WORDS_PER_PLANE && |t| == MAX_LEASES
  {
    forall b :: 0 <= b < 64 ==> (mask[b] <==> t[64 * w + b].Some? && Conflicts(kind, t[64 * w + b].value, q))
  }

  method WithoutExcluded(kind: ConflictType, mask: seq<Word>, ghost t: Table, q: Query) returns (r: seq<Word>)
    requires |mask| == WORDS_PER_PLANE && |t| == MAX_LEASES
    requires forall w :: 0 <= w < WORDS_PER_PLANE ==> MarksWord(mask[w], kind, t, q, w)
    ensures Marks(r, kind, t, q)
  {
    r := mask;
    if 0 <= q.excludeSlot < MAX_LEASES {
      var exWord := q.excludeSlot / 64;
      r := mask[exWord := And(mask[exWord], Not(OneBit(q.excludeSlot % 64)))];
    }
    forall w, b | 0 <= w < WORDS_PER_PLANE && 0 <= b < 64 ensures r[w][b] <==> Hit(kind, t, q, 64 * w + b) {
      assert MarksWord(mask[w], kind, t, q, w);
    }
  }

  /** The three conflict words of one word of matches. */
  method CombineWord(w: nat, m: Matches, ghost t: Table, q: Query, proposedExclMask: Word)
    returns (lambda: Word, port: Word, tenant: Word)
    requires w < WORDS_PER_PLANE && |t| == MAX_LEASES
    requires proposedExclMask == if q.exclusive then Ones() else Zero()
    requires forall b :: 0 <= b < 64 ==> MatchedAt(m, t, q, w, b)
    ensures MarksWord(lambda, LambdaCollision, t, q, w)
    ensures MarksWord(port, AwgPortCollision, t, q, w)
    ensures MarksWord(tenant, TenantIsolation, t, q, w)
  {
    var differentTenant := And(m.active[w], Not(m.tenant[w]));
    var sameChannelSameAwg := And(m.channel[w], m.awg[w]);
    lambda := And(sameChannelSameAwg, Or(m.exclusive[w], proposedExclMask));
    port := And(m.awg[w], m.port[w]);
    tenant := And(sameChannelSameAwg, differentTenant);
    forall b | 0 <= b < 64
      ensures
        var e := t[64 * w + b];
        && (lambda[b] <==> e.Some? && Conflicts(LambdaCollision, e.value, q))
        && (port[b] <==> e.Some? && Conflicts(AwgPortCollision, e.value, q))
        && (tenant[b] <==> e.Some? && Conflicts(TenantIsolation, e.value, q))
    {
      assert MatchedAt(m, t, q, w, b);
    }
  }

  /** Combines the matches of `words` words and masks out the excluded slot. */
  method CombineMatches(words: nat, m: Matches, ghost t: Table, q: Query)
    returns (lambda: seq<Word>, port: seq<Word>, tenant: seq<Word>)
    requires words <= WORDS_PER_PLANE && |t| == MAX_LEASES
    requires forall w, b :: 0 <= w < words && 0 <= b < 64 ==> MatchedAt(m, t, q, w, b)
    requires forall s :: 64 * words <= s < MAX_LEASES ==> t[s].None?
    ensures Marks(lambda, LambdaCollision, t, q)
    ensures Marks(port, AwgPortCollision, t, q)
    ensures Marks(tenant, TenantIsolation, t, q)
  {
    lambda := seq(WORDS_PER_PLANE, _ => Zero());
    port := seq(WORDS_PER_PLANE, _ => Zero());
    tenant := seq(WORDS_PER_PLANE, _ => Zero());
    var proposedExclMask := if q.exclusive then Ones() else Zero();
    for w := 0 to words
      invariant |lambda| == |port| == |tenant| == WORDS_PER_PLANE
      invariant forall v :: 0 <= v < w || words <= v < WORDS_PER_PLANE ==>
        && MarksWord(lambda[v], LambdaCollision, t, q, v)
        && MarksWord(port[v], AwgPortCollision, t, q, v)
        && MarksWord(tenant[v], TenantIsolation, t, q, v)
    {
      var l, p, n := CombineWord(w, m, t, q, proposedExclMask);
      lambda, port, tenant := lambda[w := l], port[w := p], tenant[w := n];
    }
    lambda := WithoutExcluded(LambdaCollision, lambda, t, q);
    port := WithoutExcluded(AwgPortCollision, port, t, q);
    tenant := WithoutExcluded(TenantIsolation, tenant, t, q);
  }

  /** Appending to a Go slice of length n over `buf`: in place while it fits, else into a
      larger copy. */
  method Append(buf: array<Conflict>, n: nat, c: Conflict) returns (out: array<Conflict>)
    requires n <= buf.Length
    modifies buf
    ensures n < out.Length && out[..n + 1] == old(buf[..n]) + [c]
    ensures if n < buf.Length then out == buf else fresh(out)
  {
    if n < buf.Length {
      buf[n] := c;
      return buf;
    }
    out := new Conflict[2 * n + 1];
    for i := 0 to n
      modifies out
      invariant out[..i] == buf[..i]
    {
      out[i] := buf[i];
    }
    out[n] := c;
  }

  /** The same walk, appending into a reused buffer. */
  method ExtractWordBuf(kind: ConflictType, mask: Word, base: nat, ids: seq<string>, buf: array<Conflict>, n0: nat)
    returns (out: array<Conflict>, n: nat)
    requires base + 64 <= |ids| && n0 <= buf.Length
    modifies buf
    ensures n0 <= n <= out.Length && out[..n] == old(buf[..n0]) + Listed(mask, base, Reporter(kind, ids))
    ensures if n <= buf.Length then out == buf else fresh(out)
  {
    out, n := buf, n0;
    var b := mask;
    while true in b
      invariant n <= out.Length && n0 <= n
      invariant if n <= buf.Length then out == buf else fresh(out)
      invariant out[..n] + Listed(b, base, Reporter(kind, ids)) == old(buf[..n0]) + Listed(mask, base, Reporter(kind, ids))
      decreases Value(b)
    {
      WalkStep(out[..n], b, base, Reporter(kind, ids));
      var slot := base + TrailingZeros(b);
      out := Append(out, n, Conflict(kind, ids[slot], slot));
      n := n + 1;
      b := And(b, MinusOne(b));
    }
    ListedNothing(b, base, Reporter(kind, ids));
  }

  method ExtractWordMasks(
    w: nat, ids: seq<string>, ghost t: Table, ghost q: Query, lambda: seq<Word>, port: seq<Word>, tenant: seq<Word>,
    before: seq<Conflict>)
    returns (results: seq<Conflict>)
    requires w < WORDS_PER_PLANE && IdsOf(ids, t)
    requires Marks(lambda, LambdaCollision, t, q) && Marks(port, AwgPortCollision, t, q)
    requires Marks(tenant, TenantIsolation, t, q)
    ensures results == before + ScanWord(t, q, w)
  {
    MasksListScan(t, q, w, ids, lambda, port, tenant);
    results := ExtractWord(LambdaCollision, lambda[w], 64 * w, ids, before);
    results := ExtractWord(AwgPortCollision, port[w], 64 * w, ids, results);
    results := ExtractWord(TenantIsolation, tenant[w], 64 * w, ids, results);
  }

  method CollectConflicts(
    words: nat, ids: seq<string>, ghost t: Table, ghost q: Query, lambda: seq<Word>, port: seq<Word>, tenant: seq<Word>)
    returns (results: seq<Conflict>)
    requires words <= WORDS_PER_PLANE && IdsOf(ids, t)
    requires Marks(lambda, LambdaCollision, t, q) && Marks(port, AwgPortCollision, t, q)
    requires Marks(tenant, TenantIsolation, t, q)
    ensures results == Scan(t, q, words)
  {
    results := [];
    for w := 0 to words
      invariant results == Scan(t, q, w)
    {
      results := ExtractWordMasks(w, ids, t, q, lambda, port, tenant, results);
    }
  }

  method ExtractWordMasksBuf(
    w: nat, ids: seq<string>, ghost t: Table, ghost q: Query, lambda: seq<Word>, port: seq<Word>, tenant: seq<Word>,
    buf: array<Conflict>, n0: nat)
    returns (out: array<Conflict>, n: nat)
    requires w < WORDS_PER_PLANE && IdsOf(ids, t) && n0 <= buf.Length
    requires Marks(lambda, LambdaCollision, t, q) && Marks(port, AwgPortCollision, t, q)
    requires Marks(tenant, TenantIsolation, t, q)
    modifies buf
    ensures n0 <= n <= out.Length && out[..n] == old(buf[..n0]) + ScanWord(t, q, w)
    ensures if n <= buf.Length then out == buf else fresh(out)
  {
    MasksListScan(t, q, w, ids, lambda, port, tenant);
    out, n := ExtractWordBuf(LambdaCollision, lambda[w], 64 * w, ids, buf, n0);
    out, n := ExtractWordBuf(AwgPortCollision, port[w], 64 * w, ids, out, n);
    out, n := ExtractWordBuf(TenantIsolation, tenant[w], 64 * w, ids, out, n);
  }

  /** extractConflicts: walks the three masks into buf[:0]. */
  method ExtractConflicts(
    words: nat, ids: seq<string>, ghost t: Table, ghost q: Query, lambda: seq<Word>, port: seq<Word>, tenant: seq<Word>,
    buf: array<Conflict>)
    returns (out: array<Conflict>, n: nat)
    requires words <= WORDS_PER_PLANE && IdsOf(ids, t)
    requires Marks(lambda, LambdaCollision, t, q) && Marks(port, AwgPortCollision, t, q)
    requires Marks(tenant, TenantIsolation, t, q)
    modifies buf
    ensures n <= out.Length && out[..n] == Scan(t, q, words)
    ensures if n <= buf.Length then out == buf else fresh(out)
  {
    out, n := buf, 0;
    for w := 0 to words
      invariant n <= out.Length && out[..n] == Scan(t, q, w)
      invariant if n <= buf.Length then out == buf else fresh(out)
    {
      out, n := ExtractWordMasksBuf(w, ids, t, q, lambda, port, tenant, out, n);
    }
  }

  // ---- the reverse transposition ----

  /** A lease as read back from the planes. */
  datatype LensSnapshot = LensSnapshot(lease: Attributes, slot: nat)

  /** The live leases below slot n, in slot order. */
  ghost function Live(t: Table, n: nat): seq<LensSnapshot>
    requires n <= |t|
  {
    if n == 0 then []
    else Live(t, n - 1) + if t[n - 1].Some? then [LensSnapshot(t[n - 1].value, n - 1)] else []
  }

  ghost function SnapshotOf(t: Table): nat -> LensSnapshot {
    (s: nat) => LensSnapshot(if s < |t| && t[s].Some? then t[s].value else Attributes("", 0, 0, 0, 0, false), s)
  }

  lemma {:induction false} ListedIsLive(t: Table, mask: seq<bool>, base: nat)
    requires base + |mask| <= |t|
    requires forall i :: 0 <= i < |mask| ==> mask[i] == t[base + i].Some?
    ensures Live(t, base) + Listed(mask, base, SnapshotOf(t)) == Live(t, base + |mask|)
  {
    if mask != [] {
      forall i | 0 <= i < |mask| - 1 ensures mask[1..][i] == t[base + 1 + i].Some? {
        assert mask[1..][i] == mask[i + 1];
      }
      ListedIsLive(t, mask[1..], base + 1);
      var rest := Listed(mask[1..], base + 1, SnapshotOf(t));
      assert Live(t, base + 1) + rest == Live(t, base) + Listed(mask, base, SnapshotOf(t));
    }
  }

  lemma {:induction false} LiveTail(t: Table, m: nat, n: nat)
    requires m <= n <= |t| && forall s :: m <= s < n ==> t[s].None?
    ensures Live(t, m) == Live(t, n)
  {
    if m < n {
      LiveTail(t, m, n - 1);
    }
  }

  lemma {:induction false} ValueAppend(bits: seq<bool>, top: bool)
    ensures Value(bits + [top]) == Value(bits) + if top then Pow2(|bits|) else 0
  {
    if bits != [] {
      ValueAppend(bits[1..], top);
      assert (bits + [top])[1..] == bits[1..] + [top];
    }
  }

  /** Rebuilds an attribute by OR-ing 1 << p for each set plane; the bits are distinct, so
      the OR is a sum. */
  method ReadColumn(planes: array2<Word>, slot: nat) returns (v: nat)
    requires planes.Length1 == WORDS_PER_PLANE && slot < MAX_LEASES
    ensures v == Value(Column(planes, slot))
  {
    v := 0;
    for p := 0 to planes.Length0
      invariant v == Value(Column(planes, slot)[..p])
    {
      ValueAppend(Column(planes, slot)[..p], planes[p, slot / 64][slot % 64]);
      assert Column(planes, slot)[..p + 1] == Column(planes, slot)[..p] + [planes[p, slot / 64][slot % 64]];
      if planes[p, slot / 64][slot % 64] {
        v := v + Pow2(p);
      }
    }
    assert Column(planes, slot)[..planes.Length0] == Column(planes, slot);
  }

  // ---- matching one attribute in all slots at once ----

  ghost predicate Agrees(planes: array2<Word>, target: nat, p: nat, w: nat, b: nat)
    requires p <= planes.Length0 && w < planes.Length1 && b < 64
    reads planes
  {
    forall k :: 0 <= k < p ==> planes[k, w][b] == BitOf(target, k)
  }

  lemma AgreesIsColumn(planes: array2<Word>, target: nat, w: nat, b: nat)
    requires planes.Length1 == WORDS_PER_PLANE && w < WORDS_PER_PLANE && b < 64
    ensures Agrees(planes, target, planes.Length0, w, b)
            <==> Column(planes, 64 * w + b) == Bits(target, planes.Length0)
  {
    var s := 64 * w + b;
    assert s / 64 == w && s % 64 == b;
    forall k | 0 <= k < planes.Length0
      ensures Column(planes, s)[k] == planes[k, w][b] && Bits(target, planes.Length0)[k] == BitOf(target, k)
    {
    }
  }

  /** Narrows `matches` to the slots whose attribute equals `target`, one plane at a time. */
  method MatchScalar(matches: array<Word>, planes: array2<Word>, target: nat, words: nat)
    requires matches.Length == WORDS_PER_PLANE == planes.Length1 && words <= WORDS_PER_PLANE
    modifies matches
    ensures forall w, b :: 0 <= w < words && 0 <= b < 64 ==>
      (matches[w][b] <==> old(matches[w])[b] && Column(planes, 64 * w + b) == Bits(target, planes.Length0))
  {
    for p := 0 to planes.Length0
      invariant forall v, b :: 0 <= v < words && 0 <= b < 64 ==>
        (matches[v][b] <==> old(matches[v])[b] && Agrees(planes, target, p, v, b))
    {
      if BitOf(target, p) {
        for w := 0 to words
          invariant forall v, b :: 0 <= v < words && 0 <= b < 64 ==>
            (matches[v][b] <==> old(matches[v])[b] && Agrees(planes, target, if v < w then p + 1 else p, v, b))
        {
          matches[w] := And(matches[w], planes[p, w]);
        }
      } else {
        for w := 0 to words
          invariant forall v, b :: 0 <= v < words && 0 <= b < 64 ==>
            (matches[v][b] <==> old(matches[v])[b] && Agrees(planes, target, if v < w then p + 1 else p, v, b))
        {
          matches[w] := And(matches[w], Not(planes[p, w]));
        }
      }
    }
    forall w, b | 0 <= w < words && 0 <= b < 64
      ensures matches[w][b] <==> old(matches[w])[b] && Column(planes, 64 * w + b) == Bits(target, planes.Length0)
    {
      AgreesIsColumn(planes, target, w, b);
    }
  }

  // ---- the index ----

  /** What the planes hold for one slot. */
  datatype SlotView = SlotView(
    active: bool, exclusive: bool, channel: seq<bool>, awg: seq<bool>, tenant: seq<bool>, port: seq<bool>,
    leaseId: string)

  /** What they should hold: the attributes of a live lease, and nothing for a free slot. */
  ghost function Encode(e: Option<Attributes>): SlotView {
    match e
    case None => SlotView(false, false, Blank(32), Blank(16), Blank(16), Blank(16), "")
    case Some(a) =>
      SlotView(true, a.exclusive, Bits(a.channelNum, 32), Bits(a.awgId, 16), Bits(a.tenantId, 16),
               Bits(a.awgPort, 16), a.leaseId)
  }

  class LeaseIndex {
    const channelNum: array2<Word>
    const awgID: array2<Word>
    const tenantID: array2<Word>
    const awgPort: array2<Word>
    const active: array<Word>
    const exclusive: array<Word>
    const leaseIDs: array<string>
    var count: nat
    ghost var table: Table

    ghost const Planes: set<object> := {channelNum, awgID, tenantID, awgPort, active, exclusive, leaseIDs}

    ghost predicate Shape() {
      && channelNum.Length0 == 32
      && awgID.Length0 == tenantID.Length0 == awgPort.Length0 == 16
      && channelNum.Length1 == awgID.Length1 == tenantID.Length1 == awgPort.Length1 == WORDS_PER_PLANE
      && active.Length == exclusive.Length == WORDS_PER_PLANE
      && leaseIDs.Length == MAX_LEASES
      && channelNum != awgID && channelNum != tenantID && channelNum != awgPort
      && awgID != tenantID && awgID != awgPort && tenantID != awgPort
      && active != exclusive
    }

    ghost function View(s: int): SlotView
      requires Shape() && 0 <= s < MAX_LEASES
      reads Planes
    {
      SlotView(BitAt(active, s), BitAt(exclusive, s), Column(channelNum, s), Column(awgID, s), Column(tenantID, s),
               Column(awgPort, s), leaseIDs[s])
    }

    ghost predicate SlotOk(s: int)
      requires Shape() && |table| == MAX_LEASES && 0 <= s < MAX_LEASES
      reads this, Planes
    {
      View(s) == Encode(table[s])
    }

    ghost predicate Valid()
      reads this, Planes
    {
      && Shape()
      && count <= MAX_LEASES == |table|
      && (forall s :: 0 <= s < MAX_LEASES ==> SlotOk(s))
      && (forall s :: 0 <= s < MAX_LEASES && table[s].Some? ==> s < count && InRange(table[s].value))
    }

    constructor ()
      ensures Valid() && fresh(Planes)
      ensures count == 0 && table == seq(MAX_LEASES, _ => None)
    {
      var channels := ZeroPlanes(32);
      var awgs := ZeroPlanes(16);
      var tenants := ZeroPlanes(16);
      var ports := ZeroPlanes(16);
      channelNum, awgID, tenantID, awgPort := channels, awgs, tenants, ports;
      active := new Word[WORDS_PER_PLANE](_ => Zero());
      exclusive := new Word[WORDS_PER_PLANE](_ => Zero());
      leaseIDs := new string[MAX_LEASES](_ => "");
      count := 0;
      table := seq(MAX_LEASES, _ => None);
    }

    /** ORs a lease into a slot; correct only because the slot's columns are blank. */
    method WriteSlot(a: Attributes, slot: nat)
      requires Shape() && slot < MAX_LEASES && View(slot) == Encode(None)
      modifies Planes
      ensures View(slot) == Encode(Some(a))
      ensures forall s :: 0 <= s < MAX_LEASES && s != slot ==> View(s) == old(View(s))
    {
      SetBit(active, slot);
      if a.exclusive {
        SetBit(exclusive, slot);
      }
      SetColumn(channelNum, a.channelNum, slot);
      SetColumn(awgID, a.awgId, slot);
      SetColumn(tenantID, a.tenantId, slot);
      SetColumn(awgPort, a.awgPort, slot);
      leaseIDs[slot] := a.leaseId;
    }

    /** Slots are never reused: `count` is a high-water mark. */
    method Insert(a: Attributes) returns (r: Option<nat>)
      requires Valid() && InRange(a)
      modifies this, Planes
      ensures Valid()
      ensures r.None? <==> old(count) >= MAX_LEASES
      ensures r.None? ==> count == old(count) && table == old(table)
      ensures r.Some? ==> r.value == old(count) && count == old(count) + 1 && table == old(table)[r.value := Some(a)]
    {
      if count >= MAX_LEASES {
        return None;
      }
      var slot := count;
      assert table[slot].None? && SlotOk(slot);
      WriteSlot(a, slot);
      count := count + 1;
      table := table[slot := Some(a)];
      forall s | 0 <= s < MAX_LEASES ensures SlotOk(s) {
        assert old(SlotOk(s));
      }
      return Some(slot);
    }

    method EraseSlot(slot: nat)
      requires Shape() && slot < MAX_LEASES
      modifies Planes
      ensures View(slot) == Encode(None)
      ensures forall s :: 0 <= s < MAX_LEASES && s != slot ==> View(s) == old(View(s))
    {
      ClearBit(active, slot);
      ClearBit(exclusive, slot);
      ClearColumn(channelNum, slot);
      ClearColumn(awgID, slot);
      ClearColumn(tenantID, slot);
      ClearColumn(awgPort, slot);
      leaseIDs[slot] := "";
    }

    method Remove(slot: int)
      requires Valid()
      modifies this, Planes
      ensures Valid() && count == old(count)
      ensures table == if 0 <= slot < MAX_LEASES then old(table)[slot := None] else old(table)
    {
      if slot < 0 || slot >= MAX_LEASES {
        return;
      }
      EraseSlot(slot);
      table := table[slot := None];
      forall s | 0 <= s < MAX_LEASES ensures SlotOk(s) {
        assert old(SlotOk(s));
      }
    }

    // ---- queries ----

    ghost function Words(): nat
      reads this
    {
      (count + 63) / 64
    }

    lemma SlotBits(w: nat, b: nat)
      requires Valid() && w < WORDS_PER_PLANE && b < 64
      ensures active[w][b] == table[64 * w + b].Some?
      ensures exclusive[w][b] == (table[64 * w + b].Some? && table[64 * w + b].value.exclusive)
    {
      var s := 64 * w + b;
      assert s / 64 == w && s % 64 == b;
      assert SlotOk(s);
    }

    method MatchAttribute(planes: array2<Word>, target: nat, words: nat) returns (m: seq<Word>)
      requires Valid() && planes.Length1 == WORDS_PER_PLANE && words <= WORDS_PER_PLANE
      ensures |m| == WORDS_PER_PLANE
      ensures forall w, b :: 0 <= w < words && 0 <= b < 64 ==>
        (m[w][b] <==> table[64 * w + b].Some? && Column(planes, 64 * w + b) == Bits(target, planes.Length0))
    {
      var matches := new Word[WORDS_PER_PLANE](i requires 0 <= i < active.Length reads active => active[i]);
      forall w, b | 0 <= w < words && 0 <= b < 64 ensures matches[w][b] == table[64 * w + b].Some? {
        SlotBits(w, b);
      }
      MatchScalar(matches, planes, target, words);
      m := matches[..];
    }

    /** Equality of columns is equality of attributes. */
    lemma ColumnsDecide(q: Query, s: int)
      requires Valid() && QueryInRange(q) && 0 <= s < MAX_LEASES && table[s].Some?
      ensures Column(channelNum, s) == Bits(q.channelNum, 32) <==> table[s].value.channelNum == q.channelNum
      ensures Column(awgID, s) == Bits(q.awgId, 16) <==> table[s].value.awgId == q.awgId
      ensures Column(tenantID, s) == Bits(q.tenantId, 16) <==> table[s].value.tenantId == q.tenantId
      ensures Column(awgPort, s) == Bits(q.awgPort, 16) <==> table[s].value.awgPort == q.awgPort
    {
      var a := table[s].value;
      assert SlotOk(s);
      Widths();
      BitsAreFaithful(a.channelNum, q.channelNum, 32);
      BitsAreFaithful(a.awgId, q.awgId, 16);
      BitsAreFaithful(a.tenantId, q.tenantId, 16);
      BitsAreFaithful(a.awgPort, q.awgPort, 16);
    }

    /** For every slot at once: is it live, is it exclusive, and which attributes match. */
    method MatchAll(q: Query, words: nat) returns (m: Matches)
      requires Valid() && QueryInRange(q) && words <= WORDS_PER_PLANE
      ensures forall w, b :: 0 <= w < words && 0 <= b < 64 ==> MatchedAt(m, table, q, w, b)
    {
      var channelMatch := MatchAttribute(channelNum, q.channelNum, words);
      var awgMatch := MatchAttribute(awgID, q.awgId, words);
      var portMatch := MatchAttribute(awgPort, q.awgPort, words);
      var tenantMatch := MatchAttribute(tenantID, q.tenantId, words);
      m := Matches(active[..], exclusive[..], channelMatch, awgMatch, portMatch, tenantMatch);
      forall w, b | 0 <= w < words && 0 <= b < 64 ensures MatchedAt(m, table, q, w, b) {
        SlotBits(w, b);
        if table[64 * w + b].Some? {
          ColumnsDecide(q, 64 * w + b);
        }
      }
    }

    lemma FreeBeyondCount(s: int)
      requires Valid() && 64 * Words() <= s < MAX_LEASES
      ensures table[s].None?
    {
    }

    /** computeConflictMasks: bit s of each mask says whether slot s has that conflict. */
    method ComputeConflictMasks(q: Query) returns (lambda: seq<Word>, port: seq<Word>, tenant: seq<Word>)
      requires Valid() && QueryInRange(q)
      ensures Marks(lambda, LambdaCollision, table, q)
      ensures Marks(port, AwgPortCollision, table, q)
      ensures Marks(tenant, TenantIsolation, table, q)
    {
      var words := (count + 63) / 64;
      var m := MatchAll(q, words);
      forall s | 64 * words <= s < MAX_LEASES ensures table[s].None? {
        FreeBeyondCount(s);
      }
      lambda, port, tenant := CombineMatches(words, m, table, q);
    }

    lemma IdsMatchTable()
      requires Valid()
      ensures IdsOf(leaseIDs[..], table)
    {
      forall s | 0 <= s < MAX_LEASES && table[s].Some? ensures leaseIDs[..][s] == table[s].value.leaseId {
        assert SlotOk(s);
      }
    }

    /** Index refinement: the bit-plane evaluation is the linear scan of the table. */
    method CheckConflicts(q: Query) returns (results: seq<Conflict>)
      requires Valid() && QueryInRange(q)
      ensures results == Scan(table, q, Words())
    {
      var words := (count + 63) / 64;
      if words == 0 {
        return [];
      }
      var lambda, port, tenant := ComputeConflictMasks(q);
      IdsMatchTable();
      results := CollectConflicts(words, leaseIDs[..], table, q, lambda, port, tenant);
    }

    /** The buffered path returns the same sequence whatever the buffer held; it keeps the
        buffer while the answer fits and moves to a new array when it does not. */
    method CheckConflictsBuf(q: Query, buf: array<Conflict>) returns (out: array<Conflict>, n: nat)
      requires Valid() && QueryInRange(q)
      modifies buf
      ensures n <= out.Length && out[..n] == Scan(table, q, Words())
      ensures if n <= buf.Length then out == buf else fresh(out)
    {
      var lambda, port, tenant := ComputeConflictMasks(q);
      IdsMatchTable();
      out, n := ExtractConflicts((count + 63) / 64, leaseIDs[..], table, q, lambda, port, tenant, buf);
    }

    method Snapshot(slot: nat) returns (snap: LensSnapshot)
      requires Valid() && slot < MAX_LEASES && table[slot].Some?
      ensures snap == LensSnapshot(table[slot].value, slot)
    {
      assert SlotOk(slot);
      ghost var a := table[slot].value;
      Widths();
      ValueOfBits(a.channelNum, 32);
      ValueOfBits(a.awgId, 16);
      ValueOfBits(a.tenantId, 16);
      ValueOfBits(a.awgPort, 16);
      var channel := ReadColumn(channelNum, slot);
      var awg := ReadColumn(awgID, slot);
      var tenant := ReadColumn(tenantID, slot);
      var port := ReadColumn(awgPort, slot);
      snap := LensSnapshot(
        Attributes(leaseIDs[slot], channel, awg, tenant, port, exclusive[slot / 64][slot % 64]), slot);
    }

    method LensWord(w: nat, before: seq<LensSnapshot>) returns (snapshots: seq<LensSnapshot>)
      requires Valid() && w < WORDS_PER_PLANE
      ensures snapshots == before + Listed(active[w], 64 * w, SnapshotOf(table))
    {
      snapshots := before;
      var activeBits := active[w];
      while true in activeBits
        invariant forall i :: 0 <= i < 64 && activeBits[i] ==> active[w][i]
        invariant snapshots + Listed(activeBits, 64 * w, SnapshotOf(table))
                  == before + Listed(active[w], 64 * w, SnapshotOf(table))
        decreases Value(activeBits)
      {
        WalkStep(snapshots, activeBits, 64 * w, SnapshotOf(table));
        var slot := 64 * w + TrailingZeros(activeBits);
        SlotBits(w, TrailingZeros(activeBits));
        var snap := Snapshot(slot);
        snapshots := snapshots + [snap];
        activeBits := And(activeBits, MinusOne(activeBits));
      }
      ListedNothing(activeBits, 64 * w, SnapshotOf(table));
    }

    /** Lens lists exactly the surviving leases, in slot order, with the attributes they
        were inserted with. */
    method Lens() returns (snapshots: seq<LensSnapshot>)
      requires Valid()
      ensures snapshots == Live(table, MAX_LEASES)
    {
      snapshots := [];
      var words := (count + 63) / 64;
      for w := 0 to words
        invariant snapshots == Live(table, 64 * w)
      {
        forall i | 0 <= i < 64 ensures active[w][i] == table[64 * w + i].Some? {
          SlotBits(w, i);
        }
        ListedIsLive(table, active[w], 64 * w);
        snapshots := LensWord(w, snapshots);
      }
      LiveTail(table, 64 * words, MAX_LEASES);
    }
  }
}
