/** The persistent replay cache (crates/luxstream-otap-d3/src/replay_cache.rs): an on-disk
    ring of the transcript hashes accepted last, kept across restarts of the daemon. */
module ReplayCache {
  import opened ByteStrings
  import opened Words

  type Hash = Digest

  /** The cache as a value: the slots in memory, the slots on disk and the write position. */
  datatype Cache = Cache(capacity: nat, idx: nat, slots: seq<Hash>, disk: seq<Hash>)

  /** Memory is the written part of the disk; a ring that is not yet full is written in order. */
  ghost predicate Valid(c: Cache) {
    && c.capacity > 0 && |c.disk| == c.capacity && c.idx < c.capacity
    && |c.slots| <= c.capacity && c.slots <= c.disk
    && (|c.slots| < c.capacity ==> c.idx == |c.slots|)
  }

  function Insert(c: Cache, h: Hash): Cache
    requires c.capacity > 0 && c.idx < |c.disk| && (|c.slots| >= c.capacity ==> c.idx < |c.slots|)
  {
    Cache(
      c.capacity, (c.idx + 1) % c.capacity,
      if |c.slots| < c.capacity then c.slots + [h] else c.slots[c.idx := h],
      c.disk[c.idx := h])
  }

  /** What a daemon finds when it opens the file a valid cache wrote. */
  ghost function Restart(c: Cache): Cache {
    Cache(c.capacity, 0, c.disk, c.disk)
  }

  // ---- the file ----

  ghost function Record(file: Bytes, i: nat): Hash
    requires 32 * i + 32 <= |file|
  {
    file[32 * i..32 * i + 32]
  }

  ghost function Records(file: Bytes, n: nat): (rs: seq<Hash>)
    requires 32 * n <= |file|
    ensures |rs| == n
  {
    seq(n, i requires 0 <= i < n => Record(file, i))
  }

  /** The number of whole records an open loads. */
  ghost function Loaded(file: Bytes, capacity: nat): nat {
    if |file| / 32 < capacity then |file| / 32 else capacity
  }

  ghost function Extended(file: Bytes, capacity: nat): (r: Bytes)
    ensures |r| >= 32 * capacity && file <= r
  {
    if |file| < 32 * capacity then file + Zeros(32 * capacity - |file|) else file
  }

  lemma OverwriteRecord(file: Bytes, n: nat, i: nat, h: Hash)
    requires i < n && 32 * n <= |file|
    ensures var after := file[..32 * i] + h + file[32 * i + 32..];
      |after| == |file| && Records(after, n) == Records(file, n)[i := h]
  {
    var after := file[..32 * i] + h + file[32 * i + 32..];
    forall j | 0 <= j < n ensures Record(after, j) == if j == i then h else Record(file, j) {
      forall b | 0 <= b < 32 ensures Record(after, j)[b] == (if j == i then h else Record(file, j))[b] {
      }
    }
  }

  class PersistentReplayCache {
    const capacity: nat
    var file: Bytes
    var currentIdx: nat
    var inMemoryCache: seq<Hash>

    ghost function View(): Cache
      reads this
      requires 32 * capacity <= |file|
    {
      Cache(capacity, currentIdx, inMemoryCache, Records(file, capacity))
    }

    ghost predicate Ok()
      reads this
    {
      32 * capacity <= |file| && Valid(View())
    }

    constructor Open(contents: Bytes, capacity: nat)
      requires capacity > 0
      ensures this.capacity == capacity && Ok()
      ensures file == Extended(contents, capacity)
      ensures inMemoryCache == Records(contents, Loaded(contents, capacity))
      ensures currentIdx == if Loaded(contents, capacity) == capacity then 0 else Loaded(contents, capacity)
    {
      var cache: seq<Hash> := [];
      var pos, loaded := 0, 0;
      while true
        invariant pos == 32 * loaded <= |contents| && loaded < capacity
        invariant cache == Records(contents, loaded)
        decreases |contents| - pos
      {
        var end := if pos + 32 <= |contents| then pos + 32 else |contents|;
        if end - pos != 32 {
          break;
        }
        assert contents[pos..end] == Record(contents, loaded);
        cache := cache + [contents[pos..end]];
        pos := end;
        loaded := loaded + 1;
        if loaded >= capacity {
          break;
        }
      }
      this.capacity := capacity;
      inMemoryCache := cache;
      currentIdx := loaded % capacity;
      file := if |contents| < 32 * capacity then contents + Zeros(32 * capacity - |contents|) else contents;
      new;
      SmallMod(loaded, capacity);
      PrefixRecords(contents, file, loaded, capacity);
    }

    method CheckAndInsert(transcript: Hash) returns (ok: bool)
      requires Ok()
      modifies this
      ensures Ok()
      ensures ok <==> transcript !in old(inMemoryCache)
      ensures ok ==> View() == Insert(old(View()), transcript)
      ensures !ok ==> View() == old(View()) && file == old(file)
    {
      var i := 0;
      while i < |inMemoryCache|
        invariant i <= |inMemoryCache| && transcript !in inMemoryCache[..i]
      {
        if inMemoryCache[i] == transcript {
          return false;
        }
        i := i + 1;
      }
      InsertKeepsValid(View(), transcript);
      OverwriteRecord(file, capacity, currentIdx, transcript);
      if |inMemoryCache| < capacity {
        inMemoryCache := inMemoryCache + [transcript];
      } else {
        inMemoryCache := inMemoryCache[currentIdx := transcript];
      }
      var offset := currentIdx * 32;
      file := file[..offset] + transcript + file[offset + 32..];
      currentIdx := (currentIdx + 1) % capacity;
      return true;
    }
  }

  lemma SmallMod(a: nat, n: nat)
    requires n > 0 && a <= n
    ensures a % n == if a == n then 0 else a
  {
  }

  lemma PrefixRecords(file: Bytes, longer: Bytes, n: nat, m: nat)
    requires file <= longer && 32 * n <= |file| && n <= m && 32 * m <= |longer|
    ensures Records(file, n) <= Records(longer, m)
  {
    forall i | 0 <= i < n ensures Record(file, i) == Record(longer, i) {
      assert file == longer[..|file|];
    }
  }

  lemma InsertKeepsValid(c: Cache, h: Hash)
    requires Valid(c)
    ensures Valid(Insert(c, h))
  {
    SmallMod(c.idx + 1, c.capacity);
  }

  /** Reopening the file a valid cache wrote gives Restart of that cache. */
  lemma ReopenIsRestart(file: Bytes, c: Cache)
    requires Valid(c) && 32 * c.capacity <= |file| && c.disk == Records(file, c.capacity)
    ensures Loaded(file, c.capacity) == c.capacity && Extended(file, c.capacity) == file
    ensures Restart(c).slots == Records(file, Loaded(file, c.capacity)) && Valid(Restart(c))
  {
  }

  // ---- what is refused ----

  ghost function Last(a: seq<Hash>, n: nat): seq<Hash> {
    if |a| <= n then a else a[|a| - n..]
  }

  /** The slots from the one written longest ago to the one written last. */
  ghost function Unrolled(c: Cache): seq<Hash>
    requires Valid(c)
  {
    c.slots[c.idx..] + c.slots[..c.idx]
  }

  ghost predicate Distinct(s: seq<Hash>) {
    forall i, j :: 0 <= i < j < |s| ==> s[i] != s[j]
  }

  ghost predicate AllZero(s: seq<Hash>) {
    forall i :: 0 <= i < |s| ==> s[i] == ZERO_HASH
  }

  /** The ring holds exactly the hashes accepted last. */
  ghost predicate Exact(c: Cache, accepted: seq<Hash>) {
    && Valid(c) && Unrolled(c) == Last(accepted, c.capacity) && Distinct(c.slots)
    && AllZero(c.disk[|c.slots|..])
  }

  /** The ring was opened empty, so its unwritten slots were loaded as zero hashes. */
  ghost predicate Padded(c: Cache, accepted: seq<Hash>) {
    && Valid(c) && |accepted| < c.capacity == |c.slots| && c.idx == |accepted|
    && c.slots[..c.idx] == accepted && AllZero(c.slots[c.idx..])
    && Distinct(accepted) && ZERO_HASH !in accepted
  }

  ghost predicate Tracks(c: Cache, accepted: seq<Hash>) {
    Exact(c, accepted) || Padded(c, accepted)
  }

  /** Replay protection: everything among the last `capacity` accepted hashes is refused. */
  ghost predicate Protects(c: Cache, accepted: seq<Hash>) {
    forall h :: h in Last(accepted, c.capacity) ==> h in c.slots
  }

  lemma UnrolledHas(c: Cache, h: Hash)
    requires Valid(c)
    ensures h in Unrolled(c) <==> h in c.slots
  {
    assert c.slots == c.slots[..c.idx] + c.slots[c.idx..];
  }

  /** While Tracks holds a hash is refused if it is among the last accepted ones, and a
      refused hash is one of those or the zero hash of an unwritten slot. */
  lemma RefusalIsExact(c: Cache, accepted: seq<Hash>, h: Hash)
    requires Tracks(c, accepted)
    ensures h in Last(accepted, c.capacity) ==> h in c.slots
    ensures h in c.slots ==> h in Last(accepted, c.capacity) || (Padded(c, accepted) && h == ZERO_HASH)
  {
    UnrolledHas(c, h);
    assert c.slots == c.slots[..c.idx] + c.slots[c.idx..];
  }

  lemma InsertExact(c: Cache, accepted: seq<Hash>, h: Hash)
    requires Exact(c, accepted) && h !in c.slots
    ensures Exact(Insert(c, h), accepted + [h])
  {
    var after := Insert(c, h);
    InsertKeepsValid(c, h);
    SmallMod(c.idx + 1, c.capacity);
    UnrollInsert(c, h);
    assert |Unrolled(c)| == |c.slots|;
    assert AllZero(after.disk[|after.slots|..]);
  }

  /** An accepted hash goes in as the newest, and pushes out the oldest when the ring is full. */
  lemma UnrollInsert(c: Cache, h: Hash)
    requires Valid(c) && Valid(Insert(c, h))
    ensures Unrolled(Insert(c, h)) ==
      if |c.slots| < c.capacity then Unrolled(c) + [h] else Unrolled(c)[1..] + [h]
  {
    SmallMod(c.idx + 1, c.capacity);
    var u := Unrolled(Insert(c, h));
    if |c.slots| < c.capacity {
      assert u == c.slots + [h];
    } else {
      assert u == c.slots[c.idx + 1..] + c.slots[..c.idx] + [h];
    }
  }

  lemma InsertPadded(c: Cache, accepted: seq<Hash>, h: Hash)
    requires Padded(c, accepted) && h !in c.slots
    ensures Tracks(Insert(c, h), accepted + [h])
  {
    var after := Insert(c, h);
    InsertKeepsValid(c, h);
    SmallMod(c.idx + 1, c.capacity);
    assert c.slots[c.idx..][0] == ZERO_HASH;
    if c.idx + 1 == c.capacity {
      assert after.slots == accepted + [h];
      assert Unrolled(after) == after.slots;
      assert forall x :: x in accepted ==> x in c.slots;
    } else {
      assert after.slots[..after.idx] == accepted + [h];
      assert AllZero(after.slots[after.idx..]);
      assert forall x :: x in accepted ==> x in c.slots;
    }
  }

  // ---- runs with restarts ----

  datatype Event = Submit(h: Hash) | Reopen

  datatype History = History(cache: Cache, accepted: seq<Hash>)

  ghost function Start(capacity: nat): History {
    History(Cache(capacity, 0, [], seq(capacity, _ => ZERO_HASH)), [])
  }

  ghost function Step(s: History, e: Event): History
    requires Valid(s.cache)
  {
    match e
    case Submit(h) =>
      if h in s.cache.slots then s else History(Insert(s.cache, h), s.accepted + [h])
    case Reopen => History(Restart(s.cache), s.accepted)
  }

  /** A restart while the number of accepted hashes is a multiple of the capacity. */
  ghost predicate CleanlyTimed(s: History, e: Event)
    requires s.cache.capacity > 0
  {
    e.Reopen? ==> |s.accepted| % s.cache.capacity == 0
  }

  ghost predicate Inv(s: History) {
    Tracks(s.cache, s.accepted) && s.cache.idx == |s.accepted| % s.cache.capacity
  }

  lemma NextMod(n: nat, c: nat)
    requires c > 0
    ensures (n + 1) % c == (n % c + 1) % c
  {
    var q, r := n / c, n % c;
    SmallMod(r + 1, c);
    if r + 1 == c {
      assert n + 1 == c * (q + 1);
      QuotientUnique(n + 1, c, q + 1, 0);
    } else {
      QuotientUnique(n + 1, c, q, r + 1);
    }
  }

  lemma StepKeepsInv(s: History, e: Event)
    requires Inv(s) && CleanlyTimed(s, e)
    ensures Inv(Step(s, e)) && Step(s, e).cache.capacity == s.cache.capacity
  {
    var c := s.cache;
    match e {
      case Submit(h) =>
        if h !in c.slots {
          NextMod(|s.accepted|, c.capacity);
          if Exact(c, s.accepted) {
            InsertExact(c, s.accepted, h);
          } else {
            InsertPadded(c, s.accepted, h);
          }
        }
      case Reopen =>
        CleanRestart(c, s.accepted);
    }
  }

  lemma CleanRestart(c: Cache, accepted: seq<Hash>)
    requires Tracks(c, accepted) && c.idx == 0
    ensures Tracks(Restart(c), accepted)
  {
    var r := Restart(c);
    if |c.slots| == c.capacity {
      assert c.disk == c.slots && r == c;
    } else {
      assert c.slots == [] && accepted == [] by {
        assert Unrolled(c) == [];
      }
      assert r.slots[r.idx..] == c.disk[|c.slots|..];
    }
  }

  ghost predicate CleanStep(s: History, e: Event, s': History) {
    Valid(s.cache) && CleanlyTimed(s, e) && s' == Step(s, e)
  }

  ghost predicate CleanRun(capacity: nat, es: seq<Event>, ss: seq<History>) {
    && capacity > 0 && |ss| == |es| + 1 && ss[0] == Start(capacity)
    && forall i {:trigger es[i]} :: 0 <= i < |es| ==> CleanStep(ss[i], es[i], ss[i + 1])
  }

  lemma {:induction false} CleanRunsKeepInv(capacity: nat, es: seq<Event>, ss: seq<History>, n: nat)
    requires CleanRun(capacity, es, ss) && n <= |es|
    ensures Inv(ss[n]) && ss[n].cache.capacity == capacity
  {
    if n == 0 {
      assert 0 % capacity == 0;
      assert Unrolled(ss[0].cache) == [];
    } else {
      CleanRunsKeepInv(capacity, es, ss, n - 1);
      StepKeepsInv(ss[n - 1], es[n - 1]);
    }
  }

  /** In every run from a new file whose restarts come when the number of accepted hashes is
      a multiple of the capacity, each of the last `capacity` accepted hashes is refused, and
      nothing else is but the zero hash of a slot never written. */
  lemma CleanRunsProtect(capacity: nat, es: seq<Event>, ss: seq<History>, n: nat, h: Hash)
    requires CleanRun(capacity, es, ss) && n <= |es|
    ensures h in Last(ss[n].accepted, capacity) ==> h in ss[n].cache.slots
    ensures h in ss[n].cache.slots ==>
      h in Last(ss[n].accepted, capacity) || (|ss[n].accepted| < capacity && h == ZERO_HASH)
  {
    CleanRunsKeepInv(capacity, es, ss, n);
    RefusalIsExact(ss[n].cache, ss[n].accepted, h);
  }

  /** Any accepted hash differs from the `capacity` accepted before it. */
  ghost predicate Spaced(accepted: seq<Hash>, capacity: nat) {
    forall i, j :: 0 <= i < j < |accepted| && j - i <= capacity ==> accepted[i] != accepted[j]
  }

  lemma AcceptKeepsSpaced(c: Cache, accepted: seq<Hash>, h: Hash)
    requires Tracks(c, accepted) && Spaced(accepted, c.capacity) && h !in c.slots
    ensures Spaced(accepted + [h], c.capacity)
  {
    var n := |accepted|;
    forall i | 0 <= i < n && n - i <= c.capacity ensures accepted[i] != h {
      var l := Last(accepted, c.capacity);
      assert l[i - (n - |l|)] == accepted[i];
      RefusalIsExact(c, accepted, accepted[i]);
    }
  }

  lemma StepKeepsSpaced(s: History, e: Event)
    requires Inv(s) && Spaced(s.accepted, s.cache.capacity)
    ensures Spaced(Step(s, e).accepted, s.cache.capacity)
  {
    if e.Submit? && e.h !in s.cache.slots {
      AcceptKeepsSpaced(s.cache, s.accepted, e.h);
    }
  }

  lemma {:induction false} CleanRunsSpaced(capacity: nat, es: seq<Event>, ss: seq<History>, n: nat)
    requires CleanRun(capacity, es, ss) && n <= |es|
    ensures Spaced(ss[n].accepted, capacity)
  {
    if n > 0 {
      CleanRunsSpaced(capacity, es, ss, n - 1);
      CleanRunsKeepInv(capacity, es, ss, n - 1);
      StepKeepsSpaced(ss[n - 1], es[n - 1]);
    }
  }

  // ---- every run, whenever it restarts ----

  ghost predicate StepsTo(s: History, e: Event, s': History) {
    Valid(s.cache) && s' == Step(s, e)
  }

  ghost predicate IsRun(capacity: nat, es: seq<Event>, ss: seq<History>) {
    && capacity > 0 && |ss| == |es| + 1 && ss[0] == Start(capacity)
    && forall i {:trigger es[i]} :: 0 <= i < |es| ==> StepsTo(ss[i], es[i], ss[i + 1])
  }

  /** A slot that memory does not hold was never written, and is zero on disk. */
  ghost predicate Consistent(c: Cache) {
    Valid(c) && AllZero(c.disk[|c.slots|..])
  }

  lemma StepKeepsConsistent(s: History, e: Event)
    requires Consistent(s.cache)
    ensures Consistent(Step(s, e).cache) && Step(s, e).cache.capacity == s.cache.capacity
  {
    if e.Submit? && e.h !in s.cache.slots {
      InsertKeepsValid(s.cache, e.h);
    }
  }

  lemma {:induction false} RunKeepsConsistent(capacity: nat, es: seq<Event>, ss: seq<History>, n: nat)
    requires IsRun(capacity, es, ss) && n <= |es|
    ensures Consistent(ss[n].cache) && ss[n].cache.capacity == capacity
  {
    if n > 0 {
      RunKeepsConsistent(capacity, es, ss, n - 1);
      StepKeepsConsistent(ss[n - 1], es[n - 1]);
    }
  }

  lemma ReopenedSlots(c: Cache, h: Hash)
    requires Consistent(c)
    ensures h in Restart(c).slots <==> h in c.slots || (|c.slots| < c.capacity && h == ZERO_HASH)
  {
    assert c.disk == c.slots + c.disk[|c.slots|..];
    if |c.slots| < c.capacity {
      assert c.disk[|c.slots|..][0] == ZERO_HASH;
    }
  }

  /** A restart forgets nothing at once.  At any point of any run, whatever restarts came
      before, reopening refuses what was refused, and the zero hash when some slot was never
      written, and nothing else. */
  lemma RestartRefusesTheSame(capacity: nat, es: seq<Event>, ss: seq<History>, n: nat, h: Hash)
    requires IsRun(capacity, es, ss) && n <= |es|
    ensures var c := ss[n].cache;
      h in Restart(c).slots <==> h in c.slots || (|c.slots| < capacity && h == ZERO_HASH)
  {
    RunKeepsConsistent(capacity, es, ss, n);
    ReopenedSlots(ss[n].cache, h);
  }

  lemma SlotZeroIsRecent(c: Cache, a: seq<Hash>, h: Hash)
    requires Tracks(c, a) && c.idx != 0 && |c.slots| == c.capacity && h !in c.slots
    ensures c.slots[0] in Last(a + [h], c.capacity)
    ensures c.slots[0] !in Insert(Restart(c), h).slots
    ensures |a| < c.capacity ==> a[0] != ZERO_HASH
  {
    var x := c.slots[0];
    assert c.disk == c.slots;
    if Exact(c, a) {
      assert Unrolled(c)[c.capacity - c.idx] == x;
      var l := Last(a + [h], c.capacity);
      assert l == Last(a, c.capacity)[1..] + [h];
      assert l[c.capacity - c.idx - 1] == x;
    } else {
      assert x == a[0] && Last(a + [h], c.capacity) == a + [h];
      assert forall i :: 0 < i < c.idx ==> c.slots[i] == a[i];
      assert forall i :: c.idx <= i < c.capacity ==> c.slots[i] == c.slots[c.idx..][i - c.idx];
    }
  }

  lemma PartlyWritten(c: Cache, a: seq<Hash>)
    requires Tracks(c, a) && |c.slots| < c.capacity
    ensures c.slots == a && c.idx == |a| && Distinct(a)
    ensures forall i :: 0 <= i < c.capacity ==> c.disk[i] == if i < |a| then a[i] else ZERO_HASH
  {
    assert Unrolled(c) == c.slots;
    assert forall i :: |a| <= i < c.capacity ==> c.disk[i] == c.disk[|c.slots|..][i - |c.slots|];
  }

  lemma ZeroSlotSurvives(c: Cache, a: seq<Hash>, h: Hash)
    requires Tracks(c, a) && c.idx != 0 && |c.slots| < c.capacity && a != [] && a[0] == ZERO_HASH
    ensures Protects(Insert(Restart(c), h), a + [h])
  {
    PartlyWritten(c, a);
    var slots := Insert(Restart(c), h).slots;
    forall x | x in Last(a + [h], c.capacity) ensures x in slots {
      var i :| 0 <= i <= |a| && (a + [h])[i] == x;
      assert slots[if i == 0 then |a| else if i == |a| then 0 else i] == x;
    }
  }

  lemma FirstIsForgotten(c: Cache, a: seq<Hash>, h: Hash)
    requires Tracks(c, a) && c.idx != 0 && |c.slots| < c.capacity && a != [] && a[0] != ZERO_HASH && h !in c.disk
    ensures !Protects(Insert(Restart(c), h), a + [h])
  {
    PartlyWritten(c, a);
    assert c.disk[0] == a[0] && a[0] == (a + [h])[0];
    assert a[0] !in Insert(Restart(c), h).slots;
  }

  /** It resets the write position, though: the hash accepted next overwrites slot 0.  After
      that, protection still covers the last `capacity` accepted hashes exactly when the
      restart came on a multiple of the capacity, or slot 0 held the zero hash and some slot
      was never written. */
  lemma RestartIsSafeIff(s: History, h: Hash)
    requires Inv(s) && h !in Restart(s.cache).slots
    ensures Protects(Insert(Restart(s.cache), h), s.accepted + [h]) <==>
      |s.accepted| % s.cache.capacity == 0
      || (|s.accepted| < s.cache.capacity && s.accepted[0] == ZERO_HASH)
  {
    var c, a := s.cache, s.accepted;
    if c.idx == 0 {
      CleanRestart(c, a);
      StepKeepsInv(History(Restart(c), a), Submit(h));
      forall x ensures x in Last(a + [h], c.capacity) ==> x in Insert(Restart(c), h).slots {
        RefusalIsExact(Insert(Restart(c), h), a + [h], x);
      }
    } else if |c.slots| == c.capacity {
      SlotZeroIsRecent(c, a, h);
    } else if a[0] == ZERO_HASH {
      ZeroSlotSurvives(c, a, h);
    } else {
      FirstIsForgotten(c, a, h);
    }
  }

  /** Capacity two: one hash, a restart, and a second hash; the first is accepted again. */
  lemma RestartForgets(h1: Hash, h2: Hash)
    requires h1 != h2 && h1 != ZERO_HASH && h2 != ZERO_HASH
    ensures var s1 := Step(Start(2), Submit(h1));
      && Valid(Start(2).cache) && Valid(s1.cache) && h1 in s1.cache.slots
      && Valid(Step(s1, Reopen).cache)
      && var s2 := Step(Step(s1, Reopen), Submit(h2));
      s2.accepted == [h1, h2] && h1 !in s2.cache.slots
  {
  }

  // ---- when a run protects ----

  ghost predicate HeldElsewhere(slots: seq<Hash>, i: nat)
    requires i < |slots|
  {
    exists j :: 0 <= j < |slots| && j != i && slots[j] == slots[i]
  }

  /** The slot to be written next is empty, or holds no hash of the last capacity - 1 accepted
      that no other slot holds. */
  ghost predicate SafeToWrite(c: Cache, accepted: seq<Hash>)
    requires Valid(c)
  {
    |c.slots| == c.capacity && !HeldElsewhere(c.slots, c.idx) ==>
      c.slots[c.idx] !in Last(accepted, c.capacity - 1)
  }

  lemma LastGrows(a: seq<Hash>, h: Hash, n: nat)
    requires n > 0
    ensures Last(a + [h], n) == Last(a, n - 1) + [h]
    ensures forall x :: x in Last(a, n - 1) ==> x in Last(a, n)
  {
    var l, k := Last(a, n), Last(a, n - 1);
    assert k == l[|l| - |k|..];
  }

  lemma AfterWrite(slots: seq<Hash>, i: nat, h: Hash, x: Hash)
    requires i < |slots| && x in slots && x != h
    ensures x in slots[i := h] <==> x != slots[i] || HeldElsewhere(slots, i)
  {
    var k :| 0 <= k < |slots| && slots[k] == x;
    var after := slots[i := h];
    assert forall j :: 0 <= j < |slots| && j != i ==> after[j] == slots[j];
    if x in after {
      var j :| 0 <= j < |slots| && after[j] == x;
      assert j != i && slots[j] == x;
    }
  }

  lemma AcceptProtectsIff(c: Cache, a: seq<Hash>, h: Hash)
    requires Valid(c) && Protects(c, a) && h !in c.slots
    ensures Protects(Insert(c, h), a + [h]) <==> SafeToWrite(c, a)
  {
    LastGrows(a, h, c.capacity);
    var k := Last(a, c.capacity - 1);
    if |c.slots| == c.capacity {
      forall x | x in k ensures x in Insert(c, h).slots <==> x != c.slots[c.idx] || HeldElsewhere(c.slots, c.idx) {
        AfterWrite(c.slots, c.idx, h, x);
      }
      assert Insert(c, h).slots[c.idx] == h;
    }
  }

  ghost predicate Protected(s: History) {
    Protects(s.cache, s.accepted)
  }

  ghost predicate AlwaysProtected(ss: seq<History>, n: nat)
    requires n < |ss|
  {
    forall i :: 0 <= i <= n ==> Protected(ss[i])
  }

  ghost predicate Accepts(s: History, e: Event) {
    e.Submit? && e.h !in s.cache.slots
  }

  ghost predicate SafeEvent(s: History, e: Event) {
    Valid(s.cache) && (Accepts(s, e) ==> SafeToWrite(s.cache, s.accepted))
  }

  ghost predicate SafeEvents(es: seq<Event>, ss: seq<History>, n: nat)
    requires n <= |es| < |ss|
  {
    forall i :: 0 <= i < n ==> SafeEvent(ss[i], es[i])
  }

  lemma StepProtectsIff(s: History, e: Event)
    requires Consistent(s.cache) && Protected(s)
    ensures Protected(Step(s, e)) <==> SafeEvent(s, e)
  {
    if Accepts(s, e) {
      AcceptProtectsIff(s.cache, s.accepted, e.h);
    } else if e.Reopen? {
      forall h | h in Last(s.accepted, s.cache.capacity) ensures h in Restart(s.cache).slots {
        ReopenedSlots(s.cache, h);
      }
    }
  }

  /** Over every run from a new file, restarts anywhere: each of the last `capacity` accepted
      hashes is refused at every point, exactly when no acceptance overwrote the only slot
      with one of the last capacity - 1. */
  lemma {:induction false} RunsProtectIff(capacity: nat, es: seq<Event>, ss: seq<History>, n: nat)
    requires IsRun(capacity, es, ss) && n <= |es|
    ensures AlwaysProtected(ss, n) <==> SafeEvents(es, ss, n)
  {
    if n > 0 {
      RunsProtectIff(capacity, es, ss, n - 1);
      RunKeepsConsistent(capacity, es, ss, n - 1);
      OneMoreEvent(es, ss, n);
      if AlwaysProtected(ss, n - 1) {
        assert Protected(ss[n - 1]);
        StepProtectsIff(ss[n - 1], es[n - 1]);
      }
    }
  }

  lemma OneMoreEvent(es: seq<Event>, ss: seq<History>, n: nat)
    requires 0 < n <= |es| < |ss|
    ensures AlwaysProtected(ss, n) <==> AlwaysProtected(ss, n - 1) && Protected(ss[n])
    ensures SafeEvents(es, ss, n) <==> SafeEvents(es, ss, n - 1) && SafeEvent(ss[n - 1], es[n - 1])
  {
  }

  // ---- the same in terms of when restarts come ----

  /** The write position agrees with the number of hashes accepted so far. */
  ghost predicate InPlace(s: History) {
    s.cache.capacity > 0 && s.cache.idx == |s.accepted| % s.cache.capacity
  }

  ghost predicate Timely(s: History, e: Event) {
    Accepts(s, e) ==> InPlace(s)
  }

  ghost predicate AllTimely(es: seq<Event>, ss: seq<History>, n: nat)
    requires n <= |es| < |ss|
  {
    forall i :: 0 <= i < n ==> Timely(ss[i], es[i])
  }

  /** Reopened off a multiple of the capacity, and nothing accepted since. */
  ghost predicate Displaced(s: History, c: Cache) {
    Inv(History(c, s.accepted)) && s.cache == Restart(c) && |s.accepted| % c.capacity != 0
  }

  ghost predicate Known(s: History) {
    ZERO_HASH !in s.accepted && (Inv(s) || exists c :: Displaced(s, c))
  }

  lemma InvProtects(s: History)
    requires Inv(s)
    ensures Protected(s)
  {
    forall h | h in Last(s.accepted, s.cache.capacity) ensures h in s.cache.slots {
      RefusalIsExact(s.cache, s.accepted, h);
    }
  }

  lemma DisplacedProtects(s: History, c: Cache)
    requires Displaced(s, c)
    ensures Protected(s) && !InPlace(s)
  {
    InvProtects(History(c, s.accepted));
    assert c.disk[..|c.slots|] == c.slots;
  }

  lemma KnownProtects(s: History)
    requires Known(s)
    ensures Protected(s)
  {
    if Inv(s) {
      InvProtects(s);
    } else {
      var c :| Displaced(s, c);
      DisplacedProtects(s, c);
    }
  }

  lemma InvStep(s: History, e: Event)
    requires Inv(s) && ZERO_HASH !in s.accepted && e != Submit(ZERO_HASH)
    ensures Timely(s, e) && Known(Step(s, e))
  {
    if CleanlyTimed(s, e) {
      StepKeepsInv(s, e);
    } else {
      assert Displaced(Step(s, e), s.cache);
    }
  }

  lemma DisplacedStep(s: History, c: Cache, e: Event)
    requires Displaced(s, c) && ZERO_HASH !in s.accepted && Valid(s.cache)
    ensures Timely(s, e) ==> Known(Step(s, e))
    ensures !Timely(s, e) ==> !Protected(Step(s, e))
  {
    DisplacedProtects(s, c);
    if Accepts(s, e) {
      RestartIsSafeIff(History(c, s.accepted), e.h);
      assert |s.accepted| > 0 ==> s.accepted[0] in s.accepted;
    } else {
      assert Step(s, e) == s;
    }
  }

  /** In runs that submit no all-zero hash the condition is one of timing: protection holds at
      every point exactly when every acceptance finds the write position in step with the
      number of hashes accepted, that is, when no hash is accepted after a restart that did
      not come on a multiple of the capacity. */
  lemma {:induction false} RunsProtectIffTimely(capacity: nat, es: seq<Event>, ss: seq<History>, n: nat)
    requires IsRun(capacity, es, ss) && n <= |es|
    requires forall i :: 0 <= i < n ==> es[i] != Submit(ZERO_HASH)
    ensures AlwaysProtected(ss, n) <==> AllTimely(es, ss, n)
    ensures AllTimely(es, ss, n) ==> Known(ss[n])
  {
    if n == 0 {
      StartIsInv(capacity);
      KnownProtects(ss[0]);
    } else {
      RunsProtectIffTimely(capacity, es, ss, n - 1);
      OneMoreEvent(es, ss, n);
      assert AllTimely(es, ss, n) <==> AllTimely(es, ss, n - 1) && Timely(ss[n - 1], es[n - 1]);
      if AllTimely(es, ss, n - 1) {
        RunKeepsConsistent(capacity, es, ss, n - 1);
        KnownStep(ss[n - 1], es[n - 1]);
      }
    }
  }

  lemma StartIsInv(capacity: nat)
    requires capacity > 0
    ensures Known(Start(capacity))
  {
    assert 0 % capacity == 0;
    assert Unrolled(Start(capacity).cache) == [];
  }

  lemma KnownStep(s: History, e: Event)
    requires Known(s) && Valid(s.cache) && e != Submit(ZERO_HASH)
    ensures Timely(s, e) ==> Known(Step(s, e)) && Protected(Step(s, e))
    ensures !Timely(s, e) ==> !Protected(Step(s, e))
  {
    if Inv(s) {
      InvStep(s, e);
    } else {
      var c :| Displaced(s, c);
      DisplacedStep(s, c, e);
    }
    if Timely(s, e) {
      KnownProtects(Step(s, e));
    }
  }
}
