/** Everything VerifyMerkleProof accepts, whatever the length of the value and of the proof,
    and what roots of trees of different heights commit to
    (flr/internal/crypto/engine.go). */
module MerkleAcceptance {
  import opened ByteStrings
  import opened Merkle
  import Sorting
  import opened Words
  import opened Wrappers

  // ---- climbing in two parts ----

  lemma {:induction false} ClimbMore(sha3: Hash, x: Bytes, p: seq<Bytes>, s: Bytes)
    ensures Climb(sha3, x, p + [s]) == sha3(Step(Climb(sha3, x, p), s))
    ensures VerifierInputs(sha3, x, p + [s]) == VerifierInputs(sha3, x, p) + {Step(Climb(sha3, x, p), s)}
  {
    assert (p + [s])[..|p|] == p;
  }

  lemma {:induction false} ClimbJoin(sha3: Hash, x: Bytes, p: seq<Bytes>, q: seq<Bytes>)
    ensures Climb(sha3, Climb(sha3, x, p), q) == Climb(sha3, x, p + q)
    ensures VerifierInputs(sha3, Climb(sha3, x, p), q) <= VerifierInputs(sha3, x, p + q)
  {
    if q == [] {
      assert p + q == p;
    } else {
      var r, s := q[..|q| - 1], q[|q| - 1];
      ClimbJoin(sha3, x, p, r);
      ClimbMore(sha3, x, p + r, s);
      ClimbMore(sha3, Climb(sha3, x, p), r, s);
      assert q == r + [s] && p + q == (p + r) + [s];
    }
  }

  lemma {:induction false} ClimbSplit(sha3: Hash, x: Bytes, proof: seq<Bytes>, k: nat)
    requires k <= |proof|
    ensures Climb(sha3, Climb(sha3, x, proof[..k]), proof[k..]) == Climb(sha3, x, proof)
    ensures VerifierInputs(sha3, Climb(sha3, x, proof[..k]), proof[k..]) <= VerifierInputs(sha3, x, proof)
  {
    ClimbJoin(sha3, x, proof[..k], proof[k..]);
    assert proof[..k] + proof[k..] == proof;
  }

  lemma {:induction false} HashedAt(sha3: Hash, x: Bytes, proof: seq<Bytes>, k: nat)
    requires k < |proof|
    ensures var w := Step(Climb(sha3, x, proof[..k]), proof[k]);
      w in VerifierInputs(sha3, x, proof) && Climb(sha3, x, proof[..k + 1]) == sha3(w)
  {
    var n := |proof| - 1;
    assert proof[..k + 1][..k] == proof[..k];
    if k < n {
      HashedAt(sha3, x, proof[..n], k);
      assert proof[..n][..k] == proof[..k] && proof[..n][..k + 1] == proof[..k + 1];
    } else {
      assert proof[..k + 1] == proof;
    }
  }

  // ---- what the hashes of a tree are hashes of ----

  lemma {:induction false} InteriorIsHashed(p: Pairing, sha3: Hash, t: MerkleNode, h: nat, d: nat, y: Bytes) returns (w: Bytes)
    requires Built(p, sha3, t, h) && d < h && y in HashesAt(t, d)
    ensures w in BuilderInputs(p, t) && sha3(w) == y
  {
    if d == 0 {
      w := Combine(p, t.left.hash, t.right.hash);
    } else if y in HashesAt(t.left, d - 1) {
      w := InteriorIsHashed(p, sha3, t.left, h - 1, d - 1, y);
    } else {
      w := InteriorIsHashed(p, sha3, t.right, h - 1, d - 1, y);
    }
  }

  /** The canonical strings of the committed leases. */
  ghost function Jsons(json: Json, order: seq<Lease>): set<Bytes> {
    set l | l in order :: json(l)
  }

  lemma {:induction false} CommittedLeaf(sha3: Hash, json: Json, order: seq<Lease>, y: Bytes) returns (u: Bytes)
    requires y in LeafHashes(TreeOf(sha3, json, order)) && y != ZERO_HASH
    ensures u in Jsons(json, order) && sha3(u) == y
  {
    PaddedTreeIsPerfect(Ordered, sha3, LeaseLeaves(sha3, json, order));
    var i := ListedLease(sha3, json, order, y);
    u := json(order[i]);
    assert order[i] in order;
  }

  // ---- all that is accepted ----

  /** The string whose digest is the k-th value of the climb. */
  ghost function Hashed(sha3: Hash, x: Bytes, proof: seq<Bytes>, k: nat): Bytes
    requires k < |proof|
  {
    Step(Climb(sha3, x, proof[..k]), proof[k])
  }

  /** A collision between a string the verifier hashed and one hashed when the tree was built. */
  ghost predicate Broken(sha3: Hash, json: Json, order: seq<Lease>, x: Bytes, proof: seq<Bytes>) {
    Collide(sha3, VerifierInputs(sha3, x, proof),
            BuilderInputs(Ordered, TreeOf(sha3, json, order)) + Jsons(json, order))
  }

  lemma {:induction false} BrokenBy(sha3: Hash, json: Json, order: seq<Lease>, x: Bytes, proof: seq<Bytes>, k: nat, w: Bytes)
    requires k < |proof| && Collision(sha3, Hashed(sha3, x, proof, k), w)
    requires w in BuilderInputs(Ordered, TreeOf(sha3, json, order)) || w in Jsons(json, order)
    ensures Broken(sha3, json, order, x, proof)
  {
    HashedAt(sha3, x, proof, k);
    assert Hashed(sha3, x, proof, k) in VerifierInputs(sha3, x, proof);
  }

  lemma {:induction false} ClimbedIsDigest(sha3: Hash, x: Bytes, proof: seq<Bytes>)
    requires proof != [] || |x| == 32
    ensures |Climb(sha3, x, proof)| == 32
  {
  }

  /** Soundness from the k-th value of the climb on. */
  lemma {:induction false} TailSoundnessIn(sha3: Hash, t: MerkleNode, h: nat, x: Bytes, proof: seq<Bytes>, k: nat)
    requires Built(Ordered, sha3, t, h) && Climb(sha3, x, proof) == t.hash
    requires k <= |proof| <= k + h && (k == 0 ==> |x| == 32)
    ensures Climb(sha3, x, proof[..k]) in HashesAt(t, |proof| - k)
            || Collide(sha3, VerifierInputs(sha3, x, proof), BuilderInputs(Ordered, t))
  {
    var y := Climb(sha3, x, proof[..k]);
    ClimbedIsDigest(sha3, x, proof[..k]);
    ClimbSplit(sha3, x, proof, k);
    Soundness(sha3, t, h, y, proof[k..]);
    if Collide(sha3, VerifierInputs(sha3, y, proof[k..]), BuilderInputs(Ordered, t)) {
      CollideGrows(sha3, VerifierInputs(sha3, y, proof[k..]), BuilderInputs(Ordered, t),
                   VerifierInputs(sha3, x, proof), BuilderInputs(Ordered, t));
    }
  }

  lemma {:induction false} TailSoundness(sha3: Hash, json: Json, order: seq<Lease>, x: Bytes, proof: seq<Bytes>, k: nat)
    requires Accepts(sha3, x, TreeOf(sha3, json, order).hash, proof)
    requires k <= |proof| <= k + Depth(|order|) && (k == 0 ==> |x| == 32)
    ensures Climb(sha3, x, proof[..k]) in HashesAt(TreeOf(sha3, json, order), |proof| - k)
            || Broken(sha3, json, order, x, proof)
  {
    var t := TreeOf(sha3, json, order);
    PaddedTreeIsPerfect(Ordered, sha3, LeaseLeaves(sha3, json, order));
    TailSoundnessIn(sha3, t, Depth(|order|), x, proof, k);
    if Collide(sha3, VerifierInputs(sha3, x, proof), BuilderInputs(Ordered, t)) {
      CollideGrows(sha3, VerifierInputs(sha3, x, proof), BuilderInputs(Ordered, t),
                   VerifierInputs(sha3, x, proof), BuilderInputs(Ordered, t) + Jsons(json, order));
    }
  }

  /** A value of another length than 32, with a proof no longer than the tree is deep: the first
      string hashed is one that was hashed for an interior node. */
  ghost predicate SplitsInterior(sha3: Hash, json: Json, order: seq<Lease>, x: Bytes, proof: seq<Bytes>) {
    |x| != 32 && 0 < |proof| <= Depth(|order|) && Step(x, proof[0]) in BuilderInputs(Ordered, TreeOf(sha3, json, order))
  }

  /** A proof longer than the tree is deep: it passes through a leaf, so some string hashed on
      the way is the canonical string of a committed lease, or has the zero digest. */
  ghost predicate PassesLeaf(sha3: Hash, json: Json, order: seq<Lease>, x: Bytes, proof: seq<Bytes>) {
    |proof| > Depth(|order|)
    && var w := Hashed(sha3, x, proof, |proof| - Depth(|order|) - 1);
       w in Jsons(json, order) || sha3(w) == ZERO_HASH
  }

  lemma {:induction false} ShortSplit(sha3: Hash, json: Json, order: seq<Lease>, x: Bytes, proof: seq<Bytes>)
    requires Accepts(sha3, x, TreeOf(sha3, json, order).hash, proof)
    requires |x| != 32 && 0 < |proof| <= Depth(|order|)
    ensures SplitsInterior(sha3, json, order, x, proof) || Broken(sha3, json, order, x, proof)
  {
    var t := TreeOf(sha3, json, order);
    TailSoundness(sha3, json, order, x, proof, 1);
    HashedAt(sha3, x, proof, 0);
    assert proof[..0] == [];
    var y := Climb(sha3, x, proof[..1]);
    if y in HashesAt(t, |proof| - 1) {
      PaddedTreeIsPerfect(Ordered, sha3, LeaseLeaves(sha3, json, order));
      var w := InteriorIsHashed(Ordered, sha3, t, Depth(|order|), |proof| - 1, y);
      if w != Hashed(sha3, x, proof, 0) {
        BrokenBy(sha3, json, order, x, proof, 0, w);
      }
    }
  }

  lemma {:induction false} LongPass(sha3: Hash, json: Json, order: seq<Lease>, x: Bytes, proof: seq<Bytes>)
    requires Accepts(sha3, x, TreeOf(sha3, json, order).hash, proof) && |proof| > Depth(|order|)
    ensures PassesLeaf(sha3, json, order, x, proof) || Broken(sha3, json, order, x, proof)
  {
    var t, h := TreeOf(sha3, json, order), Depth(|order|);
    var k := |proof| - h - 1;
    TailSoundness(sha3, json, order, x, proof, k + 1);
    HashedAt(sha3, x, proof, k);
    var y := Climb(sha3, x, proof[..k + 1]);
    if y in HashesAt(t, h) && y != ZERO_HASH {
      PaddedTreeIsPerfect(Ordered, sha3, LeaseLeaves(sha3, json, order));
      LeavesAreDeepest(Ordered, sha3, t, h);
      var u := CommittedLeaf(sha3, json, order, y);
      if u != Hashed(sha3, x, proof, k) {
        BrokenBy(sha3, json, order, x, proof, k, u);
      }
    }
  }

  /** Soundness for every value and every proof the verifier accepts: it is a 32-byte hash of
      the tree as far down as the proof is long; or it is of another length and splits a
      string hashed for an interior node; or the proof is longer than the tree is deep and
      passes through a leaf; or a collision is exhibited. */
  lemma {:induction false} SoundnessOfAll(sha3: Hash, json: Json, order: seq<Lease>, x: Bytes, proof: seq<Bytes>)
    requires Accepts(sha3, x, TreeOf(sha3, json, order).hash, proof)
    ensures
      || (|x| == 32 && |proof| <= Depth(|order|) && x in HashesAt(TreeOf(sha3, json, order), |proof|))
      || SplitsInterior(sha3, json, order, x, proof)
      || PassesLeaf(sha3, json, order, x, proof)
      || Broken(sha3, json, order, x, proof)
  {
    if |proof| > Depth(|order|) {
      LongPass(sha3, json, order, x, proof);
    } else if |x| == 32 {
      TailSoundness(sha3, json, order, x, proof, 0);
      assert proof[..0] == [];
    } else if proof == [] {
      PaddedTreeIsPerfect(Ordered, sha3, LeaseLeaves(sha3, json, order));
    } else {
      ShortSplit(sha3, json, order, x, proof);
    }
  }

  // ---- the other kinds do occur ----

  lemma {:induction false} ClimbAppend(sha3: Hash, u: Bytes, v: Bytes, path: seq<Bytes>)
    ensures Climb(sha3, u, [v] + path) == Climb(sha3, sha3(Step(u, v)), path)
  {
    ClimbSplit(sha3, u, [v] + path, 1);
    assert ([v] + path)[..1] == [v] && ([v] + path)[1..] == path && [v][..0] == [];
    assert Climb(sha3, u, [v]) == sha3(Step(Climb(sha3, u, []), v));
  }

  /** Whatever string a committed lease is hashed from, any cut of it into two parts of which
      the first is the smaller gives a value that is accepted, with a proof one longer than
      the tree is deep. */
  lemma {:induction false} CutLeaseIsAccepted(sha3: Hash, json: Json, order: seq<Lease>, i: nat, u: Bytes, v: Bytes) returns (path: seq<Bytes>)
    requires i < |order| && json(order[i]) == u + v && u != [] && v != [] && Less(u, v)
    ensures |path| == Depth(|order|) && Accepts(sha3, u, TreeOf(sha3, json, order).hash, [v] + path)
  {
    var t, leaves := TreeOf(sha3, json, order), LeaseLeaves(sha3, json, order);
    var y := LeaseHash(sha3, json, order[i]);
    PaddedTreeIsPerfect(Ordered, sha3, leaves);
    assert PaddedHashes(leaves)[i] == y;
    Completeness(sha3, t, Depth(|order|), y);
    path := FindProof(t, y).value;
    ClimbAppend(sha3, u, v, path);
  }

  /** In particular: for every committed lease whose canonical string is an object in braces,
      that string without its last byte is accepted.  So a caller has to check the length of
      the value as well as that of the proof. */
  lemma {:induction false} BraceIsAccepted(sha3: Hash, json: Json, order: seq<Lease>, i: nat) returns (path: seq<Bytes>)
    requires i < |order| && var w := json(order[i]); |w| >= 2 && w[0] == 123 && w[|w| - 1] == 125
    ensures var w := json(order[i]);
      |path| == Depth(|order|) && Accepts(sha3, w[..|w| - 1], TreeOf(sha3, json, order).hash, [[125]] + path)
  {
    var w := json(order[i]);
    var u := w[..|w| - 1];
    assert u + [125] == w;
    assert Leq(u, [125]) && u != [125];
    path := CutLeaseIsAccepted(sha3, json, order, i, u, [125]);
  }

  /** Likewise any such cut of a string hashed for an interior node, with a proof no longer than
      the tree is deep. */
  lemma {:induction false} CutInteriorIsAccepted(sha3: Hash, t: MerkleNode, h: nat, u: Bytes, v: Bytes) returns (path: seq<Bytes>)
    requires Built(Ordered, sha3, t, h) && u + v in BuilderInputs(Ordered, t) && u != [] && v != [] && Less(u, v)
    ensures |path| < h && Accepts(sha3, u, t.hash, [v] + path)
    decreases h
  {
    if u + v == Combine(Ordered, t.left.hash, t.right.hash) {
      path := [];
      ClimbAppend(sha3, u, v, []);
    } else {
      var left := u + v in BuilderInputs(Ordered, t.left);
      var child, sibling := if left then t.left else t.right, if left then t.right else t.left;
      var below := CutInteriorIsAccepted(sha3, child, h - 1, u, v);
      ProofExtends(sha3, t, h, child, sibling, u, [v] + below);
      path := below + [sibling.hash];
      assert ([v] + below) + [sibling.hash] == [v] + path;
    }
  }

  // ---- binding across heights ----

  /** The hashes of two levels agree as RootBinds compares leaves. */
  ghost predicate SameHashes(p: Pairing, a: seq<Bytes>, b: seq<Bytes>) {
    if p.Positional? then a == b else multiset(a) == multiset(b)
  }

  lemma {:induction false} SameHashesJoin(p: Pairing, a: seq<Bytes>, b: seq<Bytes>, c: seq<Bytes>, d: seq<Bytes>)
    requires SameHashes(p, a, c) && SameHashes(p, b, d)
    ensures SameHashes(p, a + b, c + d) && (p.Ordered? ==> SameHashes(p, a + b, d + c))
  {
  }

  /** Equal roots of trees of any two heights: the leaves of the lower tree are the hashes at
      that depth of the higher one, or the builders hashed a collision. */
  lemma {:induction false} RootBindsAcross(p: Pairing, sha3: Hash, a: MerkleNode, b: MerkleNode, h: nat, k: nat)
    requires Built(p, sha3, a, h) && Built(p, sha3, b, k) && h <= k && a.hash == b.hash
    ensures SameHashes(p, LeafHashes(a), HashesAt(b, h)) || Collide(sha3, BuilderInputs(p, a), BuilderInputs(p, b))
    decreases h
  {
    if h > 0 {
      var u, v := Combine(p, a.left.hash, a.right.hash), Combine(p, b.left.hash, b.right.hash);
      if u != v {
        assert u in BuilderInputs(p, a) && v in BuilderInputs(p, b) && Collision(sha3, u, v);
      } else {
        CombineBinds(p, a.left.hash, a.right.hash, b.left.hash, b.right.hash);
        var straight := a.left.hash == b.left.hash && a.right.hash == b.right.hash;
        var bl, br := if straight then b.left else b.right, if straight then b.right else b.left;
        AcrossBelow(p, sha3, a, b, a.left, bl, h, k);
        AcrossBelow(p, sha3, a, b, a.right, br, h, k);
        if !Collide(sha3, BuilderInputs(p, a), BuilderInputs(p, b)) {
          SameHashesJoin(p, LeafHashes(a.left), LeafHashes(a.right), HashesAt(bl, h - 1), HashesAt(br, h - 1));
        }
      }
    }
  }

  lemma {:induction false} AcrossBelow(
      p: Pairing, sha3: Hash, a: MerkleNode, b: MerkleNode, x: MerkleNode, y: MerkleNode, h: nat, k: nat)
    requires 0 < h <= k && Built(p, sha3, a, h) && Built(p, sha3, b, k)
    requires (x == a.left || x == a.right) && (y == b.left || y == b.right)
    requires x.Node? && y.Node? && x.hash == y.hash
    ensures SameHashes(p, LeafHashes(x), HashesAt(y, h - 1)) || Collide(sha3, BuilderInputs(p, a), BuilderInputs(p, b))
    decreases h, 0
  {
    RootBindsAcross(p, sha3, x, y, h - 1, k - 1);
    if Collide(sha3, BuilderInputs(p, x), BuilderInputs(p, y)) {
      CollideGrows(sha3, BuilderInputs(p, x), BuilderInputs(p, y), BuilderInputs(p, a), BuilderInputs(p, b));
    }
  }

  /** Two lease lists of different depth share a root only if some lease of the shallower list
      has as its canonical string a string the other builder hashed for an interior node
      (these have 64 bytes), or the shallower list is empty and one of those strings has the
      zero digest, or a collision is exhibited. */
  lemma {:induction false} RootsOfDifferentDepth(sha3: Hash, json: Json, a: seq<Lease>, b: seq<Lease>)
    requires Depth(|a|) < Depth(|b|) && TreeOf(sha3, json, a).hash == TreeOf(sha3, json, b).hash
    ensures var built := BuilderInputs(Ordered, TreeOf(sha3, json, b));
      || (a != [] && json(a[0]) in built)
      || (a == [] && exists w :: w in built && sha3(w) == ZERO_HASH)
      || Collide(sha3, BuilderInputs(Ordered, TreeOf(sha3, json, a)) + Jsons(json, a), built)
  {
    var ta, tb, h := TreeOf(sha3, json, a), TreeOf(sha3, json, b), Depth(|a|);
    var leaves := LeaseLeaves(sha3, json, a);
    PaddedTreeIsPerfect(Ordered, sha3, leaves);
    PaddedTreeIsPerfect(Ordered, sha3, LeaseLeaves(sha3, json, b));
    RootBindsAcross(Ordered, sha3, ta, tb, h, Depth(|b|));
    if multiset(LeafHashes(ta)) == multiset(HashesAt(tb, h)) {
      var y := PaddedHashes(leaves)[0];
      assert y in multiset(LeafHashes(ta));
      assert y in HashesAt(tb, h);
      var w := InteriorIsHashed(Ordered, sha3, tb, Depth(|b|), h, y);
      if a != [] && json(a[0]) != w {
        assert a[0] in a && json(a[0]) in Jsons(json, a) && Collision(sha3, json(a[0]), w);
      }
    } else {
      CollideGrows(sha3, BuilderInputs(Ordered, ta), BuilderInputs(Ordered, tb),
                   BuilderInputs(Ordered, ta) + Jsons(json, a), BuilderInputs(Ordered, tb));
    }
  }
}
