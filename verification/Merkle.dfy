/** Merkle commitments over leases and over schemas (flr/internal/crypto/engine.go,
    flr/internal/crypto/schema.go).

    SHA3-256 and the JSON encoder are parameters.  A hash function on all byte strings
    has collisions, so no result assumes injectivity: each binding result says that the
    claim holds, or that two different strings with one digest are among the strings
    the two parties actually hashed. */
module Merkle {
  import opened ByteStrings
  import Sorting
  import opened Words
  import opened Wrappers

  type Hash = Bytes -> Digest

  /** The fields of a lease that enter its hash. */
  datatype Lease = Lease(
    id: Bytes, wavelengthKey: Bytes, endpointId: Bytes, operatorId: Bytes,
    startTime: Bytes, endTime: Bytes)

  type Json = Lease -> Bytes

  datatype MerkleNode =
    | Nil
    | Node(hash: Bytes, left: MerkleNode, right: MerkleNode, leaseId: Bytes, isLeaf: bool)

  /** Lease trees hash the smaller child first; schema trees hash left then right. */
  datatype Pairing = Ordered | Positional

  function Combine(p: Pairing, a: Bytes, b: Bytes): Bytes {
    if p.Positional? || Leq(a, b) then a + b else b + a
  }

  function Leaf(hash: Digest, leaseId: Bytes): MerkleNode {
    Node(hash, Nil, Nil, leaseId, true)
  }

  function Parent(p: Pairing, sha3: Hash, l: MerkleNode, r: MerkleNode): MerkleNode
    requires l.Node? && r.Node?
  {
    Node(sha3(Combine(p, l.hash, r.hash)), l, r, [], false)
  }

  /** `t` is a perfect tree of height `h` whose interior hashes are right. */
  ghost predicate Built(p: Pairing, sha3: Hash, t: MerkleNode, h: nat) {
    && t.Node?
    && |t.hash| == 32
    && if h == 0 then t.isLeaf && t.left.Nil? && t.right.Nil?
       else
         && Built(p, sha3, t.left, h - 1)
         && Built(p, sha3, t.right, h - 1)
         && t == Parent(p, sha3, t.left, t.right)
  }

  /** Hashes of the nodes `d` levels below the root, left to right. */
  ghost function HashesAt(t: MerkleNode, d: nat): seq<Bytes> {
    if t.Nil? then []
    else if d == 0 then [t.hash]
    else HashesAt(t.left, d - 1) + HashesAt(t.right, d - 1)
  }

  ghost function LeafHashes(t: MerkleNode): seq<Bytes> {
    if t.Nil? then []
    else if t.isLeaf then [t.hash]
    else LeafHashes(t.left) + LeafHashes(t.right)
  }

  ghost function LeafNodes(t: MerkleNode): seq<MerkleNode> {
    if t.Nil? then []
    else if t.isLeaf then [t]
    else LeafNodes(t.left) + LeafNodes(t.right)
  }

  lemma {:induction false} HashesOfLeaves(t: MerkleNode)
    ensures |LeafHashes(t)| == |LeafNodes(t)|
    ensures forall i :: 0 <= i < |LeafNodes(t)| ==> LeafNodes(t)[i].Node? && LeafHashes(t)[i] == LeafNodes(t)[i].hash
  {
    if t.Node? && !t.isLeaf {
      HashesOfLeaves(t.left);
      HashesOfLeaves(t.right);
    }
  }

  /** The strings the builder hashed to make the interior of `t`. */
  ghost function BuilderInputs(p: Pairing, t: MerkleNode): set<Bytes> {
    if t.Nil? || t.isLeaf || t.left.Nil? || t.right.Nil? then {}
    else {Combine(p, t.left.hash, t.right.hash)} + BuilderInputs(p, t.left) + BuilderInputs(p, t.right)
  }

  ghost predicate Collide(sha3: Hash, us: set<Bytes>, vs: set<Bytes>) {
    exists u, v :: u in us && v in vs && Collision(sha3, u, v)
  }

  ghost predicate Collision(sha3: Hash, u: Bytes, v: Bytes) {
    u != v && sha3(u) == sha3(v)
  }

  lemma CollideGrows(sha3: Hash, us: set<Bytes>, vs: set<Bytes>, us': set<Bytes>, vs': set<Bytes>)
    requires Collide(sha3, us, vs) && us <= us' && vs <= vs'
    ensures Collide(sha3, us', vs')
  {
    var u, v :| u in us && v in vs && Collision(sha3, u, v);
    assert u in us' && v in vs';
  }

  // ---- the fold: pairs, then pairs of pairs ----

  ghost function Log2(n: nat): nat
    requires PowerOfTwo(n)
  {
    if n == 1 then 0 else 1 + Log2(n / 2)
  }

  ghost predicate AllNodes(nodes: seq<MerkleNode>) {
    forall n :: n in nodes ==> n.Node?
  }

  ghost function Pairs(p: Pairing, sha3: Hash, nodes: seq<MerkleNode>): (r: seq<MerkleNode>)
    requires |nodes| % 2 == 0 && AllNodes(nodes)
    ensures |r| == |nodes| / 2 && AllNodes(r)
  {
    if nodes == [] then []
    else [Parent(p, sha3, nodes[0], nodes[1])] + Pairs(p, sha3, nodes[2..])
  }

  ghost function Fold(p: Pairing, sha3: Hash, nodes: seq<MerkleNode>): (r: MerkleNode)
    requires PowerOfTwo(|nodes|) && AllNodes(nodes)
    ensures r.Node?
    decreases |nodes|
  {
    if |nodes| == 1 then nodes[0] else Fold(p, sha3, Pairs(p, sha3, nodes))
  }

  lemma {:induction false} PairsAppend(p: Pairing, sha3: Hash, done: seq<MerkleNode>, l: MerkleNode, r: MerkleNode)
    requires |done| % 2 == 0 && AllNodes(done) && l.Node? && r.Node?
    ensures Pairs(p, sha3, done + [l, r]) == Pairs(p, sha3, done) + [Parent(p, sha3, l, r)]
  {
    if done != [] {
      PairsAppend(p, sha3, done[2..], l, r);
      assert (done + [l, r])[2..] == done[2..] + [l, r];
    } else {
      assert (done + [l, r])[2..] == [];
    }
  }

  /** The parents of the first i nodes. */
  ghost predicate PairedUpTo(p: Pairing, sha3: Hash, nodes: seq<MerkleNode>, i: nat, parents: seq<MerkleNode>)
    requires |nodes| % 2 == 0 && AllNodes(nodes)
  {
    i <= |nodes| && i % 2 == 0 && parents == Pairs(p, sha3, nodes[..i])
  }

  lemma NextPair(p: Pairing, sha3: Hash, nodes: seq<MerkleNode>, i: nat, parents: seq<MerkleNode>)
    requires |nodes| % 2 == 0 && AllNodes(nodes) && PairedUpTo(p, sha3, nodes, i, parents) && i < |nodes|
    ensures i + 1 < |nodes| && nodes[i].Node? && nodes[i + 1].Node?
    ensures PairedUpTo(p, sha3, nodes, i + 2, parents + [Parent(p, sha3, nodes[i], nodes[i + 1])])
  {
    PairsAppend(p, sha3, nodes[..i], nodes[i], nodes[i + 1]);
    assert nodes[..i + 2] == nodes[..i] + [nodes[i], nodes[i + 1]];
  }

  /** One level of parents, as the inner loop of both builders makes it. */
  method PairUp(p: Pairing, sha3: Hash, nodes: seq<MerkleNode>) returns (parents: seq<MerkleNode>)
    requires |nodes| % 2 == 0 && AllNodes(nodes)
    ensures parents == Pairs(p, sha3, nodes)
  {
    parents := [];
    var i := 0;
    while i < |nodes|
      invariant PairedUpTo(p, sha3, nodes, i, parents)
      decreases |nodes| - i
    {
      NextPair(p, sha3, nodes, i, parents);
      parents := parents + [Parent(p, sha3, nodes[i], nodes[i + 1])];
      i := i + 2;
    }
    assert nodes[..|nodes|] == nodes;
  }

  /** buildMerkleTreeFromLeaves: recursion on levels, each level made by a loop. */
  method BuildFromLeaves(sha3: Hash, nodes: seq<MerkleNode>) returns (root: MerkleNode)
    requires PowerOfTwo(|nodes|) && AllNodes(nodes)
    ensures root == Fold(Ordered, sha3, nodes)
    decreases |nodes|
  {
    if |nodes| == 1 {
      return nodes[0];
    }
    var parents := PairUp(Ordered, sha3, nodes);
    root := BuildFromLeaves(sha3, parents);
  }

  ghost function ConcatLeaves(nodes: seq<MerkleNode>): seq<MerkleNode> {
    if nodes == [] then [] else LeafNodes(nodes[0]) + ConcatLeaves(nodes[1..])
  }

  lemma {:induction false} PairsKeepLeaves(p: Pairing, sha3: Hash, nodes: seq<MerkleNode>)
    requires |nodes| % 2 == 0 && AllNodes(nodes)
    ensures ConcatLeaves(Pairs(p, sha3, nodes)) == ConcatLeaves(nodes)
  {
    if nodes != [] {
      PairsKeepLeaves(p, sha3, nodes[2..]);
      var parent, rest := Parent(p, sha3, nodes[0], nodes[1]), Pairs(p, sha3, nodes[2..]);
      assert ConcatLeaves([parent] + rest) == LeafNodes(parent) + ConcatLeaves(rest) by {
        assert ([parent] + rest)[1..] == rest;
      }
      assert ConcatLeaves(nodes) == LeafNodes(nodes[0]) + (LeafNodes(nodes[1]) + ConcatLeaves(nodes[2..])) by {
        assert nodes[1..][1..] == nodes[2..];
      }
    }
  }

  lemma {:induction false} PairsAreBuilt(p: Pairing, sha3: Hash, nodes: seq<MerkleNode>, h: nat)
    requires |nodes| % 2 == 0 && AllNodes(nodes)
    requires forall n :: n in nodes ==> Built(p, sha3, n, h)
    ensures forall n :: n in Pairs(p, sha3, nodes) ==> Built(p, sha3, n, h + 1)
  {
    if nodes != [] {
      PairsAreBuilt(p, sha3, nodes[2..], h);
      assert nodes[0] in nodes && nodes[1] in nodes;
    }
  }

  /** The fold is a perfect tree over the given leaves, in their order. */
  lemma {:induction false} FoldIsPerfect(p: Pairing, sha3: Hash, nodes: seq<MerkleNode>, h: nat)
    requires PowerOfTwo(|nodes|) && AllNodes(nodes)
    requires forall n :: n in nodes ==> Built(p, sha3, n, h)
    ensures Built(p, sha3, Fold(p, sha3, nodes), h + Log2(|nodes|))
    ensures LeafNodes(Fold(p, sha3, nodes)) == ConcatLeaves(nodes)
    decreases |nodes|
  {
    if |nodes| == 1 {
      assert ConcatLeaves(nodes) == LeafNodes(nodes[0]) + ConcatLeaves([]);
    } else {
      PairsKeepLeaves(p, sha3, nodes);
      PairsAreBuilt(p, sha3, nodes, h);
      FoldIsPerfect(p, sha3, Pairs(p, sha3, nodes), h + 1);
    }
  }

  // ---- building from leases ----

  predicate IdLeq(a: Lease, b: Lease) {
    Leq(a.id, b.id)
  }

  lemma IdLeqIsPreorder()
    ensures Sorting.TotalPreorder(IdLeq)
  {
    forall x: Lease, y: Lease ensures IdLeq(x, y) || IdLeq(y, x) {
      LeqTotal(x.id, y.id);
    }
    forall x: Lease, y: Lease, z: Lease | IdLeq(x, y) && IdLeq(y, z) ensures IdLeq(x, z) {
      LeqTransitive(x.id, y.id, z.id);
    }
  }

  function LeaseHash(sha3: Hash, json: Json, l: Lease): Digest {
    sha3(json(l))
  }

  ghost function LeaseLeaves(sha3: Hash, json: Json, order: seq<Lease>): seq<MerkleNode> {
    seq(|order|, i requires 0 <= i < |order| => Leaf(LeaseHash(sha3, json, order[i]), order[i].id))
  }

  ghost function Padding(n: nat): seq<MerkleNode> {
    seq(n, _ => Leaf(ZERO_HASH, []))
  }

  /** The smallest power of two, reached by doubling from `from`, that is at least `n`. */
  ghost function PaddedFrom(from: nat, n: nat): (r: nat)
    requires PowerOfTwo(from)
    ensures PowerOfTwo(r) && n <= r
    decreases n - from
  {
    if from < n then PaddedFrom(2 * from, n) else from
  }

  ghost function PaddedSize(n: nat): (r: nat)
    ensures PowerOfTwo(r) && n <= r
  {
    PaddedFrom(1, n)
  }

  lemma PowersDouble(a: nat, b: nat)
    requires PowerOfTwo(a) && PowerOfTwo(b) && a < b
    ensures 2 * a <= b
  {
    if a > 1 {
      PowersDouble(a / 2, b / 2);
    }
  }

  lemma {:induction false} PaddedFromIsLeast(from: nat, n: nat, k: nat)
    requires PowerOfTwo(from) && PowerOfTwo(k) && n <= k && from <= k
    ensures PaddedFrom(from, n) <= k
    decreases n - from
  {
    if from < n {
      PowersDouble(from, k);
      PaddedFromIsLeast(2 * from, n, k);
    }
  }

  /** The padded size is the least power of two that is at least n. */
  lemma PaddedSizeIsLeast(n: nat, k: nat)
    requires PowerOfTwo(k) && n <= k
    ensures PaddedSize(n) <= k
  {
    PaddedFromIsLeast(1, n, k);
  }

  ghost predicate AllLeaves(leaves: seq<MerkleNode>) {
    forall n :: n in leaves ==> n.Node? && n.isLeaf && n.left.Nil? && n.right.Nil? && |n.hash| == 32
  }

  ghost function PaddedTree(p: Pairing, sha3: Hash, leaves: seq<MerkleNode>): (r: MerkleNode)
    requires AllLeaves(leaves)
    ensures r.Node?
  {
    if leaves == [] then Leaf(ZERO_HASH, [])
    else Fold(p, sha3, leaves + Padding(PaddedSize(|leaves|) - |leaves|))
  }

  /** The hashes at the leaves of that tree: the given ones, then the zero padding. */
  ghost function PaddedHashes(leaves: seq<MerkleNode>): seq<Bytes>
    requires AllLeaves(leaves)
  {
    seq(PaddedSize(|leaves|), i requires 0 <= i => if i < |leaves| then leaves[i].hash else ZERO_HASH)
  }

  ghost function Depth(n: nat): nat {
    Log2(PaddedSize(n))
  }

  /** The tree for leases already in sorted order. */
  ghost function TreeOf(sha3: Hash, json: Json, order: seq<Lease>): (r: MerkleNode)
    ensures r.Node?
  {
    PaddedTree(Ordered, sha3, LeaseLeaves(sha3, json, order))
  }

  /** Pads with zero-hash leaves to a power of two. */
  method Pad(leaves: seq<MerkleNode>) returns (padded: seq<MerkleNode>)
    ensures padded == leaves + Padding(PaddedSize(|leaves|) - |leaves|)
  {
    var targetCount := 1;
    while targetCount < |leaves|
      invariant PowerOfTwo(targetCount)
      invariant PaddedFrom(targetCount, |leaves|) == PaddedSize(|leaves|)
    {
      targetCount := targetCount * 2;
    }
    padded := leaves;
    while |padded| < targetCount
      invariant |leaves| <= |padded| <= targetCount
      invariant padded == leaves + Padding(|padded| - |leaves|)
    {
      ghost var k := |padded| - |leaves|;
      assert Padding(k + 1) == Padding(k) + [Leaf(ZERO_HASH, [])];
      padded := padded + [Leaf(ZERO_HASH, [])];
    }
  }

  method HashLeases(sha3: Hash, json: Json, sorted: seq<Lease>) returns (leaves: seq<MerkleNode>)
    ensures leaves == LeaseLeaves(sha3, json, sorted)
  {
    leaves := [];
    for i := 0 to |sorted|
      invariant leaves == LeaseLeaves(sha3, json, sorted)[..i]
    {
      leaves := leaves + [Leaf(LeaseHash(sha3, json, sorted[i]), sorted[i].id)];
    }
  }

  /** The leases in some order in which no ID precedes a smaller one. */
  ghost predicate InIdOrder(order: seq<Lease>, leases: seq<Lease>) {
    multiset(order) == multiset(leases) && forall i, j :: 0 <= i < j < |order| ==> Leq(order[i].id, order[j].id)
  }

  ghost predicate IsTreeOver(sha3: Hash, json: Json, leases: seq<Lease>, root: MerkleNode) {
    exists order :: InIdOrder(order, leases) && root == TreeOf(sha3, json, order)
  }

  /** BuildMerkleTree: sort by ID, hash, pad to a power of two, fold. */
  method BuildMerkleTree(sha3: Hash, json: Json, leases: seq<Lease>) returns (root: MerkleNode)
    ensures IsTreeOver(sha3, json, leases, root)
  {
    if |leases| == 0 {
      root := Leaf(ZERO_HASH, []);
      assert InIdOrder([], leases) && root == TreeOf(sha3, json, []);
      return;
    }
    IdLeqIsPreorder();
    var sorted := Sorting.Sort(IdLeq, leases);
    assert |sorted| == |multiset(sorted)| == |leases| && InIdOrder(sorted, leases);
    var leaves := HashLeases(sha3, json, sorted);
    leaves := Pad(leaves);
    root := BuildFromLeaves(sha3, leaves);
  }

  lemma {:induction false} ConcatOfLeaves(nodes: seq<MerkleNode>)
    requires AllLeaves(nodes)
    ensures ConcatLeaves(nodes) == nodes
  {
    if nodes != [] {
      assert nodes[0] in nodes;
      ConcatOfLeaves(nodes[1..]);
    }
  }

  /** The built tree is perfect, and its leaves are the given ones followed by padding. */
  lemma PaddedTreeLeaves(p: Pairing, sha3: Hash, leaves: seq<MerkleNode>)
    requires AllLeaves(leaves)
    ensures Built(p, sha3, PaddedTree(p, sha3, leaves), Depth(|leaves|))
    ensures LeafNodes(PaddedTree(p, sha3, leaves)) == leaves + Padding(PaddedSize(|leaves|) - |leaves|)
  {
    var nodes := leaves + Padding(PaddedSize(|leaves|) - |leaves|);
    if leaves == [] {
      assert Padding(1) == [Leaf(ZERO_HASH, [])] && nodes == Padding(1);
    } else {
      FoldIsPerfect(p, sha3, nodes, 0);
      ConcatOfLeaves(nodes);
    }
  }

  lemma PaddedTreeIsPerfect(p: Pairing, sha3: Hash, leaves: seq<MerkleNode>)
    requires AllLeaves(leaves)
    ensures Built(p, sha3, PaddedTree(p, sha3, leaves), Depth(|leaves|))
    ensures LeafHashes(PaddedTree(p, sha3, leaves)) == PaddedHashes(leaves)
  {
    PaddedTreeLeaves(p, sha3, leaves);
    HashesOfLeaves(PaddedTree(p, sha3, leaves));
  }

  // ---- determinism ----

  ghost predicate DistinctIds(leases: seq<Lease>) {
    forall i, j :: 0 <= i < j < |leases| ==> leases[i].id != leases[j].id
  }

  /** With distinct IDs the tree does not depend on the order in which leases are given,
      nor on the choices of an unstable sort. */
  lemma TreeIsDeterministic(sha3: Hash, json: Json, a: seq<Lease>, b: seq<Lease>, oa: seq<Lease>, ob: seq<Lease>)
    requires multiset(a) == multiset(b) && DistinctIds(a)
    requires InIdOrder(oa, a) && InIdOrder(ob, b)
    ensures TreeOf(sha3, json, oa) == TreeOf(sha3, json, ob)
  {
    forall x, y | x in oa && y in oa && IdLeq(x, y) && IdLeq(y, x) ensures x == y {
      LeqAntisymmetric(x.id, y.id);
      assert x in multiset(a) && y in multiset(a);
    }
    Sorting.SortIsUnique(IdLeq, oa, ob);
  }

  // ---- proofs ----

  /** VerifyMerkleProof's step: strict comparison, sibling first otherwise. */
  function Step(hash: Bytes, sibling: Bytes): Bytes {
    if Less(hash, sibling) then hash + sibling else sibling + hash
  }

  ghost function Climb(sha3: Hash, x: Bytes, proof: seq<Bytes>): Bytes {
    if proof == [] then x
    else sha3(Step(Climb(sha3, x, proof[..|proof| - 1]), proof[|proof| - 1]))
  }

  /** The strings the verifier hashed. */
  ghost function VerifierInputs(sha3: Hash, x: Bytes, proof: seq<Bytes>): set<Bytes> {
    if proof == [] then {}
    else VerifierInputs(sha3, x, proof[..|proof| - 1])
         + {Step(Climb(sha3, x, proof[..|proof| - 1]), proof[|proof| - 1])}
  }

  ghost predicate Accepts(sha3: Hash, leafHash: Bytes, rootHash: Bytes, proof: seq<Bytes>) {
    leafHash != [] && rootHash != [] && [] !in proof && Climb(sha3, leafHash, proof) == rootHash
  }

  method VerifyMerkleProof(sha3: Hash, leafHash: Bytes, rootHash: Bytes, proof: seq<Bytes>) returns (ok: bool)
    ensures ok <==> Accepts(sha3, leafHash, rootHash, proof)
  {
    if |leafHash| == 0 || |rootHash| == 0 {
      return false;
    }
    var hash := leafHash;
    for i := 0 to |proof|
      invariant [] !in proof[..i]
      invariant hash == Climb(sha3, leafHash, proof[..i])
    {
      if |proof[i]| == 0 {
        return false;
      }
      assert proof[..i + 1][..i] == proof[..i];
      hash := sha3(Step(hash, proof[i]));
    }
    assert proof[..|proof|] == proof;
    return hash == rootHash;
  }

  /** findMerkleProof, with the source's treatment of missing children. */
  function FindProof(root: MerkleNode, leafHash: Bytes): Option<seq<Bytes>> {
    if root.Nil? then None
    else if root.isLeaf then
      if root.hash == leafHash then Some([]) else None
    else
      var l := FindProof(root.left, leafHash);
      if l.Some? then Some(l.value + [if root.right.Node? then root.right.hash else ZERO_HASH])
      else
        var r := FindProof(root.right, leafHash);
        if r.Some? then Some(r.value + [if root.left.Node? then root.left.hash else ZERO_HASH])
        else None
  }

  /** The builder's `<=` and the verifier's `<` agree, equal siblings included. */
  lemma StepMatchesCombine(a: Bytes, b: Bytes)
    ensures Step(a, b) == Step(b, a) == Combine(Ordered, a, b)
  {
    LeqTotal(a, b);
    if Leq(a, b) && Leq(b, a) {
      LeqAntisymmetric(a, b);
    }
  }

  /** A proof for a child, followed by the other child's hash, is a proof for the parent. */
  lemma ProofExtends(sha3: Hash, t: MerkleNode, h: nat, child: MerkleNode, sibling: MerkleNode, x: Bytes, below: seq<Bytes>)
    requires h > 0 && Built(Ordered, sha3, t, h)
    requires (child == t.left && sibling == t.right) || (child == t.right && sibling == t.left)
    requires child.Node? && sibling.Node? && Accepts(sha3, x, child.hash, below)
    ensures Accepts(sha3, x, t.hash, below + [sibling.hash])
  {
    var proof := below + [sibling.hash];
    assert proof[..|proof| - 1] == below;
    assert |sibling.hash| == 32;
    StepMatchesCombine(child.hash, sibling.hash);
    StepMatchesCombine(sibling.hash, child.hash);
  }

  lemma {:induction false} FindsExactlyLeaves(p: Pairing, sha3: Hash, t: MerkleNode, h: nat, x: Bytes)
    requires Built(p, sha3, t, h)
    ensures FindProof(t, x).Some? <==> x in LeafHashes(t)
  {
    if h > 0 {
      FindsExactlyLeaves(p, sha3, t.left, h - 1, x);
      FindsExactlyLeaves(p, sha3, t.right, h - 1, x);
    }
  }

  /** Completeness: a proof is found exactly for the hashes at the leaves, it is as long
      as the tree is deep, and the verifier accepts it. */
  lemma {:induction false} Completeness(sha3: Hash, t: MerkleNode, h: nat, x: Bytes)
    requires Built(Ordered, sha3, t, h)
    ensures FindProof(t, x).Some? <==> x in LeafHashes(t)
    ensures FindProof(t, x).Some? ==>
              |FindProof(t, x).value| == h && Accepts(sha3, x, t.hash, FindProof(t, x).value)
  {
    FindsExactlyLeaves(Ordered, sha3, t, h, x);
    if h > 0 && FindProof(t, x).Some? {
      if FindProof(t.left, x).Some? {
        Completeness(sha3, t.left, h - 1, x);
        ProofExtends(sha3, t, h, t.left, t.right, x, FindProof(t.left, x).value);
      } else {
        Completeness(sha3, t.right, h - 1, x);
        ProofExtends(sha3, t, h, t.right, t.left, x, FindProof(t.right, x).value);
      }
    }
  }

  /** Two ways of splitting one 64-byte string into ordered halves name the same halves. */
  lemma SameHalves(a: Bytes, s: Bytes, l: Bytes, r: Bytes)
    requires |a| == |l| == |r| == 32
    requires Step(a, s) == Combine(Ordered, l, r)
    ensures (a == l && s == r) || (a == r && s == l)
  {
    var w := Step(a, s);
    assert |s| == 32;
    assert w == w[..32] + w[32..];
    assert (a + s)[..32] == a && (a + s)[32..] == s && (s + a)[..32] == s && (s + a)[32..] == a;
    assert (l + r)[..32] == l && (l + r)[32..] == r && (r + l)[..32] == r && (r + l)[32..] == l;
  }

  /** Soundness at every depth: a 32-byte value accepted with a proof of length d is a
      hash of the tree d levels down, or the verifier and the builder hashed different
      strings to one digest.  Nothing is asked of the lengths of the siblings. */
  lemma {:induction false} Soundness(sha3: Hash, t: MerkleNode, h: nat, x: Bytes, proof: seq<Bytes>)
    requires Built(Ordered, sha3, t, h)
    requires |x| == 32 && |proof| <= h
    requires Climb(sha3, x, proof) == t.hash
    ensures x in HashesAt(t, |proof|)
            || Collide(sha3, VerifierInputs(sha3, x, proof), BuilderInputs(Ordered, t))
  {
    if proof != [] {
      var d := |proof| - 1;
      var a, s := Climb(sha3, x, proof[..d]), proof[d];
      if Step(a, s) == Combine(Ordered, t.left.hash, t.right.hash) {
        SameHalves(a, s, t.left.hash, t.right.hash);
        var child := if a == t.left.hash then t.left else t.right;
        Soundness(sha3, child, h - 1, x, proof[..d]);
        if Collide(sha3, VerifierInputs(sha3, x, proof[..d]), BuilderInputs(Ordered, child)) {
          CollideGrows(sha3, VerifierInputs(sha3, x, proof[..d]), BuilderInputs(Ordered, child),
                       VerifierInputs(sha3, x, proof), BuilderInputs(Ordered, t));
        }
      } else {
        assert Step(a, s) in VerifierInputs(sha3, x, proof);
        assert Collision(sha3, Step(a, s), Combine(Ordered, t.left.hash, t.right.hash));
      }
    }
  }

  lemma {:induction false} LeavesAreDeepest(p: Pairing, sha3: Hash, t: MerkleNode, h: nat)
    requires Built(p, sha3, t, h)
    ensures HashesAt(t, h) == LeafHashes(t)
  {
    if h > 0 {
      LeavesAreDeepest(p, sha3, t.left, h - 1);
      LeavesAreDeepest(p, sha3, t.right, h - 1);
    }
  }

  /** The verifier does not check the length of the proof: whatever the depth d, every
      hash d levels down is accepted with some proof of length d. */
  lemma {:induction false} EveryNodeHasAProof(sha3: Hash, t: MerkleNode, h: nat, d: nat, x: Bytes)
    returns (proof: seq<Bytes>)
    requires Built(Ordered, sha3, t, h) && d <= h && x in HashesAt(t, d)
    ensures |proof| == d && Accepts(sha3, x, t.hash, proof)
  {
    if d == 0 {
      proof := [];
    } else {
      var left := x in HashesAt(t.left, d - 1);
      var child, sibling := if left then t.left else t.right, if left then t.right else t.left;
      var below := EveryNodeHasAProof(sha3, child, h - 1, d - 1, x);
      ProofExtends(sha3, t, h, child, sibling, x, below);
      proof := below + [sibling.hash];
    }
  }

  lemma ListedLease(sha3: Hash, json: Json, order: seq<Lease>, x: Bytes) returns (i: nat)
    requires x in PaddedHashes(LeaseLeaves(sha3, json, order)) && x != ZERO_HASH
    ensures i < |order| && x == LeaseHash(sha3, json, order[i])
  {
    var leaves := LeaseLeaves(sha3, json, order);
    i :| 0 <= i < |PaddedHashes(leaves)| && PaddedHashes(leaves)[i] == x;
  }

  /** The soundness theorem for a committed set of leases: an accepted lease hash, with a
      proof as long as the tree is deep, is the hash of a committed lease's own canonical
      bytes; or two hashed strings collide; or the lease hashes to the zero padding. */
  lemma LeaseInclusion(sha3: Hash, json: Json, order: seq<Lease>, l: Lease, proof: seq<Bytes>)
    requires |proof| == Depth(|order|)
    requires Accepts(sha3, LeaseHash(sha3, json, l), TreeOf(sha3, json, order).hash, proof)
    ensures
      var tree := TreeOf(sha3, json, order);
      var x := LeaseHash(sha3, json, l);
      || (exists m :: m in order && json(m) == json(l))
      || Collide(sha3, VerifierInputs(sha3, x, proof), BuilderInputs(Ordered, tree))
      || Collide(sha3, {json(l)}, set m | m in order :: json(m))
      || x == ZERO_HASH
  {
    var tree := TreeOf(sha3, json, order);
    var x := LeaseHash(sha3, json, l);
    var leaves := LeaseLeaves(sha3, json, order);
    PaddedTreeIsPerfect(Ordered, sha3, leaves);
    LeavesAreDeepest(Ordered, sha3, tree, Depth(|order|));
    Soundness(sha3, tree, Depth(|order|), x, proof);
    if x in LeafHashes(tree) && x != ZERO_HASH {
      var i := ListedLease(sha3, json, order, x);
      assert json(order[i]) in set m | m in order :: json(m);
      assert json(l) in {json(l)};
      assert json(l) == json(order[i]) || Collision(sha3, json(l), json(order[i]));
    }
  }

  // ---- binding ----

  ghost predicate SameLeaves(p: Pairing, a: MerkleNode, b: MerkleNode) {
    if p.Positional? then LeafHashes(a) == LeafHashes(b)
    else multiset(LeafHashes(a)) == multiset(LeafHashes(b))
  }

  lemma SameLeavesCombine(p: Pairing, a: MerkleNode, b: MerkleNode)
    requires a.Node? && b.Node? && !a.isLeaf && !b.isLeaf
    requires (SameLeaves(p, a.left, b.left) && SameLeaves(p, a.right, b.right))
             || (p.Ordered? && SameLeaves(p, a.left, b.right) && SameLeaves(p, a.right, b.left))
    ensures SameLeaves(p, a, b)
  {
  }

  /** Equal roots of trees of one height commit to the same leaf hashes: the same
      multiset when pairs are ordered, the same sequence when they are positional; or the
      two builders hashed different strings to one digest. */
  lemma {:induction false} RootBinds(p: Pairing, sha3: Hash, a: MerkleNode, b: MerkleNode, h: nat)
    requires Built(p, sha3, a, h) && Built(p, sha3, b, h) && a.hash == b.hash
    ensures SameLeaves(p, a, b) || Collide(sha3, BuilderInputs(p, a), BuilderInputs(p, b))
    decreases h
  {
    if h > 0 {
      var u, v := Combine(p, a.left.hash, a.right.hash), Combine(p, b.left.hash, b.right.hash);
      if u != v {
        assert u in BuilderInputs(p, a) && v in BuilderInputs(p, b) && Collision(sha3, u, v);
      } else {
        CombineBinds(p, a.left.hash, a.right.hash, b.left.hash, b.right.hash);
        var straight := a.left.hash == b.left.hash && a.right.hash == b.right.hash;
        var bl, br := if straight then b.left else b.right, if straight then b.right else b.left;
        RootBindsBelow(p, sha3, a, b, a.left, bl, h);
        RootBindsBelow(p, sha3, a, b, a.right, br, h);
        if !Collide(sha3, BuilderInputs(p, a), BuilderInputs(p, b)) {
          SameLeavesCombine(p, a, b);
        }
      }
    }
  }

  lemma {:induction false} RootBindsBelow(p: Pairing, sha3: Hash, a: MerkleNode, b: MerkleNode, x: MerkleNode, y: MerkleNode, h: nat)
    requires h > 0 && Built(p, sha3, a, h) && Built(p, sha3, b, h)
    requires (x == a.left || x == a.right) && (y == b.left || y == b.right)
    requires x.Node? && y.Node? && x.hash == y.hash
    ensures SameLeaves(p, x, y) || Collide(sha3, BuilderInputs(p, a), BuilderInputs(p, b))
    decreases h, 0
  {
    RootBinds(p, sha3, x, y, h - 1);
    if Collide(sha3, BuilderInputs(p, x), BuilderInputs(p, y)) {
      CollideGrows(sha3, BuilderInputs(p, x), BuilderInputs(p, y), BuilderInputs(p, a), BuilderInputs(p, b));
    }
  }

  lemma CombineBinds(p: Pairing, a: Bytes, b: Bytes, c: Bytes, d: Bytes)
    requires |a| == |b| == |c| == |d| == 32
    requires Combine(p, a, b) == Combine(p, c, d)
    ensures (a == c && b == d) || (p.Ordered? && a == d && b == c)
  {
    assert (a + b)[..32] == a && (a + b)[32..] == b && (b + a)[..32] == b && (b + a)[32..] == a;
    assert (c + d)[..32] == c && (c + d)[32..] == d && (d + c)[..32] == d && (d + c)[32..] == c;
  }

  /** Two lease lists of equal padded size and equal root have the same multiset of leaf
      hashes, or exhibit a collision. */
  lemma LeaseRootBinds(sha3: Hash, json: Json, a: seq<Lease>, b: seq<Lease>)
    requires PaddedSize(|a|) == PaddedSize(|b|)
    requires TreeOf(sha3, json, a).hash == TreeOf(sha3, json, b).hash
    ensures
      || multiset(PaddedHashes(LeaseLeaves(sha3, json, a))) == multiset(PaddedHashes(LeaseLeaves(sha3, json, b)))
      || Collide(sha3, BuilderInputs(Ordered, TreeOf(sha3, json, a)), BuilderInputs(Ordered, TreeOf(sha3, json, b)))
  {
    PaddedTreeIsPerfect(Ordered, sha3, LeaseLeaves(sha3, json, a));
    PaddedTreeIsPerfect(Ordered, sha3, LeaseLeaves(sha3, json, b));
    RootBinds(Ordered, sha3, TreeOf(sha3, json, a), TreeOf(sha3, json, b), Depth(|a|));
  }

  // ---- the schema tree: same padding, an iterative fold, positional pairs ----

  ghost function HashLeaves(hashes: seq<Digest>): seq<MerkleNode> {
    seq(|hashes|, i requires 0 <= i < |hashes| => Leaf(hashes[i], []))
  }

  ghost function SchemaTree(sha3: Hash, hashes: seq<Digest>): (r: MerkleNode)
    ensures r.Node?
  {
    PaddedTree(Positional, sha3, HashLeaves(hashes))
  }

  /** What enters the schema tree: an ID to sort by, and the rest. */
  datatype SchemaEntry = SchemaEntry(id: Bytes, content: Bytes)

  /** The canonical bytes of a schema; none when it has no layout. */
  type Canonical = SchemaEntry -> Option<Bytes>

  predicate EntryLeq(a: SchemaEntry, b: SchemaEntry) {
    Leq(a.id, b.id)
  }

  lemma EntryLeqIsPreorder()
    ensures Sorting.TotalPreorder(EntryLeq)
  {
    forall x: SchemaEntry, y: SchemaEntry ensures EntryLeq(x, y) || EntryLeq(y, x) {
      LeqTotal(x.id, y.id);
    }
    forall x: SchemaEntry, y: SchemaEntry, z: SchemaEntry | EntryLeq(x, y) && EntryLeq(y, z) ensures EntryLeq(x, z) {
      LeqTransitive(x.id, y.id, z.id);
    }
  }

  /** GetSchemaHash: a schema that cannot be rendered hashes to zero. */
  function SchemaHash(sha3: Hash, canonical: Canonical, s: SchemaEntry): Digest {
    match canonical(s) case None => ZERO_HASH case Some(bytes) => sha3(bytes)
  }

  ghost function SchemaHashes(sha3: Hash, canonical: Canonical, order: seq<SchemaEntry>): (hashes: seq<Digest>)
    ensures |hashes| == |order|
  {
    seq(|order|, i requires 0 <= i < |order| => SchemaHash(sha3, canonical, order[i]))
  }

  /** The schemas in some order in which no ID precedes a smaller one. */
  ghost predicate SchemasInIdOrder(order: seq<SchemaEntry>, schemas: seq<SchemaEntry>) {
    multiset(order) == multiset(schemas) && forall i, j :: 0 <= i < j < |order| ==> Leq(order[i].id, order[j].id)
  }

  ghost predicate IsSchemaTreeOver(sha3: Hash, canonical: Canonical, schemas: seq<SchemaEntry>, root: MerkleNode) {
    exists order :: SchemasInIdOrder(order, schemas)
                 && root == SchemaTree(sha3, SchemaHashes(sha3, canonical, order))
  }

  method HashSchemas(sha3: Hash, canonical: Canonical, sorted: seq<SchemaEntry>) returns (leaves: seq<MerkleNode>)
    ensures leaves == HashLeaves(SchemaHashes(sha3, canonical, sorted))
  {
    leaves := [];
    for i := 0 to |sorted|
      invariant leaves == HashLeaves(SchemaHashes(sha3, canonical, sorted))[..i]
    {
      leaves := leaves + [Leaf(SchemaHash(sha3, canonical, sorted[i]), [])];
    }
  }

  method FoldLevels(sha3: Hash, leaves: seq<MerkleNode>) returns (root: MerkleNode)
    requires PowerOfTwo(|leaves|) && AllNodes(leaves)
    ensures root == Fold(Positional, sha3, leaves)
  {
    var level := leaves;
    while |level| > 1
      invariant PowerOfTwo(|level|) && AllNodes(level)
      invariant Fold(Positional, sha3, level) == Fold(Positional, sha3, leaves)
      decreases |level|
    {
      level := PairUp(Positional, sha3, level);
    }
    return level[0];
  }

  /** BuildSchemaMerkleTree: sort by ID, hash, pad, fold level by level. */
  method BuildSchemaMerkleTree(sha3: Hash, canonical: Canonical, schemas: seq<SchemaEntry>) returns (root: MerkleNode)
    ensures IsSchemaTreeOver(sha3, canonical, schemas, root)
  {
    if |schemas| == 0 {
      root := Leaf(ZERO_HASH, []);
      assert SchemasInIdOrder([], schemas) && root == SchemaTree(sha3, SchemaHashes(sha3, canonical, []));
      return;
    }
    EntryLeqIsPreorder();
    var sorted := Sorting.Sort(EntryLeq, schemas);
    assert |sorted| == |multiset(sorted)| == |schemas| && SchemasInIdOrder(sorted, schemas);
    var leaves := HashSchemas(sha3, canonical, sorted);
    leaves := Pad(leaves);
    root := FoldLevels(sha3, leaves);
  }

  /** The i-th hash of a list, zero past its end. */
  ghost function HashAt(hashes: seq<Digest>, i: nat): Digest {
    if i < |hashes| then hashes[i] else ZERO_HASH
  }

  /** The lists agree but for zero hashes at the end of the longer one. */
  ghost predicate SameUpToZeros(a: seq<Digest>, b: seq<Digest>) {
    forall i: nat :: HashAt(a, i) == HashAt(b, i)
  }

  lemma SamePadded(a: seq<Digest>, b: seq<Digest>)
    requires PaddedSize(|a|) == PaddedSize(|b|) && PaddedHashes(HashLeaves(a)) == PaddedHashes(HashLeaves(b))
    ensures SameUpToZeros(a, b) && (|a| == |b| ==> a == b)
  {
    var n := PaddedSize(|a|);
    forall i: nat ensures HashAt(a, i) == HashAt(b, i) {
      if i < n {
        assert PaddedHashes(HashLeaves(a))[i] == HashAt(a, i) && PaddedHashes(HashLeaves(b))[i] == HashAt(b, i);
      }
    }
    if |a| == |b| {
      assert forall i :: 0 <= i < |a| ==> a[i] == HashAt(a, i) == HashAt(b, i) == b[i];
    }
  }

  /** A schema root binds the sequence of schema hashes, not only their multiset: lists of equal
      padded size and root agree but for trailing zero hashes, or a collision is exhibited. */
  lemma SchemaRootBinds(sha3: Hash, a: seq<Digest>, b: seq<Digest>)
    requires PaddedSize(|a|) == PaddedSize(|b|)
    requires SchemaTree(sha3, a).hash == SchemaTree(sha3, b).hash
    ensures
      || (SameUpToZeros(a, b) && (|a| == |b| ==> a == b))
      || Collide(sha3, BuilderInputs(Positional, SchemaTree(sha3, a)), BuilderInputs(Positional, SchemaTree(sha3, b)))
  {
    PaddedTreeIsPerfect(Positional, sha3, HashLeaves(a));
    PaddedTreeIsPerfect(Positional, sha3, HashLeaves(b));
    RootBinds(Positional, sha3, SchemaTree(sha3, a), SchemaTree(sha3, b), Depth(|a|));
    if PaddedHashes(HashLeaves(a)) == PaddedHashes(HashLeaves(b)) {
      SamePadded(a, b);
    }
  }
}
