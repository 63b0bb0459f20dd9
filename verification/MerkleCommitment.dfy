/** What a Merkle root commits to, stated without the builders' own steps: the order of the
    leaves, and the hash of every interior node (flr/internal/crypto/engine.go,
    flr/internal/crypto/schema.go). */
module MerkleCommitment {
  import opened ByteStrings
  import opened Merkle
  import opened Words
  import opened Wrappers

  /** The root over 2^k hashes from the top down: halve the list, hash the smaller half's root
      first. */
  ghost function SmallerFirstRoot(sha3: Hash, hashes: seq<Bytes>): Bytes
    requires PowerOfTwo(|hashes|)
  {
    if |hashes| == 1 then hashes[0]
    else
      var n := |hashes| / 2;
      var l, r := SmallerFirstRoot(sha3, hashes[..n]), SmallerFirstRoot(sha3, hashes[n..]);
      sha3(if Leq(l, r) then l + r else r + l)
  }

  /** The same with the left half's root first. */
  ghost function LeftFirstRoot(sha3: Hash, hashes: seq<Bytes>): Bytes
    requires PowerOfTwo(|hashes|)
  {
    if |hashes| == 1 then hashes[0]
    else
      var n := |hashes| / 2;
      sha3(LeftFirstRoot(sha3, hashes[..n]) + LeftFirstRoot(sha3, hashes[n..]))
  }

  lemma {:induction false} LeafCount(p: Pairing, sha3: Hash, t: MerkleNode, h: nat)
    requires Built(p, sha3, t, h)
    ensures |LeafHashes(t)| == Pow2(h)
  {
    if h > 0 {
      LeafCount(p, sha3, t.left, h - 1);
      LeafCount(p, sha3, t.right, h - 1);
    }
  }

  lemma {:induction false} Pow2IsPower(h: nat)
    ensures PowerOfTwo(Pow2(h))
  {
    if h > 0 {
      Pow2IsPower(h - 1);
    }
  }

  lemma Halves(xs: seq<Bytes>, ys: seq<Bytes>)
    requires |xs| == |ys|
    ensures (xs + ys)[..|xs + ys| / 2] == xs && (xs + ys)[|xs + ys| / 2..] == ys
  {
  }

  lemma LeafHalves(p: Pairing, sha3: Hash, t: MerkleNode, h: nat)
    requires Built(p, sha3, t, h)
    ensures PowerOfTwo(|LeafHashes(t)|)
    ensures h > 0 ==>
      var n := |LeafHashes(t)| / 2;
      |LeafHashes(t)| > 1 && LeafHashes(t)[..n] == LeafHashes(t.left) && LeafHashes(t)[n..] == LeafHashes(t.right)
  {
    LeafCount(p, sha3, t, h);
    Pow2IsPower(h);
    if h > 0 {
      LeafCount(p, sha3, t.left, h - 1);
      LeafCount(p, sha3, t.right, h - 1);
      Pow2IsPower(h - 1);
      Halves(LeafHashes(t.left), LeafHashes(t.right));
    }
  }

  /** Pairing up from the leaves and halving down from the root give the same hash. */
  lemma {:induction false} OrderedRoot(sha3: Hash, t: MerkleNode, h: nat)
    requires Built(Ordered, sha3, t, h)
    ensures PowerOfTwo(|LeafHashes(t)|) && t.hash == SmallerFirstRoot(sha3, LeafHashes(t))
  {
    LeafHalves(Ordered, sha3, t, h);
    if h > 0 {
      OrderedRoot(sha3, t.left, h - 1);
      OrderedRoot(sha3, t.right, h - 1);
    }
  }

  lemma {:induction false} PositionalRoot(sha3: Hash, t: MerkleNode, h: nat)
    requires Built(Positional, sha3, t, h)
    ensures PowerOfTwo(|LeafHashes(t)|) && t.hash == LeftFirstRoot(sha3, LeafHashes(t))
  {
    LeafHalves(Positional, sha3, t, h);
    if h > 0 {
      PositionalRoot(sha3, t.left, h - 1);
      PositionalRoot(sha3, t.right, h - 1);
    }
  }

  /** Leaf i of a lease tree carries the i-th lease's ID and the hash of its canonical bytes;
      leaves past the leases carry the zero hash and no ID. */
  ghost predicate LeaseLeaf(sha3: Hash, json: Json, order: seq<Lease>, i: nat, leaf: MerkleNode) {
    if i < |order| then leaf == Node(sha3(json(order[i])), Nil, Nil, order[i].id, true)
    else leaf == Node(ZERO_HASH, Nil, Nil, [], true)
  }

  /** Whatever tree BuildMerkleTree returns: its leaves are the leases in ascending order of ID,
      padded with zero hashes to the least power of two, and its hash is the root over them with
      the smaller hash of each pair first. */
  lemma LeaseTreeCommits(sha3: Hash, json: Json, leases: seq<Lease>, root: MerkleNode) returns (order: seq<Lease>)
    requires IsTreeOver(sha3, json, leases, root)
    ensures multiset(order) == multiset(leases)
    ensures forall i, j :: 0 <= i < j < |order| ==> Leq(order[i].id, order[j].id)
    ensures |LeafNodes(root)| == PaddedSize(|leases|)
    ensures forall i :: 0 <= i < |LeafNodes(root)| ==> LeaseLeaf(sha3, json, order, i, LeafNodes(root)[i])
    ensures PowerOfTwo(|LeafHashes(root)|) && root.Node? && root.hash == SmallerFirstRoot(sha3, LeafHashes(root))
  {
    order :| InIdOrder(order, leases) && root == TreeOf(sha3, json, order);
    assert |order| == |multiset(order)| == |leases|;
    var leaves := LeaseLeaves(sha3, json, order);
    PaddedTreeLeaves(Ordered, sha3, leaves);
    OrderedRoot(sha3, root, Depth(|leaves|));
  }

  /** A schema that cannot be rendered counts as the zero hash. */
  ghost predicate SchemaLeaf(sha3: Hash, canonical: Canonical, order: seq<SchemaEntry>, i: nat, leaf: MerkleNode) {
    leaf == Node(
      if i < |order| && canonical(order[i]).Some? then sha3(canonical(order[i]).value) else ZERO_HASH, Nil, Nil, [], true)
  }

  lemma SchemaLeavesInOrder(sha3: Hash, canonical: Canonical, order: seq<SchemaEntry>, n: nat, i: nat)
    requires i < |order| + n
    ensures SchemaLeaf(sha3, canonical, order, i, (HashLeaves(SchemaHashes(sha3, canonical, order)) + Padding(n))[i])
  {
  }

  /** The same for the schema tree, whose interior hashes take the left child first. */
  lemma SchemaTreeCommits(sha3: Hash, canonical: Canonical, schemas: seq<SchemaEntry>, root: MerkleNode)
    returns (order: seq<SchemaEntry>)
    requires IsSchemaTreeOver(sha3, canonical, schemas, root)
    ensures multiset(order) == multiset(schemas)
    ensures forall i, j :: 0 <= i < j < |order| ==> Leq(order[i].id, order[j].id)
    ensures |LeafNodes(root)| == PaddedSize(|schemas|)
    ensures forall i :: 0 <= i < |LeafNodes(root)| ==> SchemaLeaf(sha3, canonical, order, i, LeafNodes(root)[i])
    ensures PowerOfTwo(|LeafHashes(root)|) && root.Node? && root.hash == LeftFirstRoot(sha3, LeafHashes(root))
  {
    order :| SchemasInIdOrder(order, schemas) && root == SchemaTree(sha3, SchemaHashes(sha3, canonical, order));
    assert |order| == |multiset(order)| == |schemas|;
    var leaves := HashLeaves(SchemaHashes(sha3, canonical, order));
    PaddedTreeLeaves(Positional, sha3, leaves);
    PositionalRoot(sha3, root, Depth(|leaves|));
    forall i | 0 <= i < |LeafNodes(root)| ensures SchemaLeaf(sha3, canonical, order, i, LeafNodes(root)[i]) {
      SchemaLeavesInOrder(sha3, canonical, order, PaddedSize(|leaves|) - |leaves|, i);
    }
  }
}
