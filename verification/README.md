# Verified models of the LuxStream cores

A Dafny model of the parts of LuxStream whose correctness is not visible in one function
body: the wavelength-lease registry and its Merkle commitments, the bit-plane conflict
index, the MODQ shared-memory ring, the schema store, the payload layouts and codecs, the
gateway's registers and queues, the replay cache, the frame checksum, the drift detector
and the interval coherence measure. `dafny verify dfyconfig.toml` checks all of it.

| file | what it models |
|---|---|
| `Wrappers.dfy`, `ByteStrings.dfy`, `Sorting.dfy`, `Words.dfy` | optional values and results; byte strings in Go's order; what `sort.Slice` promises; 64-bit words as bits |
| `Merkle.dfy`, `MerkleAcceptance.dfy`, `MerkleCommitment.dfy` | lease and schema Merkle trees, proof finder and verifier; everything the verifier accepts; what a root commits to |
| `Bitweave.dfy`, `ConflictAdapter.dfy` | the bit-plane lease index and the ID-to-slot adapter over it |
| `ModqRing.dfy`, `ModqRuns.dfy`, `ModqSubmit.dfy`, `ModqProgress.dfy`, `ModqRegion.dfy` | the MODQ ring as atomic steps; its interleaved runs; one call of submit; progress; the byte layout in shared memory |
| `LeaseRegistry.dfy`, `LeaseHistory.dfy` | allocate, renew, revoke, expire and verify, with their tokens; what records and tokens say about the run |
| `SchemaKeys.dfy`, `SchemaStore.dfy`, `SchemaReference.dfy`, `SchemaVisibility.dfy` | the schema records and the active-schema index in one key-value map; the plain map it refines; what callers see of it |
| `FieldLayout.dfy`, `CanonicalSchema.dfy` | payload layouts and the canonical form that is signed |
| `Checksum.dfy` | the rolling frame checksum |
| `Layered.dfy`, `LayeredHistory.dfy` | the two-layer drift detector; what its state and report say about the samples |
| `ReplayCache.dfy` | the on-disk ring of transcript hashes |
| `RegisterFile.dfy` | the packed control and status registers |
| `SchemaCodec.dfy`, `Pipeline.dfy` | payload codecs; queues, driver and fabric |
| `Coherence.dfy`, `CoherenceKernel.dfy`, `Holographic.dfy` | boosts and rotations, the coherence measure and its vectorised form, over exact reals |

Conventions:

- Code that updates objects or buffers is a class or an array method proved against a value
  function; the theorems are about those functions, over every run or every input.
- SHA3-256 (section 6.1 of FIPS 202) is any function to 32 bytes. A security claim reads "the
  claim holds, or these two sets of strings that were actually hashed contain a collision".
- Clock readings, new IDs, nonces, signatures, trajectory derivation, line noise, square
  roots, sines and cosines are inputs.
- 16-, 32- and 64-bit wrap-around is written out wherever the code relies on it or can meet it.

What the proofs show about the code beyond its documentation:

- `RenewLease` checks the status but not the end time. Exclusion holds over a run exactly
  when each renewal was safe, and a three-step run breaks it (`LapsedRenewBreaksExclusion`).
- Two leases of one wavelength can both verify at one instant, the end time of one of them.
- `VerifyMerkleProof` checks neither the length of the proof nor that of the value. Inner nodes
  have proofs, and so has the canonical string of a lease without its last byte; a caller has
  to compare the proof with the depth and the value with 32 bytes (`LeaseInclusion`).
- `UpdateSchema` consults only the new key. The index stays exact exactly when no update
  moves an ACTIVE schema to another operator or OAM mode (`MovedSchemaMisleads` shows a lookup
  that then answers with a schema of another mode).
- `DeprecateSchema` does not look at the status, so it turns a revoked schema into a deprecated
  one, which is valid for decoding.
- `FieldLayout.Validate` accepts a field whose `offset + length` wraps; it then occupies
  nothing, and two such fields can make the canonical form ambiguous.
- The replay cache documents that a restart does not reset protection. It keeps what is
  refused, but resets the write position, so the next accepted hash overwrites slot 0.
- The MODQ stride is 32-bit arithmetic and wraps for slot sizes above 2^32 - 80.
- The layered tracker's slow layer is blind while the long window fits in the warm-up.
- Its `via` is documented as the layer that caused COMPROMISED. After a single unconfirmed
  shock it is FAST even when the slow layer did (`ShockThenRatchet`).
- `SendQueue::post` checks the declared payload length only; a shorter payload is accepted,
  takes a sequence number and is dropped at the receiver.
- The register map's comment gives the OAM table 32 entries in 8 words; the code uses 33
  entries, and the model follows the code.
- The comment on `SizeBytes` calls `enum_u8` variable-width and allows length 0 for fixed
  types; the code fixes `enum_u8` at one byte and refuses length 0, and so does the model.

## Model

| member | source | states |
|---|---|---|
| `Merkle.PairUp` | flr/internal/crypto/engine.go:291-306 | the level loop makes one parent for each adjacent pair, ordered or positional |
| `Merkle.BuildFromLeaves` | flr/internal/crypto/engine.go:286-309 | recursion on levels computes the fold of the leaves, shown perfect by FoldIsPerfect |
| `Merkle.Pad` | flr/internal/crypto/engine.go:268-279 | padding doubles up to the next power of two with zero-hash leaves and changes no leaf |
| `Merkle.PaddedSizeIsLeast` | flr/internal/crypto/engine.go:268-272 | the padded size is the least power of two that holds the leaves |
| `Merkle.BuildMerkleTree` | flr/internal/crypto/engine.go:241-283 | the root is the tree over the leases in some order in which no ID precedes a smaller one |
| `Merkle.FoldIsPerfect` | flr/internal/crypto/engine.go:286-309 | the fold of 2^k nodes is a perfect tree of that depth whose leaf hashes are the given ones in order |
| `Merkle.PaddedTreeIsPerfect` | flr/internal/crypto/engine.go:241-309 | the tree over any list is perfect, of the padded depth, with leaf hashes = given hashes then padding |
| `Merkle.TreeIsDeterministic` | flr/internal/crypto/engine.go:251-256 | with distinct IDs every ordering of the leases, and every outcome of the unstable sort, gives the same tree |
| `Merkle.VerifyMerkleProof` | flr/internal/crypto/engine.go:383-408 | the loop accepts exactly when climbing the proof from the leaf reaches the root |
| `Merkle.StepMatchesCombine` | flr/internal/crypto/engine.go:383-408 | the verifier's strict and the builder's non-strict comparison combine siblings alike, equal siblings included |
| `Merkle.FindsExactlyLeaves` | flr/internal/crypto/engine.go:468-502 | a path is found exactly for the hashes that some leaf has |
| `Merkle.Completeness` | flr/internal/crypto/engine.go:468-502 | the path found is as long as the tree is deep and the verifier accepts it |
| `MerkleAcceptance.SoundnessOfAll` | flr/internal/crypto/engine.go:383-408 | whatever is accepted, of any length and with any proof, is a 32-byte hash as far down as the proof is long; or is of another length and cuts a string hashed for an interior node; or its proof is longer than the tree is deep and passes through a leaf; or verifier and builder hashed a collision |
| `MerkleAcceptance.BraceIsAccepted` | flr/internal/crypto/engine.go:383-408 | for every lease list, the canonical string of a committed lease without its closing brace is accepted, with a proof one longer than the tree is deep |
| `MerkleAcceptance.CutLeaseIsAccepted` | flr/internal/crypto/engine.go:383-408 | so is the first part of any cut of that string into a smaller and a larger part |
| `MerkleAcceptance.CutInteriorIsAccepted` | flr/internal/crypto/engine.go:383-408 | so is such a cut of a string hashed for an interior node, with a proof no longer than the tree is deep |
| `Merkle.EveryNodeHasAProof` | flr/internal/crypto/engine.go:383-408 | every hash d levels down is accepted with some proof of length d, so the length must be compared with the depth |
| `Merkle.LeaseInclusion` | flr/internal/crypto/engine.go:210-237 | an accepted 32-byte lease hash with a proof exactly as long as the tree is deep means a committed lease has the same canonical bytes, or a collision is exhibited, or the lease hashes to the padding |
| `Merkle.RootBinds` | flr/internal/crypto/engine.go:286-309 | equal roots of equal height mean the same leaf hashes (as a multiset when ordered, as a sequence when positional), or a collision |
| `Merkle.LeaseRootBinds` | flr/internal/crypto/engine.go:251-309 | two lease lists of equal padded size and root have the same multiset of leaf hashes, or a collision |
| `MerkleAcceptance.RootBindsAcross` | flr/internal/crypto/engine.go:286-309 | equal roots of trees of any two heights: the leaves of the lower are the hashes at that depth of the higher, or a collision |
| `MerkleAcceptance.RootsOfDifferentDepth` | flr/internal/crypto/engine.go:251-309 | two lease lists of different depth share a root only if a lease of the shallower has a 64-byte string the other builder hashed as its canonical string, or the zero hash has a preimage there, or a collision is exhibited |
| `Merkle.BuildSchemaMerkleTree` | flr/internal/crypto/schema.go:168-215 | the root is the positional tree over the hashes of the schemas in some order in which no ID precedes a smaller one, padded to a power of two; a schema that cannot be rendered counts as zero |
| `Merkle.SchemaRootBinds` | flr/internal/crypto/schema.go:168-215 | equal schema roots of lists of equal padded size mean equal sequences of hashes but for trailing zero hashes, or a collision |
| `ByteStrings.LeqIff` | flr/internal/crypto/engine.go:254-256 | the order of IDs and hashes: a string precedes its extensions, otherwise the first differing byte decides |
| `MerkleCommitment.LeaseTreeCommits` | flr/internal/crypto/engine.go:241-309 | whatever tree is built, its leaves are the leases by ascending ID, each with its ID and the hash of its canonical bytes, then zero hashes up to the padded size; its hash is the root over them, halved from the top, smaller hash of each pair first |
| `MerkleCommitment.SchemaTreeCommits` | flr/internal/crypto/schema.go:168-215 | the same for the schema tree, left hash of each pair first |
| `MerkleCommitment.OrderedRoot` | flr/internal/crypto/engine.go:286-309 | pairing up from the leaves and halving down from the root give the same hash, smaller first |
| `MerkleCommitment.PositionalRoot` | flr/internal/crypto/schema.go:196-214 | the same with left first |
| `Bitweave.SetColumn` | flr/internal/bitweave/bitweave.go:47-62 | writes the bits of a value down one slot's column and leaves every other column |
| `Bitweave.ClearColumn` | flr/internal/bitweave/bitweave.go:74-86 | blanks one slot's column and leaves every other column |
| `Bitweave.ScanExact` | flr/internal/bitweave/bitweave.go:105-221 | the reference scan reports a conflict exactly when that slot is live, not excluded and collides in that way |
| `Bitweave.ScanOrdered` | flr/internal/bitweave/bitweave.go:196-219 | the reference answer is strictly ordered by word, type and slot, hence without duplicates |
| `Bitweave.WalkStep` | flr/internal/bitweave/bitweave.go:198-204 | trailing zeros names the lowest set bit and b & (b-1) leaves exactly the others |
| `Bitweave.ListedIsScan` | flr/internal/bitweave/bitweave.go:196-219 | walking a mask that marks the hits of a word yields that word's part of the scan |
| `Bitweave.MatchScalar` | flr/internal/bitweave/bitweave_buffered.go:88-114 | the AND/ANDNOT loop keeps a slot's bit exactly when its column spells the target value |
| `Bitweave.CombineMatches` | flr/internal/bitweave/bitweave_buffered.go:61-85 | the combined masks mark exactly the slots with each kind of conflict, the excluded slot masked out |
| `Bitweave.ExtractWord` | flr/internal/bitweave/bitweave.go:197-204 | the mask walk appends one report for each set bit, in slot order |
| `Bitweave.Append` | flr/internal/bitweave/bitweave_buffered.go:118-149 | appending writes in place while it fits and otherwise moves to a fresh array, contents extended by one |
| `Bitweave.ExtractConflicts` | flr/internal/bitweave/bitweave_buffered.go:118-149 | whatever the buffer held, the result is the reference scan, in the same buffer while it fits |
| `Bitweave.LeaseIndex.Insert` | flr/internal/bitweave/bitweave.go:33-67 | the next slot gets exactly these attributes; full after 1024 insertions, and then nothing changes |
| `Bitweave.LeaseIndex.Remove` | flr/internal/bitweave/bitweave.go:69-88 | the slot becomes empty, others keep their attributes, the high-water mark stays; an out-of-range slot is ignored |
| `Bitweave.LeaseIndex.ComputeConflictMasks` | flr/internal/bitweave/bitweave_buffered.go:31-86 | on every reachable index the three masks mark exactly the conflicting slots |
| `Bitweave.LeaseIndex.CheckConflicts` | flr/internal/bitweave/bitweave.go:105-221 | on every reachable index the bit-plane query equals the linear scan, order included |
| `Bitweave.LeaseIndex.CheckConflictsBuf` | flr/internal/bitweave/bitweave_buffered.go:17-26 | the buffered query returns the same sequence as CheckConflicts for any old buffer contents |
| `Bitweave.LeaseIndex.Lens` | flr/internal/bitweave/bitweave.go:237-296 | lists exactly the surviving leases, in slot order, with the attributes they were inserted with |
| `ConflictAdapter.LeaseTenantID` | flr/internal/bitweave/adapter.go:139-148 | the loop computes the 16-bit wrapping hash of the operator ID |
| `ConflictAdapter.TenantHashIsPolynomial` | flr/internal/bitweave/adapter.go:139-148 | wrapping at every step is the polynomial of the runes in 31 over the integers, modulo 2^16 |
| `ConflictAdapter.AttributesCollide` | flr/internal/bitweave/adapter.go:118-152 | two leases collide in wavelength exactly when channels agree mod 2^32 and bands mod 2^16; in port exactly when bands and channels agree mod 2^16; in tenant exactly when in wavelength and their tenant polynomials differ mod 2^16; no wavelength counts as channel 0, band 0 |
| `ConflictAdapter.LinkInserted` | flr/internal/bitweave/adapter.go:32-53 | an insertion keeps IDs and live slots in one-to-one correspondence and adds exactly this lease |
| `ConflictAdapter.LinkRemoved` | flr/internal/bitweave/adapter.go:55-65 | a removal keeps the correspondence and takes out exactly this lease |
| `ConflictAdapter.ReportsExactly` | flr/internal/bitweave/adapter.go:67-86 | the scan over the slots reports exactly the registered leases in conflict, by ID, other than the renewed one |
| `ConflictAdapter.ConflictEngine.IndexLease` | flr/internal/bitweave/adapter.go:32-53 | a known ID is a no-op; otherwise the lease is registered, or refused when 1024 insertions have been made |
| `ConflictAdapter.ConflictEngine.RemoveLease` | flr/internal/bitweave/adapter.go:55-65 | exactly this ID is unregistered, and no capacity comes back |
| `ConflictAdapter.ConflictEngine.CheckLeaseConflicts` | flr/internal/bitweave/adapter.go:67-86 | for each kind, names exactly the registered leases that collide with the proposed one in that way, other than the renewed one |
| `ConflictAdapter.ConflictEngine.RebuildFrom` | flr/internal/bitweave/adapter.go:88-110 | registers the list in order, stops when full, and leaves a consistent engine exactly when the loaded IDs are distinct |
| `ConflictAdapter.RebuiltIsLinkedIffDistinct` | flr/internal/bitweave/adapter.go:88-110 | a duplicate ID leaves a live slot no ID reaches; without duplicates every live slot is reached |
| `ModqRing.StepKeepsInv` | crates/otap-modq/src/ring.rs:53-91 | every atomic step of producer, device and poller keeps the ring invariant |
| `ModqRuns.RunKeepsInv` | crates/otap-modq/src/ring.rs:53-144 | the invariant holds at every point of every interleaving |
| `ModqRuns.RingSafety` | crates/otap-modq/src/bin/modq_loopback.rs:141-155 | the device receives the submissions whole, in order, none lost or repeated, sid k mod 2^32; polled sids come in submission order; at most depth in flight |
| `ModqRuns.PendingIsIntact` | crates/otap-modq/src/ring.rs:53-91 | an unconsumed submission stays READY and unaltered in its slot |
| `ModqSubmit.SubmitIsAtomic` | crates/otap-modq/src/ring.rs:53-91 | from call to return, under every interleaving, either the payload is the next submission with tail, sid and doorbell moved on by one, or the call was refused (too large, or its slot found occupied on one look more than the spin limit), no counter moved and the producer wrote no slot |
| `ModqRuns.LoopbackNeverPolls` | crates/otap-modq/src/ring.rs:131-144 | with the loopback consumer, which frees slots itself, poll never finds a completed slot |
| `ModqProgress.NeverStuck` | crates/otap-modq/src/ring.rs:53-144 | in any state each party has exactly one action it can take, but for the payload of a new call |
| `ModqProgress.SubmissionArrives` | crates/otap-modq/src/bin/modq_loopback.rs:141-155 | in every interleaving, after a stated number of device actions (length + 4 for each submission, less what is already done) the device has received submission k whole and under its sid |
| `ModqProgress.DeviceConsumes` | crates/otap-modq/src/bin/modq_loopback.rs:141-155 | the same for the next submission, with the exact number of device actions |
| `ModqProgress.DeviceAlone` | crates/otap-modq/src/bin/modq_loopback.rs:141-155 | from any state of the invariant with something pending, that many device actions alone lead to a state whose log has grown by exactly that submission |
| `ModqProgress.PollReturns` | crates/otap-modq/src/ring.rs:131-144 | in every interleaving, while a completion is unpolled three actions of the poller return its sid |
| `ModqProgress.PollAnswers` | crates/otap-modq/src/ring.rs:131-144 | in every reachable state one poll adds exactly the sid of submission head, frees its slot and moves head on, if and only if the device completes and head < consumed; otherwise it changes nothing |
| `ModqProgress.TailFreeIff` | crates/otap-modq/src/ring.rs:53-71 | in every reachable state the slot a submit looks at is free exactly when fewer than depth submissions are waiting to be handed back |
| `ModqProgress.SubmitFinishes` | crates/otap-modq/src/ring.rs:53-91 | in every interleaving, once that slot is free length + 6 actions of the submitter finish the call, and its payload is the next submission |
| `ModqRegion.Stride` | crates/otap-modq/src/ring.rs:40-51 | the slot stride is the least multiple of 64 that holds header and payload exactly when the 32-bit sum does not wrap (slot sizes up to 2^32 - 80), and at most 64 otherwise |
| `ModqRegion.SlotsDisjoint` | crates/otap-modq/src/ring.rs:46-51 | distinct slots occupy disjoint bytes |
| `ModqRegion.HeaderWriteRefines` | crates/otap-modq/src/ring.rs:78-84 | a header word written to the region is that field of that slot, and nothing else changes |
| `ModqRegion.PayloadWriteRefines` | crates/otap-modq/src/ring.rs:73-76 | a payload byte written to the region is that byte of that slot, and nothing else changes |
| `ModqRegion.FreeSlots` | crates/otap-modq/src/lib.rs:60-63 | the opening loop marks every slot free and touches nothing below the ring |
| `ModqRegion.OpenLoopback` | crates/otap-modq/src/lib.rs:39-84 | a depth that is not a power of two is refused unchanged; otherwise the registers are set, head and tail are zero and all slots free |
| `ModqRegion.OpenedIsInit` | crates/otap-modq/src/lib.rs:39-84 | an opened region is an initial state of the protocol, with room for slotSize bytes exactly when the stride did not wrap |
| `ModqRegion.ActionRefines` | crates/otap-modq/src/ring.rs:53-144 | on every state the protocol reaches, an action that reads and writes the bytes of the region is that action of the protocol |
| `ModqRegion.BytesRunRefines` | crates/otap-modq/src/ring.rs:53-144 | every run over the bytes of the region is, seen through the slot layout, a run of the protocol, so RingSafety and SubmitIsAtomic hold of it |
| `LeaseRegistry.Engine.ListActive` | flr/internal/registry/engine.go:188-194 | lists exactly the operator's ACTIVE records |
| `LeaseRegistry.Engine.CheckConflict` | flr/internal/registry/engine.go:183-211 | finds a conflict exactly when another ACTIVE unlapsed lease holds the wavelength key |
| `LeaseRegistry.Engine.AllocateLease` | flr/internal/registry/engine.go:38-95 | result and store are those of the allocation step: argument, conflict and duplicate errors, else the granted lease is stored |
| `LeaseRegistry.Engine.RenewLease` | flr/internal/registry/engine.go:98-143 | result and store are those of the renewal step, which looks at status but not at the clock |
| `LeaseRegistry.Engine.RevokeLease` | flr/internal/registry/engine.go:146-179 | result and store are those of the revocation step; only this record changes |
| `LeaseRegistry.Engine.ExpireLeases` | flr/internal/registry/engine.go:334-368 | exactly the lapsed ACTIVE leases become EXPIRED, and their number is returned |
| `LeaseRegistry.AllocateKeepsExclusion` | flr/internal/registry/engine.go:38-95 | allocation never creates a second unlapsed ACTIVE lease on a wavelength key |
| `LeaseRegistry.RenewKeepsExclusionIff` | flr/internal/registry/engine.go:98-143 | renewal keeps exclusion if and only if the lease is not the operator's, or still lapses by now, or no other ACTIVE unlapsed lease holds its key now |
| `LeaseRegistry.UnlapsedRenewIsSafe` | flr/internal/registry/engine.go:98-143 | renewing a lease that has not lapsed always keeps exclusion |
| `LeaseRegistry.StepExclusionIff` | flr/internal/registry/engine.go:38-368 | any operation keeps exclusion exactly when it is not an unsafe renewal |
| `LeaseRegistry.RunsAreExclusiveIff` | flr/internal/registry/engine.go:38-368 | over every run with a non-decreasing clock, exclusion holds at every point exactly when every renewal was safe |
| `LeaseRegistry.LapsedRenewBreaksExclusion` | flr/internal/registry/engine.go:115-130 | allocate, allocate after lapse, renew the first, on a clock that runs forward: two unlapsed ACTIVE leases on one key |
| `LeaseRegistry.BothVerifyIff` | flr/internal/registry/engine.go:290-331 | in every run state that is exclusive at t, the latest tokens of two ACTIVE leases of one key both verify at t if and only if t is the end time of one and not after that of the other |
| `LeaseRegistry.BoundaryOverlapHappens` | flr/internal/registry/engine.go:183-211 | a two-step run reaches such an instant with both tokens accepted |
| `LeaseRegistry.RunKeepsIssued` | flr/internal/registry/engine.go:74-130 | in every run each lease's stored hash is that of its latest token, and end times strictly grow along its tokens |
| `LeaseRegistry.TokenFreshness` | flr/internal/registry/engine.go:290-331 | of the tokens issued for a lease, the latest is accepted exactly while the lease is ACTIVE and up to its end time; an earlier one never is, unless two different token texts collide under SHA3 |
| `LeaseRegistry.AcceptedIff` | flr/internal/registry/engine.go:290-331 | over every run any token at all, issued or not, is accepted if and only if its lease is ACTIVE, neither lease nor token has ended, its signature verifies, and its text is that of the lease's latest token or collides with it under SHA3 |
| `LeaseHistory.GrantedIff` | flr/internal/registry/engine.go:38-95 | a request is granted exactly when it is complete, its ID is new and no ACTIVE lease the operator lists holds the wavelength key past the scan |
| `LeaseHistory.RecordStep` | flr/internal/registry/engine.go:98-368 | what each operation does to the record of a lease: renewals of ACTIVE ones extend it, revocation and sweep change its status, nothing else changes |
| `LeaseHistory.RecordsAsGranted` | flr/internal/registry/engine.go:38-143 | in every run each record is what one allocation asked for, starting when it was granted and ending after the duration and every extension that found it ACTIVE |
| `LeaseHistory.TokensDescribeLease` | flr/internal/crypto/engine.go:100-127 | in every run each token carries the recorded fields of its lease and the engine's signature; the latest has the recorded end time, earlier ones an earlier one |
| `LeaseHistory.TextBindsEachPart` | flr/internal/registry/engine.go:379-393 | the hashed text is seven renderings joined by colons, and texts of tokens that differ in one rendering differ |
| `LeaseHistory.EndedStaysEnded` | flr/internal/registry/engine.go:98-368 | over every run a lease that has left ACTIVE never returns, and a REVOKED one stays REVOKED |
| `LeaseHistory.RevokeIsFinal` | flr/internal/registry/engine.go:146-179 | after a revocation the lease is REVOKED and no token of it is accepted at any later point of the run |
| `LeaseHistory.ExpireIsFinal` | flr/internal/registry/engine.go:334-368 | a sweep leaves exactly the ended ACTIVE leases of the operator EXPIRED, and no token of those is accepted later |
| `SchemaKeys.DecimalRoundTrip` | flr/internal/registry/schema_store.go:75 | decimal rendering of OAM modes is read back exactly, signs included |
| `SchemaKeys.PrimaryKeyIsInjective` | flr/internal/registry/schema_store.go:74-75 | different schema IDs have different primary keys |
| `SchemaKeys.KeySpacesAreDisjoint` | flr/internal/registry/schema_store.go:21-24 | no index key is a primary key or carries its scan prefix |
| `SchemaKeys.LastColonSplits` | flr/internal/registry/schema_store.go:74-75 | the last colon separates operator and OAM mode whatever colons the operator ID contains |
| `SchemaKeys.IndexKeyIsInjective` | flr/internal/registry/schema_store.go:74-75 | different (operator, OAM) pairs have different index keys |
| `SchemaStore.BadgerStore.CreateSchema` | flr/internal/registry/schema_store.go:63-113 | result and map are those of the create transaction (its effect: StoreEffect); a failed one leaves the map unchanged |
| `SchemaStore.BadgerStore.UpdateSchema` | flr/internal/registry/schema_store.go:134-189 | result and map are those of the update transaction (its effect: StoreEffect); a failed one leaves the map unchanged |
| `SchemaStore.BadgerStore.DeleteSchema` | flr/internal/registry/schema_store.go:192-222 | result and map are those of the delete transaction (its effect: DeleteEffect); a failed one leaves the map unchanged |
| `SchemaStore.BadgerStore.ListSchemas` | flr/internal/registry/schema_store.go:227-258 | the scan returns each record that matches the filter once and no other |
| `SchemaStore.ContainsIff` | flr/internal/registry/schema_store.go:227-258 | the name filter holds exactly when the string occurs somewhere in the name |
| `SchemaStore.AtMostOneActive` | flr/internal/registry/schema_store.go:63-113 | with an exact index each (operator, OAM) has at most one ACTIVE schema |
| `SchemaStore.LookupIsScan` | flr/internal/registry/schema_store.go:261-288 | the index lookup returns exactly the record the filtered scan would list |
| `SchemaStore.LookupIsListing` | flr/internal/registry/schema_store.go:261-288 | the lookup gives the one element of the filtered listing, and an error exactly when that is empty |
| `SchemaStore.CreateKeepsIndexed` | flr/internal/registry/schema_store.go:63-113 | a successful create keeps the index exact |
| `SchemaStore.DeleteKeepsIndexed` | flr/internal/registry/schema_store.go:192-222 | a successful delete keeps the index exact |
| `SchemaStore.UpdateKeepsIndexedIff` | flr/internal/registry/schema_store.go:134-189 | a successful update keeps it exact if and only if the stored schema was not ACTIVE or keeps its operator and OAM mode |
| `SchemaStore.RunsStayIndexedIff` | flr/internal/registry/schema_store.go:63-222 | over every run from an empty store the index is exact at every point exactly when no update moved an ACTIVE schema |
| `SchemaReference.LookupIff` | flr/internal/registry/schema_store.go:261-288 | on an exact store the lookup returns a schema exactly when it is on record, ACTIVE and of that operator and mode; otherwise not found |
| `SchemaReference.StepMatches` | flr/internal/registry/schema_store.go:63-222 | on an exact store every operation succeeds, or fails with the same error, as on a plain map from ID to schema, and leaves the records of that map |
| `SchemaReference.RunsMatch` | flr/internal/registry/schema_store.go:63-222 | over every run that moves no ACTIVE schema the keyed and indexed store loads exactly what the plain map holds |
| `SchemaReference.DeleteEffect` | flr/internal/registry/schema_store.go:192-222 | a schema on record is removed and no other; the lookup for its pair finds nothing if it was ACTIVE, and every other lookup is unchanged |
| `SchemaReference.StoreEffect` | flr/internal/registry/schema_store.go:63-189 | a create, or an update that moves no ACTIVE schema, replaces this record and no other; the lookup for its pair returns it if it is ACTIVE, finds nothing if it only was, and every other lookup is unchanged |
| `SchemaVisibility.UpdateAgreesIff` | flr/internal/registry/schema_store.go:134-189 | after an update of an exact store lookup and filtered listing agree for every pair if and only if the update did not move an ACTIVE schema, or retired it onto a place no ACTIVE schema holds, or moved it between pairs with an empty operator |
| `SchemaVisibility.RunsLookUpExactly` | flr/internal/registry/schema_store.go:227-288 | over every run that moves no ACTIVE schema each lookup gives the one element of the filtered listing |
| `SchemaVisibility.MovedSchemaMisleads` | flr/internal/registry/schema_store.go:134-189 | two creates and an update after which mode 2 has two ACTIVE schemas and the lookup for mode 1 returns a schema of mode 2 |
| `SchemaStore.EngineStep` | flr/internal/registry/schema_engine.go:27-146 | every engine operation keeps the index exact and every schema's operator, OAM mode and inactivity |
| `SchemaStore.EngineNeverReactivates` | flr/internal/registry/schema_engine.go:27-146 | over every engine run no schema disappears or moves, and one that left ACTIVE never returns to it |
| `SchemaReference.RegisterEffect` | flr/internal/registry/schema_engine.go:27-69 | registration succeeds exactly for a valid schema of this operator or of none, with a new ID and a place no other ACTIVE schema holds; the record has operator, ID, status ACTIVE by default and signature filled in and is otherwise as given |
| `SchemaReference.RetireEffect` | flr/internal/registry/schema_engine.go:91-146 | deprecation and revocation succeed exactly for the operator's own schemas on record, whatever their status, and change status and signature only |
| `SchemaVisibility.RevocationIsFinalIff` | flr/internal/registry/schema_engine.go:91-146 | over every engine run a revoked schema stays revoked exactly when its owner never deprecates it |
| `SchemaVisibility.DeprecateUndoesRevoke` | flr/internal/registry/schema_engine.go:91-118 | deprecating a revoked schema of the operator makes it DEPRECATED, from any exact store |
| `FieldLayout.TotalBytes` | flr/internal/models/schema.go:156-165 | the running maximum is the largest wrapped end, or 0 |
| `FieldLayout.Occupy` | flr/internal/models/schema.go:182-193 | marks exactly the bytes of one field, and fails exactly when one was marked before |
| `FieldLayout.ValidateLayout` | flr/internal/models/schema.go:169-202 | accepted exactly when non-empty, every field valid and each byte up to the total covered by exactly one field |
| `FieldLayout.LengthsSumToTotalIff` | flr/internal/models/schema.go:156-202 | in an accepted layout the lengths sum to the total if and only if no offset + length leaves the 32-bit range |
| `FieldLayout.OverflowIsAccepted` | flr/internal/models/schema.go:156-202 | an accepted layout of five declared bytes with a total of four |
| `FieldLayout.FieldsAreApart` | flr/internal/models/schema.go:169-202 | two fields of an accepted in-range layout occupy disjoint ranges, so offsets are distinct |
| `FieldLayout.PayloadIsConcatenation` | flr/internal/models/schema.go:112-116 | in offset order the fields of an accepted in-range layout follow one another from byte 0 to the total without gap |
| `CanonicalSchema.ValidateSchema` | flr/internal/models/schema.go:247-274 | accepted exactly when identifiers, OAM range and size are right and the layout tiles exactly payloadBytes |
| `CanonicalSchema.CanonicalForm` | flr/internal/crypto/schema.go:46-82 | the form is the signed fields with the layout by ascending offset; a missing layout is an error |
| `CanonicalSchema.ValidHasNoTies` | flr/internal/crypto/schema.go:54-60 | a valid in-range schema has no two fields at one offset |
| `CanonicalSchema.CanonicalIff` | flr/internal/crypto/schema.go:46-82 | forms of valid in-range schemas are equal exactly when the schemas agree but for field order, descriptions, status, update time and signature |
| `CanonicalSchema.SameStrippedIff` | flr/internal/crypto/schema.go:54-72 | the layouts of two forms have the same fields exactly when the schemas' layouts have, descriptions apart |
| `CanonicalSchema.UniqueWithoutTies` | flr/internal/crypto/schema.go:54-60 | without equal offsets the unstable sort has one outcome |
| `CanonicalSchema.TieGivesAnother` | flr/internal/crypto/schema.go:54-60 | with two different fields at one offset there is always a second, different form |
| `CanonicalSchema.ValidSchemaWithTie` | flr/internal/crypto/schema.go:54-60 | a schema that passes validation and has such a tie, between fields whose ends wrap |
| `Checksum.CalculateRpc` | crates/luxstream-otap-d3/src/rpc.rs:40-52 | the wrapping 64-bit loop computes the seeded weighted sum modulo 2^32 |
| `Checksum.ChecksumLaw` | crates/luxstream-otap-d3/src/rpc.rs:40-52 | for all frames under one domain and epoch, checksums agree exactly when the weighted sums agree modulo 2^32 |
| `Checksum.SeedLaw` | crates/luxstream-otap-d3/src/rpc.rs:40-52 | one frame under two domains and epochs has equal checksums exactly when the seeds agree modulo 2^32 |
| `Checksum.ChecksumIsExact` | crates/luxstream-otap-d3/src/rpc.rs:18-52 | for frames of at most 8746 in-format symbols checksums agree exactly when the sums are equal integers |
| `Checksum.SingleChangeIsSeen` | crates/luxstream-otap-d3/src/rpc.rs:18-52 | in a frame of any length changing one symbol changes the checksum exactly when it changes the symbol's product |
| `Checksum.BoundIsTight` | crates/luxstream-otap-d3/src/rpc.rs:18-52 | with 8747 symbols two frames of different sums share a checksum |
| `Layered.LayeredTracker.constructor` | stage-chronos/layered.py:50-74 | a new tracker is in the fresh state |
| `Layered.LayeredTracker.Ack` | stage-chronos/layered.py:76-85 | ack returns to exactly the fresh state |
| `Layered.LayeredTracker.Process` | stage-chronos/layered.py:87-154 | one sample takes the tracker to the step's state and reports the link state and the layer blamed |
| `Layered.CompromisedLatches` | stage-chronos/layered.py:106-108 | COMPROMISED, once reached, stays for the rest of the run |
| `Layered.UncompromisedTrace` | stage-chronos/layered.py:87-144 | while not COMPROMISED the slow window is the tail of the baselines, one for each frame |
| `Layered.ShockCounter` | stage-chronos/layered.py:113-130 | while not COMPROMISED the counter is the number of unbroken shocks, and the link is in ALARM exactly while it is positive |
| `Layered.CompromisedIff` | stage-chronos/layered.py:106-144 | after the warm-up a frame compromises the link exactly when it completes `confirm` shocks in a row or the baseline lies more than the threshold under that of long_window - 1 frames earlier |
| `Layered.PassingSampleDrop` | stage-chronos/layered.py:110-130 | a sample the fast layer lets pass lowers the baseline by at most alpha times z_thr standard deviations |
| `Layered.RatchetBound` | stage-chronos/layered.py:132-144 | with long_window > window, in every run not COMPROMISED the baseline falls by at most k thresholds over any k(long_window - 1) frames |
| `Layered.RatchetBlindInWarmUp` | stage-chronos/layered.py:97-104 | with 2 <= long_window <= window some HEALTHY run falls further than any given threshold over long_window - 1 frames |
| `LayeredHistory.TrackerRemembers` | stage-chronos/layered.py:97-130 | in every run on samples the history is the last window of the samples that entered it, the variance is theirs, and the baseline is the warm-up mean smoothed by the samples since, in closed form |
| `LayeredHistory.ViaIff` | stage-chronos/layered.py:146-154 | over every run the layer reported is none without shock or ratchet, FAST if there was a shock and either no ratchet or one whose time is not before that of the first shock, SLOW otherwise |
| `LayeredHistory.ViaNamesCauseIff` | stage-chronos/layered.py:87-96 | at the frame that compromises the link the report is the layer that did it if and only if that was the fast layer, or no shock came before, or the first one carries a later time |
| `LayeredHistory.ShockThenRatchet` | stage-chronos/layered.py:113-154 | samples 1.0, 0.0, 0.97: the slow layer compromises the link and FAST is reported |
| `ReplayCache.PersistentReplayCache.Open` | crates/luxstream-otap-d3/src/replay_cache.rs:23-60 | loads the whole records that fit, extends the file with zeros, and starts writing after the last loaded record or at slot 0 |
| `ReplayCache.PersistentReplayCache.CheckAndInsert` | crates/luxstream-otap-d3/src/replay_cache.rs:63-90 | refuses exactly what is in memory; otherwise the hash goes to the same slot of memory and disk and nothing else changes |
| `ReplayCache.OverwriteRecord` | crates/luxstream-otap-d3/src/replay_cache.rs:78-86 | the 32-byte write replaces one record of the file and leaves the others |
| `ReplayCache.ReopenIsRestart` | crates/luxstream-otap-d3/src/replay_cache.rs:23-60 | reopening the file of a valid cache loads all its slots with the write position at 0 |
| `ReplayCache.UnrollInsert` | crates/luxstream-otap-d3/src/replay_cache.rs:72-88 | an accepted hash becomes the newest and, when the ring is full, pushes out exactly the oldest |
| `ReplayCache.CleanRunsProtect` | crates/luxstream-otap-d3/src/replay_cache.rs:63-90 | from a new file, with restarts only on multiples of the capacity, exactly the last `capacity` accepted hashes are refused (and the zero hash of a slot never written) |
| `ReplayCache.CleanRunsSpaced` | crates/luxstream-otap-d3/src/replay_cache.rs:63-90 | in such runs an accepted hash differs from the `capacity` accepted before it |
| `ReplayCache.RestartRefusesTheSame` | crates/luxstream-otap-d3/src/replay_cache.rs:23-60 | at any point of any run, whenever earlier restarts came, a restart refuses exactly what was refused, and the zero hash when a slot was never written |
| `ReplayCache.RestartIsSafeIff` | crates/luxstream-otap-d3/src/replay_cache.rs:47-88 | after the next acceptance the last `capacity` hashes are still refused if and only if the restart came on a multiple of the capacity or overwrote a zero hash that another slot still holds |
| `ReplayCache.RunsProtectIff` | crates/luxstream-otap-d3/src/replay_cache.rs:23-90 | over every run from a new file, restarts anywhere, the last `capacity` accepted hashes are refused at every point if and only if no acceptance overwrote the only slot with one of the last capacity - 1 |
| `ReplayCache.RunsProtectIffTimely` | crates/luxstream-otap-d3/src/replay_cache.rs:23-90 | in runs that submit no all-zero hash, if and only if each acceptance found the write position equal to the number accepted modulo the capacity, that is, none followed a restart off a multiple of the capacity |
| `ReplayCache.RestartForgets` | crates/luxstream-otap-d3/src/replay_cache.rs:23-90 | capacity 2: accept, restart, accept; the first hash is accepted again |
| `RegisterFile.Registers.ReadU32` | crates/otap-csr/src/lib.rs:212-220 | range is checked before alignment; otherwise the addressed word |
| `RegisterFile.Registers.WriteU32` | crates/otap-csr/src/lib.rs:223-232 | range is checked before alignment; otherwise exactly the addressed word changes |
| `RegisterFile.PutLaneReplaces` | crates/otap-csr/src/lib.rs:309-322 | masking and shifting replace one byte of a word |
| `RegisterFile.HalfOfPutHalf` | crates/otap-csr/src/lib.rs:288-304 | packing one half-word reads back and leaves the other |
| `RegisterFile.SecretRoundTrip` | crates/otap-csr/src/lib.rs:268-280 | the 32 bytes packed big-endian into eight words unpack to themselves |
| `RegisterFile.ApartOrPacked` | crates/otap-csr/src/lib.rs:95-124 | two different settings share no word unless they are neighbours packed into one, in different parts of it |
| `RegisterFile.WriteThenObserve` | crates/otap-csr/src/lib.rs:249-416 | after any typed write the setting written reads back the value and every other setting reads as before |
| `RegisterFile.LastWriteWins` | crates/otap-csr/src/lib.rs:249-416 | after any sequence of typed writes each setting reads the value last written to it, or its reset value |
| `RegisterFile.WriteLayout` | crates/otap-csr/src/lib.rs:95-124 | a write of a setting other than the secret changes the one word of the register map it lies in, and no other |
| `RegisterFile.SecretLayout` | crates/otap-csr/src/lib.rs:268-280 | the secret lies big-endian in words 4 to 11 and its flag in word 12; no other word changes |
| `RegisterFile.HalfPlaced` | crates/otap-csr/src/lib.rs:288-304 | even entries are the low half of their word, odd ones the high half |
| `RegisterFile.LanesPlaced` | crates/otap-csr/src/lib.rs:309-322 | byte k of a table word is its k-th least significant |
| `RegisterFile.Registers.SetWavelength` | crates/otap-csr/src/lib.rs:249-251 | performs the channel write on the words |
| `RegisterFile.Registers.SetCtrl` | crates/otap-csr/src/lib.rs:254-256 | performs the control write on the words |
| `RegisterFile.Registers.SetAuthTolerance` | crates/otap-csr/src/lib.rs:259-262 | performs the tolerance write on the words |
| `RegisterFile.Registers.SetSecret` | crates/otap-csr/src/lib.rs:268-280 | the loop and the flag perform the secret write and no other |
| `RegisterFile.Registers.SetSchemaPayload` | crates/otap-csr/src/lib.rs:288-304 | IDs 0 and from 32 on are refused unchanged; otherwise the payload write |
| `RegisterFile.Registers.SetOamToSchema` | crates/otap-csr/src/lib.rs:309-322 | charges outside [-16, 16] are refused unchanged; otherwise the table write |
| `RegisterFile.Registers.Wavelength` | crates/otap-csr/src/lib.rs:349-352 | returns the observed channel, and an error exactly when it is above 351 |
| `RegisterFile.Registers.ReadCtrl` | crates/otap-csr/src/lib.rs:355-357 | returns the observed control word |
| `RegisterFile.Registers.AuthTolerance` | crates/otap-csr/src/lib.rs:360-362 | returns the observed tolerance, in milliradians |
| `RegisterFile.Registers.SecretValid` | crates/otap-csr/src/lib.rs:365-367 | true exactly when a secret is observed |
| `RegisterFile.Registers.SharedSecret` | crates/otap-csr/src/lib.rs:365-386 | returns the observed secret, or nothing while the flag is clear |
| `RegisterFile.Registers.SchemaPayloadBytes` | crates/otap-csr/src/lib.rs:390-403 | returns the observed payload size, or the ID error |
| `RegisterFile.Registers.SchemaIdForOam` | crates/otap-csr/src/lib.rs:406-416 | returns the observed schema ID, or the range error |
| `SchemaCodec.EncodeOrder` | crates/otap-schema/src/equity_order.rs:109-122 | filling the zeroed buffer in place yields the 256-byte wire form |
| `SchemaCodec.EncodeTick` | crates/otap-schema/src/market_tick.rs:32-42 | filling the zeroed buffer in place yields the 64-byte wire form |
| `SchemaCodec.EncodeBeat` | crates/otap-schema/src/heartbeat.rs:30-37 | filling the zeroed buffer in place yields the 32-byte wire form |
| `SchemaCodec.PadSymbol` | crates/otap-schema/src/equity_order.rs:71-84 | a symbol is its first four bytes, padded with zeros |
| `SchemaCodec.SignedRoundTrip` | crates/otap-schema/src/heartbeat.rs:30-55 | signed offsets and their eight bytes determine each other |
| `SchemaCodec.RoundTrip` | crates/otap-schema/src/lib.rs:81-126 | every value survives encoding, dispatch on its OAM mode and decoding |
| `SchemaCodec.EncodeAfterDecodeIff` | crates/otap-schema/src/equity_order.rs:109-150 | a decodable payload is the encoding of its value exactly when it is not an order with a reserved byte set |
| `SchemaCodec.OrderOnWire` | crates/otap-schema/src/equity_order.rs:109-122 | each field of an order lies big-endian at its offset and every other byte is zero |
| `SchemaCodec.TickOnWire` | crates/otap-schema/src/market_tick.rs:32-42 | each field of a tick lies big-endian at its offset |
| `SchemaCodec.BeatOnWire` | crates/otap-schema/src/heartbeat.rs:30-37 | each field of a heartbeat lies big-endian at its offset, the signed one modulo 2^64 |
| `Pipeline.SendQueue.Post` | crates/otap-obg/src/lib.rs:128-191 | accepted exactly when the declared length is the schema's and there is room; appended at the end |
| `Pipeline.CompletionQueue.Push` | crates/otap-obg/src/lib.rs:218-223 | keeps the newest `capacity` completions, at least one |
| `Pipeline.SoftDriver.TransmitPending` | crates/otap-obg/src/lib.rs:299-310 | drains the queue into one transient for each request, in order, numbered on modulo 65536, with its cookie |
| `Pipeline.SoftDriver.Accept` | crates/otap-obg/src/lib.rs:313-326 | pushes the decoded completion, or nothing when the transient does not decode |
| `Pipeline.Pump` | crates/otap-fabric/src/lib.rs:92-106 | the send queue is drained and the completion queue is the newest of what it held followed by what was delivered |
| `Pipeline.EverythingArrives` | crates/otap-codec/src/lib.rs:89-215 | on an error-free line and one wavelength every posted value arrives, in order and unaltered, numbered on by one modulo 65536 |
| `Pipeline.DeliveredIff` | crates/otap-codec/src/lib.rs:170-215 | on any line a request is delivered exactly when the payload that arrives has its schema's length and, for an order, side byte 0 or 1; then as the value that payload decodes to, under its own number, authenticated exactly when the receiver verifies the rotated trajectory |
| `Pipeline.ShortPayloadIsLost` | crates/otap-obg/src/lib.rs:128-191 | a request with the right declared length and a shorter payload is delivered nowhere |
| `Coherence.BoostKeepsNorm` | stage-chronos/transport.py:23-33 | a boost preserves -dt^2 + dx^2 + dy^2 + dz^2 |
| `Coherence.BoostBringsToRest` | stage-chronos/transport.py:13-33 | what moves with velocity v along x is at rest after the boost by v, its time slower by gamma |
| `Coherence.BoostUndone` | stage-chronos/transport.py:23-33 | the boost by -v undoes the boost by v |
| `Coherence.ChannelTurns` | stage-chronos/fiber_channel.py:101-111 | the channel turns about the third axis, then the second, then the first, each by its own angle |
| `Coherence.ChannelMatrixKeepsNorm` | stage-chronos/fiber_channel.py:101-111 | the product of the three axis rotations preserves it |
| `CoherenceKernel.ApplyLorentzBoost` | stage-chronos/transport.py:13-33 | refused exactly outside abs(v) < 1; otherwise each point is boosted, in order |
| `CoherenceKernel.ChainKeepsInterval` | stage-chronos/fiber_channel.py:314-333 | any chain of boosts and rotations preserves the interval of any two points |
| `CoherenceKernel.MeasureCoherence` | stage-chronos/coherence.py:27-45 | the double loop computes the mean squared deviation over all pairs of sampled points |
| `CoherenceKernel.Stride` | stage-chronos/coherence.py:30-31 | the largest step that leaves room for sample_size points, or 1 when there are fewer points or the size is negative |
| `CoherenceKernel.MseZeroIff` | stage-chronos/coherence.py:27-45 | the measure is zero exactly when every sampled interval is unchanged |
| `CoherenceKernel.ChainsAreCoherent` | stage-chronos/coherence.py:27-45 | any chain of boosts and rotations measures exactly zero for every manifold and sample size |
| `CoherenceKernel.DispersionCoherentIff` | stage-chronos/fiber_channel.py:335-358 | dispersion of any manifold measures zero exactly when k dx (2 dt + k dx) vanishes for every sampled pair |
| `CoherenceKernel.SameTimeWalk` | stage-chronos/fiber_channel.py:335-358 | between points emitted at one time that means no slope or one x |
| `Holographic.ManifoldToCoords` | stage-chronos/holographic.py:61-70 | the coordinate array holds the sampled points in order |
| `Holographic.MaskSelectsUpper` | stage-chronos/holographic.py:219-224 | indexing a square matrix by the triangular boolean mask selects, row by row, exactly the entries strictly above the diagonal, one for each pair |
| `Holographic.MeasureHolographicCoherence` | stage-chronos/holographic.py:197-226 | built from two full interval matrices and a mask, the result is the double loop's measure of the same samples whenever at least two points are sampled, and otherwise has nothing to average |
| `Holographic.KernelsAgree` | stage-chronos/holographic.py:211-226 | the masked matrices hold one entry for each pair of samples and their squared differences add up to the double loop's sum |

## Left out

- Bitweave.LeaseIndex.ComputeConflictMasks: the AVX-512 path is not modelled; the scalar path, which the code repeats in two functions, is one member here.
- Merkle.VerifyMerkleProof: byte slices are values; the aliasing of Go's `append` onto a sibling slice with spare capacity is not modelled.
- Merkle.LeaseInclusion: SHA3-256 and the JSON rendering of a lease are functions; their internals are not modelled.
- ModqRuns.RingSafety: steps are sequentially consistent atomic accesses; weaker memory orders and wrap-around of the 64-bit tail are not modelled, nor is a scheduler (progress is counted in actions taken), and the device is made to read the payload, where the loopback consumer reads only length and sid.
- ModqRegion.OpenLoopback: the region is given; mapping it, over PCIe or shared memory, is not modelled.
- ModqRegion.Stride: 32-bit sums wrap, as in release builds; debug builds stop instead.
- LeaseRegistry.Engine.AllocateLease: store failures, the audit log, commitments and record fields no decision reads are not modelled.
- SchemaStore.BadgerStore.CreateSchema: storage failures, JSON of the records and nil arguments are not modelled.
- CanonicalSchema.CanonicalForm: stops at the record that is rendered to JSON.
- Layered.LayeredTracker.Process: reals are exact, and the standard deviation is an input rather than the square root of the variance.
- ReplayCache.PersistentReplayCache.CheckAndInsert: I/O failures, partial writes and timing are not modelled.
- RegisterFile.Registers.SetAuthTolerance: takes milliradians; the rounding from floating-point radians is not modelled.
- Pipeline.Pump: trajectory derivation and verification are inputs, and so are the line's rotation and bit errors.
- CoherenceKernel.MeasureCoherence: exact reals; the exponential that turns the mean into a coherence value is not modelled.
- Stored Merkle commitments: the count is set after signing, so their verification does not follow from the code.
- Winding-number authentication, polarization-mode-dispersion statistics, noise, dispersion sweeps and the trigonometric encoders: numerical, with no exact property.
- gRPC and REST servers, federation and gossip, command-line tools, configuration, seeding and benchmarks: they carry data between the parts modelled here and decide nothing these results speak of.
- Audit-log time ranges, schema lookups by federation key and string renderings: no operation modelled here reads them.
