# Verified model of SigmaProof's evidence core

A Dafny 4.11 model of how SigmaProof turns documents into portable evidence, with proofs about it:

- the private transactional **store** (ingestion, FIFO freezing, submission records, outbox, package export) as a state
  machine over all runs, and **document ingestion** as a concurrent protocol over all interleavings;
- the RFC 6962 **Merkle tree** (sections 2.1 and 2.1.1): recursive root and path, the cursor-based verifier, the
  verifier's own depth loop, and the level-by-level builder of the vector generator;
- the nested fixed-width **codecs** (90-byte commitment preimage, 61-byte manifest, 170 + 32n byte package) and the
  **report** that composes them;
- the **Paperless agent**: identity framing, event handling, reconciliation and replay.

Check everything with `dafny verify dfyconfig.toml`.

## How to read it

`Prelude.SHA256` is an arbitrary function from byte strings to 32 bytes. Nothing is assumed about it, so a binding theorem
says "the inputs are equal, or this function returns two different byte strings with one hash": `Merkle.ProofClash`,
`Merkle.RootClash`, `Verifier.BindingClash` and `Planner.KeyClash` compute that pair from the inputs.

Transactions are functions of the stored state (`Storage`). The class `StoreObject.Store` performs them step by step, as
the Go code does, on a copy of a tenant's buckets that is committed whole or dropped, and each method is proved equal to
its function on every state, corrupt ones included. What those functions do is told, on the stored records alone, by
`StoreEffects` for sound states and by `FailClosed` for all states. `StoreInvariant.Inv` says what a sound tenant state
is, relative to a `Ledger` (evidence in sequence order, batches in freeze order, the cut points between them);
`StoreRuns` proves it of every run. Ingestion of a document is four separate steps (`Ingestion.Step`);
`ConcurrentIngestion` interleaves them, and `IngestionOutcomes` gives the exact answer of each.

Nonces, random ID draws, fetched documents, the event listing and the text trimming function are parameters or arbitrary
functions. A reader is the bytes it delivers plus whether it then fails; an error that arrives together with the very last
byte under a limit is not distinguished from one that arrives after it.

A retry whose document is too long or cannot be read ends in a conflict (`internal/storage/store.go:306-308`), so
`ConcurrentIngestion.Clashes` counts an unreadable document as a clash.

A `hide` statement at the top of a proof keeps definitions the proof does not need away from the solver.

| file | contents |
|---|---|
| `Prelude`, `Encoding`, `Utf8`, `Buffers` | bytes, hash, readers; big-endian, cursor order, hexadecimal, UTF-8; buffer filling |
| `Merkle`, `LevelTree` | tree, paths, inclusion, binding; bottom-up builder |
| `Commitment`, `Batch`, `Package`, `Verifier` | codecs and the report |
| `Storage`, `Store` | transactions as functions, and as imperative methods |
| `StoreInvariant`, `FreezeInvariant`, `StoreRuns`, `StoreOutcomes` | invariant, its preservation, runs, outcomes |
| `StoreEffects`, `FailClosed` | the exact effect of each operation on a sound store; what success means in any state |
| `Ingestion`, `ConcurrentIngestion`, `IngestionOutcomes`, `ConcurrentRetries`, `EndToEnd` | the ingestion protocol under interleaving; ingestion to verification |
| `Planner`, `Runner`, `AgentOutcomes`, `AgentRuns`, `Reconciler`, `ConcurrentAgent` | agent planning, handling and its exact outcomes, conflict explanation, replay, one event at a time and all at once |

## Where the code and its documents differ

The model follows the code.

- A retry of `IngestDocument` that finds its evidence by source does not store its new key
  (`internal/storage/store.go:301-309`, `321-323`), while the storage README says another key for an identical source
  aliases the record; that is true of `Ingest` only. `ConcurrentIngestion.KeyNamedByStep` gives the exact condition for
  both branches, `KeyNamedInterleaved` carries it to every interleaving, `KeyNamedExactly` to the undisturbed call, and
  `AliasNotPersisted` is an instance.
- The Paperless README lists the fields of the idempotency key without the tenant; the code frames it too
  (`integrations/paperless/agent/planner.go:61`).

## Model

| member | source | states |
|---|---|---|
| Merkle.Split | pkg/proof/merkle/merkle.go:31 | the boundary of a subtree of two or more entries is below its size and at least half of it, so every recursion gets smaller non-empty parts |
| Merkle.SplitUnique | pkg/proof/merkle/merkle.go:31 | the boundary is the largest power of two below the size |
| Merkle.RootBytes | pkg/proof/merkle/merkle.go:14-44 | what each root hashes, byte by byte: nothing; a zero and the entry; or a one, the root of the entries before the boundary and the root of those after it, at the one power of two that RFC 6962 allows |
| Merkle.ClimbBytes | pkg/proof/merkle/merkle.go:73-99 | what a verifier hashes at each level: the child comes first exactly when the leaf lies before the boundary, its sibling otherwise |
| Merkle.SiblingCount | pkg/proof/merkle/merkle.go:47-61 | the path of a leaf has exactly as many siblings as its depth |
| Merkle.DepthBound | pkg/proof/merkle/merkle.go:47-61 | no leaf is deeper than the bit length of size - 1, and the first leaf is exactly that deep |
| Merkle.DepthLimits | pkg/proof/package.go:34-47 | depth is at most 64 for 64-bit sizes and at most 16 for sizes up to 65536 |
| Merkle.Rebuilder.Rebuild | pkg/proof/merkle/merkle.go:73-99 | the cursor recursion succeeds exactly when enough siblings remain, consumes exactly the depth, and returns the climbed root |
| Merkle.Verify | pkg/proof/merkle/merkle.go:66-111 | each verdict (bad position, too deep, truncated, extra, accepted) is given exactly in its own case |
| Merkle.InclusionComplete | pkg/proof/merkle/merkle.go:34-111 | the computed path of every entry of every list below 2^64 entries is accepted against the list's root |
| Merkle.ProofsBind | pkg/proof/merkle/merkle.go:66-111 | two proofs that reach one root from one position are the same proof of the same entry, or a collision is computed |
| Merkle.InclusionSound | pkg/proof/merkle/merkle.go:34-111 | an accepted entry and path are the list's own entry and path at that index, or a collision is computed |
| Merkle.RootBinds | pkg/proof/merkle/merkle.go:14-44 | equal roots of lists of any two lengths, the empty one included, mean equal lists, or a collision is computed |
| Merkle.SizeNotBound | pkg/proof/merkle/merkle.go:63-65 | a proof is accepted alike for every two positions and sizes with the same left and right turns |
| Merkle.FirstLeafSizes | pkg/proof/merkle/merkle.go:63-65 | an accepted proof of a first leaf is accepted, with the same root, for exactly the sizes whose trees are as high: a root alone does not authenticate the size |
| Merkle.ThreeOrFour | pkg/proof/merkle/merkle.go:63-65 | any entry with any two siblings is proved, under one root, the first of three entries and the first of four |
| LevelTree.Tree | scripts/generate_merkle_vectors.py:9-28 | the level-by-level builder returns the recursive root and the target's recursive path, or no path for a target outside the list |
| LevelTree.NextLevel | scripts/generate_merkle_vectors.py:14-27 | one pass turns a level of chunks into the level of chunks twice as wide, odd chunk carried, with the target's path extended accordingly |
| Commitment.ParseEncoded | pkg/proof/commitment/commitment.go:145-156 | parsing an encoded supported witness returns it |
| Commitment.EncodeParsed | pkg/proof/commitment/commitment.go:145-156 | an accepted preimage is exactly the encoding of what it parsed to |
| Commitment.EncodeInjective | pkg/proof/commitment/commitment.go:48-77 | different supported witnesses have different preimages |
| Commitment.HashDocumentExact | pkg/proof/commitment/commitment.go:123-141 | a document hashes exactly when it is read to its end within a legal limit, and then to its own digest |
| Batch.New | pkg/proof/batch/manifest.go:56-67 | manifests exist for 1 to 65536 commitments and carry their count and root; other counts are rejected |
| Batch.MarshalBinary | pkg/proof/batch/manifest.go:71-81 | the filled buffer is the manifest's 61-byte encoding, or the failing check's error |
| Batch.ParseEncoded | pkg/proof/batch/manifest.go:85-98 | parsing an encoded valid manifest returns it |
| Batch.EncodeParsed | pkg/proof/batch/manifest.go:85-98 | accepted bytes are exactly the encoding of a valid manifest |
| Batch.Verify | pkg/proof/batch/manifest.go:113-118 | true exactly when the manifest is valid and the inclusion statement holds for its size and root |
| Package.PathLength | pkg/proof/package.go:34-47 | the top-down loop computes the tree's depth of every position |
| Package.MarshalBinary | pkg/proof/package.go:50-77 | the buffer filled in place is the specified layout, or the first failing check's error |
| Package.ParseBinary | pkg/proof/package.go:81-123 | the step-by-step parser agrees with the specification on every byte string, errors included |
| Package.ParseMarshalled | pkg/proof/package.go:50-123 | a package can be written exactly when its parts are valid and its path has the right length, and is read back unchanged |
| Package.WrittenBytes | pkg/proof/package.go:50-77 | every byte of a written package: offsets, constants and order of all fields of the package, the nested preimage, the nested manifest and the siblings |
| Package.MarshalParsed | pkg/proof/package.go:50-123 | every accepted byte string is exactly what its package is written as |
| Package.InnerFailures | pkg/proof/package.go:97-110 | past the unsupported-field screen the inner parsers fail exactly on their domain bytes or the manifest size |
| Package.CreatedIsWritable | pkg/proof/package.go:140-150 | a locally created package can be written, is included under its own manifest, and matches its document |
| Package.CreatedExact | pkg/proof/package.go:140-150 | a package is created exactly for a legal representation and a document read whole, and is then the single leaf of its own tree, with exactly that witness |
| Verifier.Verify | pkg/proof/verify.go:49-78 | the report equals three separate judgements, document and inclusion both made once the package parses, and the anchor never verified |
| Verifier.AssessExact | pkg/proof/verify.go:49-78 | format is verified exactly for the written bytes of some package, unsupported exactly for framed bytes of an unknown profile, failed otherwise; document and inclusion are judged only then, each verified or failed exactly as it holds |
| Verifier.ReadMarshalled | pkg/proof/package.go:127-136 | reading the written bytes of a package returns it |
| Verifier.WholePackageBinds | pkg/proof/verify.go:43-78 | two fully verified pairs with the same manifest bytes and index are the same package and document, or a collision is computed |
| Encoding.SequenceKeyOrder | internal/storage/store.go:159-163 | big-endian sequence keys compare bytewise exactly like the numbers |
| Encoding.CursorKeysUnique | internal/storage/store.go:525-527 | a sorted listing of a bucket's keys is the order its cursor visits them in |
| Encoding.HexDigitsAt | integrations/paperless/agent/planner.go:89 | each byte is written as its high and then its low lower-case digit |
| Utf8.TextExact | internal/storage/store.go:146-148 | acceptable texts are exactly the strings of 1 to 256 bytes that encode Unicode scalar values other than zero |
| Storage.NewIDExact | internal/storage/store.go:171-182 | there is a new ID exactly when some drawn ID is free, and it is the first free one |
| StoreObject.DrawID | internal/storage/store.go:171-182 | IDs are drawn until one is free; the random source may fail first |
| StoreObject.Store.Ingest | internal/storage/store.go:270-288 | new state and result are those of the ingestion transaction, in every state |
| StoreObject.Store.Find | internal/storage/store.go:329-359 | the lookup by key, else by source, with its conflict and error cases |
| StoreObject.Store.IngestDocument | internal/storage/store.go:293-327 | the undisturbed call is the composition of its protocol steps, whose exact answers are FirstStep to SecondLook |
| StoreObject.Store.Freeze | internal/storage/store.go:494-581 | cursor selection, member binding and the single commit equal the freeze transaction, whose whole effect is FreezeEffect |
| StoreObject.Store.SelectPending | internal/storage/store.go:525-542 | the cursor loop collects the oldest pending evidence or stops at the first inconsistency |
| StoreObject.Store.BindMembers | internal/storage/store.go:559-568 | the member loop rebinds, unqueues and lists exactly the members in order |
| StoreObject.Store.RecordSubmission | internal/storage/store.go:455-489 | state, reference and outbox entry change together in one commit, whose whole effect is RecordEffect |
| StoreObject.Store.Outbox | internal/storage/store.go:585-612 | the listing loop, with its consistency checks |
| StoreObject.Store.UnanchoredPackage | internal/storage/store.go:616-673 | export with all its consistency checks |
| StoreEffects.IngestEffect | internal/storage/store.go:270-410 | in a sound store: the evidence the key, else the source, names is returned or conflicts; else one new piece of pending evidence with the next number appears in all four indexes, unless no drawn ID is free or no number is left; nothing else changes |
| StoreEffects.FreezeEffect | internal/storage/store.go:494-581 | in a sound store: each answer of a freeze has its exact condition; under a new key the batch holds the oldest min(limit, pending) evidence in order, each member names the batch and its place, their pending keys are gone, the batch is under its key and in the outbox, and nothing else changes |
| StoreEffects.RecordEffect | internal/storage/store.go:455-489 | in a sound store: success exactly when the batch exists and does not regress; the store then holds it with the asked state and reference, in the outbox exactly when not submitted, and nothing else changes |
| StoreEffects.OutboxEffect | internal/storage/store.go:585-612 | in a sound store: the answer is the first unsubmitted batches in ID order, up to the limit, each as stored |
| StoreEffects.ExportEffect | internal/storage/store.go:616-673 | in a sound store: each answer of an export has its exact condition, and the package carries the stored witness, place and manifest, with a path from one to the other |
| FailClosed.BatchLoads | internal/storage/store.go:243-256 | in every state: a batch loads exactly when stored and sound, its manifest counting its members |
| FailClosed.FindSound | internal/storage/store.go:329-359 | in every state: a lookup finds only sound evidence of the asked source, named by the key or else by the source |
| FailClosed.IngestSound | internal/storage/store.go:361-385 | in every state: known evidence is returned only if sound and of the very same source and witness |
| FailClosed.FreezeSound | internal/storage/store.go:525-568 | in every state: a freeze takes only sound unbatched evidence from the pending keys of its own sequence numbers |
| FailClosed.OutboxSound | internal/storage/store.go:596-612 | in every state: only sound batches are listed, with the manifest that outbox and batch agree on |
| FailClosed.ExportSound | internal/storage/store.go:616-673 | in every state, corrupt ones included: an export that succeeds is a writable package whose commitment is included under its own manifest, of a sound batch whose members all point back at their places |
| StoreInvariant.IngestKeepsInv | internal/storage/store.go:361-410 | every successful ingestion keeps the whole invariant |
| StoreInvariant.RecordKeepsInv | internal/storage/store.go:455-489 | recording a submission keeps the invariant with the same ledger |
| FreezeInvariant.OldestIsQueue | internal/storage/store.go:523-542 | in a sound state the cursor yields exactly the oldest pending evidence in sequence order, never an inconsistency |
| FreezeInvariant.FreezeOutcome | internal/storage/store.go:510-581 | outcome of a freeze in a sound state: stored batch or conflict for a known key; otherwise empty, no ID, or the oldest pending members |
| FreezeInvariant.FreezeKeepsInv | internal/storage/store.go:510-581 | every successful freeze keeps the whole invariant |
| StoreRuns.ReachableValid | internal/storage/store.go:361-581 | every tenant of every state reachable from the empty store satisfies the invariant: sequences 1..N, batches cutting 1..F into intervals within their limits, pending F+1..N, members pointing back, indexes, request keys and outbox in agreement |
| StoreRuns.RunKeeps | internal/storage/store.go:361-581 | over any run evidence identity, order and content, batch limit, members and manifest, and all key and source entries never change, and submitted is final |
| StoreRuns.FifoConservation | internal/storage/store.go:510-581 | the batches in freeze order, concatenated, are exactly the oldest evidence in sequence order |
| StoreRuns.LedgerUnique | internal/storage/store.go:361-581 | the history a sound state stands for is determined by the state |
| StoreOutcomes.IngestOutcome | internal/storage/store.go:361-410 | known evidence is returned or conflicts by source and witness; new evidence is added unless no ID or no sequence number is left |
| StoreOutcomes.OutboxOutcome | internal/storage/store.go:585-612 | the outbox lists, in ID order up to the limit, exactly the unsubmitted batches with their own manifests |
| StoreOutcomes.ExportOutcome | internal/storage/store.go:616-673 | export succeeds exactly for batched evidence, with its own witness, manifest, index and path |
| StoreOutcomes.ExportVerifies | internal/storage/store.go:616-673 | exported packages are written and read back unchanged, and verify fully for exactly the documents within the limit that have the recorded digest |
| StoreOutcomes.NothingCorrupt | internal/storage/store.go:230-256 | no operation on a sound state, and no step of a document ingestion wherever it stands, reports corruption, except a new ingestion when all sequence numbers are used |
| StoreOutcomes.FreezeRetryStable | internal/storage/store.go:515-524 | after any later actions the same request key and limit return the same batch and change nothing, and another limit conflicts |
| StoreOutcomes.DistinctKeysDisjoint | internal/storage/store.go:510-581 | batches frozen under different request keys share no member |
| Ingestion.Course | internal/storage/store.go:293-327 | the order of the steps of an undisturbed ingestion and which of them end it |
| IngestionOutcomes.FirstStep | internal/storage/store.go:293-313 | the first step: invalid, missed, conflict or the recorded evidence, each exactly in its own case |
| IngestionOutcomes.HashStep | internal/storage/store.go:314-315 | the second step makes exactly the witness of the whole document with the fresh nonce, or rejects a document that cannot be read |
| IngestionOutcomes.IngestStepExact | internal/storage/store.go:316-326 | the third step creates exactly when nothing is known, an ID is free and a number is left; otherwise each answer has its exact condition |
| IngestionOutcomes.SecondLook | internal/storage/store.go:317-325 | after a lost race nothing changes, and the answer is a conflict exactly when the request clashes, else the evidence recorded under its own source, not created |
| IngestionOutcomes.AloneExact | internal/storage/store.go:293-327 | the complete outcome of an undisturbed call, with the whole change of the store |
| IngestionOutcomes.AnswersExplained | internal/storage/store.go:293-327 | in any interleaving every answer was given on one of the call's own turns for exactly the reason that held at that moment; no ID, for instance, only if nothing was known and every drawn ID was taken |
| IngestionOutcomes.FourTurnsAnswer | internal/storage/store.go:293-327 | whatever the other calls do, a call has answered after four turns of its own |
| IngestionOutcomes.ConcurrentIngestSafe | internal/storage/store.go:293-359 | for every interleaving, from any sound store: one evidence ID per tenant, source and representation, each with its own document's digest, at most one created, no vanished conflict, every answer given for exactly the reason that held on its turn, and a store that only grows |
| ConcurrentIngestion.AloneOutcome | internal/storage/store.go:293-327 | an undisturbed call conflicts exactly when its key names another source or its source another (or unreadable) document, and creates exactly when nothing is known |
| ConcurrentIngestion.KeyNamedByStep | internal/storage/store.go:301-325 | whichever step a call succeeds on, its key then names the returned evidence exactly if that step was the ingestion or the key was already known: neither retry branch persists an alias |
| ConcurrentIngestion.KeyNamedInterleaved | internal/storage/store.go:301-325 | the same at any point of any interleaving, and a key that names the evidence then names it ever after |
| ConcurrentIngestion.KeyNamedExactly | internal/storage/store.go:301-309 | for an undisturbed call: after success the key names the returned evidence, except exactly when source alone was known before |
| ConcurrentIngestion.AliasNotPersisted | internal/storage/store.go:301-309 | a second key for one document returns the same evidence and stays unbound |
| ConcurrentRetries.RetriesNeverConflict | internal/storage/store.go:290-327 | from any sound store, beside any other calls and actions, a call with a readable document whose key and source are not taken otherwise, and are used by others only for its source and document, never conflicts: it returns the evidence of its document, or was invalid, or found every drawn ID taken, or no number left |
| EndToEnd.IngestedDocumentVerifies | internal/storage/store.go:293-673 | from the empty store, across any interleaving and any later actions, evidence a call returned exports once batched as bytes that verify for exactly the documents with the ingested digest |
| Planner.IsWritebackOnly | integrations/paperless/agent/planner.go:92-106 | true exactly when both lists are non-empty and every changed field is, trimmed, an evidence field |
| Planner.ComputeStableKey | integrations/paperless/agent/planner.go:83-90 | feeding the hasher part by part gives the key of the framed parts |
| Planner.PlanIngest | integrations/paperless/agent/planner.go:45-70 | the plan or rejection of every event; the suffix check of the source version never fails |
| Planner.PlanExact | integrations/paperless/agent/planner.go:45-106 | skipped exactly when all changes are evidence fields; otherwise planned exactly when acceptable, under the hexadecimal hash of the framed identity and the prefixed source tuple, an original as byte 1 and an archive as byte 2 |
| Planner.FrameInjective | integrations/paperless/agent/planner.go:83-90 | framing NUL-free parts is injective for any number of parts |
| Planner.FrameAmbiguous | integrations/paperless/agent/planner.go:83-90 | without the NUL check two lists of parts share a frame |
| Planner.SourceInjective | integrations/paperless/agent/planner.go:56-60 | source tuples are equal exactly when instance, document, version and representation are |
| Planner.KeyInjective | integrations/paperless/agent/planner.go:61 | equal stable keys mean six equal fields, or the frames are a collision |
| Runner.HandleEvent | integrations/paperless/agent/runner.go:58-110 | handling one event: every early exit in order, then the ingestion of exactly the fetched bytes |
| AgentOutcomes.HandleExact | integrations/paperless/agent/runner.go:58-126 | each early end has its exact condition on event, configuration and fetched answer and leaves the store alone; a document of another version is never stored; otherwise exactly the fetched bytes are ingested |
| AgentOutcomes.StoredIsFetched | integrations/paperless/agent/runner.go:98-109 | the returned ID is recorded for the event's own source with the digest of exactly the fetched bytes |
| Runner.RequestValid | integrations/paperless/agent/runner.go:98-105 | what the agent sends is always a valid request whose document hashes |
| AgentRuns.ConflictExplained | integrations/paperless/agent/runner.go:58-110 | handled one at a time: a conflict means an earlier event, not skipped, named the same paper with other bytes, or exhibits a collision |
| ConcurrentAgent.ConcurrentConflictExplained | integrations/paperless/agent/runner.go:58-110 | the same for any number of events handled at once, their ingestions interleaved step by step with each other, freezes and submissions |
| ConcurrentAgent.ConcurrentReplay | integrations/paperless/agent/runner.go:58-110 | an event handled again after its document was stored, amid anything else at once, returns the same evidence as existing, or exhibits a collision |
| Reconciler.Run | integrations/paperless/agent/reconcile.go:39-78 | items are the events' own results in order, each counter counts its kind, and processed equals their sum and the number of events |
| AgentOutcomes.PassRecords | integrations/paperless/agent/reconcile.go:54-77 | each item tells its own event's outcome, and the ID of a stored one is recorded, in the store the pass leaves, for that event's source and fetched bytes |
| Reconciler.ReplayAnywhere | integrations/paperless/agent/reconcile.go:54-77 | an event handled twice, with any events, freezes and submissions between: skipped stays skipped, stored is found again with the same ID or a collision is exhibited, and it is created only if no ID could be drawn the first time |
| Reconciler.ReplayPass | integrations/paperless/agent/reconcile.go:54-77 | the same for every item of a second uninterrupted pass over the same events |

## Left out

- Opening the database, file permissions, the process lock, the schema marker and bbolt itself: buckets are maps with
  sorted cursors, and write transactions are serial and all-or-nothing.
- JSON record encoding and its 128 KiB cap: records are typed values, and the source index key is the tuple itself.
- Reading single records (`Evidence`, `Batch`): plain lookups through the modelled loaders; defensive copies of returned
  slices have no counterpart, because values are immutable here.
- The local digest of a manifest: one hash of the modelled bytes.
- SHA-256 itself, randomness quality and constant-time comparison.
- Error texts, report reasons and plan reasons: errors are kinds, statuses are kept.
- The HTTP server, command line, webhook and HTTP fetcher, and closing of fetched readers.
- The other vector generators and the release scripts: they repeat the modelled layouts or are build tooling.
- StoreObject.Store.Freeze: the error branches of building and encoding the manifest are not written, since 1 to 1024 members never reach them; the members' commitments are computed after the selection loop instead of inside it.
- StoreObject.Store.IngestDocument: the class method cannot be interrupted; interleaving is proved over the same steps in ConcurrentIngestion.
- IngestionOutcomes.ConcurrentIngestSafe: uniqueness is over tenant, source and representation, not over the key alone, because a call that finds evidence by source leaves its key unbound.
- Reconciler.ReplayPass: nothing else runs during a pass, only between the passes; `ReplayAnywhere` allows other steps between items, and `ConcurrentAgent.ConcurrentReplay` other calls in the middle of one. The fetcher is assumed to answer both passes alike; with a fetcher that changes its answers the second pass may rightly differ.
- AgentRuns.ConflictExplained: each handling is one atomic step here; `ConcurrentAgent.ConcurrentConflictExplained` interleaves the ingestions.
- Anchors, policies, event chains and renewal: described by the drafts, not implemented.
