/** Every state, corrupt ones included: an operation that succeeds has met only sound and consistent records. */
module FailClosed {
  import opened Prelude
  import opened Encoding
  import opened Storage
  import opened StoreInvariant
  import opened Ingestion
  import FreezeInvariant
  import Merkle
  import Commitment
  import Batch
  import Package
  import Verifier

  // ---------- Records ----------

  /** Evidence is loaded exactly when it is stored and sound; unsound evidence is corrupt, never missing. */
  lemma EvidenceLoads(t: Tenant, id: bytes)
    ensures var r := LoadEvidence(t, id);
            && (r == Failure(NotFound) <==> id !in t.evidence)
            && (r == Failure(Corrupt) <==> id in t.evidence && !GoodEvidence(id, t.evidence[id]))
            && (r.Success? <==> id in t.evidence && GoodEvidence(id, t.evidence[id]))
            && (r.Success? ==> r.value == t.evidence[id])
  {
  }

  /** A batch record that stands for itself: its manifest is the manifest of as many members, within its limit. */
  ghost predicate SoundBatch(id: bytes, b: FrozenBatch) {
    && b.id == id && ValidID(id) && 1 <= b.limit <= MAX_BATCH_ENTRIES && |b.evidenceIds| <= b.limit
    && b.state in {Unset, NotSubmitted, Unknown, Submitted} && ValidRef(b.ref)
    && exists m :: Batch.Valid(m) && b.manifest == Batch.Encode(m) && m.size == |b.evidenceIds|
  }

  /** A batch is loaded exactly when it is stored and sound, an absent state as not submitted. */
  lemma BatchLoads(t: Tenant, id: bytes)
    ensures var r := LoadBatch(t, id);
            && (r == Failure(NotFound) <==> id !in t.batches)
            && (r == Failure(Corrupt) <==> id in t.batches && !SoundBatch(id, t.batches[id]))
            && (r.Success? <==> id in t.batches && SoundBatch(id, t.batches[id]))
            && (r.Success? ==>
                  var stored := t.batches[id];
                  r.value == if stored.state == Unset then stored.(state := NotSubmitted) else stored)
  {
    hide Batch.Parse, Batch.Encode, ValidID, ValidRef, ValidText;
    if id in t.batches {
      var b := t.batches[id];
      if Batch.Parse(b.manifest).Success? { Batch.EncodeParsed(b.manifest); }
      forall m | Batch.Valid(m) && b.manifest == Batch.Encode(m) ensures Batch.Parse(b.manifest) == Success(m) {
        Batch.ParseEncoded(m);
      }
    }
  }

  // ---------- Operations ----------

  /** A lookup finds only sound evidence of the source that was asked for. */
  lemma FindSound(db: Db, tenant: bytes, key: bytes, sk: SourceKey)
    requires Find(db, tenant, key, sk).Success? && Find(db, tenant, key, sk).value.Some?
    ensures var e := Find(db, tenant, key, sk).value.value;
            && tenant in db && e.id in db[tenant].evidence && e == db[tenant].evidence[e.id]
            && GoodEvidence(e.id, e) && KeyOf(e) == sk
            && (key in db[tenant].keys ==> db[tenant].keys[key] == e.id)
            && (key !in db[tenant].keys ==> sk in db[tenant].sources && db[tenant].sources[sk] == e.id)
  {
    hide ValidID, ValidSource, Commitment.Encode;
  }

  /** A document ingestion passes the error of a failed lookup on, and its answers are evidence that a lookup found or
      the ingestion itself returned. */
  lemma LookupErrorsPassOn(db: Db, req: DocumentRequest, s: Status, nonce: Hash, draws: seq<Draw>)
    requires ValidRequest(req) && (s.Started? || s.Conflicted?)
    ensures var r, (db', s') := Find(db, req.tenant, req.key, Key(req)), Step(db, req, s, nonce, draws);
            && db' == db
            && (r.Failure? ==> s' == Returned(Failure(r.error)))
            && (s'.Returned? && s'.outcome.Success? ==> r == Success(Some(s'.outcome.value.0)) && !s'.outcome.value.1)
  {
    hide ValidRequest, Find, Commitment.Verify;
  }

  /** An ingestion returns known evidence only if it is sound and has the very same source and witness. */
  lemma IngestSound(db: Db, req: IngestRequest, draws: seq<Draw>)
    requires var r := Ingest(db, req, draws).1; r.Success? && !r.value.1
    ensures var e := Ingest(db, req, draws).1.value.0;
            && req.tenant in db && e.id in db[req.tenant].evidence && e == db[req.tenant].evidence[e.id]
            && GoodEvidence(e.id, e) && e.source == req.source && e.wit == req.wit
  {
    hide ValidID, ValidSource, ValidText, Commitment.Encode, NewID;
  }

  /** A freeze takes only sound, unbatched evidence, each piece from the pending key of its own sequence number, and the
      manifest it stores is that of the members' commitments. */
  lemma FreezeSound(db: Db, tenant: bytes, key: bytes, limit: int, draws: seq<Draw>)
    requires Freeze(db, tenant, key, limit, draws).1.Success? && tenant in db && key !in db[tenant].batchKeys
    ensures var t, b := db[tenant], Freeze(db, tenant, key, limit, draws).1.value;
            var ks := CursorKeys(t.pending.Keys);
            && 1 <= |b.evidenceIds| <= limit && |b.evidenceIds| <= |ks|
            && (forall i :: 0 <= i < |b.evidenceIds| ==> Queued(t, ks[i], b.evidenceIds[i]))
            && |b.evidenceIds| < U64_LIMIT
            && b.manifest == Batch.Encode(Batch.Of(Entries(t.evidence, b.evidenceIds)))
  {
    hide TryAll, PendingAt, NewID, ValidText, Batch.Encode, Batch.Of, CursorKeys, Entries, IDs, Commitments, Bind,
      SequenceKeys;
    var t := db[tenant];
    var ks := CursorKeys(t.pending.Keys);
    var members := Oldest(t, limit).value;
    forall i | 0 <= i < |members|
      ensures members[i].id in t.evidence && members[i] == t.evidence[members[i].id]
      ensures Queued(t, ks[i], members[i].id)
    {
      assert PendingAt(t, ks)(i) == Success(members[i]);
      QueuedAt(t, ks, i);
    }
    FreezeInvariant.CommitmentsAreEntries(t.evidence, members);
  }

  /** The pending key is that of the evidence's own sequence number, and the evidence is sound and in no batch. */
  predicate Queued(t: Tenant, key: bytes, id: bytes) {
    && key in t.pending && t.pending[key] == id && id in t.evidence && GoodEvidence(id, t.evidence[id])
    && key == BigEndian64(t.evidence[id].sequence) && t.evidence[id].batchId == []
  }

  lemma QueuedAt(t: Tenant, ks: seq<bytes>, i: nat)
    requires i < |ks| && PendingAt(t, ks)(i).Success?
    ensures var e := PendingAt(t, ks)(i).value;
            e.id in t.evidence && e == t.evidence[e.id] && Queued(t, ks[i], e.id)
  {
    hide BigEndian64, ValidID, ValidSource, Commitment.Encode;
  }

  /** The outbox lists only sound batches, each with the manifest that both the outbox and the batch store. */
  lemma OutboxSound(db: Db, tenant: bytes, limit: int, i: nat)
    requires Outbox(db, tenant, limit).Success? && i < |Outbox(db, tenant, limit).value|
    ensures var item := Outbox(db, tenant, limit).value[i];
            && tenant in db && item.batchId in db[tenant].outbox && item.batchId in db[tenant].batches
            && var t := db[tenant];
               && SoundBatch(item.batchId, t.batches[item.batchId])
               && item.manifest == t.outbox[item.batchId] == t.batches[item.batchId].manifest
               && item.state in {NotSubmitted, Unknown, Submitted}
  {
    hide TryAll, ValidText, LoadBatch, CursorKeys, SoundBatch;
    var t := db[tenant];
    var ks := CursorKeys(t.outbox.Keys);
    assert OutboxAt(t, ks)(i) == Success(Outbox(db, tenant, limit).value[i]);
    BatchLoads(t, ks[i]);
  }

  /** Whatever the state, an export that succeeds is a writable package of the stored witness, whose commitment is
      included under its own manifest; the batch is sound, and each of its members points back at its place in it. */
  lemma ExportSound(db: Db, tenant: bytes, id: bytes)
    requires UnanchoredPackage(db, tenant, id).Success?
    ensures var p := UnanchoredPackage(db, tenant, id).value;
            && Package.Writable(p) && Verifier.Included(p)
            && tenant in db && id in db[tenant].evidence
            && var t, e := db[tenant], db[tenant].evidence[id];
               && GoodEvidence(id, e) && p.wit == e.wit && p.index == e.index
               && e.batchId in t.batches && SoundBatch(e.batchId, t.batches[e.batchId])
               && PointsBack(t, t.batches[e.batchId]) && p.manifest.size == |t.batches[e.batchId].evidenceIds|
               && t.batches[e.batchId].evidenceIds[e.index] == id
               && t.batches[e.batchId].manifest == Batch.Encode(p.manifest)
  {
    hide LoadEvidence, LoadBatch, TryAll, Batch.Parse, Batch.Encode, ValidText, ValidID, ValidSource, Merkle.Root,
      Merkle.Siblings, Merkle.Depth, Merkle.Climb, Commitment.Encode, SoundBatch, GoodEvidence, EntryAt;
    var t := db[tenant];
    EvidenceLoads(t, id);
    var e := t.evidence[id];
    BatchLoads(t, e.batchId);
    var b := LoadBatch(t, e.batchId).value;
    var entries := TryAll(EntryAt(t, b), |b.evidenceIds|).value;
    EntriesPointBack(t, b, entries);
    Batch.EncodeParsed(b.manifest);
    SizeIsCount(t, e.batchId, b);
    Merkle.SiblingCount(entries, e.index);
    Merkle.InclusionComplete(entries, e.index);
    GoodIsSupported(id, e);
    CommitIs(e.wit);
  }

  /** Each member is sound and names the batch and its own place in it. */
  predicate PointsBack(t: Tenant, b: FrozenBatch) {
    forall i :: 0 <= i < |b.evidenceIds| ==>
      && b.evidenceIds[i] in t.evidence && GoodEvidence(b.evidenceIds[i], t.evidence[b.evidenceIds[i]])
      && t.evidence[b.evidenceIds[i]].batchId == b.id && t.evidence[b.evidenceIds[i]].index == i
  }

  lemma EntriesPointBack(t: Tenant, b: FrozenBatch, entries: seq<bytes>)
    requires |entries| == |b.evidenceIds|
    requires forall i :: 0 <= i < |entries| ==> EntryAt(t, b)(i) == Success(entries[i])
    ensures PointsBack(t, b)
    ensures forall i :: 0 <= i < |entries| ==>
              b.evidenceIds[i] in t.evidence && entries[i] == CommitmentOf(t.evidence[b.evidenceIds[i]].wit)
  {
    hide LoadEvidence, GoodEvidence, CommitmentOf;
    forall i | 0 <= i < |entries|
      ensures b.evidenceIds[i] in t.evidence && GoodEvidence(b.evidenceIds[i], t.evidence[b.evidenceIds[i]])
      ensures t.evidence[b.evidenceIds[i]].batchId == b.id && t.evidence[b.evidenceIds[i]].index == i
      ensures entries[i] == CommitmentOf(t.evidence[b.evidenceIds[i]].wit)
    {
      assert EntryAt(t, b)(i) == Success(entries[i]);
      EvidenceLoads(t, b.evidenceIds[i]);
    }
  }

  lemma SizeIsCount(t: Tenant, id: bytes, b: FrozenBatch)
    requires LoadBatch(t, id) == Success(b)
    ensures Batch.Parse(b.manifest).Success?
    ensures Batch.Parse(b.manifest).value.size == |b.evidenceIds| <= MAX_BATCH_ENTRIES
  {
    hide Batch.Parse, ValidID, ValidRef, ValidState;
  }

  lemma GoodIsSupported(id: bytes, e: Evidence)
    requires GoodEvidence(id, e)
    ensures Commitment.Supported(e.wit)
  {
  }

  lemma CommitIs(w: Commitment.Witness)
    requires Commitment.Supported(w)
    ensures CommitmentOf(w) == Commitment.Commit(w)
  {
  }
}
