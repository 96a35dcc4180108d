/** What operations return in reachable states: exports verify, retries are stable, nothing is found corrupt. */
module StoreOutcomes {
  import opened Prelude
  import opened Encoding
  import opened Storage
  import opened StoreInvariant
  import opened StoreRuns
  import opened Ingestion
  import FreezeInvariant
  import Merkle
  import Commitment
  import Batch
  import Package
  import Verifier

  // ---------- Single transactions ----------

  /** The only corrupt outcome of an ingestion in a valid state is a used-up sequence counter. */
  lemma IngestOutcome(t: Tenant, l: Ledger, req: IngestRequest, draws: seq<Draw>)
    requires Inv(t, l)
    ensures var r, sk := TxIngest(t, req, draws), SourceKey(req.source, req.wit.representation);
            match KnownID(t, req.key, sk)
            case Some(id) =>
              && id in t.evidence
              && var e := t.evidence[id];
                 r == if e.source == req.source && e.wit == req.wit
                      then Success((t.(keys := t.keys[req.key := id]), e, false)) else Failure(Conflict)
            case None =>
              && (r == Failure(Corrupt) <==> NewID(t.evidence.Keys, draws).Some? && t.counter == U64_LIMIT - 1)
              && (r == Failure(Entropy) <==> NewID(t.evidence.Keys, draws).None?)
              && (r.Success? <==> NewID(t.evidence.Keys, draws).Some? && t.counter < U64_LIMIT - 1)
              && (r.Success? ==>
                    var id := NewID(t.evidence.Keys, draws).value;
                    r.value == (AddEvidence(t, req, id, t.counter + 1), NewEvidence(req, id, t.counter + 1), true))
  {
    hide ShapeInv, PendingInv, MemberInv, BatchInv, RequestInv, OutboxInv, LoadEvidence, BigEndian64, EvidenceInv;
    match KnownID(t, req.key, SourceKey(req.source, req.wit.representation)) {
      case Some(id) => LoadsEvidence(t, l, id);
      case None =>
    }
  }

  lemma RecordOutcome(t: Tenant, l: Ledger, id: bytes, state: SubmissionState, ref: bytes)
    requires Inv(t, l)
    ensures var r := TxRecord(t, id, state, ref);
            if id !in t.batches then r == Failure(NotFound)
            else if t.batches[id].state == Submitted && state != Submitted then r == Failure(Conflict)
            else var b := t.batches[id].(state := state, ref := ref); r == Success((SetSubmission(t, b), b))
  {
    hide ShapeInv, PendingInv, MemberInv, BatchInv, RequestInv, OutboxInv, LoadBatch, EvidenceInv, SetSubmission;
    LoadsBatch(t, l, id);
  }

  /** The outbox lists, in ID order, the unsubmitted batches with their exact manifests. */
  function Listing(t: Tenant, n: nat): (items: seq<Submission>)
    requires OutboxComplete(t) && n <= |CursorKeys(t.outbox.Keys)|
    ensures |items| == n
  {
    var ks := CursorKeys(t.outbox.Keys);
    seq(n, i requires 0 <= i < n =>
      assert ks[i] in ks; var b := t.batches[ks[i]]; Submission(ks[i], b.manifest, b.state, b.ref))
  }

  predicate OutboxComplete(t: Tenant) {
    forall id :: id in t.outbox ==> id in t.batches
  }

  lemma OutboxOutcome(t: Tenant, l: Ledger, limit: nat)
    requires Inv(t, l)
    ensures OutboxComplete(t)
    ensures var size := |CursorKeys(t.outbox.Keys)|;
            TxOutbox(t, limit) == Success(Listing(t, if size < limit then size else limit))
  {
    hide ShapeInv, EvidenceInv, PendingInv, MemberInv, BatchInv, KeysInv, SourcesInv, RequestInv, TryAll,
      LoadBatch, CursorKeys;
    var ks := CursorKeys(t.outbox.Keys);
    var n := if |ks| < limit then |ks| else limit;
    forall i | 0 <= i < n ensures OutboxAt(t, ks)(i) == Success(Listing(t, n)[i]) {
      assert ks[i] in ks;
      LoadsBatch(t, l, ks[i]);
    }
    TryAllIs(OutboxAt(t, ks), Listing(t, n));
  }

  // ---------- Export ----------

  /** The package of evidence e as member of a batch with the given members. */
  function Exported(evidence: map<bytes, Evidence>, e: Evidence, members: seq<bytes>): Package.Package
    requires e.index < |members| < U64_LIMIT
  {
    var entries := Entries(evidence, members);
    Package.Package(e.wit, Batch.Of(entries), e.index, Merkle.Siblings(entries, e.index))
  }

  /** Batched evidence is the member of its batch that its own index names. */
  lemma MemberPlace(t: Tenant, l: Ledger, id: bytes) returns (members: seq<bytes>)
    requires Inv(t, l) && id in t.evidence && t.evidence[id].batchId != []
    ensures var e := t.evidence[id];
            && e.batchId in t.batches && GoodBatch(t.evidence, t.batches[e.batchId], e.batchId, members)
            && Bound(t.evidence, members, e.batchId) && e.index < |members| && members[e.index] == id
  {
    hide PendingInv, KeysInv, SourcesInv, RequestInv, OutboxInv, GoodBatch, EvidenceInv, MemberInv, Bound,
      Ledger.Members, Ledger.Batched;
    var j := BatchOf(t.evidence, l, id);
    members := l.Members(j);
  }

  lemma BatchOf(evidence: map<bytes, Evidence>, l: Ledger, id: bytes) returns (j: nat)
    requires ShapeInv(l) && EvidenceInv(evidence, l) && MemberInv(evidence, l)
    requires id in evidence && evidence[id].batchId != []
    ensures j < |l.frozen| && evidence[id].batchId == l.frozen[j] && Bound(evidence, l.Members(j), l.frozen[j])
    ensures evidence[id].index < |l.Members(j)| && l.Members(j)[evidence[id].index] == id
  {
    hide GoodEvidence;
    EvidencePlace(evidence, l, id);
    var k := evidence[id].sequence - 1;
    j := IntervalOf(l, k);
    assert l.Members(j)[k - l.cuts[j]] == id;
  }

  lemma EvidencePlace(evidence: map<bytes, Evidence>, l: Ledger, id: bytes)
    requires EvidenceInv(evidence, l) && id in evidence
    ensures 1 <= evidence[id].sequence <= |l.order| && l.order[evidence[id].sequence - 1] == id
  {
  }

  /** An export succeeds exactly for batched evidence, and then gives its own witness, manifest, index and path. */
  lemma ExportOutcome(t: Tenant, l: Ledger, id: bytes)
    requires Inv(t, l)
    ensures id !in t.evidence ==> TxExport(t, id) == Failure(NotFound)
    ensures id in t.evidence && t.evidence[id].batchId == [] ==> TxExport(t, id) == Failure(NotBatched)
    ensures id in t.evidence && t.evidence[id].batchId != [] ==>
            var e := t.evidence[id];
            && e.batchId in t.batches && e.index < |t.batches[e.batchId].evidenceIds| <= MAX_BATCH_ENTRIES
            && t.batches[e.batchId].evidenceIds[e.index] == id
            && TxExport(t, id) == Success(Exported(t.evidence, e, t.batches[e.batchId].evidenceIds))
  {
    hide ShapeInv, EvidenceInv, PendingInv, MemberInv, BatchInv, KeysInv, SourcesInv, RequestInv, OutboxInv;
    hide LoadEvidence, LoadBatch, TryAll, Batch.Parse, Batch.Encode, Bound, Entries, EntryAt, ValidID,
      ValidState, ValidRef, Exported;
    LoadsEvidence(t, l, id);
    if id in t.evidence && t.evidence[id].batchId != [] {
      var members := MemberPlace(t, l, id);
      var b := t.batches[t.evidence[id].batchId];
      GoodBatchLoads(t, b, b.id, members);
      EntriesLoad(t, l, b, members);
      Exports(t, t.evidence[id], b);
    } else {
      hide GoodBatch;
    }
  }

  lemma Exports(t: Tenant, e: Evidence, b: FrozenBatch)
    requires LoadEvidence(t, e.id) == Success(e) && e.batchId != [] && LoadBatch(t, e.batchId) == Success(b)
    requires e.index < |b.evidenceIds| < U64_LIMIT && b.evidenceIds[e.index] == e.id
    requires TryAll(EntryAt(t, b), |b.evidenceIds|) == Success(Entries(t.evidence, b.evidenceIds))
    requires Batch.Parse(b.manifest) == Success(Batch.Of(Entries(t.evidence, b.evidenceIds)))
    ensures TxExport(t, e.id) == Success(Exported(t.evidence, e, b.evidenceIds))
  {
    hide LoadEvidence, LoadBatch, TryAll, Batch.Parse, Entries, EntryAt, Merkle.Root, Merkle.Siblings;
  }

  lemma EntriesLoad(t: Tenant, l: Ledger, b: FrozenBatch, members: seq<bytes>)
    requires EvidenceInv(t.evidence, l) && b.evidenceIds == members && Bound(t.evidence, members, b.id)
    ensures TryAll(EntryAt(t, b), |members|) == Success(Entries(t.evidence, members))
  {
    hide EvidenceInv, LoadEvidence, TryAll;
    forall i | 0 <= i < |members| ensures EntryAt(t, b)(i) == Success(Entries(t.evidence, members)[i]) {
      LoadsEvidence(t, l, members[i]);
    }
    TryAllIs(EntryAt(t, b), Entries(t.evidence, members));
  }

  /** Every exported package can be written, and its commitment belongs to its manifest at its index. */
  lemma ExportedVerifies(evidence: map<bytes, Evidence>, e: Evidence, members: seq<bytes>)
    requires e.index < |members| <= MAX_BATCH_ENTRIES && members[e.index] in evidence && evidence[members[e.index]] == e
    requires Commitment.Supported(e.wit)
    ensures Package.Writable(Exported(evidence, e, members)) && Verifier.Included(Exported(evidence, e, members))
  {
    hide Commitment.Encode, Merkle.Root, Merkle.Siblings;
    var entries := Entries(evidence, members);
    Merkle.SiblingCount(entries, e.index);
    Merkle.InclusionComplete(entries, e.index);
    assert entries[e.index] == Commitment.Commit(e.wit);
  }

  lemma EvidenceIsGood(t: Tenant, l: Ledger, id: bytes)
    requires Inv(t, l) && id in t.evidence
    ensures ValidID(id) && Commitment.Supported(t.evidence[id].wit)
  {
  }

  /** The export of batched evidence succeeds, its package is written and read back unchanged, and the report is fully
      verified exactly for documents within the limit that have the recorded digest. */
  lemma ExportVerifies(db: Db, tenant: bytes, id: bytes, document: Reader, maxBytes: Int64)
    requires DbValid(db) && ValidText(tenant) && tenant in db
    requires id in db[tenant].evidence && db[tenant].evidence[id].batchId != []
    ensures var e := db[tenant].evidence[id];
            && ValidID(id)
            && UnanchoredPackage(db, tenant, id).Success?
            && var p := UnanchoredPackage(db, tenant, id).value;
               && p.wit == e.wit && p.index == e.index
               && Package.Marshal(p).Success?
               && Package.Parse(Package.Marshal(p).value) == Success(p)
               && var report := Verifier.Assess(Some(document), Some(Reader(Package.Marshal(p).value, false)),
                                                maxBytes);
                  && report.format == Verifier.Verified && report.inclusion == Verifier.Verified
                  && (Verifier.IntegrityVerified(report) <==>
                      && 0 <= maxBytes < MAX_INT64 && |document.content| <= maxBytes && !document.fails
                      && SHA256(document.content) == e.wit.documentDigest)
  {
    hide Inv, TxExport, Merkle.Siblings, Entries, Package.Marshal, Package.Parse, Package.Read,
      Commitment.Encode, Batch.Includes;
    var t, e := db[tenant], db[tenant].evidence[id];
    var l :| Inv(t, l);
    EvidenceIsGood(t, l, id);
    ExportOutcome(t, l, id);
    var members := t.batches[e.batchId].evidenceIds;
    ExportedVerifies(t.evidence, e, members);
    var p := Exported(t.evidence, e, members);
    Package.ParseMarshalled(p);
    Verifier.ReadMarshalled(p);
    Commitment.HashDocumentExact(Some(document), maxBytes, e.wit.documentDigest);
  }

  // ---------- Fail-closed checks ----------

  /** No operation on a reachable state, and no step of a document ingestion from wherever it stands, reports
      corruption, except an ingestion of new evidence when all 2^64 - 1 sequence numbers are used. */
  lemma NothingCorrupt(db: Db, tenant: bytes, key: bytes, sk: SourceKey, limit: int, id: bytes,
                       state: SubmissionState, ref: bytes, req: IngestRequest, draws: seq<Draw>,
                       call: DocumentRequest, s: Status, nonce: Hash)
    requires DbValid(db)
    ensures Freeze(db, tenant, key, limit, draws).1 != Failure(Corrupt)
    ensures RecordSubmission(db, tenant, id, state, ref).1 != Failure(Corrupt)
    ensures Outbox(db, tenant, limit) != Failure(Corrupt)
    ensures UnanchoredPackage(db, tenant, id) !in {Failure(Corrupt), Failure(BadPath)}
    ensures Find(db, tenant, key, sk) !in {Failure(Corrupt), Failure(NotFound)}
    ensures Ingest(db, req, draws).1 == Failure(Corrupt) <==>
            var t := TenantOf(db, req.tenant);
            && ValidIngest(req) && KnownID(t, req.key, SourceKey(req.source, req.wit.representation)).None?
            && NewID(t.evidence.Keys, draws).Some? && t.counter == U64_LIMIT - 1
    ensures !s.Returned? ==>
              (Step(db, call, s, nonce, draws).1 == Returned(Failure(Corrupt)) <==>
               s.Hashed? && Ingest(db, WithWitness(call, s.wit), draws).1 == Failure(Corrupt))
  {
    hide Freeze, RecordSubmission, Outbox, UnanchoredPackage, Find, Ingest, Step, Valid, NewID, ValidIngest, KnownID;
    StoreNotCorrupt(db, tenant, key, limit, id, state, ref, draws);
    FindNotCorrupt(db, tenant, key, sk);
    IngestCorrupt(db, req, draws);
    if !s.Returned? { StepCorrupt(db, call, s, nonce, draws); }
  }

  lemma StoreNotCorrupt(db: Db, tenant: bytes, key: bytes, limit: int, id: bytes,
                        state: SubmissionState, ref: bytes, draws: seq<Draw>)
    requires DbValid(db)
    ensures Freeze(db, tenant, key, limit, draws).1 != Failure(Corrupt)
    ensures RecordSubmission(db, tenant, id, state, ref).1 != Failure(Corrupt)
    ensures Outbox(db, tenant, limit) != Failure(Corrupt)
    ensures UnanchoredPackage(db, tenant, id) !in {Failure(Corrupt), Failure(BadPath)}
  {
    hide Inv, TxFreeze, TxRecord, TxOutbox, TxExport, Exported, Listing, ValidText, ValidID, ValidState, ValidRef,
      SetSubmission;
    if tenant in db {
      var l :| Inv(db[tenant], l);
      if 1 <= limit <= MAX_BATCH_ENTRIES {
        FreezeNotCorrupt(db[tenant], l, key, limit, draws);
        OutboxOutcome(db[tenant], l, limit);
      }
      RecordOutcome(db[tenant], l, id, state, ref);
      ExportOutcome(db[tenant], l, id);
    }
  }

  lemma FindNotCorrupt(db: Db, tenant: bytes, key: bytes, sk: SourceKey)
    requires DbValid(db)
    ensures Find(db, tenant, key, sk) !in {Failure(Corrupt), Failure(NotFound)}
  {
    hide Inv, LoadEvidence;
    if tenant in db {
      var l :| Inv(db[tenant], l);
      FindOutcome(db[tenant], l, key, sk);
    }
  }

  lemma StepCorrupt(db: Db, call: DocumentRequest, s: Status, nonce: Hash, draws: seq<Draw>)
    requires DbValid(db) && !s.Returned?
    ensures Step(db, call, s, nonce, draws).1 == Returned(Failure(Corrupt)) <==>
            s.Hashed? && Ingest(db, WithWitness(call, s.wit), draws).1 == Failure(Corrupt)
  {
    hide Find, Ingest, Valid, ValidRequest, Commitment.New, Commitment.Verify;
    FindNotCorrupt(db, call.tenant, call.key, Key(call));
  }

  lemma IngestCorrupt(db: Db, req: IngestRequest, draws: seq<Draw>)
    requires DbValid(db)
    ensures Ingest(db, req, draws).1 == Failure(Corrupt) <==>
            var t := TenantOf(db, req.tenant);
            && ValidIngest(req) && KnownID(t, req.key, SourceKey(req.source, req.wit.representation)).None?
            && NewID(t.evidence.Keys, draws).Some? && t.counter == U64_LIMIT - 1
  {
    hide Inv, TxIngest, NewID, ValidIngest;
    EmptyInv();
    assert Valid(TenantOf(db, req.tenant));
    var l :| Inv(TenantOf(db, req.tenant), l);
    IngestOutcome(TenantOf(db, req.tenant), l, req, draws);
  }

  lemma FreezeNotCorrupt(t: Tenant, l: Ledger, key: bytes, limit: int, draws: seq<Draw>)
    requires Inv(t, l) && 1 <= limit <= MAX_BATCH_ENTRIES
    ensures TxFreeze(t, key, limit, draws) != Failure(Corrupt)
  {
    hide Inv, TxFreeze, FreezeInvariant.Queue, NewBatch, BindBatch, NewID;
    FreezeInvariant.FreezeOutcome(t, l, key, limit, draws);
  }

  lemma FindOutcome(t: Tenant, l: Ledger, key: bytes, sk: SourceKey)
    requires Inv(t, l)
    ensures match KnownID(t, key, sk)
            case None => true
            case Some(id) =>
              LoadEvidence(t, id).Success? && id in t.evidence && LoadEvidence(t, id).value == t.evidence[id]
  {
    hide LoadEvidence, ShapeInv, EvidenceInv, PendingInv, MemberInv, BatchInv;
    if KnownID(t, key, sk).Some? { LoadsEvidence(t, l, KnownID(t, key, sk).value); }
  }

  // ---------- Retries ----------

  /** After a freeze under a request key, whatever happens next, the same key and limit return the same batch ID, limit,
      members and manifest and change nothing, and any other legal limit conflicts. */
  lemma FreezeRetryStable(db: Db, tenant: bytes, key: bytes, limit: int, draws: seq<Draw>,
                          actions: seq<Action>, limit': int, draws': seq<Draw>)
    requires DbValid(db) && Freeze(db, tenant, key, limit, draws).1.Success?
    requires 1 <= limit' <= MAX_BATCH_ENTRIES
    ensures var (db1, first) := Freeze(db, tenant, key, limit, draws);
            var db2 := Run(db1, actions);
            var (db3, again) := Freeze(db2, tenant, key, limit', draws');
            && db3 == db2
            && (limit' != limit ==> again == Failure(Conflict))
            && (limit' == limit ==> again.Success? && BatchKept(first.value, again.value))
  {
    hide Run, Valid, Freeze, BatchKept, Names, Extends, ValidText;
    var (db1, first) := Freeze(db, tenant, key, limit, draws);
    FreezeRecorded(db, tenant, key, limit, draws);
    FreezeThenRun(db, tenant, key, limit, draws, actions);
    RetryAt(db1, Run(db1, actions), tenant, key, first.value, limit', draws');
  }

  /** The store holds this batch under this request key. */
  predicate Names(db: Db, tenant: bytes, key: bytes, b: FrozenBatch) {
    && tenant in db && key in db[tenant].batchKeys && db[tenant].batchKeys[key] in db[tenant].batches
    && db[tenant].batches[db[tenant].batchKeys[key]] == b
  }

  lemma FreezeThenRun(db: Db, tenant: bytes, key: bytes, limit: int, draws: seq<Draw>, actions: seq<Action>)
    requires DbValid(db)
    ensures var db1 := Freeze(db, tenant, key, limit, draws).0;
            DbValid(Run(db1, actions)) && DbExtends(db1, Run(db1, actions))
  {
    hide Run, Valid, Freeze, Extends;
    ApplyStep(db, DoFreeze(tenant, key, limit, draws));
    RunKeeps(Freeze(db, tenant, key, limit, draws).0, actions);
  }

  lemma RetryAt(db1: Db, db2: Db, tenant: bytes, key: bytes, first: FrozenBatch, limit: int, draws: seq<Draw>)
    requires DbValid(db2) && DbExtends(db1, db2) && 1 <= limit <= MAX_BATCH_ENTRIES && ValidText(tenant)
             && ValidText(key)
    requires Names(db1, tenant, key, first)
    ensures var (db3, again) := Freeze(db2, tenant, key, limit, draws);
            && db3 == db2
            && (limit != first.limit ==> again == Failure(Conflict))
            && (limit == first.limit ==> again.Success? && BatchKept(first, again.value))
  {
    hide Inv, TxFreeze, ValidText, BatchKept;
    var t2 := db2[tenant];
    assert Extends(db1[tenant], t2);
    var l :| Inv(t2, l);
    FreezeAgain(t2, l, key, first, limit, draws);
    assert db2[tenant := t2] == db2;
  }

  lemma FreezeAgain(t: Tenant, l: Ledger, key: bytes, first: FrozenBatch, limit: int, draws: seq<Draw>)
    requires Inv(t, l) && 1 <= limit <= MAX_BATCH_ENTRIES && key in t.batchKeys
    requires t.batchKeys[key] in t.batches && BatchKept(first, t.batches[t.batchKeys[key]])
    ensures TxFreeze(t, key, limit, draws)
            == if limit == first.limit then Success((t, t.batches[t.batchKeys[key]])) else Failure(Conflict)
  {
    hide Inv, TxFreeze;
    FreezeInvariant.FreezeOutcome(t, l, key, limit, draws);
  }

  /** A successful freeze leaves its batch recorded under the request key. */
  lemma FreezeRecorded(db: Db, tenant: bytes, key: bytes, limit: int, draws: seq<Draw>)
    requires DbValid(db) && Freeze(db, tenant, key, limit, draws).1.Success?
    ensures var (db1, first) := Freeze(db, tenant, key, limit, draws);
            && ValidText(tenant) && ValidText(key)
            && Names(db1, tenant, key, first.value) && first.value.limit == limit
  {
    hide Inv, TxFreeze, ValidText;
    var l :| Inv(db[tenant], l);
    FreezeLeaves(db[tenant], l, key, limit, draws);
  }

  lemma FreezeLeaves(t: Tenant, l: Ledger, key: bytes, limit: int, draws: seq<Draw>)
    requires Inv(t, l) && 1 <= limit <= MAX_BATCH_ENTRIES && TxFreeze(t, key, limit, draws).Success?
    ensures var (t', b) := TxFreeze(t, key, limit, draws).value;
            key in t'.batchKeys && t'.batchKeys[key] in t'.batches && t'.batches[t'.batchKeys[key]] == b
            && b.limit == limit
  {
    hide Inv, TxFreeze, NewID, FreezeInvariant.Queue, Bind, SequenceKeys, Commitments, IDs, Batch.Encode;
    FreezeInvariant.FreezeOutcome(t, l, key, limit, draws);
  }

  /** Batches frozen under different request keys share no member. */
  lemma DistinctKeysDisjoint(t: Tenant, l: Ledger, key: bytes, key': bytes, id: bytes)
    requires Inv(t, l) && key in t.batchKeys && key' in t.batchKeys && key != key'
    ensures t.batchKeys[key] in t.batches && t.batchKeys[key'] in t.batches
    ensures !(id in t.batches[t.batchKeys[key]].evidenceIds && id in t.batches[t.batchKeys[key']].evidenceIds)
  {
    hide PendingInv, KeysInv, SourcesInv, OutboxInv, EvidenceInv, BatchInv, ShapeInv;
    MembersPointBack(t, l, t.batchKeys[key]);
    MembersPointBack(t, l, t.batchKeys[key']);
  }

  lemma MembersPointBack(t: Tenant, l: Ledger, batchId: bytes)
    requires Inv(t, l) && batchId in t.batches
    ensures forall id :: id in t.batches[batchId].evidenceIds ==> id in t.evidence && t.evidence[id].batchId == batchId
  {
    hide PendingInv, KeysInv, SourcesInv, OutboxInv, EvidenceInv, BatchInv, RequestInv;
    var j := BatchPlace(t, l, batchId);
    assert Bound(t.evidence, l.Members(j), l.frozen[j]);
  }
}
