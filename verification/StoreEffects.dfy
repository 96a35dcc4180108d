/** What each operation answers in a valid store, and every record it changes: told on the stored records alone. */
module StoreEffects {
  import opened Prelude
  import opened Encoding
  import opened Storage
  import opened StoreInvariant
  import opened StoreRuns
  import opened Ingestion
  import FreezeInvariant
  import StoreOutcomes
  import Commitment
  import Batch
  import Merkle

  // ---------- What is asked of callers ----------

  /** 32 hexadecimal digits in either case. */
  predicate HexID(id: bytes) {
    |id| == 32 && forall i :: 0 <= i < 32 ==> HexChar(id[i] as int as char)
  }

  predicate HexChar(c: char) {
    '0' <= c <= '9' || 'a' <= c <= 'f' || 'A' <= c <= 'F'
  }

  predicate Texts(s: Source) {
    ValidText(s.instance) && ValidText(s.obj) && ValidText(s.version)
  }

  /** The arguments that operations accept, field by field. */
  lemma ArgumentsExact(id: bytes, ref: bytes, state: SubmissionState, req: IngestRequest, doc: DocumentRequest)
    ensures ValidID(id) <==> HexID(id)
    ensures ValidRef(ref) <==> ref == [] || ValidText(ref)
    ensures ValidState(state) <==> state in {NotSubmitted, Unknown, Submitted}
    ensures ValidIngest(req) <==>
            && ValidText(req.tenant) && ValidText(req.key) && Texts(req.source)
            && req.wit.version == req.wit.algorithm == 1 && req.wit.representation in {1, 2} && req.wit.metadata == 0
    ensures ValidRequest(doc) <==>
            && ValidText(doc.tenant) && ValidText(doc.key) && Texts(doc.source) && doc.representation in {1, 2}
            && doc.document.Some? && 0 <= doc.maxBytes < 0x7FFF_FFFF_FFFF_FFFF
  {
    hide ValidText;
  }

  // ---------- Ingestion ----------

  /** The evidence a request would meet: what its key names, else what its source names. */
  predicate Meets(t: Tenant, req: IngestRequest, id: bytes) {
    || (req.key in t.keys && t.keys[req.key] == id)
    || (req.key !in t.keys && SourceOf(req) in t.sources && t.sources[SourceOf(req)] == id)
  }

  predicate MeetsNothing(t: Tenant, req: IngestRequest) {
    req.key !in t.keys && SourceOf(req) !in t.sources
  }

  function SourceOf(req: IngestRequest): SourceKey {
    SourceKey(req.source, req.wit.representation)
  }

  /** The tenant gained one piece of pending evidence with the next sequence number, and nothing else. */
  predicate Gained(t: Tenant, t': Tenant, req: IngestRequest, e: Evidence) {
    && e.id !in t.evidence && e.sequence == t.counter + 1
    && e.source == req.source && e.wit == req.wit && e.batchId == [] && e.index == 0
    && t'.evidence == t.evidence[e.id := e] && t'.counter == t.counter + 1
    && t'.keys == t.keys[req.key := e.id] && t'.sources == t.sources[SourceOf(req) := e.id]
    && t'.pending == t.pending[BigEndian64(e.sequence) := e.id]
    && t'.batches == t.batches && t'.batchKeys == t.batchKeys && t'.outbox == t.outbox
  }

  /** An ingestion answers by what it meets. Met evidence with the very same source and witness is returned, and the key
      comes to name it; any other met evidence is a conflict. When nothing is met there is new evidence under the first
      free drawn ID, unless no drawn ID is free or no sequence number is left. No other tenant changes. */
  lemma IngestEffect(db: Db, req: IngestRequest, draws: seq<Draw>)
    requires DbValid(db)
    ensures var (db', r) := Ingest(db, req, draws);
            var t := TenantOf(db, req.tenant);
            && (r.Failure? ==> db' == db)
            && (r == Failure(Invalid) <==> !ValidIngest(req))
            && (ValidIngest(req) ==>
                  && (forall id :: Meets(t, req, id) ==>
                        && id in t.evidence
                        && (t.evidence[id].source == req.source && t.evidence[id].wit == req.wit ==>
                              && r == Success((t.evidence[id], false))
                              && db' == db[req.tenant := t.(keys := t.keys[req.key := id])])
                        && (t.evidence[id].source != req.source || t.evidence[id].wit != req.wit ==>
                              r == Failure(Conflict)))
                  && (MeetsNothing(t, req) ==>
                        && (r == Failure(Entropy) <==> AllTaken(t.evidence.Keys, draws))
                        && (r == Failure(Corrupt) <==>
                            !AllTaken(t.evidence.Keys, draws) && t.counter == U64_LIMIT - 1)
                        && (r.Success? <==> !AllTaken(t.evidence.Keys, draws) && t.counter < U64_LIMIT - 1)
                        && (r.Success? ==>
                              var e := r.value.0;
                              && r.value.1 && req.tenant in db' && Gained(t, db'[req.tenant], req, e)
                              && (forall i: nat :: FirstFree(t.evidence.Keys, draws, i) ==> e.id == HexEncode(draws[i]))
                              && db' == db[req.tenant := db'[req.tenant]])))
  {
    hide Inv, TxIngest, NewID, ValidIngest, AllTaken, FirstFree, Gained, AddEvidence, NewEvidence;
    EmptyInv();
    var t := TenantOf(db, req.tenant);
    assert Valid(t);
    var l :| Inv(t, l);
    StoreOutcomes.IngestOutcome(t, l, req, draws);
    NewIDExact(t.evidence.Keys, draws);
    if MeetsNothing(t, req) && NewID(t.evidence.Keys, draws).Some? && t.counter < U64_LIMIT - 1 {
      AddsOne(t, req, NewID(t.evidence.Keys, draws).value);
    }
  }

  lemma AddsOne(t: Tenant, req: IngestRequest, id: bytes)
    requires id !in t.evidence && t.counter < U64_LIMIT - 1
    ensures var e := NewEvidence(req, id, t.counter + 1);
            e.id == id && Gained(t, AddEvidence(t, req, id, t.counter + 1), req, e)
  {
    hide BigEndian64;
  }

  // ---------- Freezing ----------

  predicate LegalFreeze(tenant: bytes, key: bytes, limit: int) {
    ValidText(tenant) && ValidText(key) && 1 <= limit <= 1024
  }

  /** How many pieces of evidence a freeze takes. */
  function Takes(t: Tenant, limit: nat): nat {
    if |t.pending| < limit then |t.pending| else limit
  }

  /** How many were batched before. */
  function Before(t: Tenant): nat
    requires |t.pending| <= t.counter
  {
    t.counter - |t.pending|
  }

  /** The batch holds the oldest pending evidence in sequence order, and the manifest of its commitments. */
  predicate HoldsOldest(t: Tenant, limit: nat, b: FrozenBatch) {
    && b.limit == limit && b.state == NotSubmitted && b.ref == [] && b.id !in t.batches
    && |b.evidenceIds| == Takes(t, limit) && |t.pending| <= t.counter
    && (forall i :: 0 <= i < |b.evidenceIds| ==>
          && b.evidenceIds[i] in t.evidence
          && t.evidence[b.evidenceIds[i]].sequence == Before(t) + 1 + i
          && t.evidence[b.evidenceIds[i]].batchId == [])
    && |b.evidenceIds| < U64_LIMIT
    && b.manifest == Batch.Encode(Batch.Of(Entries(t.evidence, b.evidenceIds)))
  }

  /** Each member names the batch and its own place in it; all other evidence is as it was. */
  predicate NamesItsPlace(evidence: map<bytes, Evidence>, evidence': map<bytes, Evidence>, b: FrozenBatch) {
    && evidence'.Keys == evidence.Keys
    && (forall i :: 0 <= i < |b.evidenceIds| ==>
          && b.evidenceIds[i] in evidence && i < U64_LIMIT
          && evidence'[b.evidenceIds[i]] == evidence[b.evidenceIds[i]].(batchId := b.id, index := i))
    && (forall id :: id in evidence && id !in b.evidenceIds ==> evidence'[id] == evidence[id])
  }

  /** Only the members' pending keys are gone. */
  ghost predicate StillPending(t: Tenant, t': Tenant, n: nat)
    requires |t.pending| <= t.counter
  {
    && (forall key :: key in t'.pending <==> key in t.pending && FromBigEndian(key) > Before(t) + n)
    && (forall key :: key in t'.pending ==> t'.pending[key] == t.pending[key])
  }

  /** The whole change of a freeze under a new request key. */
  ghost predicate Froze(t: Tenant, t': Tenant, key: bytes, limit: nat, b: FrozenBatch) {
    && HoldsOldest(t, limit, b) && NamesItsPlace(t.evidence, t'.evidence, b) && StillPending(t, t', Takes(t, limit))
    && t'.batches == t.batches[b.id := b] && t'.batchKeys == t.batchKeys[key := b.id]
    && t'.outbox == t.outbox[b.id := b.manifest]
    && t'.counter == t.counter && t'.keys == t.keys && t'.sources == t.sources
  }

  /** A freeze under a known request key returns its batch, or conflicts on another limit. Under a new key it is empty
      exactly when nothing is pending, lacks an ID exactly when every drawn one is taken, and otherwise freezes the
      oldest pending evidence under the first free ID. No other tenant changes. */
  lemma FreezeEffect(db: Db, tenant: bytes, key: bytes, limit: int, draws: seq<Draw>)
    requires DbValid(db)
    ensures var (db', r) := Freeze(db, tenant, key, limit, draws);
            && (r.Failure? ==> db' == db)
            && (r == Failure(Invalid) <==> !LegalFreeze(tenant, key, limit))
            && (LegalFreeze(tenant, key, limit) ==> (r == Failure(NotFound) <==> tenant !in db))
            && (LegalFreeze(tenant, key, limit) && tenant in db ==>
                  var t := db[tenant];
                  && (key in t.batchKeys ==>
                        && t.batchKeys[key] in t.batches && db' == db
                        && var b := t.batches[t.batchKeys[key]];
                           r == if b.limit == limit then Success(b) else Failure(Conflict))
                  && (key !in t.batchKeys ==>
                        && (r == Failure(Empty) <==> |t.pending| == 0)
                        && (r == Failure(Entropy) <==> |t.pending| > 0 && AllTaken(t.batches.Keys, draws))
                        && (r.Success? <==> |t.pending| > 0 && !AllTaken(t.batches.Keys, draws))
                        && (r.Success? ==>
                              && tenant in db' && db' == db[tenant := db'[tenant]]
                              && Froze(t, db'[tenant], key, limit, r.value)
                              && forall i: nat ::
                                   FirstFree(t.batches.Keys, draws, i) ==> r.value.id == HexEncode(draws[i]))))
  {
    hide Inv, TxFreeze, NewID, ValidText, AllTaken, FirstFree, FreezeInvariant.Queue, NewBatch, BindBatch, Froze;
    if LegalFreeze(tenant, key, limit) && tenant in db {
      var t := db[tenant];
      var l :| Inv(t, l);
      FreezeInvariant.FreezeOutcome(t, l, key, limit, draws);
      NewIDExact(t.batches.Keys, draws);
      NewBatchId(limit);
      TakenCounts(t, l, limit);
      assert db[tenant := t] == db;
      if key !in t.batchKeys && |t.pending| > 0 && !AllTaken(t.batches.Keys, draws) {
        BindFreezes(t, l, key, limit, NewID(t.batches.Keys, draws).value);
      }
    }
  }

  /** The pending bucket has one key for every piece of evidence after the last batch. */
  lemma TakenCounts(t: Tenant, l: Ledger, limit: nat)
    requires Inv(t, l)
    ensures |t.pending| == l.Waiting() && t.counter == |l.order| == l.Batched() + l.Waiting()
    ensures FreezeInvariant.Taken(l, limit) == Takes(t, limit)
  {
    hide EvidenceInv, PendingInv, MemberInv, BatchInv, KeysInv, SourcesInv, RequestInv, OutboxInv, CursorKeys,
      FreezeInvariant.KeyRun;
    FreezeInvariant.PendingOrder(t.pending, l);
    CursorKeysCount(t.pending.Keys);
    assert |t.pending.Keys| == |t.pending|;
  }

  lemma BindFreezes(t: Tenant, l: Ledger, key: bytes, limit: int, id: bytes)
    requires Inv(t, l) && 1 <= limit <= MAX_BATCH_ENTRIES && id !in t.batches
    requires |t.pending| == l.Waiting() && t.counter == |l.order| == l.Batched() + l.Waiting()
    requires FreezeInvariant.Taken(l, limit) == Takes(t, limit)
    ensures var q := FreezeInvariant.Queue(t, l, Takes(t, limit));
            var b := NewBatch(id, limit, q);
            Froze(t, BindBatch(t, key, b, q), key, limit, b)
  {
    hide ShapeInv, EvidenceInv, PendingInv, MemberInv, BatchInv, KeysInv, SourcesInv, RequestInv, OutboxInv,
      FreezeInvariant.Queue, Bind, SequenceKeys, HoldsOldest, NamesItsPlace, StillPending, NewBatch;
    var n := Takes(t, limit);
    var q := FreezeInvariant.Queue(t, l, n);
    var b := NewBatch(id, limit, q);
    NewBatchId(limit);
    QueueHeld(t, l, limit, id);
    QueueBound(t, l, n, b, id);
    QueueGone(t, l, n, BindBatch(t, key, b, q));
  }

  lemma NewBatchId(limit: int)
    ensures forall id, q: seq<Evidence> :: |q| < U64_LIMIT ==>
              NewBatch(id, limit, q).id == id && NewBatch(id, limit, q).evidenceIds == IDs(q)
  {
    hide IDs, Batch.Encode, Batch.Of, Commitments;
  }

  lemma QueueHeld(t: Tenant, l: Ledger, limit: nat, id: bytes)
    requires Inv(t, l) && id !in t.batches && limit <= MAX_BATCH_ENTRIES
    requires |t.pending| == l.Waiting() && t.counter == |l.order| == l.Batched() + l.Waiting()
    ensures HoldsOldest(t, limit, NewBatch(id, limit, FreezeInvariant.Queue(t, l, Takes(t, limit))))
  {
    hide ShapeInv, EvidenceInv, PendingInv, BatchInv, KeysInv, SourcesInv, RequestInv, OutboxInv,
      FreezeInvariant.Queue, Batch.Encode, Batch.Of, Entries, Commitments, IDs, Bound;
    var n := Takes(t, limit);
    var q := FreezeInvariant.Queue(t, l, n);
    forall i | 0 <= i < n
      ensures IDs(q)[i] in t.evidence && t.evidence[IDs(q)[i]] == q[i] && q[i].id == IDs(q)[i]
      ensures q[i].sequence == l.Batched() + 1 + i && q[i].batchId == []
    {
      FreezeInvariant.QueueItem(t, l, n, i);
    }
    FreezeInvariant.CommitmentsAreEntries(t.evidence, q);
  }

  lemma QueueBound(t: Tenant, l: Ledger, n: nat, b: FrozenBatch, id: bytes)
    requires Inv(t, l) && l.Batched() + n <= |l.order| < U64_LIMIT
    requires b.id == id && b.evidenceIds == IDs(FreezeInvariant.Queue(t, l, n))
    ensures NamesItsPlace(t.evidence, Bind(t.evidence, FreezeInvariant.Queue(t, l, n), id), b)
  {
    hide ShapeInv, EvidenceInv, PendingInv, MemberInv, BatchInv, KeysInv, SourcesInv, RequestInv, OutboxInv,
      FreezeInvariant.Queue, Bind, IDs;
    var q := FreezeInvariant.Queue(t, l, n);
    var bound := Bind(t.evidence, q, id);
    FreezeInvariant.QueueDistinct(t, l, n);
    forall i | 0 <= i < n
      ensures b.evidenceIds[i] in t.evidence && b.evidenceIds[i] in bound
      ensures bound[b.evidenceIds[i]] == t.evidence[b.evidenceIds[i]].(batchId := id, index := i)
    {
      FreezeInvariant.QueueItem(t, l, n, i);
      FreezeInvariant.BindAt(t.evidence, q, id, i);
    }
    forall e | e !in b.evidenceIds ensures e in bound <==> e in t.evidence
                                   ensures e in t.evidence ==> bound[e] == t.evidence[e]
    {
      FreezeInvariant.BindElsewhere(t.evidence, q, id, e) by {
        forall i | 0 <= i < n ensures q[i].id != e { assert b.evidenceIds[i] == q[i].id; }
      }
    }
  }

  lemma QueueGone(t: Tenant, l: Ledger, n: nat, t': Tenant)
    requires Inv(t, l) && l.Batched() + n <= |l.order|
    requires |t.pending| == l.Waiting() && t.counter == |l.order| == l.Batched() + l.Waiting()
    requires t'.pending == t.pending - SequenceKeys(FreezeInvariant.Queue(t, l, n))
    ensures StillPending(t, t', n)
  {
    hide ShapeInv, EvidenceInv, MemberInv, BatchInv, KeysInv, SourcesInv, RequestInv, OutboxInv,
      FreezeInvariant.Queue, SequenceKeys, FromBigEndian;
    FreezeInvariant.QueueKeys(t, l, n);
  }

  // ---------- Submission ----------

  predicate LegalRecord(tenant: bytes, id: bytes, state: SubmissionState, ref: bytes) {
    ValidText(tenant) && ValidID(id) && ValidState(state) && ValidRef(ref)
  }

  /** Recording a submission succeeds exactly when the batch exists and is not a submitted one asked to regress. The
      store then holds the batch with the asked state and reference, which is also the answer; the batch is in the
      outbox exactly when it is not submitted, with its own manifest; and every other record is as it was. */
  lemma RecordEffect(db: Db, tenant: bytes, id: bytes, state: SubmissionState, ref: bytes)
    requires DbValid(db)
    ensures var (db', r) := RecordSubmission(db, tenant, id, state, ref);
            var legal := LegalRecord(tenant, id, state, ref);
            var found := tenant in db && id in db[tenant].batches;
            && (r == Failure(Invalid) <==> !legal)
            && (r == Failure(NotFound) <==> legal && !found)
            && (r == Failure(Conflict) <==>
                legal && found && db[tenant].batches[id].state == Submitted && state != Submitted)
            && (r.Success? <==>
                legal && found && !(db[tenant].batches[id].state == Submitted && state != Submitted))
            && (r.Failure? ==> db' == db)
            && (r.Success? ==>
                  && tenant in db' && id in db'[tenant].batches
                  && var t, t', b := db[tenant], db'[tenant], db'[tenant].batches[id];
                     && b == t.batches[id].(state := state, ref := ref) && r.value == b
                     && (id in t'.outbox <==> state != Submitted)
                     && (id in t'.outbox ==> t'.outbox[id] == b.manifest)
                     && t'.batches == t.batches[id := b]
                     && (forall x :: x != id ==> (x in t'.outbox <==> x in t.outbox))
                     && (forall x :: x != id && x in t.outbox ==> t'.outbox[x] == t.outbox[x])
                     && t' == t.(batches := t'.batches, outbox := t'.outbox)
                     && db' == db[tenant := t'])
  {
    hide Inv, TxRecord, ValidText, ValidID, ValidState, ValidRef;
    if tenant in db {
      var l :| Inv(db[tenant], l);
      StoreOutcomes.RecordOutcome(db[tenant], l, id, state, ref);
      BatchNamesItself(db[tenant], l, id);
    }
  }

  lemma BatchNamesItself(t: Tenant, l: Ledger, id: bytes)
    requires Inv(t, l)
    ensures id in t.batches ==> t.batches[id].id == id
  {
    hide EvidenceInv, PendingInv, MemberInv, KeysInv, SourcesInv, RequestInv, OutboxInv;
    if id in t.batches { var _ := BatchPlace(t, l, id); }
  }

  // ---------- Views ----------

  function Unsubmitted(t: Tenant): set<bytes> {
    set id | id in t.batches && t.batches[id].state != Submitted
  }

  /** The item is the batch's own record. */
  predicate Shows(t: Tenant, item: Submission) {
    && item.batchId in t.batches
    && var b := t.batches[item.batchId];
       item == Submission(b.id, b.manifest, b.state, b.ref)
  }

  /** The first unsubmitted batches in ID order, up to the limit. */
  predicate ListsFirst(t: Tenant, items: seq<Submission>, limit: nat) {
    && |items| == (if |Unsubmitted(t)| < limit then |Unsubmitted(t)| else limit)
    && (forall i :: 0 <= i < |items| ==> items[i].batchId in Unsubmitted(t) && Shows(t, items[i]))
    && (forall i, j :: 0 <= i < j < |items| ==> LexLess(items[i].batchId, items[j].batchId))
    && (forall id, i :: id in Unsubmitted(t) && 0 <= i < |items| && LexLess(id, items[i].batchId) ==>
          exists j :: 0 <= j < i && items[j].batchId == id)
  }

  /** The outbox answers with the first unsubmitted batches in ID order, up to the limit, each with its own manifest. */
  lemma OutboxEffect(db: Db, tenant: bytes, limit: int)
    requires DbValid(db)
    ensures var r, legal := Outbox(db, tenant, limit), ValidText(tenant) && 1 <= limit <= 1024;
            && (r == Failure(Invalid) <==> !legal)
            && (r == Failure(NotFound) <==> legal && tenant !in db)
            && (r.Success? <==> legal && tenant in db)
            && (r.Success? ==> ListsFirst(db[tenant], r.value, limit))
  {
    hide Inv, TxOutbox, ValidText, CursorKeys, ListsFirst, StoreOutcomes.Listing;
    if ValidText(tenant) && 1 <= limit <= MAX_BATCH_ENTRIES && tenant in db {
      var l :| Inv(db[tenant], l);
      StoreOutcomes.OutboxOutcome(db[tenant], l, limit);
      ListingInOrder(db[tenant], l, limit);
    }
  }

  lemma ListingInOrder(t: Tenant, l: Ledger, limit: nat)
    requires Inv(t, l) && StoreOutcomes.OutboxComplete(t)
    ensures var size := |CursorKeys(t.outbox.Keys)|;
            ListsFirst(t, StoreOutcomes.Listing(t, if size < limit then size else limit), limit)
  {
    hide Inv, CursorKeys, LexLess, StoreOutcomes.Listing, Shows, Unsubmitted;
    var ks := CursorKeys(t.outbox.Keys);
    var n := if |ks| < limit then |ks| else limit;
    var items := StoreOutcomes.Listing(t, n);
    OutboxIsUnsubmitted(t, l);
    CursorKeysCount(t.outbox.Keys);
    forall i | 0 <= i < n ensures items[i].batchId == ks[i] && ks[i] in Unsubmitted(t) && Shows(t, items[i]) {
      assert ks[i] in ks;
      ItemShows(t, l, n, i);
    }
    ListsAllBefore(ks, items, Unsubmitted(t));
  }

  lemma OutboxIsUnsubmitted(t: Tenant, l: Ledger)
    requires Inv(t, l)
    ensures t.outbox.Keys == Unsubmitted(t)
  {
    hide ShapeInv, EvidenceInv, PendingInv, MemberInv, BatchInv, KeysInv, SourcesInv, RequestInv;
  }

  lemma ItemShows(t: Tenant, l: Ledger, n: nat, i: nat)
    requires Inv(t, l) && StoreOutcomes.OutboxComplete(t) && i < n <= |CursorKeys(t.outbox.Keys)|
    ensures var item := StoreOutcomes.Listing(t, n)[i];
            item.batchId == CursorKeys(t.outbox.Keys)[i] && Shows(t, item)
  {
    hide Inv, CursorKeys;
    var ks := CursorKeys(t.outbox.Keys);
    assert ks[i] in ks;
    BatchNamesItself(t, l, ks[i]);
  }

  lemma ListsAllBefore(ks: seq<bytes>, items: seq<Submission>, ids: set<bytes>)
    requires Sorted(ks) && (forall k :: k in ks <==> k in ids) && |items| <= |ks|
    requires forall i :: 0 <= i < |items| ==> items[i].batchId == ks[i]
    ensures forall i, j :: 0 <= i < j < |items| ==> LexLess(items[i].batchId, items[j].batchId)
    ensures forall id, i :: id in ids && 0 <= i < |items| && LexLess(id, items[i].batchId) ==>
              exists j :: 0 <= j < i && items[j].batchId == id
  {
    hide LexLess;
    forall id, i | id in ids && 0 <= i < |items| && LexLess(id, items[i].batchId)
      ensures exists j :: 0 <= j < i && items[j].batchId == id
    {
      assert id in ks;
      var j :| 0 <= j < |ks| && ks[j] == id;
      LexTrichotomy(ks[j], ks[i]);
      assert j < i;
      assert items[j].batchId == id;
    }
  }

  /** An export succeeds exactly for batched evidence. The package then carries the evidence's own witness and index,
      its batch's stored manifest, and a path that leads from its commitment to that manifest's root. */
  lemma ExportEffect(db: Db, tenant: bytes, id: bytes)
    requires DbValid(db)
    ensures var r, legal := UnanchoredPackage(db, tenant, id), ValidText(tenant) && ValidID(id);
            var found := tenant in db && id in db[tenant].evidence;
            && (r == Failure(Invalid) <==> !legal)
            && (r == Failure(NotFound) <==> legal && !found)
            && (r == Failure(NotBatched) <==> legal && found && db[tenant].evidence[id].batchId == [])
            && (r.Success? <==> legal && found && db[tenant].evidence[id].batchId != [])
            && (r.Success? ==>
                  var t, e, p := db[tenant], db[tenant].evidence[id], r.value;
                  && e.batchId in t.batches && p.wit == e.wit && p.index == e.index
                  && t.batches[e.batchId].manifest == Batch.Encode(p.manifest)
                  && Commitment.Supported(e.wit)
                  && Merkle.Accepts(Commitment.Commit(e.wit), e.index, |t.batches[e.batchId].evidenceIds|,
                                    p.path, p.manifest.root))
  {
    hide Inv, TxExport, ValidText, ValidID, StoreOutcomes.Exported, Batch.Encode, Merkle.Accepts, Commitment.Encode;
    if tenant in db {
      var l :| Inv(db[tenant], l);
      StoreOutcomes.ExportOutcome(db[tenant], l, id);
      if id in db[tenant].evidence && db[tenant].evidence[id].batchId != [] {
        ExportedParts(db[tenant], l, id);
      }
    }
  }

  lemma ExportedParts(t: Tenant, l: Ledger, id: bytes)
    requires Inv(t, l) && id in t.evidence && t.evidence[id].batchId != []
    ensures var e := t.evidence[id];
            && e.batchId in t.batches && e.index < |t.batches[e.batchId].evidenceIds| <= MAX_BATCH_ENTRIES
            && Commitment.Supported(e.wit)
            && var p := StoreOutcomes.Exported(t.evidence, e, t.batches[e.batchId].evidenceIds);
               && p.wit == e.wit && p.index == e.index && t.batches[e.batchId].manifest == Batch.Encode(p.manifest)
               && Merkle.Accepts(Commitment.Commit(e.wit), e.index, |t.batches[e.batchId].evidenceIds|,
                                 p.path, p.manifest.root)
  {
    hide ShapeInv, EvidenceInv, PendingInv, MemberInv, BatchInv, KeysInv, SourcesInv, RequestInv, OutboxInv,
      Batch.Encode, Commitment.Encode, Merkle.Root, Merkle.Siblings, Merkle.Climb, Merkle.Depth, Entries, TxExport;
    var members := StoreOutcomes.MemberPlace(t, l, id);
    StoreOutcomes.ExportOutcome(t, l, id);
    StoreOutcomes.EvidenceIsGood(t, l, id);
    StoreOutcomes.ExportedVerifies(t.evidence, t.evidence[id], members);
  }
}
