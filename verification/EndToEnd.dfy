/** From ingestion to verification, across any interleaving and any later history. */
module EndToEnd {
  import opened Prelude
  import opened Encoding
  import opened Storage
  import opened StoreRuns
  import opened Ingestion
  import opened ConcurrentIngestion
  import StoreInvariant
  import StoreOutcomes
  import Commitment
  import Package
  import Verifier

  /** The package of an evidence ID in this state, as bytes. */
  function ExportedBytes(db: Db, tenant: bytes, id: bytes): Option<bytes> {
    match UnanchoredPackage(db, tenant, id)
    case Failure(_) => None
    case Success(p) =>
      match Package.Marshal(p)
      case Failure(_) => None
      case Success(b) => Some(b)
  }

  predicate IsBatched(db: Db, tenant: bytes, id: bytes) {
    tenant in db && id in db[tenant].evidence && db[tenant].evidence[id].batchId != []
  }

  /** Start from the empty store, interleave any ingestions with anything, then let anything else happen. Whatever
      evidence a successful call returned can, once batched, be exported as bytes that verify fully for exactly those
      documents, within the limit, that have the digest of the bytes that call ingested. */
  lemma IngestedDocumentVerifies(calls: seq<DocumentRequest>, events: seq<Turn>, i: nat, later: seq<Action>,
                                 document: Reader, maxBytes: Int64)
    requires i < |calls| && Succeeded(Interleave(Begin(map[], calls), events).status[i])
    requires var s := Interleave(Begin(map[], calls), events);
             IsBatched(Run(s.db, later), calls[i].tenant, s.status[i].outcome.value.0.id)
    ensures var s := Interleave(Begin(map[], calls), events);
            var exported := ExportedBytes(Run(s.db, later), calls[i].tenant, s.status[i].outcome.value.0.id);
            && exported.Some? && calls[i].document.Some?
            && var report := Verifier.Assess(Some(document), Some(Reader(exported.value, false)), maxBytes);
               (Verifier.IntegrityVerified(report) <==>
                && 0 <= maxBytes < MAX_INT64 && |document.content| <= maxBytes && !document.fails
                && SHA256(document.content) == SHA256(calls[i].document.value.content))
  {
    hide Interleave, Run, Recorded, DbValid, DbExtends, ExportedBytes, Verifier.Assess,
      Verifier.IntegrityVerified, ValidRequest, Commitment.HashDocument, IsBatched;
    var s := Interleave(Begin(map[], calls), events);
    SucceededIsRecorded(calls, events, i);
    RunKeeps(s.db, later);
    RecordedVerifies(s.db, Run(s.db, later), calls[i], s.status[i].outcome.value.0, document, maxBytes);
  }

  lemma SucceededIsRecorded(calls: seq<DocumentRequest>, events: seq<Turn>, i: nat)
    requires i < |calls| && Succeeded(Interleave(Begin(map[], calls), events).status[i])
    ensures var s := Interleave(Begin(map[], calls), events);
            var e := s.status[i].outcome.value.0;
            && DbValid(s.db) && ValidRequest(calls[i]) && Recorded(s.db, calls[i], e)
            && Commitment.HashDocument(calls[i].document, calls[i].maxBytes) == Success(e.wit.documentDigest)
  {
    hide Interleave, Recorded, StoreInvariant.Valid, ValidRequest, Commitment.HashDocument;
    InterleaveKeeps(Begin(map[], calls), events);
    var s := Interleave(Begin(map[], calls), events);
    assert CallInv(s.db, calls[i], s.status[i]);
  }

  /** Evidence recorded once verifies in every later state that has batched it. */
  lemma RecordedVerifies(db: Db, db': Db, req: DocumentRequest, e: Evidence, document: Reader, maxBytes: Int64)
    requires DbValid(db') && DbExtends(db, db') && ValidRequest(req) && Recorded(db, req, e)
    requires Commitment.HashDocument(req.document, req.maxBytes) == Success(e.wit.documentDigest)
    requires IsBatched(db', req.tenant, e.id)
    ensures var exported := ExportedBytes(db', req.tenant, e.id);
            && exported.Some? && req.document.Some?
            && var report := Verifier.Assess(Some(document), Some(Reader(exported.value, false)), maxBytes);
               (Verifier.IntegrityVerified(report) <==>
                && 0 <= maxBytes < MAX_INT64 && |document.content| <= maxBytes && !document.fails
                && SHA256(document.content) == SHA256(req.document.value.content))
  {
    hide StoreInvariant.Valid, UnanchoredPackage, Package.Marshal, Package.Parse, Verifier.Assess,
      Verifier.IntegrityVerified, ValidText;
    assert Extends(db[req.tenant], db'[req.tenant]);
    assert db'[req.tenant].evidence[e.id].wit == e.wit;
    StoreOutcomes.ExportVerifies(db', req.tenant, e.id, document, maxBytes);
    Commitment.HashDocumentExact(req.document, req.maxBytes, e.wit.documentDigest);
  }
}
