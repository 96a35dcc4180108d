/** When a document ingestion cannot conflict, whatever else runs beside it. */
module ConcurrentRetries {
  import opened Prelude
  import opened Encoding
  import opened Storage
  import opened StoreInvariant
  import opened StoreRuns
  import opened Ingestion
  import opened ConcurrentIngestion
  import opened IngestionOutcomes
  import StoreOutcomes
  import Commitment

  function RequestKey(req: IngestRequest): SourceKey {
    SourceKey(req.source, req.wit.representation)
  }

  // ---------- The key ----------

  /** The call's key, if bound, names evidence of the call's own source. */
  predicate KeyFree(db: Db, call: DocumentRequest) {
    call.tenant in db && call.key in db[call.tenant].keys ==>
      var t := db[call.tenant];
      t.keys[call.key] in t.evidence && KeyOf(t.evidence[t.keys[call.key]]) == Key(call)
  }

  /** A request that uses the call's key in the call's tenant uses it for the call's source. */
  predicate KeyAgrees(req: IngestRequest, call: DocumentRequest) {
    req.tenant == call.tenant && req.key == call.key ==> RequestKey(req) == Key(call)
  }

  // ---------- The source ----------

  /** The call's source, if recorded, is recorded with this digest. */
  predicate SourceFree(db: Db, call: DocumentRequest, digest: Hash) {
    call.tenant in db && Key(call) in db[call.tenant].sources ==>
      var t := db[call.tenant];
      t.sources[Key(call)] in t.evidence && t.evidence[t.sources[Key(call)]].wit.documentDigest == digest
  }

  /** A request for the call's source in the call's tenant carries this digest. */
  predicate SourceAgrees(req: IngestRequest, call: DocumentRequest, digest: Hash) {
    req.tenant == call.tenant && RequestKey(req) == Key(call) ==> req.wit.documentDigest == digest
  }

  /** What a free key and a free source give: no clash. */
  lemma FreeDoesNotClash(db: Db, call: DocumentRequest, digest: Hash)
    requires KeyFree(db, call) && SourceFree(db, call, digest)
    requires Commitment.HashDocument(call.document, call.maxBytes) == Success(digest)
    ensures !Clashes(db, call)
  {
    hide Commitment.HashDocument;
  }

  // ---------- One transaction ----------

  /** A new key names evidence of the request's own source. */
  lemma NewKey(t: Tenant, l: Ledger, req: IngestRequest, draws: seq<Draw>, key: bytes)
    requires Inv(t, l) && TxIngest(t, req, draws).Success?
    ensures var t' := TxIngest(t, req, draws).value.0;
            key in t'.keys && key !in t.keys ==>
              key == req.key && t'.keys[key] in t'.evidence && KeyOf(t'.evidence[t'.keys[key]]) == RequestKey(req)
  {
    hide Inv, TxIngest, NewID, BigEndian64;
    StoreOutcomes.IngestOutcome(t, l, req, draws);
  }

  /** A new source is recorded with the request's own digest. */
  lemma NewSource(t: Tenant, l: Ledger, req: IngestRequest, draws: seq<Draw>, sk: SourceKey)
    requires Inv(t, l) && TxIngest(t, req, draws).Success?
    ensures var t' := TxIngest(t, req, draws).value.0;
            sk in t'.sources && sk !in t.sources ==>
              sk == RequestKey(req) && t'.sources[sk] in t'.evidence
              && t'.evidence[t'.sources[sk]].wit.documentDigest == req.wit.documentDigest
  {
    hide Inv, TxIngest, NewID, BigEndian64;
    StoreOutcomes.IngestOutcome(t, l, req, draws);
  }

  lemma IngestKeepsKeyFree(db: Db, req: IngestRequest, draws: seq<Draw>, call: DocumentRequest)
    requires DbValid(db) && KeyFree(db, call) && KeyAgrees(req, call)
    ensures KeyFree(Ingest(db, req, draws).0, call)
  {
    hide Inv, TxIngest, ValidIngest;
    if ValidIngest(req) && TxIngest(TenantOf(db, req.tenant), req, draws).Success? && req.tenant == call.tenant {
      EmptyInv();
      var t := TenantOf(db, req.tenant);
      assert Valid(t);
      var l :| Inv(t, l);
      NewKey(t, l, req, draws, call.key);
      IngestExtends(t, l, req, draws);
    }
  }

  lemma IngestKeepsSourceFree(db: Db, req: IngestRequest, draws: seq<Draw>, call: DocumentRequest, digest: Hash)
    requires DbValid(db) && SourceFree(db, call, digest) && SourceAgrees(req, call, digest)
    ensures SourceFree(Ingest(db, req, draws).0, call, digest)
  {
    hide Inv, TxIngest, ValidIngest;
    if ValidIngest(req) && TxIngest(TenantOf(db, req.tenant), req, draws).Success? && req.tenant == call.tenant {
      EmptyInv();
      var t := TenantOf(db, req.tenant);
      assert Valid(t);
      var l :| Inv(t, l);
      NewSource(t, l, req, draws, Key(call));
      IngestExtends(t, l, req, draws);
    }
  }

  /** Freezes and submissions keep both free. */
  lemma MaintenanceKeepsFree(db: Db, action: Action, call: DocumentRequest, digest: Hash)
    requires DbValid(db) && !action.DoIngest?
    ensures KeyFree(db, call) ==> KeyFree(Apply(db, action), call)
    ensures SourceFree(db, call, digest) ==> SourceFree(Apply(db, action), call, digest)
  {
    hide Apply, Valid;
    if call.tenant in Apply(db, action) {
      MaintenanceKeepsIndexes(db, action, call.tenant);
      ApplyStep(db, action);
      assert Extends(db[call.tenant], Apply(db, action)[call.tenant]);
    }
  }

  // ---------- Interleavings ----------

  /** Whenever another call uses this call's key, it is for this call's source. */
  predicate CallKeyAgrees(other: DocumentRequest, call: DocumentRequest) {
    other.tenant == call.tenant && other.key == call.key ==> Key(other) == Key(call)
  }

  /** Whenever another call is for this call's source, its document, if it can be read, has this digest. */
  predicate CallSourceAgrees(other: DocumentRequest, call: DocumentRequest, digest: Hash) {
    other.tenant == call.tenant && Key(other) == Key(call) ==>
      Commitment.HashDocument(other.document, other.maxBytes) == Success(digest)
      || Commitment.HashDocument(other.document, other.maxBytes).Failure?
  }

  /** Everyone who takes a turn agrees on the key. */
  predicate KeysAgree(calls: seq<DocumentRequest>, events: seq<Turn>, call: DocumentRequest) {
    forall k :: 0 <= k < |events| ==> TurnKeyAgrees(calls, events[k], call)
  }

  predicate TurnKeyAgrees(calls: seq<DocumentRequest>, e: Turn, call: DocumentRequest) {
    match e
    case Advance(j, _, _) => j < |calls| ==> CallKeyAgrees(calls[j], call)
    case Other(action) => action.DoIngest? ==> KeyAgrees(action.req, call)
  }

  /** Everyone who takes a turn agrees on the source. */
  predicate SourcesAgree(calls: seq<DocumentRequest>, events: seq<Turn>, call: DocumentRequest, digest: Hash) {
    forall k :: 0 <= k < |events| ==> TurnSourceAgrees(calls, events[k], call, digest)
  }

  predicate TurnSourceAgrees(calls: seq<DocumentRequest>, e: Turn, call: DocumentRequest, digest: Hash) {
    match e
    case Advance(j, _, _) => j < |calls| ==> CallSourceAgrees(calls[j], call, digest)
    case Other(action) => action.DoIngest? ==> SourceAgrees(action.req, call, digest)
  }

  lemma StepKeepsKeyFree(db: Db, other: DocumentRequest, s: Status, nonce: Hash, draws: seq<Draw>,
                         call: DocumentRequest)
    requires DbValid(db) && CallInv(db, other, s) && KeyFree(db, call) && CallKeyAgrees(other, call)
    ensures KeyFree(Step(db, other, s, nonce, draws).0, call)
  {
    hide Ingest, Valid, KeyFree, Commitment.HashDocument, ValidRequest, Recorded, Clashes, Known;
    if s.Hashed? {
      IngestKeepsKeyFree(db, WithWitness(other, s.wit), draws, call);
    }
  }

  lemma StepKeepsSourceFree(db: Db, other: DocumentRequest, s: Status, nonce: Hash, draws: seq<Draw>,
                            call: DocumentRequest, digest: Hash)
    requires DbValid(db) && CallInv(db, other, s) && SourceFree(db, call, digest)
             && CallSourceAgrees(other, call, digest)
    ensures SourceFree(Step(db, other, s, nonce, draws).0, call, digest)
  {
    hide Ingest, Valid, SourceFree, Commitment.HashDocument, ValidRequest, Recorded, Clashes, Known;
    if s.Hashed? {
      IngestKeepsSourceFree(db, WithWitness(other, s.wit), draws, call, digest);
    }
  }

  /** A key stays free while everyone who uses it uses it for the same source. */
  lemma {:induction false} KeyStaysFree(db: Db, calls: seq<DocumentRequest>, events: seq<Turn>, call: DocumentRequest)
    requires DbValid(db) && KeyFree(db, call) && KeysAgree(calls, events, call)
    ensures KeyFree(Interleave(Begin(db, calls), events).db, call)
  {
    hide KeyFree, KeyAgrees, CallKeyAgrees, CallInv, Valid, Step, Apply, DbExtends;
    if events != [] {
      var init, last := events[..|events| - 1], events[|events| - 1];
      KeyStaysFree(db, calls, init, call);
      BeginsWell(db, calls);
      InterleaveKeeps(Begin(db, calls), init);
      var s := Interleave(Begin(db, calls), init);
      assert TurnKeyAgrees(calls, last, call);
      match last {
        case Advance(i, nonce, draws) =>
          if i < |calls| { StepKeepsKeyFree(s.db, calls[i], s.status[i], nonce, draws, call); }
        case Other(action) => ActionKeepsKeyFree(s.db, action, call);
      }
    }
  }

  lemma ActionKeepsKeyFree(db: Db, action: Action, call: DocumentRequest)
    requires DbValid(db) && KeyFree(db, call) && (action.DoIngest? ==> KeyAgrees(action.req, call))
    ensures KeyFree(Apply(db, action), call)
  {
    hide KeyFree, KeyAgrees, Valid, Ingest, Freeze, RecordSubmission;
    if action.DoIngest? {
      IngestKeepsKeyFree(db, action.req, action.draws, call);
    } else {
      MaintenanceKeepsFree(db, action, call, SHA256([]));
    }
  }

  /** A source stays free while everyone who ingests it brings the same digest. */
  lemma {:induction false} SourceStaysFree(db: Db, calls: seq<DocumentRequest>, events: seq<Turn>,
                                           call: DocumentRequest, digest: Hash)
    requires DbValid(db) && SourceFree(db, call, digest) && SourcesAgree(calls, events, call, digest)
    ensures SourceFree(Interleave(Begin(db, calls), events).db, call, digest)
  {
    hide SourceFree, SourceAgrees, CallSourceAgrees, CallInv, Valid, Step, Apply, DbExtends;
    if events != [] {
      var init, last := events[..|events| - 1], events[|events| - 1];
      SourceStaysFree(db, calls, init, call, digest);
      BeginsWell(db, calls);
      InterleaveKeeps(Begin(db, calls), init);
      var s := Interleave(Begin(db, calls), init);
      assert TurnSourceAgrees(calls, last, call, digest);
      match last {
        case Advance(i, nonce, draws) =>
          if i < |calls| { StepKeepsSourceFree(s.db, calls[i], s.status[i], nonce, draws, call, digest); }
        case Other(action) => ActionKeepsSourceFree(s.db, action, call, digest);
      }
    }
  }

  lemma ActionKeepsSourceFree(db: Db, action: Action, call: DocumentRequest, digest: Hash)
    requires DbValid(db) && SourceFree(db, call, digest)
             && (action.DoIngest? ==> SourceAgrees(action.req, call, digest))
    ensures SourceFree(Apply(db, action), call, digest)
  {
    hide SourceFree, SourceAgrees, Valid, Ingest, Freeze, RecordSubmission;
    if action.DoIngest? {
      IngestKeepsSourceFree(db, action.req, action.draws, call, digest);
    } else {
      MaintenanceKeepsFree(db, action, call, digest);
    }
  }

  /** Exact concurrent retries are idempotent. From any valid store, whatever other calls and actions run beside it and
      however they interleave, a call whose document can be read never conflicts, provided its key and source are not
      already taken otherwise, and nobody else uses its key for another source or its source for another document. Its
      answer is the evidence recorded for its document, unless the request is invalid, no drawn ID was free for new
      evidence, or no sequence number was left. */
  lemma RetriesNeverConflict(db: Db, calls: seq<DocumentRequest>, events: seq<Turn>, i: nat, digest: Hash)
    requires DbValid(db) && i < |calls|
    requires Commitment.HashDocument(calls[i].document, calls[i].maxBytes) == Success(digest)
    requires KeyFree(db, calls[i]) && SourceFree(db, calls[i], digest)
    requires KeysAgree(calls, events, calls[i]) && SourcesAgree(calls, events, calls[i], digest)
    ensures Interleave(Begin(db, calls), events).status[i] != Returned(Failure(Conflict))
    ensures var s := Interleave(Begin(db, calls), events);
            s.status[i].Returned? ==>
              match s.status[i].outcome
              case Success((e, _)) => Recorded(s.db, calls[i], e) && e.wit.documentDigest == digest
              case Failure(Invalid) => !ValidRequest(calls[i])
              case Failure(Corrupt) => TenantOf(s.db, calls[i].tenant).counter == U64_LIMIT - 1
              case Failure(Entropy) => exists k: nat :: NoFreeID(db, calls, events, i, k)
              case Failure(_) => false
  {
    hide Interleave, Valid, Clashes, KeyFree, SourceFree, KeysAgree, SourcesAgree, Commitment.HashDocument, Recorded,
      DbExtends, Lookup, ValidRequest;
    KeyStaysFree(db, calls, events, calls[i]);
    SourceStaysFree(db, calls, events, calls[i], digest);
    FreeDoesNotClash(Interleave(Begin(db, calls), events).db, calls[i], digest);
    ConcurrentIngestSafe(db, calls, events, i, i);
    if Interleave(Begin(db, calls), events).status[i] == Returned(Failure(Entropy)) {
      NoIDMeansNoneFree(db, calls, events, i);
    }
  }

  /** On turn k the call was to create evidence of something unknown, and every ID drawn for it was taken. */
  ghost predicate NoFreeID(db: Db, calls: seq<DocumentRequest>, events: seq<Turn>, i: nat, k: nat)
    requires i < |calls|
  {
    && k < |events| && events[k].Advance? && events[k].call == i
    && var s := Interleave(Begin(db, calls), events[..k]);
       && s.status[i].Hashed? && !Known(s.db, calls[i])
       && AllTaken(TenantOf(s.db, calls[i].tenant).evidence.Keys, events[k].draws)
  }

  lemma NoIDMeansNoneFree(db: Db, calls: seq<DocumentRequest>, events: seq<Turn>, i: nat)
    requires DbValid(db) && i < |calls| && Interleave(Begin(db, calls), events).status[i] == Returned(Failure(Entropy))
    ensures exists k: nat :: NoFreeID(db, calls, events, i, k)
  {
    hide Interleave, Valid, Known, AllTaken;
    AnswersExplained(db, calls, events, i);
    var k: nat :| AnsweredAt(db, calls, events, i, k, Failure(Entropy));
    assert NoFreeID(db, calls, events, i, k);
  }
}
