/** The exact outcome of handling one event, and what the items of a reconciliation pass stand for. */
module AgentOutcomes {
  import opened Prelude
  import opened Encoding
  import opened Storage
  import opened StoreInvariant
  import opened StoreRuns
  import opened Ingestion
  import opened ConcurrentIngestion
  import opened Planner
  import opened Runner
  import opened AgentRuns
  import opened Reconciler
  import Commitment

  // ---------- One event ----------

  /** Only evidence fields changed. */
  predicate Writeback(job: Job) {
    && job.event.changedFields != [] && job.config.evidenceFields != []
    && Trimmed(job.event.changedFields) <= Trimmed(job.config.evidenceFields)
  }

  /** The event is to be ingested. */
  predicate Wanted(job: Job) {
    !Writeback(job) && Acceptable(job.event)
  }

  /** The configured document limit; 64 MiB if none is set. */
  function MaxBytes(job: Job): Int64 {
    if job.config.maxBytes == 0 then 64 * 1024 * 1024 else job.config.maxBytes
  }

  /** The document is asked for, */
  predicate Asks(job: Job) {
    Wanted(job) && job.config.ready && job.config.maxBytes >= 0
  }

  /** the answer is for the event's version or names none, */
  predicate SameVersion(job: Job) {
    Asks(job) && job.fetched.Fetched? && job.fetched.version in {[], job.event.version}
  }

  /** and it carries a document. */
  predicate HasDocument(job: Job) {
    SameVersion(job) && job.fetched.document.Some?
  }

  /** The document is read whole. */
  predicate ReadWhole(job: Job) {
    && HasDocument(job) && MaxBytes(job) != MAX_INT64
    && |job.fetched.document.value.content| <= MaxBytes(job) && !job.fetched.document.value.fails
  }

  /** The ingestion that is asked of the store: exactly the fetched bytes, under the event's identity and source. */
  function Request(job: Job): DocumentRequest
    requires ReadWhole(job)
  {
    var e := job.event;
    DocumentRequest(e.tenant, HexEncode(SHA256(Identity(e))),
                    Source(e.instance, Ascii("paperless-document:") + e.documentId,
                           e.version + Ascii(":") + e.representation),
                    if e.representation == Ascii("original") then 1 else 2,
                    Some(Reader(job.fetched.document.value.content, false)), MaxBytes(job))
  }

  /** Each early end has its exact condition and leaves the store alone; a document of another version is never stored;
      and when the document is read whole, the outcome is that of ingesting exactly its bytes. */
  lemma HandleExact(db: Db, job: Job)
    ensures var (db', r) := Handle(db, job);
            && (r == Success(Skipped) <==> Writeback(job))
            && (r == Failure(BadEvent) <==> !Writeback(job) && !Acceptable(job.event))
            && (r == Failure(NotConfigured) <==>
                || (Wanted(job) && (!job.config.ready || job.config.maxBytes < 0))
                || (HasDocument(job) && MaxBytes(job) == MAX_INT64))
            && (r == Failure(FetchError) <==> Asks(job) && job.fetched.FetchFailed?)
            && (r == Failure(VersionChanged) <==>
                Asks(job) && job.fetched.Fetched? && job.fetched.version !in {[], job.event.version})
            && (r == Failure(MissingDocument) <==> SameVersion(job) && job.fetched.document.None?)
            && (r == Failure(ReadError) <==>
                && HasDocument(job) && MaxBytes(job) != MAX_INT64 && job.fetched.document.value.fails
                && |job.fetched.document.value.content| <= MaxBytes(job))
            && (r == Failure(OversizedFetch) <==>
                && HasDocument(job) && MaxBytes(job) != MAX_INT64
                && |job.fetched.document.value.content| > MaxBytes(job))
            && (ReadWhole(job) <==> (r.Success? && r.value.Stored?) || (r.Failure? && r.error.StoreError?))
            && (!ReadWhole(job) ==> db' == db)
            && (ReadWhole(job) ==> FromStore((db', r), IngestDocument(db, Request(job), job.nonce, job.draws)))
            && (r.Success? && r.value.Stored? ==> SameVersion(job))
  {
    hide IngestDocument, HexEncode, Acceptable, Identity, Trimmed, PlanOf;
    PlanExact(job.event, job.config.evidenceFields);
  }

  /** The handling passes the store's answer on. */
  predicate FromStore(handled: (Db, Result<Handled, HandleError>), stored: (Db, Outcome)) {
    && handled.0 == stored.0
    && match stored.1
       case Failure(e) => handled.1 == Failure(StoreError(e))
       case Success((e, created)) => handled.1 == Success(Stored(e.id, created))
  }

  /** What was stored: in a valid store the returned ID is the one recorded for the event's own source, with the
      digest of exactly the fetched bytes. */
  lemma StoredIsFetched(db: Db, job: Job)
    requires DbValid(db) && Handle(db, job).1.Success? && Handle(db, job).1.value.Stored?
    ensures ReadWhole(job) && RecordsFetched(Handle(db, job).0, job, Handle(db, job).1.value.evidenceId)
  {
    hide IngestDocument, Request, ReadWhole, Handle, Commitment.HashDocument, Valid, Clashes, DbExtends, ValidRequest,
      SameVersion;
    HandleExact(db, job);
    var req := Request(job);
    AloneOutcome(db, req, job.nonce, job.draws);
    var (db', r) := IngestDocument(db, req, job.nonce, job.draws);
    RequestHashes(job);
  }

  /** The store records this ID for the event's own source, with the digest of the fetched bytes. */
  predicate RecordsFetched(db: Db, job: Job, id: bytes)
    requires ReadWhole(job)
  {
    && job.event.tenant in db
    && var t, sk := db[job.event.tenant], Key(Request(job));
       && sk in t.sources && t.sources[sk] == id && id in t.evidence
       && t.evidence[id].wit.documentDigest == SHA256(job.fetched.document.value.content)
  }

  lemma RequestHashes(job: Job)
    requires ReadWhole(job)
    ensures Request(job).tenant == job.event.tenant
    ensures forall h :: Commitment.HashDocument(Request(job).document, Request(job).maxBytes) == Success(h) ==>
              h == SHA256(job.fetched.document.value.content)
  {
    hide HexEncode, Identity;
  }

  // ---------- A pass ----------

  lemma {:induction false} TraceAt(db: Db, config: Config, events: seq<Event>, supply: nat -> Supply, n: nat, i: nat)
    requires i < n <= |events|
    ensures var before, after := Trace(db, config, events, supply, i).0, Trace(db, config, events, supply, i + 1).0;
            var (db', r) := Handle(before, JobAt(config, events, supply, i));
            && after == db'
            && Trace(db, config, events, supply, n).1[i] == ItemOf(events[i], r)
  {
    hide Handle, ItemOf, JobAt;
    if i + 1 < n { TraceAt(db, config, events, supply, n - 1, i); }
  }

  lemma {:induction false} TraceKeeps(db: Db, config: Config, events: seq<Event>, supply: nat -> Supply, m: nat, n: nat)
    requires DbValid(db) && m <= n <= |events|
    ensures DbValid(Trace(db, config, events, supply, m).0) && DbValid(Trace(db, config, events, supply, n).0)
    ensures DbExtends(Trace(db, config, events, supply, m).0, Trace(db, config, events, supply, n).0)
    decreases n
  {
    hide Handle, ItemOf, JobAt, Valid, Extends;
    ExtendsReflexive();
    if n > 0 {
      var before := Trace(db, config, events, supply, n - 1).0;
      TraceKeeps(db, config, events, supply, if m < n then m else n - 1, n - 1);
      StepToKeeps(before, Handles(JobAt(config, events, supply, n - 1)));
      if m < n {
        DbExtendsTransitive(Trace(db, config, events, supply, m).0, before, Trace(db, config, events, supply, n).0);
      }
    }
  }

  /** What an item says of the outcome of its event: nothing is swallowed, changed or made up. */
  predicate Tells(item: Item, event: Event, r: Result<Handled, HandleError>) {
    && item.event == event
    && (r.Failure? <==> item.error.Some?) && (r.Failure? ==> item.error.value == r.error)
    && (r == Success(Skipped) <==> item.skipped)
    && (r.Success? && r.value.Stored? <==> item.error.None? && !item.skipped)
    && (r.Success? && r.value.Stored? ==> item.evidenceId == r.value.evidenceId && item.created == r.value.created)
    && (item.created ==> r.Success? && r.value.Stored?)
  }

  /** Every item of a pass tells the outcome of its own event; and the evidence ID of a stored one is recorded, in the
      store the pass leaves behind, for the event's own source, with the digest of exactly the fetched bytes. */
  lemma PassRecords(db: Db, config: Config, events: seq<Event>, supply: nat -> Supply, i: nat)
    requires DbValid(db) && i < |events|
    ensures var (db', items) := Trace(db, config, events, supply, |events|);
            var before := Trace(db, config, events, supply, i).0;
            var job := JobAt(config, events, supply, i);
            var r := Handle(before, job).1;
            && Tells(items[i], events[i], r)
            && (KindOf(items[i]) in {KCreated, KExisting} ==>
                  ReadWhole(job) && RecordsFetched(db', job, items[i].evidenceId))
  {
    hide Handle, Trace, Valid, DbExtends, ReadWhole, RecordsFetched, JobAt;
    var before, job := Trace(db, config, events, supply, i).0, JobAt(config, events, supply, i);
    TraceAt(db, config, events, supply, |events|, i);
    TraceKeeps(db, config, events, supply, i, |events|);
    TraceKeeps(db, config, events, supply, i + 1, |events|);
    var r := Handle(before, job).1;
    if r.Success? && r.value.Stored? {
      StoredIsFetched(before, job);
      RecordsForever(Handle(before, job).0, Trace(db, config, events, supply, |events|).0, job, r.value.evidenceId);
    }
  }

  lemma RecordsForever(db: Db, later: Db, job: Job, id: bytes)
    requires ReadWhole(job) && RecordsFetched(db, job, id) && DbExtends(db, later)
    ensures RecordsFetched(later, job, id)
  {
    hide ReadWhole, Request;
    assert Extends(db[job.event.tenant], later[job.event.tenant]);
  }
}
