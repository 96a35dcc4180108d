/** One event through the agent: plan, fetch the exact bytes, ingest. */
module Runner {
  import opened Prelude
  import opened Encoding
  import opened Storage
  import opened Ingestion
  import opened Planner
  import StoreObject
  import Commitment

  const DEFAULT_MAX_DOCUMENT_BYTES: int := 0x400_0000

  /** What the source system answers; an empty version is not compared. */
  datatype Fetched = FetchFailed | Fetched(version: bytes, document: Option<Reader>)

  /** A runner; `ready` says that its fetcher and its ingester are set. */
  datatype Config = Config(ready: bool, evidenceFields: seq<bytes>, maxBytes: Int64)

  datatype HandleError =
    | BadEvent | NotConfigured | FetchError | VersionChanged | MissingDocument | ReadError | OversizedFetch
    | StoreError(error: Storage.Error)

  datatype Handled = Skipped | Stored(evidenceId: bytes, created: bool)

  /** One event with what the outside world supplies for it: the fetch, the nonce and the ID draws. */
  datatype Job = Job(config: Config, event: Event, fetched: Fetched, nonce: Hash, draws: seq<Draw>)

  function BoundedBytes(r: Reader, maxBytes: Int64): Result<bytes, HandleError> {
    if maxBytes <= 0 || maxBytes == MAX_INT64 then Failure(NotConfigured)
    else
      match ReadLimited(r, maxBytes + 1)
      case None => Failure(ReadError)
      case Some(data) => if |data| > maxBytes then Failure(OversizedFetch) else Success(data)
  }

  function Limit(config: Config): Int64 {
    if config.maxBytes == 0 then DEFAULT_MAX_DOCUMENT_BYTES else config.maxBytes
  }

  /** The fetched document, or why there is none. */
  function Content(job: Job): Result<bytes, HandleError> {
    if !job.config.ready || Limit(job.config) < 0 then Failure(NotConfigured)
    else
      match job.fetched
      case FetchFailed => Failure(FetchError)
      case Fetched(version, document) =>
        if version != [] && version != job.event.version then Failure(VersionChanged)
        else if document.None? then Failure(MissingDocument)
        else BoundedBytes(document.value, Limit(job.config))
  }

  predicate Planned(job: Job) {
    IsPlanned(job.event, job.config.evidenceFields)
  }

  /** The ingestion request of a planned event whose document was fetched. */
  function RequestOf(job: Job): DocumentRequest
    requires Planned(job) && Content(job).Success?
  {
    var plan := PlanOf(job.event, job.config.evidenceFields).value;
    DocumentRequest(plan.tenant, plan.key, plan.source, plan.representation, Some(Reader(Content(job).value, false)),
                    Limit(job.config))
  }

  function Handle(db: Db, job: Job): (Db, Result<Handled, HandleError>) {
    match PlanOf(job.event, job.config.evidenceFields)
    case Failure(_) => (db, Failure(BadEvent))
    case Success(Skip) => (db, Success(Skipped))
    case Success(Ingest(_, _, _, _)) =>
      match Content(job)
      case Failure(e) => (db, Failure(e))
      case Success(_) =>
        var (db', r) := IngestDocument(db, RequestOf(job), job.nonce, job.draws);
        match r
        case Failure(e) => (db', Failure(StoreError(e)))
        case Success((e, created)) => (db', Success(Stored(e.id, created)))
  }

  method HandleEvent(store: StoreObject.Store, config: Config, event: Event, fetched: Fetched, nonce: Hash,
                     draws: seq<Draw>)
    returns (r: Result<Handled, HandleError>)
    modifies store
    ensures (store.tenants, r) == Handle(old(store.tenants), Job(config, event, fetched, nonce, draws))
  {
    hide IngestDocument, WritebackOnly, ValidText, ReadLimited, StableKey;
    var plan := PlanIngest(event, config.evidenceFields);
    if plan.Failure? {
      return Failure(BadEvent);
    }
    if plan.value.Skip? {
      return Success(Skipped);
    }
    if !config.ready {
      return Failure(NotConfigured);
    }
    var maxBytes := config.maxBytes;
    if maxBytes == 0 {
      maxBytes := DEFAULT_MAX_DOCUMENT_BYTES;
    }
    if maxBytes < 0 {
      return Failure(NotConfigured);
    }
    if fetched.FetchFailed? {
      return Failure(FetchError);
    }
    if fetched.version != [] && fetched.version != event.version {
      return Failure(VersionChanged);
    }
    if fetched.document.None? {
      return Failure(MissingDocument);
    }
    var document := BoundedBytes(fetched.document.value, maxBytes);
    if document.Failure? {
      return Failure(document.error);
    }
    var p := plan.value;
    var request :=
      DocumentRequest(p.tenant, p.key, p.source, p.representation, Some(Reader(document.value, false)), maxBytes);
    var stored := store.IngestDocument(request, nonce, draws);
    if stored.Failure? {
      return Failure(StoreError(stored.error));
    }
    return Success(Stored(stored.value.0.id, stored.value.1));
  }

  // ---------- Requests are valid ----------

  /** What the agent sends is always a valid request, and its document always hashes. */
  lemma RequestValid(job: Job)
    requires Planned(job) && Content(job).Success?
    ensures ValidEvent(job.event) && ValidRequest(RequestOf(job)) && Key(RequestOf(job)) == SourceKeyOf(job.event)
    ensures RequestOf(job).tenant == job.event.tenant && RequestOf(job).key == StableKey(Parts(job.event))
    ensures Commitment.HashDocument(RequestOf(job).document, RequestOf(job).maxBytes)
            == Success(SHA256(Content(job).value))
  {
    hide WritebackOnly, ValidUtf8, Frame;
    HexIsValidText(SHA256(Frame(Parts(job.event))));
    ContentFits(job);
    Commitment.HashDocumentExact(RequestOf(job).document, RequestOf(job).maxBytes, SHA256(Content(job).value));
  }

  lemma ContentFits(job: Job)
    requires Content(job).Success?
    ensures 0 < Limit(job.config) < MAX_INT64 && |Content(job).value| <= Limit(job.config)
  {
  }
}
