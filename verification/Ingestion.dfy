/** Document ingestion: find, hash with a fresh nonce, ingest, and find again on conflict.
    Each step is one transaction or none, so concurrent calls interleave between steps. */
module Ingestion {
  import opened Prelude
  import opened Encoding
  import opened Storage
  import Commitment

  datatype DocumentRequest = DocumentRequest(
    tenant: bytes, key: bytes, source: Source, representation: byte, document: Option<Reader>, maxBytes: Int64)

  type Outcome = Result<(Evidence, bool), Error>

  /** Where a call stands between its steps. */
  datatype Status =
    | Started
    | Missed
    | Hashed(wit: Commitment.Witness)
    | Conflicted(wit: Commitment.Witness)
    | Returned(outcome: Outcome)

  function Key(req: DocumentRequest): SourceKey {
    SourceKey(req.source, req.representation)
  }

  predicate ValidRequest(req: DocumentRequest) {
    && ValidText(req.tenant) && ValidText(req.key) && ValidSource(req.source)
    && (req.representation == Commitment.ORIGINAL || req.representation == Commitment.DERIVED)
    && req.document.Some? && 0 <= req.maxBytes < MAX_INT64
  }

  function Lookup(db: Db, req: DocumentRequest): Result<Option<Evidence>, Error> {
    Find(db, req.tenant, req.key, Key(req))
  }

  function WithWitness(req: DocumentRequest, w: Commitment.Witness): IngestRequest {
    IngestRequest(req.tenant, req.key, req.source, w)
  }

  /** A retry must bring the document that the stored witness was made from. */
  function Retry(req: DocumentRequest, e: Evidence): Outcome {
    if Commitment.Verify(req.document, e.wit, CommitmentOf(e.wit), req.maxBytes).Success? then Success((e, false))
    else Failure(Conflict)
  }

  /** How many more steps a call can take. */
  function StepsLeft(s: Status): nat {
    match s
    case Started => 4
    case Missed => 3
    case Hashed(_) => 2
    case Conflicted(_) => 1
    case Returned(_) => 0
  }

  function First(db: Db, req: DocumentRequest): Status {
    if !ValidRequest(req) then Returned(Failure(Invalid))
    else
      match Lookup(db, req)
      case Failure(e) => Returned(Failure(e))
      case Success(Some(e)) => Returned(Retry(req, e))
      case Success(None) => Missed
  }

  function HashFor(req: DocumentRequest, nonce: Hash): Status {
    match Commitment.New(req.document, req.representation, req.maxBytes, nonce)
    case Failure(_) => Returned(Failure(Invalid))
    case Success((w, _)) => Hashed(w)
  }

  function Reconsider(db: Db, req: DocumentRequest, w: Commitment.Witness): Outcome {
    match Lookup(db, req)
    case Failure(e) => Failure(e)
    case Success(Some(e)) =>
      if e.wit.documentDigest == w.documentDigest then Success((e, false)) else Failure(Conflict)
    case Success(None) => Failure(Conflict)
  }

  /** The next step of a call, with the nonce and the ID draws it would use. */
  function Step(db: Db, req: DocumentRequest, s: Status, nonce: Hash, draws: seq<Draw>): (r: (Db, Status))
    ensures StepsLeft(r.1) < StepsLeft(s) || s.Returned?
  {
    match s
    case Started => (db, First(db, req))
    case Missed => (db, HashFor(req, nonce))
    case Hashed(w) =>
      var (db', r) := Ingest(db, WithWitness(req, w), draws);
      (db', if r == Failure(Conflict) then Conflicted(w) else Returned(r))
    case Conflicted(w) => (db, Returned(Reconsider(db, req, w)))
    case Returned(_) => (db, s)
  }

  /** A call that nothing interleaves with any more. */
  function Finish(db: Db, req: DocumentRequest, s: Status, nonce: Hash, draws: seq<Draw>): (Db, Outcome)
    decreases StepsLeft(s)
  {
    if s.Returned? then (db, s.outcome)
    else
      var (db', s') := Step(db, req, s, nonce, draws);
      Finish(db', req, s', nonce, draws)
  }

  function IngestDocument(db: Db, req: DocumentRequest, nonce: Hash, draws: seq<Draw>): (Db, Outcome) {
    Finish(db, req, Started, nonce, draws)
  }

  /** The course of a call on its own: the first lookup decides; else the hash; else the ingestion; else the second
      lookup. */
  lemma Course(db: Db, req: DocumentRequest, nonce: Hash, draws: seq<Draw>)
    ensures First(db, req).Returned? || First(db, req).Missed?
    ensures HashFor(req, nonce).Returned? || HashFor(req, nonce).Hashed?
    ensures IngestDocument(db, req, nonce, draws) ==
            if First(db, req).Returned? then (db, First(db, req).outcome)
            else if HashFor(req, nonce).Returned? then (db, HashFor(req, nonce).outcome)
            else
              var w := HashFor(req, nonce).wit;
              var (db', r) := Ingest(db, WithWitness(req, w), draws);
              (db', if r == Failure(Conflict) then Reconsider(db', req, w) else r)
  {
    hide First, HashFor, Ingest, Reconsider;
    FirstKind(db, req);
    HashKind(req, nonce);
    if !First(db, req).Returned? {
      assert Finish(db, req, Started, nonce, draws) == Finish(db, req, Missed, nonce, draws);
      if HashFor(req, nonce).Hashed? {
        var w := HashFor(req, nonce).wit;
        assert Finish(db, req, Missed, nonce, draws) == Finish(db, req, Hashed(w), nonce, draws);
        var (db', r) := Ingest(db, WithWitness(req, w), draws);
        assert Finish(db', req, Conflicted(w), nonce, draws) == (db', Reconsider(db', req, w));
      }
    }
  }

  lemma FirstKind(db: Db, req: DocumentRequest)
    ensures First(db, req).Returned? || First(db, req).Missed?
  {
  }

  lemma HashKind(req: DocumentRequest, nonce: Hash)
    ensures HashFor(req, nonce).Returned? || HashFor(req, nonce).Hashed?
  {
  }
}
