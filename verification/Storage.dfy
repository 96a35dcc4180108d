/** The evidence store: its records, and every transaction as a function of the stored state. */
module Storage {
  import opened Prelude
  import opened Encoding
  import Merkle
  import Commitment
  import Batch
  import Package

  const MAX_BATCH_ENTRIES: int := 1024

  datatype Error = Invalid | Conflict | NotFound | NotBatched | Empty | Corrupt | Entropy | BadPath

  // ---------- Records ----------

  datatype Source = Source(instance: bytes, obj: bytes, version: bytes)

  /** A source object version in one representation. */
  datatype SourceKey = SourceKey(source: Source, representation: byte)

  /** Evidence of one document; an empty batch ID means pending. */
  datatype Evidence = Evidence(
    id: bytes, sequence: U64, source: Source, wit: Commitment.Witness, batchId: bytes, index: U64)

  /** A stored state may be absent (Unset), and a caller may name any other one. */
  datatype SubmissionState = Unset | NotSubmitted | Unknown | Submitted | Other(name: bytes)

  datatype FrozenBatch = FrozenBatch(
    id: bytes, limit: int, evidenceIds: seq<bytes>, manifest: bytes, state: SubmissionState, ref: bytes)

  datatype Submission = Submission(batchId: bytes, manifest: bytes, state: SubmissionState, ref: bytes)

  /** The seven buckets of a tenant, and the sequence counter of its evidence bucket. */
  datatype Tenant = Tenant(
    evidence: map<bytes, Evidence>, counter: U64,
    keys: map<bytes, bytes>, sources: map<SourceKey, bytes>, pending: map<bytes, bytes>,
    batches: map<bytes, FrozenBatch>, batchKeys: map<bytes, bytes>, outbox: map<bytes, bytes>)

  type Db = map<bytes, Tenant>

  const EMPTY_TENANT := Tenant(map[], 0, map[], map[], map[], map[], map[], map[])

  datatype IngestRequest = IngestRequest(tenant: bytes, key: bytes, source: Source, wit: Commitment.Witness)

  // ---------- Field checks ----------

  predicate ValidID(id: bytes) {
    |id| == 32 && forall i :: 0 <= i < |id| ==> IsHexDigit(id[i])
  }

  predicate ValidSource(s: Source) {
    ValidText(s.instance) && ValidText(s.obj) && ValidText(s.version)
  }

  predicate ValidState(s: SubmissionState) {
    s.NotSubmitted? || s.Unknown? || s.Submitted?
  }

  predicate ValidRef(ref: bytes) {
    ref == [] || ValidText(ref)
  }

  // ---------- Identifiers ----------

  /** One draw of the random source. */
  type Draw = d: bytes | |d| == 16 witness seq(16, _ => 0)

  /** The first drawn ID that is not taken; None when the random source fails first. */
  function NewID(taken: set<bytes>, draws: seq<Draw>): (id: Option<bytes>)
    ensures id.Some? ==> id.value !in taken && ValidID(id.value)
  {
    if draws == [] then None
    else if HexEncode(draws[0]) in taken then NewID(taken, draws[1..])
    else Some(HexEncode(draws[0]))
  }

  /** Every drawn ID is taken. */
  predicate AllTaken(taken: set<bytes>, draws: seq<Draw>) {
    forall i :: 0 <= i < |draws| ==> HexEncode(draws[i]) in taken
  }

  /** The i-th draw is the first whose ID is free. */
  predicate FirstFree(taken: set<bytes>, draws: seq<Draw>, i: nat) {
    i < |draws| && AllTaken(taken, draws[..i]) && HexEncode(draws[i]) !in taken
  }

  /** There is a new ID exactly when some drawn ID is free, and then it is the first free one. */
  lemma {:induction false} NewIDExact(taken: set<bytes>, draws: seq<Draw>)
    ensures NewID(taken, draws).None? <==> AllTaken(taken, draws)
    ensures forall i: nat :: FirstFree(taken, draws, i) ==> NewID(taken, draws) == Some(HexEncode(draws[i]))
    ensures NewID(taken, draws).Some? ==> exists i: nat :: FirstFree(taken, draws, i)
  {
    if draws != [] {
      NewIDExact(taken, draws[1..]);
      if HexEncode(draws[0]) in taken {
        forall i: nat | FirstFree(taken, draws, i) ensures i > 0 && FirstFree(taken, draws[1..], i - 1) {
          assert draws[..i][1..] == draws[1..][..i - 1];
        }
        forall i: nat | FirstFree(taken, draws[1..], i) ensures FirstFree(taken, draws, i + 1) {
          assert draws[..i + 1] == [draws[0]] + draws[1..][..i];
        }
      } else {
        assert FirstFree(taken, draws, 0);
      }
    }
  }

  // ---------- Reading records ----------

  function LoadEvidence(t: Tenant, id: bytes): (r: Result<Evidence, Error>)
    ensures r.Success? ==>
            id in t.evidence && r.value == t.evidence[id] && r.value.id == id
            && Commitment.Supported(r.value.wit)
  {
    if id !in t.evidence then Failure(NotFound)
    else
      var e := t.evidence[id];
      if e.id != id || !ValidID(id) || e.sequence == 0 || !ValidSource(e.source) || !Commitment.Supported(e.wit)
      then Failure(Corrupt) else Success(e)
  }

  function LoadBatch(t: Tenant, id: bytes): (r: Result<FrozenBatch, Error>)
    ensures r.Success? ==> id in t.batches && r.value.id == id && ValidState(r.value.state)
  {
    if id !in t.batches then Failure(NotFound)
    else
      var stored := t.batches[id];
      var b := if stored.state.Unset? then stored.(state := NotSubmitted) else stored;
      var m := Batch.Parse(b.manifest);
      if m.Failure? || b.id != id || !ValidID(id) || b.limit < 1 || b.limit > MAX_BATCH_ENTRIES
         || |b.evidenceIds| > b.limit || |b.evidenceIds| != m.value.size || !ValidState(b.state) || !ValidRef(b.ref)
      then Failure(Corrupt) else Success(b)
  }

  /** Results of f(0), f(1), ... f(n - 1), or the first failure. */
  function TryAll<T>(f: nat -> Result<T, Error>, n: nat): (r: Result<seq<T>, Error>)
    ensures r.Success? ==> |r.value| == n && forall i :: 0 <= i < n ==> f(i) == Success(r.value[i])
  {
    if n == 0 then Success([])
    else
      var init :- TryAll(f, n - 1);
      var last :- f(n - 1);
      Success(init + [last])
  }

  lemma {:induction false} TryAllIs<T>(f: nat -> Result<T, Error>, xs: seq<T>)
    requires forall i :: 0 <= i < |xs| ==> f(i) == Success(xs[i])
    ensures TryAll(f, |xs|) == Success(xs)
  {
    if xs != [] {
      TryAllIs(f, xs[..|xs| - 1]);
      assert xs == xs[..|xs| - 1] + [xs[|xs| - 1]];
    }
  }

  lemma TryNone<T>(f: nat -> Result<T, Error>)
    ensures TryAll(f, 0) == Success([])
  {
  }

  lemma {:induction false} TryAllStops<T>(f: nat -> Result<T, Error>, m: nat, n: nat)
    requires m <= n && TryAll(f, m).Failure?
    ensures TryAll(f, n) == TryAll(f, m)
    decreases n
  {
    if m < n { TryAllStops(f, m, n - 1); }
  }

  /** One turn of a loop over f: it goes on with one more result, or stops with the failure of the whole. */
  lemma TryAllTurn<T>(f: nat -> Result<T, Error>, i: nat, n: nat)
    requires i < n && TryAll(f, i).Success?
    ensures f(i).Success? ==> TryAll(f, i + 1) == Success(TryAll(f, i).value + [f(i).value])
    ensures f(i).Failure? ==> TryAll(f, n) == Failure(f(i).error)
  {
    if f(i).Failure? { TryAllStops(f, i + 1, n); }
  }

  function CommitmentOf(w: Commitment.Witness): Hash {
    match Commitment.Compute(w)
    case Success(c) => c
    case Failure(_) => seq(32, _ => 0)
  }

  // ---------- Ingestion ----------

  function KnownID(t: Tenant, key: bytes, sk: SourceKey): Option<bytes> {
    if key in t.keys then Some(t.keys[key])
    else if sk in t.sources then Some(t.sources[sk])
    else None
  }

  function NewEvidence(req: IngestRequest, id: bytes, sequence: U64): Evidence {
    Evidence(id, sequence, req.source, req.wit, [], 0)
  }

  /** The tenant with a new piece of pending evidence, reachable by key and by source. */
  function AddEvidence(t: Tenant, req: IngestRequest, id: bytes, sequence: U64): Tenant {
    t.(evidence := t.evidence[id := NewEvidence(req, id, sequence)], counter := sequence,
       keys := t.keys[req.key := id], sources := t.sources[SourceKey(req.source, req.wit.representation) := id],
       pending := t.pending[BigEndian64(sequence) := id])
  }

  function TxIngest(t: Tenant, req: IngestRequest, draws: seq<Draw>): Result<(Tenant, Evidence, bool), Error> {
    var sk := SourceKey(req.source, req.wit.representation);
    match KnownID(t, req.key, sk)
    case Some(id) =>
      var e :- LoadEvidence(t, id);
      if e.source != req.source || e.wit != req.wit then Failure(Conflict)
      else Success((t.(keys := t.keys[req.key := id]), e, false))
    case None =>
      match NewID(t.evidence.Keys, draws)
      case None => Failure(Entropy)
      case Some(id) =>
        var sequence := (t.counter + 1) % U64_LIMIT;
        if sequence == 0 then Failure(Corrupt)
        else Success((AddEvidence(t, req, id, sequence), NewEvidence(req, id, sequence), true))
  }

  predicate ValidIngest(req: IngestRequest) {
    ValidText(req.tenant) && ValidText(req.key) && ValidSource(req.source) && Commitment.Supported(req.wit)
  }

  /** The tenant a write transaction sees; the first one creates it. */
  function TenantOf(db: Db, name: bytes): Tenant {
    if name in db then db[name] else EMPTY_TENANT
  }

  function Ingest(db: Db, req: IngestRequest, draws: seq<Draw>): (Db, Result<(Evidence, bool), Error>) {
    if !ValidIngest(req) then (db, Failure(Invalid))
    else
      match TxIngest(TenantOf(db, req.tenant), req, draws)
      case Failure(e) => (db, Failure(e))
      case Success((t, e, created)) => (db[req.tenant := t], Success((e, created)))
  }

  function Find(db: Db, tenant: bytes, key: bytes, sk: SourceKey): Result<Option<Evidence>, Error> {
    if tenant !in db then Success(None)
    else
      match KnownID(db[tenant], key, sk)
      case None => Success(None)
      case Some(id) =>
        var e :- LoadEvidence(db[tenant], id);
        if SourceKey(e.source, e.wit.representation) != sk then Failure(Conflict) else Success(Some(e))
  }

  // ---------- Freezing ----------

  /** The evidence a cursor position of the pending bucket names, if it is consistent. */
  function PendingAt(t: Tenant, ks: seq<bytes>): nat -> Result<Evidence, Error> {
    (i: nat) =>
      if i >= |ks| || ks[i] !in t.pending then Failure(Corrupt)
      else
        var e :- LoadEvidence(t, t.pending[ks[i]]);
        if ks[i] != BigEndian64(e.sequence) || e.batchId != [] then Failure(Corrupt) else Success(e)
  }

  function Commitments(members: seq<Evidence>): (cs: seq<Hash>)
    ensures |cs| == |members|
  {
    if members == [] then []
    else Commitments(members[..|members| - 1]) + [CommitmentOf(members[|members| - 1].wit)]
  }

  function IDs(members: seq<Evidence>): (ids: seq<bytes>)
    ensures |ids| == |members| && forall i :: 0 <= i < |ids| ==> ids[i] == members[i].id
  {
    if members == [] then [] else IDs(members[..|members| - 1]) + [members[|members| - 1].id]
  }

  /** The evidence bucket after the members have been bound, in order, to a batch. */
  function Bind(evidence: map<bytes, Evidence>, members: seq<Evidence>, batchId: bytes): map<bytes, Evidence>
    requires |members| < U64_LIMIT
  {
    if members == [] then evidence
    else
      var last := |members| - 1;
      Bind(evidence, members[..last], batchId)[members[last].id := members[last].(batchId := batchId, index := last)]
  }

  function SequenceKeys(members: seq<Evidence>): set<bytes> {
    set e | e in members :: BigEndian64(e.sequence)
  }

  lemma BindNone(evidence: map<bytes, Evidence>, batchId: bytes)
    ensures Bind(evidence, [], batchId) == evidence && IDs([]) == [] && SequenceKeys([]) == {}
  {
  }

  /** Binding one more member, as the freeze loop does. */
  lemma BindNext(evidence: map<bytes, Evidence>, members: seq<Evidence>, i: nat, batchId: bytes)
    requires i < |members| < U64_LIMIT
    ensures var e := members[i];
            && Bind(evidence, members[..i + 1], batchId)
               == Bind(evidence, members[..i], batchId)[e.id := e.(batchId := batchId, index := i)]
            && IDs(members[..i + 1]) == IDs(members[..i]) + [e.id]
            && SequenceKeys(members[..i + 1]) == SequenceKeys(members[..i]) + {BigEndian64(e.sequence)}
  {
    assert members[..i + 1][..i] == members[..i];
    assert members[..i + 1] == members[..i] + [members[i]];
  }

  function NewBatch(id: bytes, limit: int, members: seq<Evidence>): FrozenBatch
    requires |members| < U64_LIMIT
  {
    FrozenBatch(id, limit, IDs(members), Batch.Encode(Batch.Of(Commitments(members))), NotSubmitted, [])
  }

  /** The oldest pending evidence, at most `limit` of it. */
  function Oldest(t: Tenant, limit: nat): Result<seq<Evidence>, Error> {
    var ks := CursorKeys(t.pending.Keys);
    TryAll(PendingAt(t, ks), if |ks| < limit then |ks| else limit)
  }

  function BindBatch(t: Tenant, key: bytes, b: FrozenBatch, members: seq<Evidence>): Tenant
    requires |members| < U64_LIMIT
  {
    t.(evidence := Bind(t.evidence, members, b.id), pending := t.pending - SequenceKeys(members),
       batches := t.batches[b.id := b], batchKeys := t.batchKeys[key := b.id], outbox := t.outbox[b.id := b.manifest])
  }

  function TxFreeze(t: Tenant, key: bytes, limit: int, draws: seq<Draw>): Result<(Tenant, FrozenBatch), Error>
    requires 1 <= limit <= MAX_BATCH_ENTRIES
  {
    if key in t.batchKeys then
      var b :- LoadBatch(t, t.batchKeys[key]);
      if b.limit != limit then Failure(Conflict) else Success((t, b))
    else
      var members :- Oldest(t, limit);
      if members == [] then Failure(Empty)
      else
        match NewID(t.batches.Keys, draws)
        case None => Failure(Entropy)
        case Some(id) =>
          var b := NewBatch(id, limit, members);
          Success((BindBatch(t, key, b, members), b))
  }

  function Freeze(db: Db, tenant: bytes, key: bytes, limit: int, draws: seq<Draw>): (Db, Result<FrozenBatch, Error>) {
    if !ValidText(tenant) || !ValidText(key) || limit < 1 || limit > MAX_BATCH_ENTRIES then (db, Failure(Invalid))
    else if tenant !in db then (db, Failure(NotFound))
    else
      match TxFreeze(db[tenant], key, limit, draws)
      case Failure(e) => (db, Failure(e))
      case Success((t, b)) => (db[tenant := t], Success(b))
  }

  // ---------- Submission ----------

  /** The tenant with a batch's new submission record; only unsubmitted batches stay in the outbox. */
  function SetSubmission(t: Tenant, b: FrozenBatch): Tenant {
    t.(batches := t.batches[b.id := b],
       outbox := if b.state == Submitted then t.outbox - {b.id} else t.outbox[b.id := b.manifest])
  }

  function TxRecord(t: Tenant, batchId: bytes, state: SubmissionState, ref: bytes)
    : Result<(Tenant, FrozenBatch), Error>
  {
    var stored :- LoadBatch(t, batchId);
    if stored.state == Submitted && state != Submitted then Failure(Conflict)
    else
      var b := stored.(state := state, ref := ref);
      Success((SetSubmission(t, b), b))
  }

  function RecordSubmission(db: Db, tenant: bytes, batchId: bytes, state: SubmissionState, ref: bytes)
    : (Db, Result<FrozenBatch, Error>)
  {
    if !ValidText(tenant) || !ValidID(batchId) || !ValidState(state) || !ValidRef(ref) then (db, Failure(Invalid))
    else if tenant !in db then (db, Failure(NotFound))
    else
      match TxRecord(db[tenant], batchId, state, ref)
      case Failure(e) => (db, Failure(e))
      case Success((t, b)) => (db[tenant := t], Success(b))
  }

  // ---------- Read-only views ----------

  function OutboxAt(t: Tenant, ks: seq<bytes>): nat -> Result<Submission, Error> {
    (i: nat) =>
      if i >= |ks| || ks[i] !in t.outbox then Failure(Corrupt)
      else
        var b :- LoadBatch(t, ks[i]);
        if t.outbox[ks[i]] != b.manifest then Failure(Corrupt)
        else Success(Submission(ks[i], t.outbox[ks[i]], b.state, b.ref))
  }

  function TxOutbox(t: Tenant, limit: nat): Result<seq<Submission>, Error> {
    var ks := CursorKeys(t.outbox.Keys);
    TryAll(OutboxAt(t, ks), if |ks| < limit then |ks| else limit)
  }

  function Outbox(db: Db, tenant: bytes, limit: int): Result<seq<Submission>, Error> {
    if !ValidText(tenant) || limit < 1 || limit > MAX_BATCH_ENTRIES then Failure(Invalid)
    else if tenant !in db then Failure(NotFound)
    else TxOutbox(db[tenant], limit)
  }

  /** The tree entry of a batch's i-th member, if the member points back at its place. */
  function EntryAt(t: Tenant, b: FrozenBatch): nat -> Result<bytes, Error> {
    (i: nat) =>
      if i >= |b.evidenceIds| then Failure(Corrupt)
      else
        var e :- LoadEvidence(t, b.evidenceIds[i]);
        if e.batchId != b.id || e.index != i then Failure(Corrupt) else Success(CommitmentOf(e.wit))
  }

  function TxExport(t: Tenant, id: bytes): Result<Package.Package, Error> {
    var e :- LoadEvidence(t, id);
    if e.batchId == [] then Failure(NotBatched)
    else
      var b :- LoadBatch(t, e.batchId);
      if e.index >= |b.evidenceIds| || b.evidenceIds[e.index] != id then Failure(Corrupt)
      else
        var entries :- TryAll(EntryAt(t, b), |b.evidenceIds|);
        match Batch.Parse(b.manifest)
        case Failure(_) => Failure(Corrupt)
        case Success(m) =>
          if Merkle.Root(entries) != m.root then Failure(Corrupt)
          else
            match Merkle.Path(entries, e.index)
            case Failure(_) => Failure(BadPath)
            case Success(path) => Success(Package.Package(e.wit, m, e.index, path))
  }

  function UnanchoredPackage(db: Db, tenant: bytes, id: bytes): Result<Package.Package, Error> {
    if !ValidText(tenant) || !ValidID(id) then Failure(Invalid)
    else if tenant !in db then Failure(NotFound)
    else TxExport(db[tenant], id)
  }
}
