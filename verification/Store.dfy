/** The store itself: transactions work on a copy of a tenant's buckets and commit it whole or not at all. */
module StoreObject {
  import opened Prelude
  import opened Encoding
  import opened Storage
  import opened Ingestion
  import Merkle
  import Commitment
  import Batch
  import Package

  /** Draws IDs until one is free. */
  method DrawID(taken: set<bytes>, draws: seq<Draw>) returns (id: Option<bytes>)
    ensures id == NewID(taken, draws)
  {
    var i := 0;
    while i < |draws|
      invariant 0 <= i <= |draws|
      invariant NewID(taken, draws) == NewID(taken, draws[i..])
    {
      var candidate := HexEncode(draws[i]);
      if candidate !in taken {
        return Some(candidate);
      }
      assert draws[i..][1..] == draws[i + 1..];
      i := i + 1;
    }
    return None;
  }

  class Store {
    var tenants: Db

    constructor ()
      ensures tenants == map[]
    {
      tenants := map[];
    }

    method Ingest(req: IngestRequest, draws: seq<Draw>) returns (r: Outcome)
      modifies this
      ensures (tenants, r) == Storage.Ingest(old(tenants), req, draws)
    {
      if !ValidIngest(req) {
        return Failure(Invalid);
      }
      var t := TenantOf(tenants, req.tenant);
      var sk := SourceKey(req.source, req.wit.representation);
      var id: Option<bytes> := None;
      if req.key in t.keys {
        id := Some(t.keys[req.key]);
      }
      if id.None? && sk in t.sources {
        id := Some(t.sources[sk]);
      }
      if id.Some? {
        var found := LoadEvidence(t, id.value);
        if found.Failure? {
          return Failure(found.error);
        }
        var e := found.value;
        if e.source != req.source || e.wit != req.wit {
          return Failure(Conflict);
        }
        t := t.(keys := t.keys[req.key := e.id]);
        tenants := tenants[req.tenant := t];
        return Success((e, false));
      }
      var drawn := DrawID(t.evidence.Keys, draws);
      if drawn.None? {
        return Failure(Entropy);
      }
      t := t.(counter := (t.counter + 1) % U64_LIMIT);
      if t.counter == 0 {
        return Failure(Corrupt);
      }
      var e := Evidence(drawn.value, t.counter, req.source, req.wit, [], 0);
      t := t.(evidence := t.evidence[e.id := e]);
      t := t.(keys := t.keys[req.key := e.id]);
      t := t.(sources := t.sources[sk := e.id]);
      t := t.(pending := t.pending[BigEndian64(e.sequence) := e.id]);
      tenants := tenants[req.tenant := t];
      return Success((e, true));
    }

    method Find(tenant: bytes, key: bytes, sk: SourceKey) returns (r: Result<Option<Evidence>, Error>)
      ensures r == Storage.Find(tenants, tenant, key, sk)
    {
      if tenant !in tenants {
        return Success(None);
      }
      var t := tenants[tenant];
      var id: bytes;
      if key in t.keys {
        id := t.keys[key];
      } else if sk in t.sources {
        id := t.sources[sk];
      } else {
        return Success(None);
      }
      var found := LoadEvidence(t, id);
      if found.Failure? {
        return Failure(found.error);
      }
      if found.value.source != sk.source || found.value.wit.representation != sk.representation {
        return Failure(Conflict);
      }
      return Success(Some(found.value));
    }

    method IngestDocument(req: DocumentRequest, nonce: Hash, draws: seq<Draw>) returns (r: Outcome)
      modifies this
      ensures (tenants, r) == Ingestion.IngestDocument(old(tenants), req, nonce, draws)
    {
      Course(tenants, req, nonce, draws);
      hide Storage.Ingest, Ingestion.IngestDocument, ValidText, Commitment.New, Commitment.Verify, Commitment.Encode;
      if !ValidRequest(req) {
        return Failure(Invalid);
      }
      var existing := Find(req.tenant, req.key, Key(req));
      if existing.Failure? {
        return Failure(existing.error);
      }
      if existing.value.Some? {
        var e := existing.value.value;
        var c := Commitment.Compute(e.wit);
        if c.Failure? {
          return Failure(Corrupt);
        }
        if Commitment.Verify(req.document, e.wit, c.value, req.maxBytes).Failure? {
          return Failure(Conflict);
        }
        return Success((e, false));
      }
      var made := Commitment.New(req.document, req.representation, req.maxBytes, nonce);
      if made.Failure? {
        return Failure(Invalid);
      }
      var w := made.value.0;
      r := Ingest(WithWitness(req, w), draws);
      if r == Failure(Conflict) {
        var again := Find(req.tenant, req.key, Key(req));
        if again.Failure? {
          return Failure(again.error);
        }
        if again.value.Some? && again.value.value.wit.documentDigest == w.documentDigest {
          return Success((again.value.value, false));
        }
        return Failure(Conflict);
      }
    }

    /** FIFO selection by cursor, then one commit of members, batch, request key and outbox. */
    method Freeze(tenant: bytes, key: bytes, limit: int, draws: seq<Draw>) returns (r: Result<FrozenBatch, Error>)
      modifies this
      ensures (tenants, r) == Storage.Freeze(old(tenants), tenant, key, limit, draws)
    {
      if !ValidText(tenant) || !ValidText(key) || limit < 1 || limit > MAX_BATCH_ENTRIES {
        return Failure(Invalid);
      }
      if tenant !in tenants {
        return Failure(NotFound);
      }
      var t := tenants[tenant];
      if key in t.batchKeys {
        var stored := LoadBatch(t, t.batchKeys[key]);
        if stored.Failure? {
          return Failure(stored.error);
        }
        if stored.value.limit != limit {
          return Failure(Conflict);
        }
        assert tenants[tenant := t] == tenants;
        return Success(stored.value);
      }
      var selected := SelectPending(t, limit);
      if selected.Failure? {
        return Failure(selected.error);
      }
      var members := selected.value;
      if members == [] {
        return Failure(Empty);
      }
      var m := Batch.New(Commitments(members));
      var manifest := Batch.MarshalBinary(m.value);
      var drawn := DrawID(t.batches.Keys, draws);
      if drawn.None? {
        return Failure(Entropy);
      }
      var b := FrozenBatch(drawn.value, limit, [], manifest.value, NotSubmitted, []);
      var evidence, pending, ids := BindMembers(t, members, b.id);
      b := b.(evidenceIds := ids);
      t := t.(evidence := evidence, pending := pending);
      t := t.(batches := t.batches[b.id := b]);
      t := t.(batchKeys := t.batchKeys[key := b.id]);
      t := t.(outbox := t.outbox[b.id := b.manifest]);
      tenants := tenants[tenant := t];
      return Success(b);
    }

    method SelectPending(t: Tenant, limit: int) returns (r: Result<seq<Evidence>, Error>)
      requires 1 <= limit
      ensures r == Oldest(t, limit)
    {
      hide LoadEvidence, BigEndian64, TryAll, CursorKeys;
      var cursor := CursorKeys(t.pending.Keys);
      ghost var n := if |cursor| < limit then |cursor| else limit;
      TryNone(PendingAt(t, cursor));
      var members: seq<Evidence> := [];
      var i := 0;
      while i < |cursor| && |members| < limit
        invariant 0 <= i == |members| <= n
        invariant TryAll(PendingAt(t, cursor), i) == Success(members)
      {
        var found := LoadEvidence(t, t.pending[cursor[i]]);
        TryAllTurn(PendingAt(t, cursor), i, n);
        if found.Failure? || cursor[i] != BigEndian64(found.value.sequence) || found.value.batchId != [] {
          return Failure(if found.Failure? then found.error else Corrupt);
        }
        members := members + [found.value];
        i := i + 1;
      }
      return Success(members);
    }

    method BindMembers(t: Tenant, members: seq<Evidence>, batchId: bytes)
      returns (evidence: map<bytes, Evidence>, pending: map<bytes, bytes>, ids: seq<bytes>)
      requires |members| < U64_LIMIT
      ensures evidence == Bind(t.evidence, members, batchId)
      ensures pending == t.pending - SequenceKeys(members)
      ensures ids == IDs(members)
    {
      hide BigEndian64, Bind, IDs, SequenceKeys;
      BindNone(t.evidence, batchId);
      evidence, pending, ids := t.evidence, t.pending, [];
      var i := 0;
      while i < |members|
        invariant 0 <= i <= |members|
        invariant evidence == Bind(t.evidence, members[..i], batchId)
        invariant pending == t.pending - SequenceKeys(members[..i])
        invariant ids == IDs(members[..i])
      {
        BindNext(t.evidence, members, i, batchId);
        var e := members[i].(batchId := batchId, index := i);
        evidence := evidence[e.id := e];
        pending := pending - {BigEndian64(e.sequence)};
        ids := ids + [e.id];
        i := i + 1;
      }
      assert members[..i] == members;
    }

    method RecordSubmission(tenant: bytes, batchId: bytes, state: SubmissionState, ref: bytes)
      returns (r: Result<FrozenBatch, Error>)
      modifies this
      ensures (tenants, r) == Storage.RecordSubmission(old(tenants), tenant, batchId, state, ref)
    {
      if !ValidText(tenant) || !ValidID(batchId) || !ValidState(state) || !ValidRef(ref) {
        return Failure(Invalid);
      }
      if tenant !in tenants {
        return Failure(NotFound);
      }
      var t := tenants[tenant];
      var stored := LoadBatch(t, batchId);
      if stored.Failure? {
        return Failure(stored.error);
      }
      var b := stored.value;
      if b.state == Submitted && state != Submitted {
        return Failure(Conflict);
      }
      b := b.(state := state);
      b := b.(ref := ref);
      t := t.(batches := t.batches[batchId := b]);
      if state == Submitted {
        t := t.(outbox := t.outbox - {batchId});
      } else {
        t := t.(outbox := t.outbox[batchId := b.manifest]);
      }
      tenants := tenants[tenant := t];
      return Success(b);
    }

    method Outbox(tenant: bytes, limit: int) returns (r: Result<seq<Submission>, Error>)
      ensures r == Storage.Outbox(tenants, tenant, limit)
    {
      if !ValidText(tenant) || limit < 1 || limit > MAX_BATCH_ENTRIES {
        return Failure(Invalid);
      }
      if tenant !in tenants {
        return Failure(NotFound);
      }
      r := ListOutbox(tenants[tenant], limit);
    }

    method ListOutbox(t: Tenant, limit: int) returns (r: Result<seq<Submission>, Error>)
      requires 1 <= limit
      ensures r == TxOutbox(t, limit)
    {
      hide LoadBatch, TryAll;
      var cursor := CursorKeys(t.outbox.Keys);
      ghost var n := if |cursor| < limit then |cursor| else limit;
      TryNone(OutboxAt(t, cursor));
      var result: seq<Submission> := [];
      var i := 0;
      while i < |cursor| && |result| < limit
        invariant 0 <= i == |result| <= n
        invariant TryAll(OutboxAt(t, cursor), i) == Success(result)
      {
        var payload := t.outbox[cursor[i]];
        var b := LoadBatch(t, cursor[i]);
        TryAllTurn(OutboxAt(t, cursor), i, n);
        if b.Failure? || payload != b.value.manifest {
          return Failure(if b.Failure? then b.error else Corrupt);
        }
        result := result + [Submission(cursor[i], payload, b.value.state, b.value.ref)];
        i := i + 1;
      }
      return Success(result);
    }

    method UnanchoredPackage(tenant: bytes, id: bytes) returns (r: Result<Package.Package, Error>)
      ensures r == Storage.UnanchoredPackage(tenants, tenant, id)
    {
      if !ValidText(tenant) || !ValidID(id) {
        return Failure(Invalid);
      }
      if tenant !in tenants {
        return Failure(NotFound);
      }
      var t := tenants[tenant];
      var found := LoadEvidence(t, id);
      if found.Failure? {
        return Failure(found.error);
      }
      var e := found.value;
      if e.batchId == [] {
        return Failure(NotBatched);
      }
      var stored := LoadBatch(t, e.batchId);
      if stored.Failure? {
        return Failure(stored.error);
      }
      var b := stored.value;
      if e.index >= |b.evidenceIds| || b.evidenceIds[e.index] != id {
        return Failure(Corrupt);
      }
      var collected := CollectEntries(t, b);
      if collected.Failure? {
        return Failure(collected.error);
      }
      var entries := collected.value;
      var m := Batch.Parse(b.manifest);
      if m.Failure? {
        return Failure(Corrupt);
      }
      if Merkle.Root(entries) != m.value.root {
        return Failure(Corrupt);
      }
      var path := Merkle.Path(entries, e.index);
      if path.Failure? {
        return Failure(BadPath);
      }
      return Success(Package.Package(e.wit, m.value, e.index, path.value));
    }

    method CollectEntries(t: Tenant, b: FrozenBatch) returns (r: Result<seq<bytes>, Error>)
      ensures r == TryAll(EntryAt(t, b), |b.evidenceIds|)
    {
      hide LoadEvidence, TryAll;
      TryNone(EntryAt(t, b));
      var entries: seq<bytes> := [];
      for i := 0 to |b.evidenceIds|
        invariant TryAll(EntryAt(t, b), i) == Success(entries)
      {
        var found := LoadEvidence(t, b.evidenceIds[i]);
        TryAllTurn(EntryAt(t, b), i, |b.evidenceIds|);
        if found.Failure? || found.value.batchId != b.id || found.value.index != i {
          return Failure(if found.Failure? then found.error else Corrupt);
        }
        entries := entries + [CommitmentOf(found.value.wit)];
      }
      return Success(entries);
    }
  }
}
