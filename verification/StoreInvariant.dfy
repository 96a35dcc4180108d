/** What every reachable tenant state satisfies, and that every transaction keeps it. */
module StoreInvariant {
  import opened Prelude
  import opened Encoding
  import opened Storage
  import Merkle
  import Commitment
  import Batch

  /** The history a tenant state stands for: evidence IDs by sequence number, batch IDs in freeze order,
      and where each batch ends (cuts[j] is where batch j begins). */
  datatype Ledger = Ledger(order: seq<bytes>, frozen: seq<bytes>, cuts: seq<nat>) {
    /** How many pieces of evidence have been batched. */
    function Batched(): nat {
      if |cuts| == 0 then 0 else cuts[|cuts| - 1]
    }

    /** How many are pending. */
    function Waiting(): nat {
      if Batched() <= |order| then |order| - Batched() else 0
    }

    function Members(j: nat): seq<bytes>
      requires j + 1 < |cuts| && cuts[j] <= cuts[j + 1] <= |order|
    {
      order[cuts[j]..cuts[j + 1]]
    }
  }

  const EMPTY_LEDGER := Ledger([], [], [0])

  /** The batches cut 1..Batched() into consecutive non-empty intervals. */
  ghost predicate ShapeInv(l: Ledger) {
    && |l.cuts| == |l.frozen| + 1 && l.cuts[0] == 0
    && (forall j, k :: 0 <= j < k < |l.cuts| ==> l.cuts[j] < l.cuts[k])
    && (forall j :: 0 <= j < |l.cuts| ==> l.cuts[j] <= |l.order|)
  }

  predicate GoodEvidence(id: bytes, e: Evidence) {
    e.id == id && ValidID(id) && e.sequence > 0 && ValidSource(e.source) && Commitment.Supported(e.wit)
  }

  /** Sequence numbers are exactly 1..N, one per piece of evidence. */
  ghost predicate EvidenceInv(evidence: map<bytes, Evidence>, l: Ledger) {
    && (forall k :: 0 <= k < |l.order| ==> l.order[k] in evidence && evidence[l.order[k]].sequence == k + 1)
    && (forall id :: id in evidence ==>
          var e := evidence[id];
          GoodEvidence(id, e) && 1 <= e.sequence <= |l.order| && l.order[e.sequence - 1] == id)
  }

  /** The pending keys are exactly the big-endian numbers Batched()+1..N, each naming its evidence. */
  ghost predicate PendingInv(pending: map<bytes, bytes>, l: Ledger)
    requires ShapeInv(l)
  {
    && (forall key :: key in pending <==> |key| == 8 && l.Batched() < FromBigEndian(key) <= |l.order|)
    && (forall key :: key in pending ==> pending[key] == l.order[FromBigEndian(key) - 1])
  }

  /** The members of every batch point back at it; everything after the last batch is pending. */
  ghost predicate MemberInv(evidence: map<bytes, Evidence>, l: Ledger)
    requires ShapeInv(l) && EvidenceInv(evidence, l)
  {
    && (forall j :: 0 <= j < |l.frozen| ==> Bound(evidence, l.Members(j), l.frozen[j]))
    && (forall k :: l.Batched() <= k < |l.order| ==> evidence[l.order[k]].batchId == [])
  }

  /** Each member points back at its batch and its own place in it. */
  predicate Bound(evidence: map<bytes, Evidence>, members: seq<bytes>, batchId: bytes) {
    forall i :: 0 <= i < |members| ==>
      members[i] in evidence && evidence[members[i]].batchId == batchId && evidence[members[i]].index == i
  }

  /** The tree entries of stored evidence. */
  function Entries(evidence: map<bytes, Evidence>, ids: seq<bytes>): (entries: seq<bytes>)
    ensures |entries| == |ids|
  {
    seq(|ids|, i requires 0 <= i < |ids| => if ids[i] in evidence then CommitmentOf(evidence[ids[i]].wit) else [])
  }

  /** A stored batch: its members in order, no more than its limit, and the manifest of exactly their commitments. */
  predicate GoodBatch(evidence: map<bytes, Evidence>, b: FrozenBatch, id: bytes, members: seq<bytes>) {
    && b.id == id && ValidID(id) && 1 <= b.limit <= MAX_BATCH_ENTRIES
    && b.evidenceIds == members && 1 <= |members| <= b.limit
    && b.manifest == Batch.Encode(Batch.Of(Entries(evidence, members)))
    && ValidState(b.state) && ValidRef(b.ref)
  }

  ghost predicate BatchInv(evidence: map<bytes, Evidence>, batches: map<bytes, FrozenBatch>, l: Ledger)
    requires ShapeInv(l)
  {
    && (forall j :: 0 <= j < |l.frozen| ==>
          l.frozen[j] in batches && GoodBatch(evidence, batches[l.frozen[j]], l.frozen[j], l.Members(j)))
    && (forall id :: id in batches ==> id in l.frozen)
    && (forall i, j :: 0 <= i < j < |l.frozen| ==> l.frozen[i] != l.frozen[j])
  }

  function KeyOf(e: Evidence): SourceKey {
    SourceKey(e.source, e.wit.representation)
  }

  ghost predicate KeysInv(keys: map<bytes, bytes>, evidence: map<bytes, Evidence>) {
    forall key :: key in keys ==> keys[key] in evidence
  }

  /** Every piece of evidence is the one its own source and representation name, and only that one. */
  ghost predicate SourcesInv(sources: map<SourceKey, bytes>, evidence: map<bytes, Evidence>) {
    && (forall sk :: sk in sources ==> sources[sk] in evidence && KeyOf(evidence[sources[sk]]) == sk)
    && (forall id :: id in evidence ==> KeyOf(evidence[id]) in sources && sources[KeyOf(evidence[id])] == id)
  }

  /** Request keys name batches, no two of them the same one. */
  ghost predicate RequestInv(batchKeys: map<bytes, bytes>, batches: map<bytes, FrozenBatch>) {
    && (forall key :: key in batchKeys ==> batchKeys[key] in batches)
    && (forall key, key' :: key in batchKeys && key' in batchKeys && batchKeys[key] == batchKeys[key'] ==> key == key')
  }

  /** The outbox holds exactly the manifests of the batches not yet submitted. */
  ghost predicate OutboxInv(outbox: map<bytes, bytes>, batches: map<bytes, FrozenBatch>) {
    && (forall id :: id in outbox <==> id in batches && batches[id].state != Submitted)
    && (forall id :: id in outbox ==> outbox[id] == batches[id].manifest)
  }

  ghost predicate Inv(t: Tenant, l: Ledger) {
    && |l.order| == t.counter
    && ShapeInv(l) && EvidenceInv(t.evidence, l) && PendingInv(t.pending, l) && MemberInv(t.evidence, l)
    && BatchInv(t.evidence, t.batches, l) && KeysInv(t.keys, t.evidence) && SourcesInv(t.sources, t.evidence)
    && RequestInv(t.batchKeys, t.batches) && OutboxInv(t.outbox, t.batches)
  }

  ghost predicate Valid(t: Tenant) {
    exists l :: Inv(t, l)
  }

  lemma EmptyInv()
    ensures Inv(EMPTY_TENANT, EMPTY_LEDGER)
  {
    hide FromBigEndian;
  }

  // ---------- Loading ----------

  lemma LoadsEvidence(t: Tenant, l: Ledger, id: bytes)
    requires EvidenceInv(t.evidence, l)
    ensures LoadEvidence(t, id) == if id in t.evidence then Success(t.evidence[id]) else Failure(NotFound)
  {
  }

  lemma GoodBatchLoads(t: Tenant, b: FrozenBatch, id: bytes, members: seq<bytes>)
    requires GoodBatch(t.evidence, b, id, members)
    ensures Batch.Parse(b.manifest) == Success(Batch.Of(Entries(t.evidence, members)))
    ensures id in t.batches && t.batches[id] == b ==> LoadBatch(t, id) == Success(b)
  {
    hide Batch.Encode, Batch.Parse, Merkle.Root, Entries;
    var m := Batch.Of(Entries(t.evidence, members));
    assert Batch.Valid(m);
    Batch.ParseEncoded(m);
  }

  lemma LoadsBatch(t: Tenant, l: Ledger, id: bytes)
    requires ShapeInv(l) && BatchInv(t.evidence, t.batches, l)
    ensures LoadBatch(t, id) == if id in t.batches then Success(t.batches[id]) else Failure(NotFound)
  {
    if id in t.batches {
      var j := BatchPlace(t, l, id);
      GoodBatchLoads(t, t.batches[id], id, l.Members(j));
    }
  }

  /** The position of a batch in freeze order. */
  lemma BatchPlace(t: Tenant, l: Ledger, id: bytes) returns (j: nat)
    requires ShapeInv(l) && BatchInv(t.evidence, t.batches, l) && id in t.batches
    ensures j < |l.frozen| && l.frozen[j] == id && GoodBatch(t.evidence, t.batches[id], id, l.Members(j))
  {
    hide GoodBatch;
    j :| 0 <= j < |l.frozen| && l.frozen[j] == id;
  }

  /** The batch whose interval holds batched evidence k. */
  lemma IntervalOf(l: Ledger, k: nat) returns (j: nat)
    requires ShapeInv(l) && k < l.Batched()
    ensures j < |l.frozen| && l.cuts[j] <= k < l.cuts[j + 1]
  {
    j := 0;
    while l.cuts[j + 1] <= k
      invariant j < |l.frozen| && l.cuts[j] <= k
      decreases |l.frozen| - j
    {
      j := j + 1;
    }
  }

  // ---------- Frames ----------

  lemma EntriesFrame(evidence: map<bytes, Evidence>, evidence': map<bytes, Evidence>, ids: seq<bytes>)
    requires forall i :: 0 <= i < |ids| ==>
               ids[i] in evidence && ids[i] in evidence' && evidence[ids[i]].wit == evidence'[ids[i]].wit
    ensures Entries(evidence, ids) == Entries(evidence', ids)
  {
  }

  lemma GoodBatchFrame(evidence: map<bytes, Evidence>, evidence': map<bytes, Evidence>,
                       b: FrozenBatch, id: bytes, members: seq<bytes>)
    requires GoodBatch(evidence, b, id, members)
    requires forall i :: 0 <= i < |members| ==> members[i] in evidence
    requires forall id :: id in evidence ==> id in evidence' && evidence'[id].wit == evidence[id].wit
    ensures GoodBatch(evidence', b, id, members)
  {
    hide Batch.Encode, Batch.Of, ValidText, ValidID, ValidState, ValidRef;
    EntriesFrame(evidence, evidence', members);
  }

  /** Frozen batches stay good while the witnesses of recorded evidence do not change. */
  lemma BatchesFrame(evidence: map<bytes, Evidence>, evidence': map<bytes, Evidence>,
                     batches: map<bytes, FrozenBatch>, l: Ledger, order: seq<bytes>)
    requires ShapeInv(l) && ShapeInv(l.(order := order)) && l.order <= order
    requires EvidenceInv(evidence, l) && BatchInv(evidence, batches, l)
    requires forall id :: id in evidence ==> id in evidence' && evidence'[id].wit == evidence[id].wit
    ensures BatchInv(evidence', batches, l.(order := order))
  {
    hide GoodBatch, GoodEvidence;
    forall j | 0 <= j < |l.frozen|
      ensures GoodBatch(evidence', batches[l.frozen[j]], l.frozen[j], l.(order := order).Members(j))
    {
      MembersStay(l, order, j);
      GoodBatchFrame(evidence, evidence', batches[l.frozen[j]], l.frozen[j], l.Members(j));
    }
  }

  lemma MembersStay(l: Ledger, order: seq<bytes>, j: nat)
    requires ShapeInv(l) && l.order <= order && j < |l.frozen|
    ensures l.cuts[j] <= l.cuts[j + 1] <= |l.order|
    ensures l.(order := order).Members(j) == l.Members(j)
  {
  }

  lemma ShapeGrows(l: Ledger, id: bytes)
    requires ShapeInv(l)
    ensures ShapeInv(l.(order := l.order + [id]))
  {
  }

  lemma KeysDecode()
    ensures forall key: bytes :: |key| == 8 ==> FromBigEndian(key) < U64_LIMIT && BigEndian64(FromBigEndian(key)) == key
    ensures forall n: U64 :: FromBigEndian(BigEndian64(n)) == n
  {
    forall key: bytes | |key| == 8
      ensures FromBigEndian(key) < U64_LIMIT && BigEndian64(FromBigEndian(key)) == key
    {
      Batch.SizeFits(key);
    }
    forall n: U64 ensures FromBigEndian(BigEndian64(n)) == n {
      BigEndian64RoundTrip(n);
    }
  }

  // ---------- Ingestion ----------

  lemma AddKeepsPending(pending: map<bytes, bytes>, l: Ledger, id: bytes)
    requires ShapeInv(l) && PendingInv(pending, l) && |l.order| + 1 < U64_LIMIT
    ensures ShapeInv(l.(order := l.order + [id]))
    ensures PendingInv(pending[BigEndian64(|l.order| + 1) := id], l.(order := l.order + [id]))
  {
    hide BigEndian64, FromBigEndian;
    KeysDecode();
    ShapeGrows(l, id);
  }

  lemma AddKeepsEvidence(evidence: map<bytes, Evidence>, l: Ledger, id: bytes, e: Evidence)
    requires EvidenceInv(evidence, l)
    requires id !in evidence && GoodEvidence(id, e) && e.sequence == |l.order| + 1
    ensures EvidenceInv(evidence[id := e], l.(order := l.order + [id]))
  {
    hide GoodEvidence;
  }

  lemma AddKeepsMembers(evidence: map<bytes, Evidence>, l: Ledger, id: bytes, e: Evidence)
    requires ShapeInv(l) && EvidenceInv(evidence, l) && MemberInv(evidence, l)
    requires id !in evidence && GoodEvidence(id, e) && e.sequence == |l.order| + 1 && e.batchId == []
    ensures ShapeInv(l.(order := l.order + [id]))
    ensures EvidenceInv(evidence[id := e], l.(order := l.order + [id]))
    ensures MemberInv(evidence[id := e], l.(order := l.order + [id]))
  {
    hide GoodEvidence;
    AddKeepsEvidence(evidence, l, id, e);
    ShapeGrows(l, id);
    var l' := l.(order := l.order + [id]);
    forall j | 0 <= j < |l.frozen| ensures Bound(evidence[id := e], l'.Members(j), l'.frozen[j]) {
      MembersStay(l, l'.order, j);
    }
  }

  lemma AddKeepsIndexes(t: Tenant, id: bytes, key: bytes, e: Evidence)
    requires KeysInv(t.keys, t.evidence) && SourcesInv(t.sources, t.evidence)
    requires id !in t.evidence && KeyOf(e) !in t.sources
    ensures KeysInv(t.keys[key := id], t.evidence[id := e])
    ensures SourcesInv(t.sources[KeyOf(e) := id], t.evidence[id := e])
  {
  }

  lemma AddKeepsInv(t: Tenant, l: Ledger, req: IngestRequest, id: bytes)
    requires Inv(t, l) && ValidIngest(req) && ValidID(id) && id !in t.evidence && t.counter + 1 < U64_LIMIT
    requires SourceKey(req.source, req.wit.representation) !in t.sources
    ensures Inv(AddEvidence(t, req, id, t.counter + 1), l.(order := l.order + [id]))
  {
    hide BigEndian64, ShapeInv, EvidenceInv, PendingInv, MemberInv, BatchInv, OutboxInv, RequestInv, KeysInv,
      SourcesInv, ValidID;
    var e := NewEvidence(req, id, t.counter + 1);
    AddKeepsPending(t.pending, l, id);
    AddKeepsIndexes(t, id, req.key, e);
    AddKeepsMembers(t.evidence, l, id, e);
    BatchesFrame(t.evidence, t.evidence[id := e], t.batches, l, l.order + [id]);
  }

  lemma IngestKeepsInv(t: Tenant, l: Ledger, req: IngestRequest, draws: seq<Draw>)
    requires Inv(t, l) && ValidIngest(req) && TxIngest(t, req, draws).Success?
    ensures Valid(TxIngest(t, req, draws).value.0)
  {
    hide Inv, LoadEvidence, AddEvidence, ValidIngest, NewID;
    var (t', e, created) := TxIngest(t, req, draws).value;
    if created {
      AddKeepsInv(t, l, req, e.id);
      assert t' == AddEvidence(t, req, e.id, t.counter + 1);
    } else {
      AliasKeepsInv(t, l, req.key, e.id);
    }
  }

  lemma AliasKeepsInv(t: Tenant, l: Ledger, key: bytes, id: bytes)
    requires Inv(t, l) && id in t.evidence
    ensures Inv(t.(keys := t.keys[key := id]), l)
  {
    hide ShapeInv, EvidenceInv, PendingInv, MemberInv, BatchInv, OutboxInv, RequestInv, SourcesInv;
  }

  // ---------- Submission ----------

  lemma RecordKeepsInv(t: Tenant, l: Ledger, id: bytes, state: SubmissionState, ref: bytes)
    requires Inv(t, l) && ValidState(state) && ValidRef(ref) && TxRecord(t, id, state, ref).Success?
    ensures Inv(TxRecord(t, id, state, ref).value.0, l)
  {
    hide LoadBatch, ShapeInv, EvidenceInv, PendingInv, MemberInv, KeysInv, SourcesInv, BatchInv, RequestInv,
      OutboxInv, ValidState, ValidRef;
    LoadsBatch(t, l, id);
    RecordKeepsBatches(t, l, id, state, ref);
    RecordKeepsOutbox(t, id, state, ref);
  }

  lemma RecordKeepsOutbox(t: Tenant, id: bytes, state: SubmissionState, ref: bytes)
    requires RequestInv(t.batchKeys, t.batches) && OutboxInv(t.outbox, t.batches)
    requires id in t.batches && t.batches[id].id == id
    ensures var t' := SetSubmission(t, t.batches[id].(state := state, ref := ref));
            RequestInv(t'.batchKeys, t'.batches) && OutboxInv(t'.outbox, t'.batches)
  {
  }

  lemma RecordKeepsBatches(t: Tenant, l: Ledger, id: bytes, state: SubmissionState, ref: bytes)
    requires ShapeInv(l) && BatchInv(t.evidence, t.batches, l) && ValidState(state) && ValidRef(ref) && id in t.batches
    ensures BatchInv(t.evidence, t.batches[id := t.batches[id].(state := state, ref := ref)], l)
  {
    hide Batch.Encode, Batch.Of, ValidState, ValidRef, ValidID, Entries;
  }
}
