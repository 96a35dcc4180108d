/** Freezing selects exactly the oldest pending evidence, and keeps the invariant. */
module FreezeInvariant {
  import opened Prelude
  import opened Encoding
  import opened Storage
  import opened StoreInvariant
  import Commitment
  import Batch

  // ---------- Selection ----------

  /** The next n pieces of evidence in sequence order. */
  function Queue(t: Tenant, l: Ledger, n: nat): (members: seq<Evidence>)
    requires EvidenceInv(t.evidence, l) && l.Batched() + n <= |l.order|
    ensures |members| == n
  {
    seq(n, i requires 0 <= i < n => t.evidence[l.order[l.Batched() + i]])
  }

  lemma QueueAt(t: Tenant, l: Ledger, n: nat, i: nat)
    requires EvidenceInv(t.evidence, l) && l.Batched() + n <= |l.order| && i < n
    ensures Queue(t, l, n)[i] == t.evidence[l.order[l.Batched() + i]]
  {
    hide GoodEvidence;
  }

  /** Big-endian keys of the sequence numbers first, first + 1, ... */
  function KeyRun(first: nat, n: nat): (ks: seq<bytes>)
    requires first + n <= U64_LIMIT
    ensures |ks| == n && forall i :: 0 <= i < n ==> ks[i] == BigEndian64(first + i)
  {
    seq(n, i requires 0 <= i < n => BigEndian64(first + i))
  }

  lemma KeyRunSorted(first: nat, n: nat)
    requires first + n <= U64_LIMIT
    ensures Sorted(KeyRun(first, n))
  {
    hide BigEndian64, LexLess, KeyRun;
    forall i, j | 0 <= i < j < n ensures LexLess(KeyRun(first, n)[i], KeyRun(first, n)[j]) {
      SequenceKeyOrder(first + i, first + j);
    }
  }

  lemma KeyRunElements(first: nat, n: nat)
    requires first + n <= U64_LIMIT
    ensures forall k :: k in KeyRun(first, n) <==> |k| == 8 && first <= FromBigEndian(k) < first + n
  {
    hide BigEndian64, FromBigEndian, KeyRun;
    KeysDecode();
    forall k | |k| == 8 && first <= FromBigEndian(k) < first + n ensures k in KeyRun(first, n) {
      assert KeyRun(first, n)[FromBigEndian(k) - first] == k;
    }
  }

  /** The cursor of the pending bucket visits the sequence numbers in increasing order. */
  lemma PendingOrder(pending: map<bytes, bytes>, l: Ledger)
    requires ShapeInv(l) && PendingInv(pending, l) && |l.order| < U64_LIMIT
    ensures CursorKeys(pending.Keys) == KeyRun(l.Batched() + 1, l.Waiting())
  {
    hide BigEndian64, FromBigEndian, CursorKeys, Sorted, LexLess, KeyRun;
    assert l.Batched() + l.Waiting() == |l.order|;
    var ks := KeyRun(l.Batched() + 1, l.Waiting());
    KeyRunSorted(l.Batched() + 1, l.Waiting());
    KeyRunElements(l.Batched() + 1, l.Waiting());
    CursorKeysUnique(pending.Keys, ks);
  }

  /** How many a freeze with this limit takes. */
  function Taken(l: Ledger, limit: nat): (n: nat)
    ensures n <= l.Waiting()
  {
    if l.Waiting() < limit then l.Waiting() else limit
  }

  /** Freezing sees exactly the oldest pending evidence, in order, and never anything inconsistent. */
  lemma OldestIsQueue(t: Tenant, l: Ledger, limit: nat)
    requires Inv(t, l)
    ensures l.Batched() + Taken(l, limit) <= |l.order|
    ensures Oldest(t, limit) == Success(Queue(t, l, Taken(l, limit)))
  {
    assert l.Batched() + l.Waiting() == |l.order|;
    hide ShapeInv, EvidenceInv, PendingInv, MemberInv, BatchInv, SourcesInv, OutboxInv, RequestInv, KeysInv;
    hide BigEndian64, CursorKeys, TryAll, KeyRun, PendingAt, Queue;
    var ks, n := CursorKeys(t.pending.Keys), Taken(l, limit);
    PendingOrder(t.pending, l);
    forall i | 0 <= i < n ensures PendingAt(t, ks)(i) == Success(Queue(t, l, n)[i]) {
      PendingItem(t, l, ks, i);
      QueueAt(t, l, n, i);
    }
    TryAllIs(PendingAt(t, ks), Queue(t, l, n));
  }

  lemma PendingItem(t: Tenant, l: Ledger, ks: seq<bytes>, i: nat)
    requires ShapeInv(l) && EvidenceInv(t.evidence, l) && PendingInv(t.pending, l) && MemberInv(t.evidence, l)
    requires l.Batched() + i < |l.order| < U64_LIMIT && i < |ks| && ks[i] == BigEndian64(l.Batched() + 1 + i)
    ensures PendingAt(t, ks)(i) == Success(t.evidence[l.order[l.Batched() + i]])
  {
    hide BigEndian64, FromBigEndian, GoodEvidence, LoadEvidence, Bound, ShapeInv;
    KeysDecode();
    assert FromBigEndian(ks[i]) == l.Batched() + 1 + i;
    LoadsEvidence(t, l, l.order[l.Batched() + i]);
  }

  // ---------- Binding ----------

  /** Binding changes members in batch ID and index only, */
  lemma {:induction false} BindAt(evidence: map<bytes, Evidence>, members: seq<Evidence>, batchId: bytes, i: nat)
    requires i < |members| < U64_LIMIT
    requires forall j :: i < j < |members| ==> members[i].id != members[j].id
    ensures var bound := Bind(evidence, members, batchId);
            members[i].id in bound && bound[members[i].id] == members[i].(batchId := batchId, index := i)
  {
    var last := |members| - 1;
    if i < last {
      BindAt(evidence, members[..last], batchId, i);
    }
  }

  /** and nothing else. */
  lemma {:induction false} BindElsewhere(evidence: map<bytes, Evidence>, members: seq<Evidence>, batchId: bytes,
                                         id: bytes)
    requires |members| < U64_LIMIT
    requires forall i :: 0 <= i < |members| ==> members[i].id != id
    ensures var bound := Bind(evidence, members, batchId);
            (id in bound <==> id in evidence) && (id in evidence ==> bound[id] == evidence[id])
  {
    if members != [] {
      BindElsewhere(evidence, members[..|members| - 1], batchId, id);
    }
  }

  /** The evidence bucket after a freeze, position by position. */
  ghost predicate Rebound(evidence: map<bytes, Evidence>, evidence': map<bytes, Evidence>, l: Ledger, n: nat,
                          batchId: bytes)
    requires EvidenceInv(evidence, l) && |l.order| < U64_LIMIT
  {
    && (forall id :: id in evidence' <==> id in evidence)
    && (forall id :: id in evidence ==>
          evidence'[id] == Refer(evidence[id], l.Batched(), n, batchId))
  }

  /** A piece of evidence bound to a batch if its position is one of the n from lo on. */
  function Refer(e: Evidence, lo: nat, n: nat, batchId: bytes): Evidence {
    if lo < e.sequence <= lo + n then e.(batchId := batchId, index := e.sequence - 1 - lo) else e
  }

  lemma QueueItem(t: Tenant, l: Ledger, n: nat, i: nat)
    requires EvidenceInv(t.evidence, l) && l.Batched() + n <= |l.order| && i < n
    ensures var e := Queue(t, l, n)[i];
            && e.id == l.order[l.Batched() + i] && e.id in t.evidence && t.evidence[e.id] == e
            && e.sequence == l.Batched() + i + 1
  {
    hide ValidID, ValidSource, Commitment.Encode;
  }

  lemma QueueDistinct(t: Tenant, l: Ledger, n: nat)
    requires EvidenceInv(t.evidence, l) && l.Batched() + n <= |l.order|
    ensures forall i :: 0 <= i < n ==>
              Queue(t, l, n)[i].id == l.order[l.Batched() + i] && Queue(t, l, n)[i].sequence == l.Batched() + i + 1
    ensures forall i, j :: 0 <= i < j < n ==> Queue(t, l, n)[i].id != Queue(t, l, n)[j].id
  {
    hide EvidenceInv, Queue;
    var q := Queue(t, l, n);
    forall i | 0 <= i < n ensures q[i].id == l.order[l.Batched() + i] && q[i].sequence == l.Batched() + i + 1 {
      QueueItem(t, l, n, i);
    }
    forall i, j | 0 <= i < j < n ensures q[i].id != q[j].id {
      QueueItem(t, l, n, i);
      QueueItem(t, l, n, j);
    }
  }

  lemma FreezeRebinds(t: Tenant, l: Ledger, n: nat, batchId: bytes)
    requires EvidenceInv(t.evidence, l) && l.Batched() + n <= |l.order| < U64_LIMIT
    ensures Rebound(t.evidence, Bind(t.evidence, Queue(t, l, n), batchId), l, n, batchId)
  {
    hide GoodEvidence, Bind, Queue;
    var q := Queue(t, l, n);
    var bound := Bind(t.evidence, q, batchId);
    QueueDistinct(t, l, n);
    forall id
      ensures id in bound <==> id in t.evidence
      ensures id in t.evidence ==> bound[id] == Refer(t.evidence[id], l.Batched(), n, batchId)
    {
      if id in t.evidence && l.Batched() < t.evidence[id].sequence <= l.Batched() + n {
        var i := t.evidence[id].sequence - 1 - l.Batched();
        QueueItem(t, l, n, i);
        BindAt(t.evidence, q, batchId, i);
      } else {
        forall i | 0 <= i < n ensures q[i].id != id {
          QueueItem(t, l, n, i);
        }
        BindElsewhere(t.evidence, q, batchId, id);
      }
    }
  }

  // ---------- Clauses ----------

  /** The ledger after freezing n more. */
  function Frozen(l: Ledger, n: nat, batchId: bytes): Ledger
  {
    Ledger(l.order, l.frozen + [batchId], l.cuts + [l.Batched() + n])
  }

  lemma FreezeKeepsShape(l: Ledger, n: nat, batchId: bytes)
    requires ShapeInv(l) && 1 <= n && l.Batched() + n <= |l.order|
    ensures var l' := Frozen(l, n, batchId);
            && ShapeInv(l') && l'.Batched() == l.Batched() + n
            && l'.Members(|l.frozen|) == l.order[l.Batched()..l.Batched() + n]
            && (forall j :: 0 <= j < |l.frozen| ==> l'.Members(j) == l.Members(j) && l'.frozen[j] == l.frozen[j])
  {
    var l' := Frozen(l, n, batchId);
    assert forall j :: 0 <= j < |l.cuts| ==> l'.cuts[j] == l.cuts[j] && l.cuts[j] <= l.Batched();
  }

  lemma ReboundKeepsEvidence(evidence: map<bytes, Evidence>, evidence': map<bytes, Evidence>, l: Ledger, n: nat,
                             batchId: bytes)
    requires EvidenceInv(evidence, l) && |l.order| < U64_LIMIT
    requires Rebound(evidence, evidence', l, n, batchId)
    ensures EvidenceInv(evidence', Frozen(l, n, batchId))
    ensures forall id :: id in evidence ==>
              id in evidence' && evidence'[id].wit == evidence[id].wit && KeyOf(evidence'[id]) == KeyOf(evidence[id])
  {
    hide GoodEvidence, Refer;
    forall id | id in evidence
      ensures evidence'[id].wit == evidence[id].wit && KeyOf(evidence'[id]) == KeyOf(evidence[id])
      ensures GoodEvidence(id, evidence'[id]) && evidence'[id].sequence == evidence[id].sequence
    {
      ReferKeeps(id, evidence[id], l.Batched(), n, batchId);
    }
  }

  lemma ReferKeeps(id: bytes, e: Evidence, lo: nat, n: nat, batchId: bytes)
    ensures Refer(e, lo, n, batchId).wit == e.wit && KeyOf(Refer(e, lo, n, batchId)) == KeyOf(e)
    ensures Refer(e, lo, n, batchId).sequence == e.sequence
            && (GoodEvidence(id, e) ==> GoodEvidence(id, Refer(e, lo, n, batchId)))
  {
    hide ValidSource, ValidID, Commitment.Encode;
  }

  lemma ReboundKeepsMembers(evidence: map<bytes, Evidence>, evidence': map<bytes, Evidence>, l: Ledger, n: nat,
                            batchId: bytes)
    requires ShapeInv(l) && EvidenceInv(evidence, l) && 1 <= n && l.Batched() + n <= |l.order| < U64_LIMIT
    requires MemberInv(evidence, l) && Rebound(evidence, evidence', l, n, batchId)
    ensures ShapeInv(Frozen(l, n, batchId)) && EvidenceInv(evidence', Frozen(l, n, batchId))
    ensures MemberInv(evidence', Frozen(l, n, batchId))
  {
    hide GoodEvidence;
    FreezeKeepsShape(l, n, batchId);
    ReboundKeepsEvidence(evidence, evidence', l, n, batchId);
    var l' := Frozen(l, n, batchId);
    forall j | 0 <= j < |l'.frozen| ensures Bound(evidence', l'.Members(j), l'.frozen[j]) {
      if j < |l.frozen| {
        OldMembersStay(evidence, evidence', l, n, batchId, j);
      } else {
        NewMembersBound(evidence, evidence', l, n, batchId);
      }
    }
  }

  lemma OldMembersStay(evidence: map<bytes, Evidence>, evidence': map<bytes, Evidence>, l: Ledger, n: nat,
                       batchId: bytes, j: nat)
    requires ShapeInv(l) && EvidenceInv(evidence, l) && l.Batched() + n <= |l.order| < U64_LIMIT && j < |l.frozen|
    requires Bound(evidence, l.Members(j), l.frozen[j]) && Rebound(evidence, evidence', l, n, batchId)
    ensures Bound(evidence', l.Members(j), l.frozen[j])
  {
    hide GoodEvidence;
    assert l.cuts[j + 1] <= l.Batched();
    forall i | 0 <= i < |l.Members(j)| ensures evidence'[l.Members(j)[i]] == evidence[l.Members(j)[i]] {
      assert l.Members(j)[i] == l.order[l.cuts[j] + i];
    }
  }

  lemma NewMembersBound(evidence: map<bytes, Evidence>, evidence': map<bytes, Evidence>, l: Ledger, n: nat,
                        batchId: bytes)
    requires EvidenceInv(evidence, l) && l.Batched() + n <= |l.order| < U64_LIMIT
    requires Rebound(evidence, evidence', l, n, batchId)
    ensures Bound(evidence', l.order[l.Batched()..l.Batched() + n], batchId)
  {
    hide GoodEvidence;
    var members := l.order[l.Batched()..l.Batched() + n];
    forall i | 0 <= i < |members|
      ensures members[i] in evidence' && evidence'[members[i]].batchId == batchId && evidence'[members[i]].index == i
    {
      assert members[i] == l.order[l.Batched() + i];
      assert evidence[members[i]].sequence == l.Batched() + i + 1;
    }
  }

  lemma FreezeKeepsPending(t: Tenant, l: Ledger, n: nat, batchId: bytes)
    requires ShapeInv(l) && EvidenceInv(t.evidence, l) && PendingInv(t.pending, l)
    requires 1 <= n && l.Batched() + n <= |l.order| < U64_LIMIT
    ensures ShapeInv(Frozen(l, n, batchId))
    ensures PendingInv(t.pending - SequenceKeys(Queue(t, l, n)), Frozen(l, n, batchId))
  {
    hide FromBigEndian, EvidenceInv, Queue, SequenceKeys;
    FreezeKeepsShape(l, n, batchId);
    QueueKeys(t, l, n);
  }

  /** The keys a freeze removes from the pending bucket are those of the sequence numbers it takes. */
  lemma QueueKeys(t: Tenant, l: Ledger, n: nat)
    requires EvidenceInv(t.evidence, l) && l.Batched() + n <= |l.order| < U64_LIMIT
    ensures forall key: bytes :: |key| == 8 ==>
              (key in SequenceKeys(Queue(t, l, n)) <==> l.Batched() < FromBigEndian(key) <= l.Batched() + n)
  {
    hide BigEndian64, FromBigEndian, EvidenceInv, Queue;
    KeysDecode();
    QueueDistinct(t, l, n);
    var q := Queue(t, l, n);
    forall key: bytes | |key| == 8
      ensures key in SequenceKeys(q) <==> l.Batched() < FromBigEndian(key) <= l.Batched() + n
    {
      if l.Batched() < FromBigEndian(key) <= l.Batched() + n {
        var e := q[FromBigEndian(key) - 1 - l.Batched()];
        assert e in q && BigEndian64(e.sequence) == key;
      }
    }
  }

  /** The frozen manifest is the manifest of the stored members' commitments. */
  lemma {:induction false} CommitmentsAreEntries(evidence: map<bytes, Evidence>, members: seq<Evidence>)
    requires forall i :: 0 <= i < |members| ==>
               members[i].id in evidence && evidence[members[i].id].wit == members[i].wit
    ensures Commitments(members) == Entries(evidence, IDs(members))
  {
    if members != [] {
      var init := members[..|members| - 1];
      CommitmentsAreEntries(evidence, init);
      assert IDs(members) == IDs(init) + [members[|members| - 1].id];
      assert Entries(evidence, IDs(members))
          == Entries(evidence, IDs(init)) + [CommitmentOf(members[|members| - 1].wit)];
    }
  }

  lemma NewBatchGood(t: Tenant, l: Ledger, n: nat, id: bytes, limit: int)
    requires EvidenceInv(t.evidence, l) && l.Batched() + n <= |l.order| < U64_LIMIT
    requires 1 <= n <= limit <= MAX_BATCH_ENTRIES && ValidID(id)
    ensures GoodBatch(t.evidence, NewBatch(id, limit, Queue(t, l, n)), id, l.order[l.Batched()..l.Batched() + n])
  {
    hide Batch.Encode, Batch.Of, GoodEvidence, EvidenceInv, Entries, Commitments, IDs, Queue, ValidID;
    var q := Queue(t, l, n);
    QueueDistinct(t, l, n);
    forall i | 0 <= i < n ensures q[i].id in t.evidence && t.evidence[q[i].id] == q[i] {
      QueueItem(t, l, n, i);
    }
    CommitmentsAreEntries(t.evidence, q);
    assert IDs(q) == l.order[l.Batched()..l.Batched() + n];
  }

  lemma NewBatchKept(t: Tenant, l: Ledger, n: nat, id: bytes, limit: int, evidence': map<bytes, Evidence>)
    requires EvidenceInv(t.evidence, l) && l.Batched() + n <= |l.order| < U64_LIMIT
    requires 1 <= n <= limit <= MAX_BATCH_ENTRIES && ValidID(id)
    requires forall id :: id in t.evidence ==> id in evidence' && evidence'[id].wit == t.evidence[id].wit
    ensures GoodBatch(evidence', NewBatch(id, limit, Queue(t, l, n)), id, l.order[l.Batched()..l.Batched() + n])
  {
    hide GoodBatch, NewBatch, Queue, GoodEvidence, ValidID;
    NewBatchGood(t, l, n, id, limit);
    GoodBatchFrame(t.evidence, evidence', NewBatch(id, limit, Queue(t, l, n)), id,
                   l.order[l.Batched()..l.Batched() + n]);
  }

  lemma FreezeKeepsBatches(t: Tenant, l: Ledger, n: nat, id: bytes, limit: int, evidence': map<bytes, Evidence>)
    requires ShapeInv(l) && EvidenceInv(t.evidence, l) && BatchInv(t.evidence, t.batches, l) && id !in t.batches
    requires l.Batched() + n <= |l.order| < U64_LIMIT && 1 <= n <= limit <= MAX_BATCH_ENTRIES && ValidID(id)
    requires forall id :: id in t.evidence ==> id in evidence' && evidence'[id].wit == t.evidence[id].wit
    ensures ShapeInv(Frozen(l, n, id))
    ensures BatchInv(evidence', t.batches[id := NewBatch(id, limit, Queue(t, l, n))], Frozen(l, n, id))
  {
    hide GoodBatch, EvidenceInv, NewBatch, Queue, ValidID, ShapeInv, BatchInv, Ledger.Members, Ledger.Batched;
    FreezeKeepsShape(l, n, id);
    NewBatchKept(t, l, n, id, limit, evidence');
    BatchesFrame(t.evidence, evidence', t.batches, l, l.order);
    assert l.(order := l.order) == l;
    BatchAdded(evidence', t.batches, l, Frozen(l, n, id), id, NewBatch(id, limit, Queue(t, l, n)));
  }

  /** One more good batch at the end of the freeze order. */
  lemma BatchAdded(evidence: map<bytes, Evidence>, batches: map<bytes, FrozenBatch>, l: Ledger, l': Ledger,
                   id: bytes, b: FrozenBatch)
    requires ShapeInv(l) && ShapeInv(l') && l'.frozen == l.frozen + [id] && BatchInv(evidence, batches, l)
    requires id !in batches && GoodBatch(evidence, b, id, l'.Members(|l.frozen|))
    requires forall j :: 0 <= j < |l.frozen| ==> l'.Members(j) == l.Members(j)
    ensures BatchInv(evidence, batches[id := b], l')
  {
    hide GoodBatch, Ledger.Members;
    forall j | 0 <= j < |l'.frozen|
      ensures l'.frozen[j] in batches[id := b]
      ensures GoodBatch(evidence, batches[id := b][l'.frozen[j]], l'.frozen[j], l'.Members(j))
    {
      if j < |l.frozen| { assert l'.frozen[j] == l.frozen[j] && l.frozen[j] in batches; }
    }
  }

  lemma FreezeKeepsIndexes(t: Tenant, evidence': map<bytes, Evidence>, key: bytes, b: FrozenBatch)
    requires KeysInv(t.keys, t.evidence) && SourcesInv(t.sources, t.evidence)
    requires RequestInv(t.batchKeys, t.batches) && OutboxInv(t.outbox, t.batches)
    requires forall id :: id in evidence' <==> id in t.evidence
    requires forall id :: id in t.evidence ==> KeyOf(evidence'[id]) == KeyOf(t.evidence[id])
    requires b.id !in t.batches && key !in t.batchKeys && b.state == NotSubmitted
    ensures KeysInv(t.keys, evidence') && SourcesInv(t.sources, evidence')
    ensures RequestInv(t.batchKeys[key := b.id], t.batches[b.id := b])
    ensures OutboxInv(t.outbox[b.id := b.manifest], t.batches[b.id := b])
  {
  }

  lemma BindKeepsInv(t: Tenant, l: Ledger, key: bytes, limit: int, n: nat, id: bytes)
    requires Inv(t, l) && key !in t.batchKeys && id !in t.batches && ValidID(id)
    requires 1 <= n <= limit <= MAX_BATCH_ENTRIES && l.Batched() + n <= |l.order|
    ensures Inv(BindBatch(t, key, NewBatch(id, limit, Queue(t, l, n)), Queue(t, l, n)), Frozen(l, n, id))
  {
    hide ShapeInv, EvidenceInv, PendingInv, MemberInv, BatchInv, KeysInv, SourcesInv, RequestInv, OutboxInv,
      Bind, SequenceKeys, Queue;
    var q := Queue(t, l, n);
    var b := NewBatch(id, limit, q);
    var evidence' := Bind(t.evidence, q, id);
    FreezeRebinds(t, l, n, id);
    ReboundKeepsEvidence(t.evidence, evidence', l, n, id);
    ReboundKeepsMembers(t.evidence, evidence', l, n, id);
    FreezeKeepsPending(t, l, n, id);
    FreezeKeepsBatches(t, l, n, id, limit, evidence');
    FreezeKeepsIndexes(t, evidence', key, b);
  }

  /** The outcome of a freeze in every state the store can reach: the stored batch or a conflict for a known request
      key; otherwise nothing pending, no ID, or the oldest pending evidence. Nothing is ever found corrupt. */
  lemma FreezeOutcome(t: Tenant, l: Ledger, key: bytes, limit: int, draws: seq<Draw>)
    requires Inv(t, l) && 1 <= limit <= MAX_BATCH_ENTRIES
    ensures l.Batched() + Taken(l, limit) <= |l.order|
    ensures key in t.batchKeys ==> t.batchKeys[key] in t.batches
    ensures var r, n := TxFreeze(t, key, limit, draws), Taken(l, limit);
            if key in t.batchKeys then
              var b := t.batches[t.batchKeys[key]];
              r == if b.limit == limit then Success((t, b)) else Failure(Conflict)
            else if n == 0 then r == Failure(Empty)
            else match NewID(t.batches.Keys, draws)
                 case None => r == Failure(Entropy)
                 case Some(id) =>
                   var b := NewBatch(id, limit, Queue(t, l, n));
                   r == Success((BindBatch(t, key, b, Queue(t, l, n)), b))
  {
    hide ShapeInv, EvidenceInv, PendingInv, MemberInv, BatchInv, KeysInv, SourcesInv, OutboxInv, Bind,
      SequenceKeys, Queue, LoadBatch, Oldest, NewBatch, BindBatch, NewID;
    OldestIsQueue(t, l, limit);
    if key in t.batchKeys {
      LoadsBatch(t, l, t.batchKeys[key]);
    }
  }

  lemma FreezeKeepsInv(t: Tenant, l: Ledger, key: bytes, limit: int, draws: seq<Draw>)
    requires Inv(t, l) && 1 <= limit <= MAX_BATCH_ENTRIES && TxFreeze(t, key, limit, draws).Success?
    ensures Valid(TxFreeze(t, key, limit, draws).value.0)
  {
    hide Queue, NewBatch, BindBatch, TxFreeze, NewID, EvidenceInv, ShapeInv, PendingInv, MemberInv, BatchInv;
    FreezeOutcome(t, l, key, limit, draws);
    if key !in t.batchKeys {
      BindKeepsInv(t, l, key, limit, Taken(l, limit), NewID(t.batches.Keys, draws).value);
    }
  }
}
