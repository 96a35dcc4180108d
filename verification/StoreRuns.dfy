/** Whole runs of the store: what every reachable state satisfies, and what no later step can change. */
module StoreRuns {
  import opened Prelude
  import opened Encoding
  import opened Storage
  import opened StoreInvariant
  import FreezeInvariant

  datatype Action =
    | DoIngest(req: IngestRequest, draws: seq<Draw>)
    | DoFreeze(tenant: bytes, key: bytes, limit: int, draws: seq<Draw>)
    | DoRecord(tenant: bytes, batchId: bytes, state: SubmissionState, ref: bytes)

  function Apply(db: Db, a: Action): Db {
    match a
    case DoIngest(req, draws) => Ingest(db, req, draws).0
    case DoFreeze(tenant, key, limit, draws) => Freeze(db, tenant, key, limit, draws).0
    case DoRecord(tenant, batchId, state, ref) => RecordSubmission(db, tenant, batchId, state, ref).0
  }

  /** The state after a sequence of actions. */
  function Run(db: Db, actions: seq<Action>): Db {
    if actions == [] then db else Apply(Run(db, actions[..|actions| - 1]), actions[|actions| - 1])
  }

  ghost predicate DbValid(db: Db) {
    forall name :: name in db ==> Valid(db[name])
  }

  // ---------- Monotonicity ----------

  /** Identity, order and content of evidence never change; only a pending piece may become a batch member. */
  predicate EvidenceKept(e: Evidence, e': Evidence) {
    && e'.id == e.id && e'.sequence == e.sequence && e'.source == e.source && e'.wit == e.wit
    && (e.batchId != [] ==> e'.batchId == e.batchId && e'.index == e.index)
  }

  /** Limit, members and manifest of a batch never change, and submitted is final. */
  predicate BatchKept(b: FrozenBatch, b': FrozenBatch) {
    && b'.id == b.id && b'.limit == b.limit && b'.evidenceIds == b.evidenceIds && b'.manifest == b.manifest
    && (b.state == Submitted ==> b'.state == Submitted)
  }

  ghost predicate Submap<K, V>(m: map<K, V>, m': map<K, V>) {
    forall k :: k in m ==> k in m' && m'[k] == m[k]
  }

  ghost predicate Extends(t: Tenant, t': Tenant) {
    && (forall id :: id in t.evidence ==> id in t'.evidence && EvidenceKept(t.evidence[id], t'.evidence[id]))
    && (forall id :: id in t.batches ==> id in t'.batches && BatchKept(t.batches[id], t'.batches[id]))
    && Submap(t.keys, t'.keys) && Submap(t.sources, t'.sources) && Submap(t.batchKeys, t'.batchKeys)
    && t.counter <= t'.counter
  }

  ghost predicate DbExtends(db: Db, db': Db) {
    forall name :: name in db ==> name in db' && Extends(db[name], db'[name])
  }

  lemma ExtendsTransitive(t: Tenant, t': Tenant, t'': Tenant)
    requires Extends(t, t') && Extends(t', t'')
    ensures Extends(t, t'')
  {
  }

  lemma IngestExtends(t: Tenant, l: Ledger, req: IngestRequest, draws: seq<Draw>)
    requires Inv(t, l) && TxIngest(t, req, draws).Success?
    ensures Extends(t, TxIngest(t, req, draws).value.0)
  {
    hide ShapeInv, EvidenceInv, PendingInv, MemberInv, BatchInv, KeysInv, SourcesInv, RequestInv, OutboxInv,
      LoadEvidence, NewID, BigEndian64;
    if KnownID(t, req.key, SourceKey(req.source, req.wit.representation)).Some? {
      ExtendsReflexive();
    }
  }

  lemma RecordExtends(t: Tenant, l: Ledger, id: bytes, state: SubmissionState, ref: bytes)
    requires Inv(t, l) && TxRecord(t, id, state, ref).Success?
    ensures Extends(t, TxRecord(t, id, state, ref).value.0)
  {
    hide ShapeInv, EvidenceInv, PendingInv, MemberInv, BatchInv, KeysInv, SourcesInv, RequestInv, OutboxInv,
      LoadBatch;
    LoadsBatch(t, l, id);
  }

  lemma FreezeExtends(t: Tenant, l: Ledger, key: bytes, limit: int, draws: seq<Draw>)
    requires Inv(t, l) && 1 <= limit <= MAX_BATCH_ENTRIES && TxFreeze(t, key, limit, draws).Success?
    ensures Extends(t, TxFreeze(t, key, limit, draws).value.0)
  {
    hide ShapeInv, EvidenceInv, MemberInv, PendingInv, BatchInv, KeysInv, SourcesInv, RequestInv, OutboxInv;
    hide Extends, TxFreeze, NewID, BindBatch, NewBatch, FreezeInvariant.Queue;
    FreezeInvariant.FreezeOutcome(t, l, key, limit, draws);
    if key in t.batchKeys {
      ExtendsReflexive();
    } else {
      BindExtends(t, l, key, limit, FreezeInvariant.Taken(l, limit), NewID(t.batches.Keys, draws).value);
    }
  }

  lemma BindExtends(t: Tenant, l: Ledger, key: bytes, limit: int, n: nat, id: bytes)
    requires ShapeInv(l) && EvidenceInv(t.evidence, l) && MemberInv(t.evidence, l)
    requires l.Batched() + n <= |l.order| < U64_LIMIT && key !in t.batchKeys && id !in t.batches
    ensures Extends(t, BindBatch(t, key, NewBatch(id, limit, FreezeInvariant.Queue(t, l, n)),
                                 FreezeInvariant.Queue(t, l, n)))
  {
    hide ShapeInv, EvidenceInv, MemberInv, FreezeInvariant.Queue, FreezeInvariant.Rebound, Bind, SequenceKeys,
      EvidenceKept, Extends;
    var q := FreezeInvariant.Queue(t, l, n);
    FreezeInvariant.FreezeRebinds(t, l, n, id);
    ReboundKept(t.evidence, Bind(t.evidence, q, id), l, n, id);
    var b := NewBatch(id, limit, q);
    assert b.id == id;
    hide NewBatch;
    BatchAdded(t, BindBatch(t, key, b, q), key, b);
  }

  lemma BatchAdded(t: Tenant, t': Tenant, key: bytes, b: FrozenBatch)
    requires forall id :: id in t.evidence ==> id in t'.evidence && EvidenceKept(t.evidence[id], t'.evidence[id])
    requires b.id !in t.batches && t'.batches == t.batches[b.id := b]
    requires key !in t.batchKeys && t'.batchKeys == t.batchKeys[key := b.id]
    requires t'.keys == t.keys && t'.sources == t.sources && t'.counter == t.counter
    ensures Extends(t, t')
  {
    hide EvidenceKept;
  }

  /** Only pending evidence is rebound. */
  lemma ReboundKept(evidence: map<bytes, Evidence>, evidence': map<bytes, Evidence>, l: Ledger, n: nat, batchId: bytes)
    requires ShapeInv(l) && EvidenceInv(evidence, l) && MemberInv(evidence, l) && |l.order| < U64_LIMIT
    requires FreezeInvariant.Rebound(evidence, evidence', l, n, batchId)
    ensures forall id :: id in evidence ==> id in evidence' && EvidenceKept(evidence[id], evidence'[id])
  {
    hide GoodEvidence, Bound;
  }

  // ---------- Steps of the whole store ----------

  lemma ApplyStep(db: Db, a: Action)
    requires DbValid(db)
    ensures DbValid(Apply(db, a)) && DbExtends(db, Apply(db, a))
  {
    hide Valid, Inv, Extends, TxIngest, TxFreeze, TxRecord, ValidIngest, ValidText, ValidID, ValidState, ValidRef;
    EmptyInv();
    match a {
      case DoIngest(req, draws) =>
        if ValidIngest(req) { IngestStep(TenantOf(db, req.tenant), req, draws); }
      case DoFreeze(tenant, key, limit, draws) =>
        if tenant in db && 1 <= limit <= MAX_BATCH_ENTRIES { FreezeStep(db[tenant], key, limit, draws); }
      case DoRecord(tenant, id, state, ref) =>
        if tenant in db && ValidState(state) && ValidRef(ref) { RecordStep(db[tenant], id, state, ref); }
    }
    ExtendsReflexive();
  }

  lemma ExtendsReflexive()
    ensures forall t :: Extends(t, t)
  {
  }

  lemma IngestStep(t: Tenant, req: IngestRequest, draws: seq<Draw>)
    requires (t == EMPTY_TENANT || Valid(t)) && ValidIngest(req)
    ensures TxIngest(t, req, draws).Success? ==>
            Valid(TxIngest(t, req, draws).value.0) && Extends(t, TxIngest(t, req, draws).value.0)
  {
    hide Inv, Extends, TxIngest, ValidIngest;
    EmptyInv();
    var l :| Inv(t, l);
    if TxIngest(t, req, draws).Success? {
      IngestKeepsInv(t, l, req, draws);
      IngestExtends(t, l, req, draws);
    }
  }

  lemma FreezeStep(t: Tenant, key: bytes, limit: int, draws: seq<Draw>)
    requires Valid(t) && 1 <= limit <= MAX_BATCH_ENTRIES
    ensures TxFreeze(t, key, limit, draws).Success? ==>
            Valid(TxFreeze(t, key, limit, draws).value.0) && Extends(t, TxFreeze(t, key, limit, draws).value.0)
  {
    hide Inv, Extends, TxFreeze;
    var l :| Inv(t, l);
    if TxFreeze(t, key, limit, draws).Success? {
      FreezeInvariant.FreezeKeepsInv(t, l, key, limit, draws);
      FreezeExtends(t, l, key, limit, draws);
    }
  }

  lemma RecordStep(t: Tenant, id: bytes, state: SubmissionState, ref: bytes)
    requires Valid(t) && ValidState(state) && ValidRef(ref)
    ensures TxRecord(t, id, state, ref).Success? ==>
            Valid(TxRecord(t, id, state, ref).value.0) && Extends(t, TxRecord(t, id, state, ref).value.0)
  {
    hide Inv, Extends, TxRecord;
    var l :| Inv(t, l);
    if TxRecord(t, id, state, ref).Success? {
      RecordKeepsInv(t, l, id, state, ref);
      RecordExtends(t, l, id, state, ref);
    }
  }

  /** Every run keeps every tenant valid and only ever extends what is recorded. */
  lemma {:induction false} RunKeeps(db: Db, actions: seq<Action>)
    requires DbValid(db)
    ensures DbValid(Run(db, actions)) && DbExtends(db, Run(db, actions))
  {
    hide Valid, Extends, Apply;
    ExtendsReflexive();
    if actions != [] {
      var init := Run(db, actions[..|actions| - 1]);
      RunKeeps(db, actions[..|actions| - 1]);
      ApplyStep(init, actions[|actions| - 1]);
      DbExtendsTransitive(db, init, Run(db, actions));
    }
  }

  lemma DbExtendsTransitive(db: Db, db': Db, db'': Db)
    requires DbExtends(db, db') && DbExtends(db', db'')
    ensures DbExtends(db, db'')
  {
    hide Extends;
    forall name | name in db ensures Extends(db[name], db''[name]) {
      ExtendsTransitive(db[name], db'[name], db''[name]);
    }
  }

  /** Every tenant state reachable from the empty store stands for a ledger: contiguous FIFO sequences, batches that
      partition a prefix of them, and indexes, request keys and outbox in agreement. */
  lemma ReachableValid(actions: seq<Action>)
    ensures DbValid(Run(map[], actions))
  {
    RunKeeps(map[], actions);
  }

  // ---------- What a step leaves alone ----------

  function TenantNamed(a: Action): bytes {
    match a
    case DoIngest(req, _) => req.tenant
    case DoFreeze(tenant, _, _, _) => tenant
    case DoRecord(tenant, _, _, _) => tenant
  }

  /** An action reaches no tenant but the one it names. */
  lemma TenantsIsolated(db: Db, a: Action, name: bytes)
    requires name != TenantNamed(a)
    ensures name in Apply(db, a) <==> name in db
    ensures name in db ==> Apply(db, a)[name] == db[name]
  {
    hide TxIngest, TxFreeze, TxRecord, ValidText, ValidID, ValidIngest;
  }

  /** Freezing and recording touch neither keys nor sources. */
  lemma MaintenanceKeepsIndexes(db: Db, action: Action, name: bytes)
    requires !action.DoIngest? && name in Apply(db, action)
    ensures name in db && Apply(db, action)[name].keys == db[name].keys
            && Apply(db, action)[name].sources == db[name].sources
  {
    hide ValidText, ValidID, ValidState, ValidRef, TxFreeze, TxRecord;
    if name in db {
      match action {
        case DoFreeze(_, key, limit, draws) =>
          if 1 <= limit <= MAX_BATCH_ENTRIES { FreezeKeepsIndexes(db[name], key, limit, draws); }
        case DoRecord(_, id, state, ref) => RecordKeepsIndexes(db[name], id, state, ref);
      }
    }
  }

  lemma FreezeKeepsIndexes(t: Tenant, key: bytes, limit: int, draws: seq<Draw>)
    requires 1 <= limit <= MAX_BATCH_ENTRIES
    ensures var r := TxFreeze(t, key, limit, draws);
            r.Success? ==> r.value.0.keys == t.keys && r.value.0.sources == t.sources
  {
    hide LoadBatch, Oldest, NewID, Bind, NewBatch, SequenceKeys;
  }

  lemma RecordKeepsIndexes(t: Tenant, id: bytes, state: SubmissionState, ref: bytes)
    ensures var r := TxRecord(t, id, state, ref);
            r.Success? ==> r.value.0.keys == t.keys && r.value.0.sources == t.sources
  {
    hide LoadBatch;
  }

  // ---------- Conservation ----------

  /** The members of these batches, one batch after the other. */
  function AllMembers(batches: map<bytes, FrozenBatch>, ids: seq<bytes>): seq<bytes>
    requires forall i :: 0 <= i < |ids| ==> ids[i] in batches
  {
    if ids == [] then []
    else AllMembers(batches, ids[..|ids| - 1]) + batches[ids[|ids| - 1]].evidenceIds
  }

  lemma FrozenAreBatches(t: Tenant, l: Ledger)
    requires ShapeInv(l) && BatchInv(t.evidence, t.batches, l)
    ensures forall i :: 0 <= i < |l.frozen| ==> l.frozen[i] in t.batches
  {
    hide GoodBatch;
  }

  lemma {:induction false} MembersSoFar(t: Tenant, l: Ledger, j: nat)
    requires ShapeInv(l) && BatchInv(t.evidence, t.batches, l) && j <= |l.frozen|
    ensures AllMembers(t.batches, l.frozen[..j]) == l.order[..l.cuts[j]]
  {
    hide BatchInv;
    FrozenAreBatches(t, l);
    if j > 0 {
      MembersSoFar(t, l, j - 1);
      FrozenNotEmpty(t, l, j - 1);
      assert l.frozen[..j][..j - 1] == l.frozen[..j - 1];
      assert l.order[..l.cuts[j]] == l.order[..l.cuts[j - 1]] + l.Members(j - 1);
    }
  }

  /** FIFO conservation: the batches in freeze order, one after the other, are exactly the oldest evidence in sequence
      order: nothing is lost, repeated or reordered. */
  lemma FifoConservation(t: Tenant, l: Ledger)
    requires Inv(t, l)
    ensures forall i :: 0 <= i < |l.frozen| ==> l.frozen[i] in t.batches
    ensures AllMembers(t.batches, l.frozen) == l.order[..l.Batched()]
  {
    hide EvidenceInv, PendingInv, MemberInv, BatchInv, KeysInv, SourcesInv, RequestInv, OutboxInv, AllMembers;
    FrozenAreBatches(t, l);
    MembersSoFar(t, l, |l.frozen|);
    assert l.frozen[..|l.frozen|] == l.frozen;
  }

  // ---------- The ledger is determined by the state ----------

  lemma FrozenNotEmpty(t: Tenant, l: Ledger, j: nat)
    requires ShapeInv(l) && BatchInv(t.evidence, t.batches, l) && j < |l.frozen|
    ensures l.frozen[j] in t.batches && l.frozen[j] != [] && t.batches[l.frozen[j]].evidenceIds == l.Members(j)
  {
    hide Entries;
    assert GoodBatch(t.evidence, t.batches[l.frozen[j]], l.frozen[j], l.Members(j));
  }

  lemma FirstMember(t: Tenant, l: Ledger, j: nat)
    requires ShapeInv(l) && EvidenceInv(t.evidence, l) && MemberInv(t.evidence, l) && j < |l.frozen|
    ensures l.cuts[j] < l.Batched() && l.order[l.cuts[j]] in t.evidence
            && t.evidence[l.order[l.cuts[j]]].batchId == l.frozen[j]
  {
    hide GoodEvidence;
    assert l.cuts[j] < l.cuts[j + 1] <= l.Batched();
    assert l.Members(j)[0] == l.order[l.cuts[j]];
    assert Bound(t.evidence, l.Members(j), l.frozen[j]);
  }

  lemma LedgerStep(t: Tenant, l: Ledger, l': Ledger, i: nat)
    requires Inv(t, l) && Inv(t, l') && l.order == l'.order && i < |l.frozen| && i <= |l'.frozen|
             && l.cuts[i] == l'.cuts[i]
    ensures i < |l'.frozen| && l.frozen[i] == l'.frozen[i] && l.cuts[i + 1] == l'.cuts[i + 1]
  {
    hide KeysInv, SourcesInv, RequestInv, OutboxInv, PendingInv, BatchInv, GoodEvidence, Bound;
    FirstMember(t, l, i);
    FrozenNotEmpty(t, l, i);
    assert l'.cuts[i] < l'.Batched();
    hide MemberInv, EvidenceInv;
    FirstMember(t, l', i);
    FrozenNotEmpty(t, l', i);
    assert |l.Members(i)| == |l'.Members(i)|;
  }

  lemma {:induction false} LedgerPrefix(t: Tenant, l: Ledger, l': Ledger, j: nat)
    requires Inv(t, l) && Inv(t, l') && l.order == l'.order && j <= |l.frozen|
    ensures j <= |l'.frozen| && l.cuts[j] == l'.cuts[j] && l.frozen[..j] == l'.frozen[..j]
  {
    hide MemberInv, BatchInv, KeysInv, SourcesInv, RequestInv, OutboxInv, PendingInv, EvidenceInv;
    if j > 0 {
      LedgerPrefix(t, l, l', j - 1);
      LedgerStep(t, l, l', j - 1);
    }
  }

  /** The history a state stands for is determined by the state. */
  lemma LedgerUnique(t: Tenant, l: Ledger, l': Ledger)
    requires Inv(t, l) && Inv(t, l')
    ensures l == l'
  {
    hide MemberInv, BatchInv, KeysInv, SourcesInv, RequestInv, OutboxInv, PendingInv, GoodEvidence;
    forall k | 0 <= k < |l.order| ensures l.order[k] == l'.order[k] {
      assert t.evidence[l.order[k]].sequence == k + 1;
    }
    LedgerPrefix(t, l, l', |l.frozen|);
    LedgerPrefix(t, l', l, |l'.frozen|);
    forall j | 0 <= j < |l.cuts| ensures l.cuts[j] == l'.cuts[j] {
      LedgerPrefix(t, l, l', j);
    }
  }
}
