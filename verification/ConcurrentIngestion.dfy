/** Any number of document ingestions, interleaved step by step with each other and with every other store action. */
module ConcurrentIngestion {
  import opened Prelude
  import opened Encoding
  import opened Storage
  import opened StoreInvariant
  import opened StoreRuns
  import opened Ingestion
  import StoreOutcomes
  import Commitment

  datatype System = System(db: Db, calls: seq<DocumentRequest>, status: seq<Status>)

  /** One scheduling choice: a call takes its next step, or some other action runs. */
  datatype Turn = Advance(call: nat, nonce: Hash, draws: seq<Draw>) | Other(action: Action)

  function Begin(db: Db, calls: seq<DocumentRequest>): System {
    System(db, calls, seq(|calls|, _ => Started))
  }

  function Next(s: System, e: Turn): System
    requires |s.status| == |s.calls|
  {
    match e
    case Advance(i, nonce, draws) =>
      if i >= |s.calls| then s
      else
        var (db', status') := Step(s.db, s.calls[i], s.status[i], nonce, draws);
        s.(db := db', status := s.status[i := status'])
    case Other(action) => s.(db := Apply(s.db, action))
  }

  function Interleave(s: System, events: seq<Turn>): (s': System)
    requires |s.status| == |s.calls|
    ensures s'.calls == s.calls && |s'.status| == |s.calls|
  {
    if events == [] then s
    else Next(Interleave(s, events[..|events| - 1]), events[|events| - 1])
  }

  // ---------- What each call knows ----------

  /** The witness was made from the request's document. */
  predicate Made(req: DocumentRequest, w: Commitment.Witness) {
    && ValidRequest(req) && Commitment.Supported(w) && w.representation == req.representation
    && Commitment.HashDocument(req.document, req.maxBytes) == Success(w.documentDigest)
  }

  /** The store records e as the one piece of evidence of the request's source and representation. */
  predicate Recorded(db: Db, req: DocumentRequest, e: Evidence) {
    && req.tenant in db && Key(req) in db[req.tenant].sources && db[req.tenant].sources[Key(req)] == e.id
    && e.id in db[req.tenant].evidence && EvidenceKept(e, db[req.tenant].evidence[e.id])
  }

  /** The request's key belongs to another source, or its source to another document (or cannot be read). */
  predicate Clashes(db: Db, req: DocumentRequest) {
    && req.tenant in db
    && var t := db[req.tenant];
       || (&& req.key in t.keys && t.keys[req.key] in t.evidence
           && KeyOf(t.evidence[t.keys[req.key]]) != Key(req))
       || (&& Key(req) in t.sources && t.sources[Key(req)] in t.evidence
           && Commitment.HashDocument(req.document, req.maxBytes)
              != Success(t.evidence[t.sources[Key(req)]].wit.documentDigest))
  }

  predicate Known(db: Db, req: DocumentRequest) {
    req.tenant in db && KnownID(db[req.tenant], req.key, Key(req)).Some?
  }

  predicate KeyNames(db: Db, req: DocumentRequest, id: bytes) {
    req.tenant in db && req.key in db[req.tenant].keys && db[req.tenant].keys[req.key] == id
  }

  /** The source was known before the call, and the key was not. */
  predicate KnownBySourceOnly(db: Db, req: DocumentRequest) {
    req.tenant in db && req.key !in db[req.tenant].keys && Key(req) in db[req.tenant].sources
  }

  predicate CallInv(db: Db, req: DocumentRequest, s: Status) {
    match s
    case Started => true
    case Missed => ValidRequest(req)
    case Hashed(w) => Made(req, w)
    case Conflicted(w) => Made(req, w) && Known(db, req)
    case Returned(Success((e, _))) =>
      ValidRequest(req) &&
      Recorded(db, req, e) && Commitment.HashDocument(req.document, req.maxBytes) == Success(e.wit.documentDigest)
    case Returned(Failure(e)) => Explained(db, req, e)
  }

  /** Why a call may fail: an invalid request, an unreadable document, a clash, no random ID, no sequence number. */
  predicate Explained(db: Db, req: DocumentRequest, e: Error) {
    match e
    case Invalid => !ValidRequest(req) || Commitment.HashDocument(req.document, req.maxBytes).Failure?
    case Conflict => Clashes(db, req)
    case Entropy => true
    case Corrupt => TenantOf(db, req.tenant).counter == U64_LIMIT - 1
    case _ => false
  }

  lemma CallInvFrame(db: Db, db': Db, req: DocumentRequest, s: Status)
    requires DbExtends(db, db') && CallInv(db, req, s)
    ensures CallInv(db', req, s)
  {
    hide Commitment.HashDocument, ValidRequest;
    if req.tenant in db { assert Extends(db[req.tenant], db'[req.tenant]); }
  }

  // ---------- One step ----------

  /** A lookup in a valid store finds the evidence known by key or else by source, or fails on a key of another
      source. */
  lemma LookupOutcome(db: Db, req: DocumentRequest)
    requires DbValid(db)
    ensures Lookup(db, req) == Success(None) <==> !Known(db, req)
    ensures Lookup(db, req).Failure? ==> Lookup(db, req) == Failure(Conflict) && Clashes(db, req)
    ensures Lookup(db, req).Success? && Lookup(db, req).value.Some? ==>
            var e := Lookup(db, req).value.value;
            && Recorded(db, req, e) && e == db[req.tenant].evidence[e.id] && Commitment.Supported(e.wit)
            && !(req.key in db[req.tenant].keys && db[req.tenant].keys[req.key] != e.id)
  {
    if req.tenant in db {
      var l :| Inv(db[req.tenant], l);
      LookupIn(db, db[req.tenant], l, req);
    }
  }

  lemma LookupIn(db: Db, t: Tenant, l: Ledger, req: DocumentRequest)
    requires req.tenant in db && db[req.tenant] == t && Inv(t, l)
    ensures match KnownID(t, req.key, Key(req))
            case None => Lookup(db, req) == Success(None)
            case Some(id) =>
              && id in t.evidence && t.evidence[id].id == id && Commitment.Supported(t.evidence[id].wit)
              && (if KeyOf(t.evidence[id]) == Key(req)
                  then Lookup(db, req) == Success(Some(t.evidence[id])) && Key(req) in t.sources
                       && t.sources[Key(req)] == id
                  else req.key in t.keys && t.keys[req.key] == id && Lookup(db, req) == Failure(Conflict))
  {
    hide ShapeInv, PendingInv, MemberInv, BatchInv, RequestInv, OutboxInv, LoadEvidence, ValidID, ValidSource,
      Commitment.Encode;
    if KnownID(t, req.key, Key(req)).Some? {
      LoadsEvidence(t, l, KnownID(t, req.key, Key(req)).value);
    }
  }

  lemma RetryIs(req: DocumentRequest, e: Evidence)
    requires Commitment.Supported(e.wit)
    ensures Retry(req, e) == if Commitment.HashDocument(req.document, req.maxBytes) == Success(e.wit.documentDigest)
                             then Success((e, false)) else Failure(Conflict)
  {
    hide Commitment.HashDocument, Commitment.Encode;
  }

  lemma RetryOutcome(db: Db, req: DocumentRequest, e: Evidence)
    requires Recorded(db, req, e) && e == db[req.tenant].evidence[e.id] && Commitment.Supported(e.wit)
    ensures if Commitment.HashDocument(req.document, req.maxBytes) == Success(e.wit.documentDigest)
            then Retry(req, e) == Success((e, false))
            else Retry(req, e) == Failure(Conflict) && Clashes(db, req)
  {
    hide Commitment.HashDocument, Commitment.Encode, Retry, EvidenceKept;
    RetryIs(req, e);
  }

  lemma MadeOutcome(req: DocumentRequest, nonce: Hash)
    requires ValidRequest(req)
    ensures var r := Commitment.New(req.document, req.representation, req.maxBytes, nonce);
            && (r.Success? <==> Commitment.HashDocument(req.document, req.maxBytes).Success?)
            && (r.Success? ==> Made(req, r.value.0) && r.value.0.nonce == nonce)
  {
    hide Commitment.HashDocument;
  }

  /** An ingestion of a made witness records it, meets the very same record, or finds the key or the source known. */
  lemma IngestStepOutcome(db: Db, req: DocumentRequest, w: Commitment.Witness, draws: seq<Draw>)
    requires DbValid(db) && Made(req, w)
    ensures var (db', r) := Ingest(db, WithWitness(req, w), draws);
            && (r == Failure(Conflict) ==> Known(db, req))
            && (r.Success? ==> r.value.0.wit == w && Recorded(db', req, r.value.0) && (r.value.1 <==> !Known(db, req)))
            && (r.Success? ==> KeyNames(db', req, r.value.0.id))
            && (r.Failure? ==> db' == db && r.error in {Invalid, Conflict, Entropy, Corrupt})
            && (r == Failure(Invalid) ==> !ValidIngest(WithWitness(req, w)))
            && (r == Failure(Corrupt) ==> TenantOf(db, req.tenant).counter == U64_LIMIT - 1)
  {
    hide Inv, TxIngest, Commitment.HashDocument, Commitment.Encode, ValidRequest, ValidIngest, KnownID, EvidenceKept;
    var t := TenantOf(db, req.tenant);
    EmptyInv();
    assert Valid(t);
    var l :| Inv(t, l);
    IngestIn(t, l, req, w, draws);
    KnownIn(db, req);
    KeptReflexive();
  }

  lemma KeptReflexive()
    ensures forall e :: EvidenceKept(e, e)
  {
  }

  lemma KnownIn(db: Db, req: DocumentRequest)
    ensures Known(db, req) <==> KnownID(TenantOf(db, req.tenant), req.key, Key(req)).Some?
  {
  }

  lemma IngestIn(t: Tenant, l: Ledger, req: DocumentRequest, w: Commitment.Witness, draws: seq<Draw>)
    requires Inv(t, l) && w.representation == req.representation
    ensures var r := TxIngest(t, WithWitness(req, w), draws);
            && (r.Failure? ==> r.error in {Conflict, Entropy, Corrupt})
            && (r == Failure(Corrupt) ==> t.counter == U64_LIMIT - 1)
            && (r == Failure(Conflict) ==> KnownID(t, req.key, Key(req)).Some?)
            && (r.Success? ==>
                  var (t', e, created) := r.value;
                  && e.wit == w && Key(req) in t'.sources && t'.sources[Key(req)] == e.id
                  && e.id in t'.evidence && t'.evidence[e.id] == e
                  && req.key in t'.keys && t'.keys[req.key] == e.id
                  && (created <==> KnownID(t, req.key, Key(req)).None?))
  {
    hide TxIngest, ShapeInv, PendingInv, MemberInv, BatchInv, RequestInv, OutboxInv, NewID, BigEndian64,
      ValidID, ValidSource, Commitment.Encode;
    StoreOutcomes.IngestOutcome(t, l, WithWitness(req, w), draws);
    match KnownID(t, req.key, Key(req)) {
      case Some(id) => assert t.evidence[id].id == id;
      case None =>
    }
  }

  /** Every step keeps the store valid, only extends it, and keeps what its own call knows;
      a step that reports created met neither the key nor the source. */
  lemma StepKeeps(db: Db, req: DocumentRequest, s: Status, nonce: Hash, draws: seq<Draw>)
    requires DbValid(db) && CallInv(db, req, s)
    ensures var (db', s') := Step(db, req, s, nonce, draws);
            && DbValid(db') && DbExtends(db, db') && CallInv(db', req, s')
            && (s'.Returned? && s'.outcome.Success? && s'.outcome.value.1 && s != s' ==> s.Hashed? && !Known(db, req))
  {
    hide ValidRequest, Made, Retry, Commitment.New, Commitment.HashDocument, Lookup, Ingest, Recorded,
      Clashes, Known, Extends, Valid;
    ExtendsReflexive();
    match s {
      case Started =>
        LookupOutcome(db, req);
        if Lookup(db, req).Success? && Lookup(db, req).value.Some? {
          RetryOutcome(db, req, Lookup(db, req).value.value);
        }
      case Missed => MadeOutcome(req, nonce);
      case Hashed(w) =>
        IngestStepOutcome(db, req, w, draws);
        ApplyStep(db, DoIngest(WithWitness(req, w), draws));
        MadeDigest(req, w);
      case Conflicted(w) =>
        LookupOutcome(db, req);
        MadeDigest(req, w);
        if Lookup(db, req).Success? && Lookup(db, req).value.Some? {
          RetryOutcome(db, req, Lookup(db, req).value.value);
        }
      case Returned(_) =>
    }
  }

  lemma MadeDigest(req: DocumentRequest, w: Commitment.Witness)
    requires Made(req, w)
    ensures ValidRequest(req) && ValidIngest(WithWitness(req, w))
    ensures Commitment.HashDocument(req.document, req.maxBytes) == Success(w.documentDigest)
  {
  }

  // ---------- All interleavings ----------

  predicate Succeeded(s: Status) {
    s.Returned? && s.outcome.Success?
  }

  predicate Created(s: Status) {
    Succeeded(s) && s.outcome.value.1
  }

  predicate SameSource(a: DocumentRequest, b: DocumentRequest) {
    a.tenant == b.tenant && Key(a) == Key(b)
  }

  ghost predicate SystemInv(s: System) {
    && |s.status| == |s.calls| && DbValid(s.db)
    && (forall i :: 0 <= i < |s.calls| ==> CallInv(s.db, s.calls[i], s.status[i]))
    && (forall i, j :: 0 <= i < j < |s.calls| && Created(s.status[i]) && Created(s.status[j]) ==>
        !SameSource(s.calls[i], s.calls[j]))
  }

  lemma NextKeeps(s: System, e: Turn)
    requires SystemInv(s)
    ensures SystemInv(Next(s, e)) && DbExtends(s.db, Next(s, e).db)
  {
    hide CallInv, Extends, DbValid, Step, Apply, Created, SameSource;
    ExtendsReflexive();
    var s' := Next(s, e);
    match e {
      case Advance(i, nonce, draws) =>
        if i < |s.calls| {
          StepKeeps(s.db, s.calls[i], s.status[i], nonce, draws);
          forall j | 0 <= j < |s.calls| && j != i ensures CallInv(s'.db, s.calls[j], s.status[j]) {
            CallInvFrame(s.db, s'.db, s.calls[j], s.status[j]);
          }
          forall j | 0 <= j < |s.calls| && j != i && Created(s'.status[i]) && Created(s.status[j])
            ensures !SameSource(s.calls[i], s.calls[j]) && !SameSource(s.calls[j], s.calls[i])
          {
            CreatedOnce(s, i, nonce, draws, j);
          }
        }
      case Other(action) =>
        ApplyStep(s.db, action);
        forall j | 0 <= j < |s.calls| ensures CallInv(s'.db, s.calls[j], s.status[j]) {
          CallInvFrame(s.db, s'.db, s.calls[j], s.status[j]);
        }
    }
  }

  lemma CreatedOnce(s: System, i: nat, nonce: Hash, draws: seq<Draw>, j: nat)
    requires SystemInv(s) && i < |s.calls| && j < |s.calls| && i != j
    requires Created(Step(s.db, s.calls[i], s.status[i], nonce, draws).1) && Created(s.status[j])
    ensures !SameSource(s.calls[i], s.calls[j]) && !SameSource(s.calls[j], s.calls[i])
  {
    hide DbValid, Commitment.HashDocument, EvidenceKept, Ingest, Lookup, Commitment.New, Retry, ValidRequest,
      Made, Clashes;
    StepKeeps(s.db, s.calls[i], s.status[i], nonce, draws);
    assert CallInv(s.db, s.calls[j], s.status[j]);
    if s.status[i].Returned? {
      assert Step(s.db, s.calls[i], s.status[i], nonce, draws).1 == s.status[i];
    } else {
      hide Step;
      assert !Known(s.db, s.calls[i]);
    }
  }

  lemma {:induction false} InterleaveKeeps(s: System, events: seq<Turn>)
    requires SystemInv(s)
    ensures SystemInv(Interleave(s, events)) && DbExtends(s.db, Interleave(s, events).db)
  {
    hide SystemInv, Next, Extends;
    ExtendsReflexive();
    SizeFits(s);
    if events != [] {
      var before := Interleave(s, events[..|events| - 1]);
      InterleaveKeeps(s, events[..|events| - 1]);
      NextKeeps(before, events[|events| - 1]);
      DbExtendsTransitive(s.db, before.db, Interleave(s, events).db);
    }
  }

  lemma SizeFits(s: System)
    requires SystemInv(s)
    ensures |s.status| == |s.calls|
  {
  }

  lemma BeginsWell(db: Db, calls: seq<DocumentRequest>)
    requires DbValid(db)
    ensures SystemInv(Begin(db, calls))
  {
  }

  // ---------- A call on its own ----------

  /** Without interleaving, a valid request ends in a conflict exactly when it clashes; otherwise it returns the known
      evidence, or new evidence, or fails on the document, the random source or the sequence counter. */
  lemma AloneOutcome(db: Db, req: DocumentRequest, nonce: Hash, draws: seq<Draw>)
    requires DbValid(db)
    ensures var (db', r) := IngestDocument(db, req, nonce, draws);
            && DbValid(db') && DbExtends(db, db')
            && (!ValidRequest(req) ==> r == Failure(Invalid) && db' == db)
            && (ValidRequest(req) ==>
                  && (r == Failure(Conflict) <==> Clashes(db, req))
                  && (r.Success? ==>
                        && Recorded(db', req, r.value.0)
                        && Commitment.HashDocument(req.document, req.maxBytes) == Success(r.value.0.wit.documentDigest)
                        && (r.value.1 <==> !Known(db, req)))
                  && (Known(db, req) ==> db' == db && (r.Success? || r == Failure(Conflict)))
                  && (!Known(db, req) && r.Failure? ==> db' == db && r.error in {Invalid, Entropy, Corrupt})
                  && (r == Failure(Invalid) ==> Commitment.HashDocument(req.document, req.maxBytes).Failure?)
                  && (r == Failure(Corrupt) ==> TenantOf(db, req.tenant).counter == U64_LIMIT - 1))
  {
    hide Retry, Commitment.New, Commitment.HashDocument, Lookup, Ingest, Recorded, Known, Extends, Valid,
      ValidRequest, Made, IngestDocument;
    Course(db, req, nonce, draws);
    ExtendsReflexive();
    LookupOutcome(db, req);
    if ValidRequest(req) {
      if Known(db, req) {
        if Lookup(db, req).Success? {
          var e := Lookup(db, req).value.value;
          RetryOutcome(db, req, e);
          if Commitment.HashDocument(req.document, req.maxBytes) == Success(e.wit.documentDigest) {
            FoundDoesNotClash(db, req, e);
          }
        }
      } else {
        UnknownDoesNotClash(db, req);
        MadeOutcome(req, nonce);
        var made := Commitment.New(req.document, req.representation, req.maxBytes, nonce);
        if made.Success? {
          var w := made.value.0;
          IngestStepOutcome(db, req, w, draws);
          ApplyStep(db, DoIngest(WithWitness(req, w), draws));
          MadeDigest(req, w);
        }
      }
    }
  }

  /** A call on its own changes nothing, or adds exactly its own new evidence. */
  lemma AloneChange(db: Db, req: DocumentRequest, nonce: Hash, draws: seq<Draw>)
    requires DbValid(db)
    ensures var (db', r) := IngestDocument(db, req, nonce, draws);
            db' == db
            || (&& r.Success? && r.value.1
                && var e, t := r.value.0, TenantOf(db, req.tenant);
                   && t.counter + 1 < U64_LIMIT && KeyOf(e) == Key(req)
                   && e == NewEvidence(WithWitness(req, e.wit), e.id, t.counter + 1)
                   && db' == db[req.tenant := AddEvidence(t, WithWitness(req, e.wit), e.id, t.counter + 1)])
  {
    hide Lookup, Retry, Commitment.HashDocument, Commitment.New, Recorded, Extends, Valid, Ingest, Clashes,
      IngestDocument, Known, AddEvidence, NewEvidence, ValidRequest, Made;
    Course(db, req, nonce, draws);
    LookupOutcome(db, req);
    if First(db, req).Missed? && HashFor(req, nonce).Hashed? {
      assert ValidRequest(req) && !Known(db, req);
      MadeOutcome(req, nonce);
      var w := HashFor(req, nonce).wit;
      IngestStepOutcome(db, req, w, draws);
      IngestAdds(db, req, w, draws);
    }
  }

  lemma IngestAdds(db: Db, req: DocumentRequest, w: Commitment.Witness, draws: seq<Draw>)
    requires DbValid(db) && Made(req, w) && !Known(db, req)
    ensures var (db', r) := Ingest(db, WithWitness(req, w), draws);
            r.Success? ==>
              var e, t := r.value.0, TenantOf(db, req.tenant);
              && t.counter + 1 < U64_LIMIT && KeyOf(e) == Key(req)
              && e == NewEvidence(WithWitness(req, w), e.id, t.counter + 1)
              && db' == db[req.tenant := AddEvidence(t, WithWitness(req, w), e.id, t.counter + 1)]
  {
    hide Inv, TxIngest, NewID, ValidRequest, ValidIngest, Commitment.HashDocument, Commitment.Encode;
    EmptyInv();
    var t := TenantOf(db, req.tenant);
    assert Valid(t);
    var l :| Inv(t, l);
    StoreOutcomes.IngestOutcome(t, l, WithWitness(req, w), draws);
    KnownIn(db, req);
  }

  lemma UnknownDoesNotClash(db: Db, req: DocumentRequest)
    requires !Known(db, req)
    ensures !Clashes(db, req)
  {
  }

  lemma FoundDoesNotClash(db: Db, req: DocumentRequest, e: Evidence)
    requires Recorded(db, req, e) && e == db[req.tenant].evidence[e.id] && DbValid(db)
    requires !(req.key in db[req.tenant].keys && db[req.tenant].keys[req.key] != e.id)
    requires Commitment.HashDocument(req.document, req.maxBytes) == Success(e.wit.documentDigest)
    ensures !Clashes(db, req)
  {
    hide Commitment.HashDocument, ShapeInv, PendingInv, MemberInv, BatchInv, RequestInv, OutboxInv, EvidenceInv;
    var l :| Inv(db[req.tenant], l);
  }

  // ---------- Request keys ----------

  lemma RecordedIsKnown(db: Db, req: DocumentRequest, e: Evidence)
    requires Recorded(db, req, e)
    ensures Known(db, req)
  {
  }

  /** The step on which a call succeeds leaves the request key naming the returned evidence, except exactly when that
      step found the evidence by source alone: a retry, or a look again after a conflict, persists no alias. */
  lemma KeyNamedByStep(db: Db, req: DocumentRequest, s: Status, nonce: Hash, draws: seq<Draw>)
    requires DbValid(db) && CallInv(db, req, s) && !s.Returned? && Succeeded(Step(db, req, s, nonce, draws).1)
    ensures var (db', s') := Step(db, req, s, nonce, draws);
            KeyNames(db', req, s'.outcome.value.0.id) <==> s.Hashed? || !KnownBySourceOnly(db, req)
  {
    hide ValidRequest, Made, Commitment.New, Commitment.HashDocument, Lookup, Ingest, Clashes, EvidenceKept, Valid,
      Retry;
    LookupOutcome(db, req);
    match s {
      case Started => RetryIs(req, Lookup(db, req).value.value);
      case Hashed(w) => IngestStepOutcome(db, req, w, draws);
      case _ =>
    }
  }

  /** The same in any interleaving, where the first lookup, the ingestion and the second lookup of a call may see
      different stores; and a key that names the evidence names it forever. */
  lemma KeyNamedInterleaved(db: Db, calls: seq<DocumentRequest>, before: seq<Turn>, i: nat, nonce: Hash,
                            draws: seq<Draw>, later: seq<Turn>)
    requires DbValid(db) && i < |calls|
    requires var s := Interleave(Begin(db, calls), before);
             !s.status[i].Returned? && Succeeded(Next(s, Advance(i, nonce, draws)).status[i])
    ensures var s := Interleave(Begin(db, calls), before);
            var s' := Next(s, Advance(i, nonce, draws));
            var id := s'.status[i].outcome.value.0.id;
            && (KeyNames(s'.db, calls[i], id) <==> s.status[i].Hashed? || !KnownBySourceOnly(s.db, calls[i]))
            && (KeyNames(s'.db, calls[i], id) ==> KeyNames(Interleave(s', later).db, calls[i], id))
  {
    hide Interleave, Step, CallInv, Valid, Extends, KeyNames, KnownBySourceOnly;
    InterleaveKeeps(Begin(db, calls), before) by { BeginsWell(db, calls); }
    var s := Interleave(Begin(db, calls), before);
    KeyNamedByStep(s.db, calls[i], s.status[i], nonce, draws);
    NextKeeps(s, Advance(i, nonce, draws));
    var s' := Next(s, Advance(i, nonce, draws));
    InterleaveKeeps(s', later);
    if KeyNames(s'.db, calls[i], s'.status[i].outcome.value.0.id) {
      NamesForever(s'.db, Interleave(s', later).db, calls[i], s'.status[i].outcome.value.0.id);
    }
  }

  lemma NamesForever(db: Db, db': Db, req: DocumentRequest, id: bytes)
    requires DbExtends(db, db') && KeyNames(db, req, id)
    ensures KeyNames(db', req, id)
  {
    assert Extends(db[req.tenant], db'[req.tenant]);
  }

  /** After a successful call the request key names the returned evidence, except exactly when the call found it by
      source alone: that retry persists no alias. */
  lemma KeyNamedExactly(db: Db, req: DocumentRequest, nonce: Hash, draws: seq<Draw>)
    requires DbValid(db) && IngestDocument(db, req, nonce, draws).1.Success?
    ensures var (db', r) := IngestDocument(db, req, nonce, draws);
            KeyNames(db', req, r.value.0.id) <==> !KnownBySourceOnly(db, req)
  {
    hide IngestDocument, Lookup, Commitment.HashDocument, Clashes, EvidenceKept, ValidRequest, Valid;
    AloneOutcome(db, req, nonce, draws);
    AloneChange(db, req, nonce, draws);
    LookupOutcome(db, req);
    var (db', r) := IngestDocument(db, req, nonce, draws);
    if db' == db { RecordedIsKnown(db, req, r.value.0); }
  }

  /** So a second key under which the same document is ingested stays free: into an empty store, the first call creates
      the evidence, the second returns it, and the second key names nothing. */
  lemma AliasNotPersisted(req: DocumentRequest, key: bytes, nonce: Hash, draws: seq<Draw>, nonce': Hash,
                          draws': seq<Draw>)
    requires ValidText(key) && key != req.key && IngestDocument(map[], req, nonce, draws).1.Success?
    ensures var (db, first) := IngestDocument(map[], req, nonce, draws);
            var again := req.(key := key);
            var (db', second) := IngestDocument(db, again, nonce', draws');
            && second.Success? && second.value.0.id == first.value.0.id && !second.value.1
            && !KeyNames(db', again, second.value.0.id)
  {
    hide IngestDocument, Lookup, Commitment.HashDocument, EvidenceKept, Valid, AddEvidence, ValidText;
    var (db, first) := IngestDocument(map[], req, nonce, draws);
    AloneOutcome(map[], req, nonce, draws);
    AloneChange(map[], req, nonce, draws);
    var again := req.(key := key);
    OnlyItsOwnKey(req, first.value.0, db, key);
    AloneOutcome(db, again, nonce', draws');
    KeyNamedExactly(db, again, nonce', draws');
  }

  lemma OnlyItsOwnKey(req: DocumentRequest, e: Evidence, db: Db, key: bytes)
    requires key != req.key && KeyOf(e) == Key(req) && e == NewEvidence(WithWitness(req, e.wit), e.id, 1)
    requires db == map[req.tenant := AddEvidence(EMPTY_TENANT, WithWitness(req, e.wit), e.id, 1)]
    requires ValidText(key) && ValidRequest(req)
    requires Commitment.HashDocument(req.document, req.maxBytes) == Success(e.wit.documentDigest)
    ensures var again := req.(key := key);
            ValidRequest(again) && KnownBySourceOnly(db, again) && Known(db, again) && !Clashes(db, again)
  {
    hide ValidText, Commitment.HashDocument, BigEndian64;
  }
}
