/** The exact answer of every step of a document ingestion, alone and in any interleaving. */
module IngestionOutcomes {
  import opened Prelude
  import opened Encoding
  import opened Storage
  import opened StoreInvariant
  import opened StoreRuns
  import opened StoreEffects
  import opened Ingestion
  import opened ConcurrentIngestion
  import Commitment

  // ---------- One step ----------

  /** The document is read to its end within the limit. */
  predicate Readable(req: DocumentRequest) {
    && req.document.Some? && 0 <= req.maxBytes < MAX_INT64
    && !req.document.value.fails && |req.document.value.content| <= req.maxBytes
  }

  /** The witness a call makes of its document with this nonce. */
  function Fresh(req: DocumentRequest, nonce: Hash): Commitment.Witness
    requires req.document.Some?
  {
    Commitment.Witness(Commitment.VERSION, Commitment.SHA256_ALGORITHM, req.representation, Commitment.METADATA_ABSENT,
                       SHA256(req.document.value.content), nonce)
  }

  /** The answer is the evidence recorded under the call's own source, not created by the call. */
  predicate FindsOwn(db: Db, req: DocumentRequest, outcome: Outcome) {
    && req.tenant in db
    && var t := db[req.tenant];
       Key(req) in t.sources && t.sources[Key(req)] in t.evidence
       && outcome == Success((t.evidence[t.sources[Key(req)]], false))
  }

  /** The first step rejects an invalid request, goes on when nothing is known, and otherwise answers: with a conflict
      exactly when the request clashes, else with the recorded evidence. */
  lemma FirstStep(db: Db, req: DocumentRequest, nonce: Hash, draws: seq<Draw>)
    requires DbValid(db)
    ensures var (db', s') := Step(db, req, Started, nonce, draws);
            && db' == db
            && (!ValidRequest(req) <==> s' == Returned(Failure(Invalid)))
            && (ValidRequest(req) && !Known(db, req) <==> s' == Missed)
            && (ValidRequest(req) && Known(db, req) && Clashes(db, req) <==> s' == Returned(Failure(Conflict)))
            && (ValidRequest(req) && Known(db, req) && !Clashes(db, req) ==>
                  s'.Returned? && FindsOwn(db, req, s'.outcome))
  {
    hide ValidRequest, Lookup, Retry, Commitment.HashDocument, Valid, Clashes, Known, EvidenceKept;
    LookupOutcome(db, req);
    if Lookup(db, req).Success? && Lookup(db, req).value.Some? {
      FoundAnswers(db, req, Lookup(db, req).value.value);
    }
  }

  lemma FoundAnswers(db: Db, req: DocumentRequest, e: Evidence)
    requires DbValid(db) && Recorded(db, req, e) && e == db[req.tenant].evidence[e.id] && Commitment.Supported(e.wit)
    requires !(req.key in db[req.tenant].keys && db[req.tenant].keys[req.key] != e.id)
    ensures FindsOwn(db, req, Success((e, false)))
    ensures Retry(req, e) == if Clashes(db, req) then Failure(Conflict) else Success((e, false))
    ensures Clashes(db, req) <==>
            Commitment.HashDocument(req.document, req.maxBytes) != Success(e.wit.documentDigest)
  {
    hide Commitment.HashDocument, Valid, Commitment.Encode, Retry;
    RetryIs(req, e);
    if Commitment.HashDocument(req.document, req.maxBytes) == Success(e.wit.documentDigest) {
      FoundDoesNotClash(db, req, e);
    }
  }

  /** The second step makes a witness of the whole document, or rejects a document that cannot be read. */
  lemma HashStep(db: Db, req: DocumentRequest, nonce: Hash, draws: seq<Draw>)
    requires ValidRequest(req)
    ensures Step(db, req, Missed, nonce, draws)
            == (db, if Readable(req) then Hashed(Fresh(req, nonce)) else Returned(Failure(Invalid)))
  {
    hide ValidText, ValidSource;
  }

  /** The third step creates evidence when nothing is known, unless no drawn ID is free or no sequence number is left;
      otherwise it answers with evidence of the very same witness, or has to look again. */
  lemma IngestStepExact(db: Db, req: DocumentRequest, w: Commitment.Witness, nonce: Hash, draws: seq<Draw>)
    requires DbValid(db) && Made(req, w)
    ensures var (db', s') := Step(db, req, Hashed(w), nonce, draws);
            var t := TenantOf(db, req.tenant);
            && (s' == Returned(Failure(Entropy)) <==> !Known(db, req) && AllTaken(t.evidence.Keys, draws))
            && (s' == Returned(Failure(Corrupt)) <==>
                !Known(db, req) && !AllTaken(t.evidence.Keys, draws) && t.counter == U64_LIMIT - 1)
            && (!Known(db, req) && !AllTaken(t.evidence.Keys, draws) && t.counter < U64_LIMIT - 1 <==> Created(s'))
            && (Created(s') ==>
                  req.tenant in db' && Gained(t, db'[req.tenant], WithWitness(req, w), s'.outcome.value.0))
            && (Known(db, req) <==> s' == Conflicted(w) || MetSame(db, req, w, s'))
            && (!Succeeded(s') ==> db' == db)
  {
    hide Valid, Ingest, AllTaken, Gained, FirstFree, Commitment.HashDocument, ValidRequest, ValidIngest,
      Commitment.Encode;
    MadeDigest(req, w);
    IngestEffect(db, WithWitness(req, w), draws);
    MeetsKnown(db, req, w);
    MetIsOwn(db, req);
  }

  /** The call met evidence of its own source with the very same witness. */
  predicate MetSame(db: Db, req: DocumentRequest, w: Commitment.Witness, s: Status) {
    s.Returned? && FindsOwn(db, req, s.outcome) && s.outcome.value.0.wit == w
  }

  lemma MeetsKnown(db: Db, req: DocumentRequest, w: Commitment.Witness)
    requires w.representation == req.representation
    ensures var t := TenantOf(db, req.tenant);
            && (MeetsNothing(t, WithWitness(req, w)) <==> !Known(db, req))
            && (Known(db, req) ==> exists id :: Meets(t, WithWitness(req, w), id))
  {
    var t, r := TenantOf(db, req.tenant), WithWitness(req, w);
    if req.key in t.keys {
      assert Meets(t, r, t.keys[req.key]);
    } else if Key(req) in t.sources {
      assert Meets(t, r, t.sources[Key(req)]);
    }
  }

  /** Evidence of the call's source is the evidence the source names. */
  lemma MetIsOwn(db: Db, req: DocumentRequest)
    requires DbValid(db)
    ensures req.tenant in db ==>
              forall id :: id in db[req.tenant].evidence && KeyOf(db[req.tenant].evidence[id]) == Key(req) ==>
                Key(req) in db[req.tenant].sources && db[req.tenant].sources[Key(req)] == id
  {
    hide ShapeInv, EvidenceInv, PendingInv, MemberInv, BatchInv, KeysInv, RequestInv, OutboxInv;
    if req.tenant in db {
      var l :| Inv(db[req.tenant], l);
    }
  }

  /** The last step, after a lost race, changes nothing and answers with a conflict exactly when the request clashes;
      otherwise with the evidence recorded under the call's own source. */
  lemma SecondLook(db: Db, req: DocumentRequest, w: Commitment.Witness, nonce: Hash, draws: seq<Draw>)
    requires DbValid(db) && Made(req, w) && Known(db, req)
    ensures var (db', s') := Step(db, req, Conflicted(w), nonce, draws);
            && db' == db && s'.Returned?
            && (Clashes(db, req) <==> s' == Returned(Failure(Conflict)))
            && (!Clashes(db, req) <==> FindsOwn(db, req, s'.outcome))
  {
    hide ValidRequest, Lookup, Retry, Commitment.HashDocument, Valid, Clashes, Known, EvidenceKept;
    LookupOutcome(db, req);
    MadeDigest(req, w);
    if Lookup(db, req).Success? && Lookup(db, req).value.Some? {
      FoundAnswers(db, req, Lookup(db, req).value.value);
    }
  }

  // ---------- Alone ----------

  /** The complete outcome of a call that nothing interleaves with. */
  lemma AloneExact(db: Db, req: DocumentRequest, nonce: Hash, draws: seq<Draw>)
    requires DbValid(db)
    ensures var (db', r) := IngestDocument(db, req, nonce, draws);
            var t := TenantOf(db, req.tenant);
            && (!ValidRequest(req) ==> r == Failure(Invalid))
            && (ValidRequest(req) && Known(db, req) ==>
                  if Clashes(db, req) then r == Failure(Conflict) else FindsOwn(db, req, r))
            && (ValidRequest(req) && !Known(db, req) ==>
                  && (r == Failure(Invalid) <==> !Readable(req))
                  && (r == Failure(Entropy) <==> Readable(req) && AllTaken(t.evidence.Keys, draws))
                  && (r == Failure(Corrupt) <==>
                      Readable(req) && !AllTaken(t.evidence.Keys, draws) && t.counter == U64_LIMIT - 1)
                  && (r.Success? <==>
                      Readable(req) && !AllTaken(t.evidence.Keys, draws) && t.counter < U64_LIMIT - 1)
                  && (r.Success? ==>
                        && r.value.1 && req.tenant in db' && db' == db[req.tenant := db'[req.tenant]]
                        && Gained(t, db'[req.tenant], WithWitness(req, Fresh(req, nonce)), r.value.0)))
            && (!(r.Success? && r.value.1) ==> db' == db)
  {
    hide Valid, Step, Ingest, AllTaken, Gained, Commitment.HashDocument, ValidRequest, Known, Clashes, FindsOwn, Made,
      First, HashFor, Reconsider, Readable;
    FirstStep(db, req, nonce, draws);
    if ValidRequest(req) && !Known(db, req) {
      HashStep(db, req, nonce, draws);
      FinishTwice(db, req, nonce, draws);
      if Readable(req) {
        FreshIsMade(req, nonce);
        IngestStepExact(db, req, Fresh(req, nonce), nonce, draws);
        OnlyItsTenant(db, req, Fresh(req, nonce), nonce, draws);
      }
    }
  }

  lemma FreshIsMade(req: DocumentRequest, nonce: Hash)
    requires ValidRequest(req) && Readable(req)
    ensures req.document.Some? && Made(req, Fresh(req, nonce))
  {
    hide ValidText, ValidSource;
  }

  lemma OnlyItsTenant(db: Db, req: DocumentRequest, w: Commitment.Witness, nonce: Hash, draws: seq<Draw>)
    ensures var db' := Step(db, req, Hashed(w), nonce, draws).0;
            db' == db || (req.tenant in db' && db' == db[req.tenant := db'[req.tenant]])
  {
    hide TxIngest, ValidIngest;
  }

  /** A call that misses is hashed and then ingested. */
  lemma FinishTwice(db: Db, req: DocumentRequest, nonce: Hash, draws: seq<Draw>)
    requires Step(db, req, Started, nonce, draws) == (db, Missed)
    ensures var (db', s') := Step(db, req, Missed, nonce, draws);
            if s'.Returned? then IngestDocument(db, req, nonce, draws) == (db', s'.outcome)
            else
              var (db'', s'') := Step(db', req, s', nonce, draws);
              s''.Returned? ==> IngestDocument(db, req, nonce, draws) == (db'', s''.outcome)
  {
    hide Step;
    var (db', s') := Step(db, req, Missed, nonce, draws);
    assert IngestDocument(db, req, nonce, draws) == Finish(db, req, Missed, nonce, draws);
    assert IngestDocument(db, req, nonce, draws) == Finish(db', req, s', nonce, draws);
    if !s'.Returned? {
      var (db'', s'') := Step(db', req, s', nonce, draws);
      assert IngestDocument(db, req, nonce, draws) == Finish(db'', req, s'', nonce, draws);
    }
  }

  // ---------- Interleaved ----------

  /** What made a call answer so, from where it stood in this store. */
  predicate Answers(db: Db, req: DocumentRequest, s: Status, draws: seq<Draw>, outcome: Outcome) {
    var t := TenantOf(db, req.tenant);
    match outcome
    case Failure(Invalid) => (s.Started? && !ValidRequest(req)) || (s.Missed? && !Readable(req))
    case Failure(Conflict) => (s.Started? || s.Conflicted?) && Clashes(db, req)
    case Failure(Entropy) => s.Hashed? && !Known(db, req) && AllTaken(t.evidence.Keys, draws)
    case Failure(Corrupt) =>
      s.Hashed? && !Known(db, req) && !AllTaken(t.evidence.Keys, draws) && t.counter == U64_LIMIT - 1
    case Failure(_) => false
    case Success((e, created)) =>
      if created then s.Hashed? && !Known(db, req) && e.wit == s.wit && e.sequence == t.counter + 1
      else FindsOwn(db, req, outcome)
  }

  lemma StepAnswers(db: Db, req: DocumentRequest, s: Status, nonce: Hash, draws: seq<Draw>)
    requires DbValid(db) && CallInv(db, req, s) && !s.Returned? && Step(db, req, s, nonce, draws).1.Returned?
    ensures Answers(db, req, s, draws, Step(db, req, s, nonce, draws).1.outcome)
  {
    hide Valid, Step, AllTaken, ValidRequest, Known, Clashes, Made, Readable, Commitment.HashDocument;
    match s {
      case Started => FirstStep(db, req, nonce, draws); Unanswered(db, req, s, nonce, draws);
      case Missed => HashStep(db, req, nonce, draws);
      case Hashed(w) => IngestStepExact(db, req, w, nonce, draws); Unanswered(db, req, s, nonce, draws);
      case Conflicted(w) => SecondLook(db, req, w, nonce, draws);
    }
  }

  /** An ingestion step never answers with any other error. */
  lemma Unanswered(db: Db, req: DocumentRequest, s: Status, nonce: Hash, draws: seq<Draw>)
    requires DbValid(db) && CallInv(db, req, s) && (s.Started? || s.Hashed?)
    ensures var s' := Step(db, req, s, nonce, draws).1;
            && (s'.Returned? && s'.outcome.Failure? ==> s'.outcome.error in {Invalid, Conflict, Entropy, Corrupt})
            && (s.Hashed? ==> s' != Returned(Failure(Invalid)) && s' != Returned(Failure(Conflict)))
  {
    hide Valid, Ingest, Lookup, Retry, ValidRequest, Known, ValidIngest, Commitment.HashDocument;
    match s {
      case Hashed(w) =>
        MadeDigest(req, w);
        IngestStepOutcome(db, req, w, draws);
      case Started =>
        LookupOutcome(db, req);
        if Lookup(db, req).Success? && Lookup(db, req).value.Some? {
          RetryIs(req, Lookup(db, req).value.value);
        }
    }
  }

  /** On turn k the call answered, for its own reason at that moment. */
  ghost predicate AnsweredAt(db: Db, calls: seq<DocumentRequest>, events: seq<Turn>, i: nat, k: nat, outcome: Outcome)
    requires i < |calls|
  {
    && k < |events| && events[k].Advance? && events[k].call == i
    && var s := Interleave(Begin(db, calls), events[..k]);
       !s.status[i].Returned? && Answers(s.db, calls[i], s.status[i], events[k].draws, outcome)
  }

  /** In any interleaving, from any valid store, every answer was given on one of the call's own turns, and for exactly
      the reason that held in the store at that moment. */
  lemma {:induction false} AnswersExplained(db: Db, calls: seq<DocumentRequest>, events: seq<Turn>, i: nat)
    requires DbValid(db) && i < |calls| && Interleave(Begin(db, calls), events).status[i].Returned?
    ensures exists k: nat ::
              AnsweredAt(db, calls, events, i, k, Interleave(Begin(db, calls), events).status[i].outcome)
  {
    hide Step, Apply, Answers, Valid, CallInv, DbExtends;
    if events != [] {
      var last := |events| - 1;
      var s := Interleave(Begin(db, calls), events[..last]);
      if s.status[i].Returned? {
        AnswersExplained(db, calls, events[..last], i);
        var k: nat :| AnsweredAt(db, calls, events[..last], i, k, s.status[i].outcome);
        assert events[..last][..k] == events[..k];
        StaysReturned(s, events[last], i);
        assert AnsweredAt(db, calls, events, i, k, s.status[i].outcome);
      } else {
        BeginsWell(db, calls);
        InterleaveKeeps(Begin(db, calls), events[..last]);
        var e := events[last];
        StepAnswers(s.db, calls[i], s.status[i], e.nonce, e.draws);
        assert AnsweredAt(db, calls, events, i, last, Interleave(Begin(db, calls), events).status[i].outcome);
      }
    }
  }

  lemma StaysReturned(s: System, e: Turn, i: nat)
    requires |s.status| == |s.calls| && i < |s.calls| && s.status[i].Returned?
    ensures Next(s, e).status[i] == s.status[i]
  {
  }

  /** For every interleaving of any number of document ingestions with each other and with any other store actions,
      from any valid store: successful calls for one tenant, source and representation return one evidence ID, whose
      digest is their own document's; at most one of them reports created; a call that met a conflict never finds
      nothing afterwards; every answer was given for exactly the reason that held on the turn it was given, and a
      conflict, an invalid input or a used-up counter still holds in the end; and the store only ever grows. */
  lemma ConcurrentIngestSafe(db: Db, calls: seq<DocumentRequest>, events: seq<Turn>, i: nat, j: nat)
    requires DbValid(db) && i < |calls| && j < |calls|
    ensures var s := Interleave(Begin(db, calls), events);
            && (Succeeded(s.status[i]) ==>
                  var e := s.status[i].outcome.value.0;
                  && Recorded(s.db, calls[i], e)
                  && Commitment.HashDocument(calls[i].document, calls[i].maxBytes) == Success(e.wit.documentDigest))
            && (Succeeded(s.status[i]) && Succeeded(s.status[j]) && SameSource(calls[i], calls[j]) ==>
                  s.status[i].outcome.value.0.id == s.status[j].outcome.value.0.id)
            && (i != j && Created(s.status[i]) && Created(s.status[j]) ==> !SameSource(calls[i], calls[j]))
            && (s.status[i].Conflicted? ==> Lookup(s.db, calls[i]) != Success(None))
            && (s.status[i].Returned? && s.status[i].outcome.Failure? ==>
                Explained(s.db, calls[i], s.status[i].outcome.error))
            && (s.status[i].Returned? ==>
                  exists k: nat :: AnsweredAt(db, calls, events, i, k, s.status[i].outcome))
            && DbValid(s.db) && DbExtends(db, s.db)
  {
    hide Interleave, Valid, Commitment.HashDocument, Lookup, Made, Clashes, Extends, Explained, AnsweredAt;
    InterleaveKeeps(Begin(db, calls), events);
    var s := Interleave(Begin(db, calls), events);
    assert CallInv(s.db, calls[i], s.status[i]) && CallInv(s.db, calls[j], s.status[j]);
    LookupOutcome(s.db, calls[i]);
    if s.status[i].Returned? { AnswersExplained(db, calls, events, i); }
  }

  // ---------- Progress ----------

  /** How many turns the call has had. */
  function TurnsOf(events: seq<Turn>, i: nat): nat {
    if events == [] then 0
    else
      var last := events[|events| - 1];
      TurnsOf(events[..|events| - 1], i) + if last.Advance? && last.call == i then 1 else 0
  }

  /** Every turn of its own brings a call closer to its answer, whatever the others do: four are always enough. */
  lemma {:induction false} FourTurnsAnswer(db: Db, calls: seq<DocumentRequest>, events: seq<Turn>, i: nat)
    requires i < |calls|
    ensures var s := Interleave(Begin(db, calls), events).status[i];
            s.Returned? || StepsLeft(s) + TurnsOf(events, i) <= 4
  {
    hide Step, Apply;
    if events != [] {
      var init, last := events[..|events| - 1], events[|events| - 1];
      FourTurnsAnswer(db, calls, init, i);
      var s := Interleave(Begin(db, calls), init);
      if s.status[i].Returned? {
        StaysReturned(s, last, i);
      } else if last.Advance? && last.call == i {
        assert Next(s, last).status[i] == Step(s.db, calls[i], s.status[i], last.nonce, last.draws).1;
      } else {
        assert Next(s, last).status[i] == s.status[i];
      }
    }
  }
}
