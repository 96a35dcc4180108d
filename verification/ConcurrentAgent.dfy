/** Any number of events handled at once: why concurrent ingestions conflict, and what a concurrent replay returns. */
module ConcurrentAgent {
  import opened Prelude
  import opened Storage
  import opened StoreInvariant
  import opened StoreRuns
  import opened Ingestion
  import opened ConcurrentIngestion
  import opened IngestionOutcomes
  import opened ConcurrentRetries
  import opened Planner
  import opened Runner
  import opened AgentRuns
  import Reconciler
  import Commitment

  /** Handling this event gets as far as the store. Any other event leaves the store alone, whatever runs beside it. */
  predicate Reaches(job: Job) {
    Planned(job) && Content(job).Success?
  }

  predicate AllReach(jobs: seq<Job>) {
    forall j {:trigger jobs[j]} :: 0 <= j < |jobs| ==> Reaches(jobs[j])
  }

  /** The calls that handling these events makes. */
  function Requests(jobs: seq<Job>): (calls: seq<DocumentRequest>)
    requires AllReach(jobs)
    ensures |calls| == |jobs| && forall j :: 0 <= j < |jobs| ==> calls[j] == RequestOf(jobs[j])
  {
    seq(|jobs|, j requires 0 <= j < |jobs| => RequestOf(jobs[j]))
  }

  /** Nothing but the agent ingests. */
  predicate AgentOnly(events: seq<Turn>) {
    forall k :: 0 <= k < |events| && events[k].Other? ==> !events[k].action.DoIngest?
  }

  /** On this turn one of the events was being handled. */
  predicate Handling(jobs: seq<Job>, e: Turn) {
    e.Advance? && e.call < |jobs|
  }

  // ---------- Conflicts ----------

  /** A handled event whose key collides with this one's. */
  predicate CollidesAmong(jobs: seq<Job>, events: seq<Turn>, event: Event) {
    exists k :: 0 <= k < |events| && Handling(jobs, events[k])
                && Collides(KeyClash(jobs[events[k].call].event, event))
  }

  lemma KeyDisagrees(other: Job, job: Job)
    requires Reaches(other) && Reaches(job)
    ensures CallKeyAgrees(RequestOf(other), RequestOf(job))
            || (Explains(other, job) && Collides(KeyClash(other.event, job.event)))
  {
    hide RequestOf, Content, PlanOf, ValidEvent, StableKey, Parts, Commitment.HashDocument, Explains, SourceKeyOf;
    RequestValid(other);
    RequestValid(job);
    if !CallKeyAgrees(RequestOf(other), RequestOf(job)) { OtherSourceExplains(other, job); }
  }

  lemma SourceDisagrees(other: Job, job: Job)
    requires Reaches(other) && Reaches(job)
    ensures CallSourceAgrees(RequestOf(other), RequestOf(job), SHA256(Content(job).value)) || Explains(other, job)
  {
    hide RequestOf, Content, PlanOf, ValidEvent, StableKey, Parts, Commitment.HashDocument, Explains, SourceKeyOf;
    RequestValid(other);
    RequestValid(job);
    if !CallSourceAgrees(RequestOf(other), RequestOf(job), SHA256(Content(job).value)) {
      OtherBytesExplain(other, job);
    }
  }

  /** In a store fed only through the agent, from empty, however the handling of any number of events interleaves with
      itself and with freezes and submissions: an ingestion conflicts only when some event being handled in that run
      named the same paper with different bytes, or exhibits a hash collision with this one. */
  lemma ConcurrentConflictExplained(jobs: seq<Job>, events: seq<Turn>, i: nat)
    requires i < |jobs| && AllReach(jobs) && AgentOnly(events)
    requires Interleave(Begin(map[], Requests(jobs)), events).status[i] == Returned(Failure(Conflict))
    ensures exists k :: 0 <= k < |events| && Handling(jobs, events[k]) && Explains(jobs[events[k].call], jobs[i])
  {
    hide Interleave, Explains, Content, RequestOf, KeysAgree, SourcesAgree, PlanOf, Commitment.HashDocument,
      KeyFree, SourceFree, ValidRequest, ValidEvent, StableKey;
    var calls, digest := Requests(jobs), SHA256(Content(jobs[i]).value);
    if forall k :: 0 <= k < |events| && Handling(jobs, events[k]) ==> !Explains(jobs[events[k].call], jobs[i]) {
      EveryoneAgrees(jobs, events, i);
      RequestValid(jobs[i]);
      EmptyIsFree(calls[i], digest);
      RetriesNeverConflict(map[], calls, events, i, digest);
    }
  }

  lemma EveryoneAgrees(jobs: seq<Job>, events: seq<Turn>, i: nat)
    requires i < |jobs| && AllReach(jobs) && AgentOnly(events)
    requires forall k :: 0 <= k < |events| && Handling(jobs, events[k]) ==> !Explains(jobs[events[k].call], jobs[i])
    ensures var calls := Requests(jobs);
            KeysAgree(calls, events, calls[i]) && SourcesAgree(calls, events, calls[i], SHA256(Content(jobs[i]).value))
  {
    hide Explains, Content, RequestOf, CallKeyAgrees, CallSourceAgrees, PlanOf;
    var calls, digest := Requests(jobs), SHA256(Content(jobs[i]).value);
    forall k | 0 <= k < |events|
      ensures TurnKeyAgrees(calls, events[k], calls[i]) && TurnSourceAgrees(calls, events[k], calls[i], digest)
    {
      if Handling(jobs, events[k]) {
        KeyDisagrees(jobs[events[k].call], jobs[i]);
        SourceDisagrees(jobs[events[k].call], jobs[i]);
      }
    }
  }

  // ---------- Replay ----------

  lemma {:induction false} InterleaveJoins(s: System, events: seq<Turn>, more: seq<Turn>)
    requires |s.status| == |s.calls|
    ensures Interleave(Interleave(s, events), more) == Interleave(s, events + more)
  {
    hide Next;
    if more == [] {
      assert events + more == events;
    } else {
      InterleaveJoins(s, events, more[..|more| - 1]);
      assert (events + more)[..|events + more| - 1] == events + more[..|more| - 1];
    }
  }

  /** Where a call stands that began when e was already recorded for it. */
  predicate FoundAgain(s: Status, e: Evidence) {
    || s.Started? || s == Returned(Failure(Conflict))
    || (Succeeded(s) && s.outcome.value.0.id == e.id && !s.outcome.value.1)
  }

  lemma StepFindsAgain(db: Db, req: DocumentRequest, e: Evidence, s: Status, nonce: Hash, draws: seq<Draw>)
    requires DbValid(db) && ValidRequest(req) && Recorded(db, req, e) && FoundAgain(s, e)
    ensures FoundAgain(Step(db, req, s, nonce, draws).1, e)
  {
    hide Valid, ValidRequest, Commitment.HashDocument, Lookup, Retry, EvidenceKept, Clashes;
    if s.Started? {
      RecordedIsKnown(db, req, e);
      LookupOutcome(db, req);
      if Lookup(db, req).Success? { RetryOutcome(db, req, Lookup(db, req).value.value); }
    }
  }

  lemma {:induction false} CallFindsAgain(s: System, events: seq<Turn>, i: nat, e: Evidence)
    requires SystemInv(s) && i < |s.calls| && s.status[i].Started? && ValidRequest(s.calls[i])
    requires Recorded(s.db, s.calls[i], e)
    ensures FoundAgain(Interleave(s, events).status[i], e)
  {
    hide SystemInv, ValidRequest, Step, Apply, Recorded, FoundAgain, DbExtends, DbValid;
    SizeFits(s);
    if events == [] {
      StartedIsFoundAgain(e);
    } else {
      var init, last := events[..|events| - 1], events[|events| - 1];
      CallFindsAgain(s, init, i, e);
      InterleaveKeeps(s, init);
      var now := Interleave(s, init);
      Reconciler.RecordedLater(s.db, now.db, s.calls[i], e);
      InvIsValid(now);
      match last {
        case Advance(j, nonce, draws) =>
          if j == i { StepFindsAgain(now.db, s.calls[i], e, now.status[i], nonce, draws); }
        case Other(_) =>
      }
    }
  }

  lemma StartedIsFoundAgain(e: Evidence)
    ensures FoundAgain(Started, e)
  {
  }

  lemma InvIsValid(s: System)
    requires SystemInv(s)
    ensures DbValid(s.db)
  {
  }

  /** Concurrent replay: an event handled again after its document was stored, with the same fetched bytes, in the
      middle of anything else, finds the same evidence and creates nothing, unless some handled event exhibits a hash
      collision with it. */
  lemma ConcurrentReplay(jobs: seq<Job>, before: seq<Turn>, later: seq<Turn>, i: nat, j: nat)
    requires i < |jobs| && j < |jobs| && Reconciler.SameWork(jobs[i], jobs[j])
    requires AllReach(jobs) && AgentOnly(before + later)
    requires var s := Interleave(Begin(map[], Requests(jobs)), before); Succeeded(s.status[i]) && s.status[j].Started?
    ensures var s := Interleave(Begin(map[], Requests(jobs)), before);
            var again := Interleave(s, later).status[j];
            again.Returned? ==>
              || (Succeeded(again) && again.outcome.value.0.id == s.status[i].outcome.value.0.id
                  && !again.outcome.value.1)
              || (again == Returned(Failure(Conflict)) && CollidesAmong(jobs, before + later, jobs[j].event))
  {
    hide Interleave, Content, RequestOf, Reconciler.SameWork, PlanOf, Commitment.HashDocument, CollidesAmong, Recorded,
      CallInv, Valid, ValidRequest;
    var calls := Requests(jobs);
    var s := Interleave(Begin(map[], calls), before);
    BeginsWell(map[], calls);
    InterleaveKeeps(Begin(map[], calls), before);
    ConcurrentIngestSafe(map[], calls, before, i, i);
    RequestValid(jobs[j]);
    Reconciler.SameRequest(jobs[i], jobs[j]);
    var e := s.status[i].outcome.value.0;
    CallFindsAgain(s, later, j, e);
    InterleaveJoins(Begin(map[], calls), before, later);
    if Interleave(s, later).status[j] == Returned(Failure(Conflict)) {
      InterleaveKeeps(s, later);
      Reconciler.RecordedLater(s.db, Interleave(s, later).db, calls[j], e);
      OnlyACollisionConflicts(jobs, before + later, j, e);
    }
  }

  lemma OnlyACollisionConflicts(jobs: seq<Job>, events: seq<Turn>, i: nat, e: Evidence)
    requires i < |jobs| && AllReach(jobs) && AgentOnly(events)
    requires var s := Interleave(Begin(map[], Requests(jobs)), events);
             s.status[i] == Returned(Failure(Conflict)) && Recorded(s.db, RequestOf(jobs[i]), e)
    requires SHA256(Content(jobs[i]).value) == e.wit.documentDigest
    ensures CollidesAmong(jobs, events, jobs[i].event)
  {
    hide Interleave, Content, RequestOf, CallKeyAgrees, PlanOf, Commitment.HashDocument, Recorded, KeyFree, SourceFree,
      Clashes, Explains, Valid;
    var calls, digest := Requests(jobs), SHA256(Content(jobs[i]).value);
    var db := Interleave(Begin(map[], calls), events).db;
    if !CollidesAmong(jobs, events, jobs[i].event) {
      forall k | 0 <= k < |events| ensures TurnKeyAgrees(calls, events[k], calls[i]) {
        if Handling(jobs, events[k]) { KeyDisagrees(jobs[events[k].call], jobs[i]); }
      }
      EmptyIsFree(calls[i], digest);
      KeyStaysFree(map[], calls, events, calls[i]);
      RecordedIsFree(db, calls[i], e);
      RequestValid(jobs[i]);
      FreeDoesNotClash(db, calls[i], digest);
      ConcurrentIngestSafe(map[], calls, events, i, i);
    }
  }

  lemma EmptyIsFree(call: DocumentRequest, digest: Hash)
    ensures KeyFree(map[], call) && SourceFree(map[], call, digest)
  {
  }

  lemma RecordedIsFree(db: Db, call: DocumentRequest, e: Evidence)
    requires Recorded(db, call, e)
    ensures SourceFree(db, call, e.wit.documentDigest)
  {
  }
}
