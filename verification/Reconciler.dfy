/** Replaying ready events through the same ingestion path, with a report that hides nothing. */
module Reconciler {
  import opened Prelude
  import opened Storage
  import opened StoreInvariant
  import opened StoreRuns
  import opened Ingestion
  import opened ConcurrentIngestion
  import opened Planner
  import opened Runner
  import opened AgentRuns
  import StoreObject
  import Commitment

  const DEFAULT_RECONCILE_LIMIT: int := 1024

  datatype Item = Item(event: Event, evidenceId: bytes, created: bool, skipped: bool, error: Option<HandleError>)

  datatype Report = Report(processed: nat, created: nat, existing: nat, skipped: nat, failed: nat, items: seq<Item>)

  datatype RunError = NotReady | ListFailed

  /** What the outside world supplies while one event is handled. */
  datatype Supply = Supply(fetched: Fetched, nonce: Hash, draws: seq<Draw>)

  function ItemOf(event: Event, r: Result<Handled, HandleError>): Item {
    match r
    case Failure(e) => Item(event, [], false, false, Some(e))
    case Success(Skipped) => Item(event, [], false, true, None)
    case Success(Stored(id, created)) => Item(event, id, created, false, None)
  }

  datatype Kind = KFailed | KSkipped | KCreated | KExisting

  function KindOf(item: Item): Kind {
    if item.error.Some? then KFailed
    else if item.skipped then KSkipped
    else if item.created then KCreated
    else KExisting
  }

  function Count(items: seq<Item>, kind: Kind): nat {
    if items == [] then 0
    else Count(items[..|items| - 1], kind) + if KindOf(items[|items| - 1]) == kind then 1 else 0
  }

  lemma {:induction false} CountsAddUp(items: seq<Item>)
    ensures Count(items, KFailed) + Count(items, KSkipped) + Count(items, KCreated) + Count(items, KExisting) == |items|
  {
    if items != [] { CountsAddUp(items[..|items| - 1]); }
  }

  lemma {:induction false} CountZero(items: seq<Item>, kind: Kind)
    requires forall i :: 0 <= i < |items| ==> KindOf(items[i]) != kind
    ensures Count(items, kind) == 0
  {
    if items != [] { CountZero(items[..|items| - 1], kind); }
  }

  function JobAt(config: Config, events: seq<Event>, supply: nat -> Supply, i: nat): Job
    requires i < |events|
  {
    Job(config, events[i], supply(i).fetched, supply(i).nonce, supply(i).draws)
  }

  /** The store and the items after handling the first n events in order. */
  function Trace(db: Db, config: Config, events: seq<Event>, supply: nat -> Supply, n: nat): (r: (Db, seq<Item>))
    requires n <= |events|
    ensures |r.1| == n && forall i :: 0 <= i < n ==> r.1[i].event == events[i]
  {
    if n == 0 then (db, [])
    else
      var (before, items) := Trace(db, config, events, supply, n - 1);
      var (after, r) := Handle(before, JobAt(config, events, supply, n - 1));
      (after, items + [ItemOf(events[n - 1], r)])
  }

  /** A pass asks for 1024 events unless told otherwise, and handles every listed event once, in order; its items and
      counters agree, and nothing is uncounted. */
  method Run(store: StoreObject.Store, config: Config, source: Option<int -> Option<seq<Event>>>, limit: int,
             supply: nat -> Supply)
    returns (r: Result<Report, RunError>)
    modifies store
    ensures r.Failure? ==> store.tenants == old(store.tenants)
    ensures r == Failure(NotReady) <==> source.None? || limit < 0
    ensures r == Failure(ListFailed) <==>
            source.Some? && limit >= 0 && source.value(if limit == 0 then 1024 else limit).None?
    ensures r.Success? ==>
              var events := source.value(if limit == 0 then 1024 else limit).value;
              var report := r.value;
              && (store.tenants, report.items) == Trace(old(store.tenants), config, events, supply, |events|)
              && report.processed == |events| == report.created + report.existing + report.skipped + report.failed
              && report.created == Count(report.items, KCreated) && report.existing == Count(report.items, KExisting)
              && report.skipped == Count(report.items, KSkipped) && report.failed == Count(report.items, KFailed)
  {
    if source.None? {
      return Failure(NotReady);
    }
    var bound := limit;
    if bound == 0 {
      bound := DEFAULT_RECONCILE_LIMIT;
    }
    if bound < 0 {
      return Failure(NotReady);
    }
    var listed := source.value(bound);
    if listed.None? {
      return Failure(ListFailed);
    }
    var report := HandleAll(store, config, listed.value, supply);
    CountsAddUp(report.items);
    return Success(report);
  }

  /** Each counter is the number of items of its kind. */
  predicate Tallied(report: Report) {
    && report.processed == |report.items|
    && report.created == Count(report.items, KCreated) && report.existing == Count(report.items, KExisting)
    && report.skipped == Count(report.items, KSkipped) && report.failed == Count(report.items, KFailed)
  }

  method HandleAll(store: StoreObject.Store, config: Config, events: seq<Event>, supply: nat -> Supply)
    returns (report: Report)
    modifies store
    ensures (store.tenants, report.items) == Trace(old(store.tenants), config, events, supply, |events|)
    ensures Tallied(report)
  {
    hide Handle;
    report := Report(0, 0, 0, 0, 0, []);
    for i := 0 to |events|
      invariant (store.tenants, report.items) == Trace(old(store.tenants), config, events, supply, i)
      invariant Tallied(report)
    {
      hide Tallied;
      var given := supply(i);
      var result := HandleEvent(store, config, events[i], given.fetched, given.nonce, given.draws);
      report := Enter(report, events[i], result);
    }
  }

  /** Books one result: its item goes last, and exactly one counter moves. */
  method Enter(report: Report, event: Event, result: Result<Handled, HandleError>) returns (report': Report)
    requires Tallied(report)
    ensures report'.items == report.items + [ItemOf(event, result)] && Tallied(report')
  {
    hide Count;
    var item := Item(event, [], false, false, None);
    report' := report;
    if result.Failure? {
      item := item.(error := Some(result.error));
      report' := report'.(failed := report'.failed + 1);
    } else if result.value.Skipped? {
      item := item.(skipped := true);
      report' := report'.(skipped := report'.skipped + 1);
    } else {
      item := item.(evidenceId := result.value.evidenceId, created := result.value.created);
      if result.value.created {
        report' := report'.(created := report'.created + 1);
      } else {
        report' := report'.(existing := report'.existing + 1);
      }
    }
    CountNext(report.items, item);
    report' := report'.(processed := report'.processed + 1, items := report.items + [item]);
  }

  lemma CountNext(items: seq<Item>, item: Item)
    ensures forall kind :: Count(items + [item], kind) == Count(items, kind) + if KindOf(item) == kind then 1 else 0
  {
    hide KindOf;
    assert (items + [item])[..|items|] == items;
  }

  // ---------- Replay ----------

  /** The same event with the same configuration and the same fetched answer. */
  predicate SameWork(job: Job, job': Job) {
    job'.config == job.config && job'.event == job.event && job'.fetched == job.fetched
  }

  /** An event, not skipped, that was handled before and whose stable key collides with this one's. */
  predicate CollidesBefore(history: seq<AgentStep>, event: Event) {
    exists k :: 0 <= k < |history| && history[k].Handles? && Planned(history[k].job)
                && Collides(KeyClash(history[k].job.event, event))
  }

  /** Handling an event again in any later store: skipped and stored events repeat themselves with the same evidence and
      create nothing; and only an event that once failed for want of a random ID can be created later. */
  lemma HandledAgain(db: Db, job: Job, later: Db, history: seq<AgentStep>, job': Job)
    requires DbValid(db) && DbValid(later) && FedInv(later, history)
    requires DbExtends(db, later) && DbExtends(Handle(db, job).0, later) && SameWork(job, job')
    ensures var r, r' := Handle(db, job).1, Handle(later, job').1;
            && (r == Success(Skipped) ==> r' == r)
            && (r.Success? && r.value.Stored? ==>
                  r' == Success(Stored(r.value.evidenceId, false)) || CollidesBefore(history, job.event))
            && (r'.Success? && r'.value.Stored? && r'.value.created ==> r == Failure(StoreError(Entropy)))
  {
    hide IngestDocument, RequestOf, PlanOf, Content, Valid, FedInv, CollidesBefore, DbExtends;
    if Planned(job) && Content(job).Success? {
      SameRequest(job, job');
      IngestedAgain(db, job, later, history, job'.nonce, job'.draws);
    } else {
      SameRequest(job, job');
    }
  }

  lemma SameRequest(job: Job, job': Job)
    requires SameWork(job, job')
    ensures Planned(job) == Planned(job') && Content(job) == Content(job')
    ensures Planned(job) && Content(job).Success? ==> RequestOf(job) == RequestOf(job')
  {
    hide PlanOf, BoundedBytes;
  }

  lemma IngestedAgain(db: Db, job: Job, later: Db, history: seq<AgentStep>, nonce: Hash, draws: seq<Draw>)
    requires DbValid(db) && DbValid(later) && FedInv(later, history) && Planned(job) && Content(job).Success?
    requires DbExtends(db, later) && DbExtends(IngestDocument(db, RequestOf(job), job.nonce, job.draws).0, later)
    ensures var r := IngestDocument(db, RequestOf(job), job.nonce, job.draws).1;
            var r' := IngestDocument(later, RequestOf(job), nonce, draws).1;
            && (r.Success? ==> (r'.Success? && r'.value.0.id == r.value.0.id && !r'.value.1)
                               || CollidesBefore(history, job.event))
            && (r'.Success? && r'.value.1 ==> r == Failure(Entropy))
  {
    hide IngestDocument, RequestOf, Planned, Content, DbValid, FedInv, CollidesBefore, DbExtends,
      Commitment.HashDocument, StableKey, Parts, ValidEvent, ValidRequest, SourceKeyOf;
    var req := RequestOf(job);
    RequestValid(job);
    var r, r' := IngestDocument(db, req, job.nonce, job.draws).1, IngestDocument(later, req, nonce, draws).1;
    if r.Success? {
      StoredAgain(db, job, later, history, nonce, draws);
    } else if r'.Success? && r'.value.1 {
      CreatedAfterFailure(db, req, job.nonce, job.draws, later, nonce, draws);
    }
  }

  /** Evidence once stored for a request is what every later call for it returns, unless its key was taken. */
  lemma StoredAgain(db: Db, job: Job, later: Db, history: seq<AgentStep>, nonce: Hash, draws: seq<Draw>)
    requires DbValid(db) && DbValid(later) && FedInv(later, history) && Planned(job) && Content(job).Success?
    requires DbExtends(IngestDocument(db, RequestOf(job), job.nonce, job.draws).0, later)
    requires IngestDocument(db, RequestOf(job), job.nonce, job.draws).1.Success?
    ensures var e := IngestDocument(db, RequestOf(job), job.nonce, job.draws).1.value.0;
            var r' := IngestDocument(later, RequestOf(job), nonce, draws).1;
            && ((r'.Success? && r'.value.0.id == e.id && !r'.value.1) || CollidesBefore(history, job.event))
            && !(r'.Success? && r'.value.1)
  {
    hide IngestDocument, RequestOf, PlanOf, Content, Valid, FedInv, CollidesBefore, DbExtends,
      Commitment.HashDocument, StableKey, Parts, Clashes, EvidenceKept, ValidEvent, ValidRequest, SourceKeyOf;
    var req := RequestOf(job);
    RequestValid(job);
    var (db', r) := IngestDocument(db, req, job.nonce, job.draws);
    AloneOutcome(db, req, job.nonce, job.draws);
    RecordedLater(db', later, req, r.value.0);
    AloneOutcome(later, req, nonce, draws);
    if Clashes(later, req) {
      ClashMeansCollision(later, history, job, r.value.0);
    }
  }

  /** A call can create evidence after the same call failed only if that failure was for want of a random ID. */
  lemma CreatedAfterFailure(db: Db, req: DocumentRequest, nonce: Hash, draws: seq<Draw>, later: Db, nonce': Hash,
                            draws': seq<Draw>)
    requires DbValid(db) && DbValid(later) && DbExtends(db, later) && ValidRequest(req)
    requires Commitment.HashDocument(req.document, req.maxBytes).Success?
    requires IngestDocument(db, req, nonce, draws).1.Failure?
    requires var r' := IngestDocument(later, req, nonce', draws').1; r'.Success? && r'.value.1
    ensures IngestDocument(db, req, nonce, draws).1 == Failure(Entropy)
  {
    hide IngestDocument, Valid, DbExtends, Commitment.HashDocument, Clashes, Recorded, Known;
    AloneOutcome(db, req, nonce, draws);
    AloneOutcome(later, req, nonce', draws');
    KnownLater(db, later, req);
    CreationNeedsCounter(db, later, req, nonce', draws');
  }

  lemma KnownLater(db: Db, later: Db, req: DocumentRequest)
    requires DbExtends(db, later)
    ensures Known(db, req) ==> Known(later, req)
  {
    if req.tenant in db { assert Extends(db[req.tenant], later[req.tenant]); }
  }

  lemma RecordedLater(db: Db, later: Db, req: DocumentRequest, e: Evidence)
    requires DbExtends(db, later) && Recorded(db, req, e)
    ensures Recorded(later, req, e) && Known(later, req)
  {
    assert Extends(db[req.tenant], later[req.tenant]);
  }

  /** A used-up sequence counter stays used up. */
  lemma CreationNeedsCounter(db: Db, later: Db, req: DocumentRequest, nonce: Hash, draws: seq<Draw>)
    requires DbValid(later) && DbExtends(db, later)
    requires var r := IngestDocument(later, req, nonce, draws).1; r.Success? && r.value.1
    ensures TenantOf(db, req.tenant).counter < U64_LIMIT - 1
  {
    hide IngestDocument, Valid, Clashes, Commitment.HashDocument, AddEvidence, NewEvidence, EvidenceKept;
    AloneOutcome(later, req, nonce, draws);
    AloneChange(later, req, nonce, draws);
    var (later', r) := IngestDocument(later, req, nonce, draws);
    if later' == later { RecordedIsKnown(later, req, r.value.0); }
    if req.tenant in db { assert Extends(db[req.tenant], later[req.tenant]); }
  }

  /** A stored document clashes later only when a handled event exhibits a collision with this one's key. */
  lemma ClashMeansCollision(db: Db, history: seq<AgentStep>, job: Job, e: Evidence)
    requires FedInv(db, history) && Planned(job) && Content(job).Success? && Clashes(db, RequestOf(job))
    requires Recorded(db, RequestOf(job), e)
    requires Commitment.HashDocument(RequestOf(job).document, RequestOf(job).maxBytes) == Success(e.wit.documentDigest)
    ensures CollidesBefore(history, job.event)
  {
    hide RequestOf, Content, PlanOf, ValidEvent, StableKey, Parts, Commitment.HashDocument, Explains;
    RequestValid(job);
    var name, t, req := job.event.tenant, db[job.event.tenant], RequestOf(job);
    assert FedTenant(t, name, history);
    assert KeyFed(t, name, req.key, history);
    var k :| 0 <= k < |history| && FedKey(history[k], name, req.key, KeyOf(t.evidence[t.keys[req.key]]));
    OtherSourceExplains(history[k].job, job);
  }

  // ---------- Replaying a whole pass ----------

  /** The first n events of a pass, as steps of the store's life. */
  function Steps(config: Config, events: seq<Event>, supply: nat -> Supply, n: nat): (steps: seq<AgentStep>)
    requires n <= |events|
    ensures |steps| == n && forall i :: 0 <= i < n ==> steps[i] == Handles(JobAt(config, events, supply, i))
  {
    seq(n, i requires 0 <= i < n => Handles(JobAt(config, events, supply, i)))
  }

  /** A pass is a run of handled events. */
  lemma {:induction false} TraceIsRun(past: seq<AgentStep>, config: Config, events: seq<Event>, supply: nat -> Supply,
                                      n: nat)
    requires n <= |events|
    ensures var (db, items) := Trace(After(past), config, events, supply, n);
            && db == After(past + Steps(config, events, supply, n))
            && forall i :: 0 <= i < n ==>
                 items[i] == ItemOf(events[i], Handle(After(past + Steps(config, events, supply, i)),
                                                      JobAt(config, events, supply, i)).1)
  {
    hide Handle, After, Steps, ItemOf, JobAt, StepTo;
    if n == 0 {
      assert past + Steps(config, events, supply, 0) == past;
    } else {
      TraceIsRun(past, config, events, supply, n - 1);
      NextStep(past, config, events, supply, n - 1);
    }
  }

  lemma NextStep(past: seq<AgentStep>, config: Config, events: seq<Event>, supply: nat -> Supply, n: nat)
    requires n < |events|
    ensures After(past + Steps(config, events, supply, n + 1))
            == Handle(After(past + Steps(config, events, supply, n)), JobAt(config, events, supply, n)).0
  {
    hide Handle;
    var all := past + Steps(config, events, supply, n + 1);
    assert all[..|all| - 1] == past + Steps(config, events, supply, n);
  }

  /** Everything handled before event i of the second pass: the past, the first pass, whatever lay between, and the
      second pass up to i. */
  function History(past: seq<AgentStep>, between: seq<AgentStep>, config: Config, events: seq<Event>,
                   supply: nat -> Supply, supply': nat -> Supply, i: nat): seq<AgentStep>
    requires i <= |events|
  {
    past + Steps(config, events, supply, |events|) + between + Steps(config, events, supply', i)
  }

  /** What handling an event again returns, given what the first handling returned and what was handled in between. */
  predicate Repeats(first: Item, again: Item, history: seq<AgentStep>, event: Event) {
    && (KindOf(first) == KSkipped ==> again == first)
    && (KindOf(first) in {KCreated, KExisting} ==>
          || (KindOf(again) == KExisting && again.evidenceId == first.evidenceId)
          || CollidesBefore(history, event))
    && (KindOf(again) == KCreated ==> first.error == Some(StoreError(Entropy)))
  }

  /** The item a handled event gives, at its place in the store's life. */
  function ItemAt(steps: seq<AgentStep>, a: nat): Item
    requires a < |steps| && steps[a].Handles?
  {
    ItemOf(steps[a].job.event, Handle(After(steps[..a]), steps[a].job).1)
  }

  /** Replay anywhere: an event handled twice with the same fetched answer, whatever is handled, frozen or recorded
      between the two and around them. */
  lemma ReplayAnywhere(steps: seq<AgentStep>, a: nat, b: nat)
    requires a < b < |steps| && steps[a].Handles? && steps[b].Handles? && SameWork(steps[a].job, steps[b].job)
    ensures Repeats(ItemAt(steps, a), ItemAt(steps, b), steps[..b], steps[a].job.event)
  {
    hide Handle, After, CollidesBefore;
    assert steps[..a + 1][..a] == steps[..a];
    assert After(steps[..a + 1]) == Handle(After(steps[..a]), steps[a].job).0 by { LastStep(steps[..a + 1]); }
    ReplayOne(steps[..a], steps[..a + 1], steps[..b], steps[a].job, steps[b].job);
  }

  lemma LastStep(steps: seq<AgentStep>)
    requires steps != []
    ensures After(steps) == StepTo(After(steps[..|steps| - 1]), steps[|steps| - 1])
  {
    hide StepTo;
  }

  /** Replay: a second pass over the same events, with the same fetched answers but fresh nonces and draws, after any
      other agent work. Skipped events are skipped again; stored events are reported as existing with the same evidence
      ID, or a hash collision between two stable keys is exhibited; and an event is created by the second pass only if
      the first failed to draw an ID for it. */
  lemma ReplayPass(past: seq<AgentStep>, between: seq<AgentStep>, config: Config, events: seq<Event>,
                   supply: nat -> Supply, supply': nat -> Supply, i: nat)
    requires i < |events| && forall k: nat :: supply'(k).fetched == supply(k).fetched
    ensures var items := Trace(After(past), config, events, supply, |events|).1;
            var middle := past + Steps(config, events, supply, |events|) + between;
            var items' := Trace(After(middle), config, events, supply', |events|).1;
            Repeats(items[i], items'[i], History(past, between, config, events, supply, supply', i), events[i])
  {
    hide Handle, After, CollidesBefore, Steps, Trace;
    var n := |events|;
    var middle := past + Steps(config, events, supply, n) + between;
    TraceIsRun(past, config, events, supply, n);
    TraceIsRun(middle, config, events, supply', n);
    var first, second := past + Steps(config, events, supply, i), middle + Steps(config, events, supply', i);
    ReplayOne(first, past + Steps(config, events, supply, i + 1), second,
              JobAt(config, events, supply, i), JobAt(config, events, supply', i)) by {
      NextStep(past, config, events, supply, i);
      StepsGrow(past, between, config, events, supply, supply', i);
    }
  }

  lemma StepsGrow(past: seq<AgentStep>, between: seq<AgentStep>, config: Config, events: seq<Event>,
                  supply: nat -> Supply, supply': nat -> Supply, i: nat)
    requires i < |events|
    ensures past + Steps(config, events, supply, i) <= past + Steps(config, events, supply, i + 1)
            <= History(past, between, config, events, supply, supply', i)
  {
    assert Steps(config, events, supply, i) <= Steps(config, events, supply, i + 1)
           <= Steps(config, events, supply, |events|);
  }

  lemma ReplayOne(before: seq<AgentStep>, after: seq<AgentStep>, history: seq<AgentStep>, job: Job, job': Job)
    requires before <= after <= history && After(after) == Handle(After(before), job).0 && SameWork(job, job')
    ensures var item := ItemOf(job.event, Handle(After(before), job).1);
            var item' := ItemOf(job'.event, Handle(After(history), job').1);
            Repeats(item, item', history, job.event)
  {
    hide Handle, After, CollidesBefore, FedInv, DbValid, DbExtends;
    AfterValid(before);
    AfterValid(history);
    AfterFed(history);
    LaterExtends(before, history);
    LaterExtends(after, history);
    HandledAgain(After(before), job, After(history), history, job');
  }
}
