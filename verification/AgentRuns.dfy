/** Stores fed only through the agent: why ingestions conflict, and what replaying events does. */
module AgentRuns {
  import opened Prelude
  import opened Encoding
  import opened Storage
  import opened StoreInvariant
  import opened StoreRuns
  import opened Ingestion
  import opened ConcurrentIngestion
  import opened Planner
  import opened Runner
  import Commitment

  /** One step in the life of such a store: an event is handled, or something freezes or records a submission. */
  datatype AgentStep = Handles(job: Job) | Maintains(action: Action)

  function StepTo(db: Db, step: AgentStep): Db {
    match step
    case Handles(job) => Handle(db, job).0
    case Maintains(action) => if action.DoIngest? then db else Apply(db, action)
  }

  /** The store after these steps, from empty. */
  function After(steps: seq<AgentStep>): Db {
    if steps == [] then map[] else StepTo(After(steps[..|steps| - 1]), steps[|steps| - 1])
  }

  // ---------- Validity ----------

  lemma StepToKeeps(db: Db, step: AgentStep)
    requires DbValid(db)
    ensures DbValid(StepTo(db, step)) && DbExtends(db, StepTo(db, step))
  {
    hide IngestDocument, RequestOf, Content, PlanOf, Valid, Extends, Apply;
    ExtendsReflexive();
    match step {
      case Handles(job) =>
        if Planned(job) && Content(job).Success? {
          AloneOutcome(db, RequestOf(job), job.nonce, job.draws);
        }
      case Maintains(action) => ApplyStep(db, action);
    }
  }

  lemma {:induction false} AfterValid(steps: seq<AgentStep>)
    ensures DbValid(After(steps))
  {
    hide StepTo, Valid;
    if steps != [] {
      AfterValid(steps[..|steps| - 1]);
      StepToKeeps(After(steps[..|steps| - 1]), steps[|steps| - 1]);
    }
  }

  lemma {:induction false} LaterExtends(steps: seq<AgentStep>, more: seq<AgentStep>)
    requires steps <= more
    ensures DbExtends(After(steps), After(more))
    decreases |more|
  {
    hide StepTo, Extends, Valid;
    ExtendsReflexive();
    if steps != more {
      var init := more[..|more| - 1];
      LaterExtends(steps, init);
      AfterValid(init);
      StepToKeeps(After(init), more[|more| - 1]);
      DbExtendsTransitive(After(steps), After(init), After(more));
    }
  }

  // ---------- Where keys and sources come from ----------

  /** This step handled a planned event of this tenant with this key and this source tuple. */
  predicate FedKey(step: AgentStep, tenant: bytes, key: bytes, sk: SourceKey) {
    && step.Handles? && Planned(step.job) && step.job.event.tenant == tenant
    && StableKey(Parts(step.job.event)) == key && SourceKeyOf(step.job.event) == sk
  }

  /** This step handled a planned event of this tenant and source tuple whose document has this digest. */
  predicate FedSource(step: AgentStep, tenant: bytes, sk: SourceKey, digest: Hash) {
    && step.Handles? && Planned(step.job) && step.job.event.tenant == tenant
    && SourceKeyOf(step.job.event) == sk
    && Content(step.job).Success? && SHA256(Content(step.job).value) == digest
  }

  ghost predicate KeyFed(t: Tenant, tenant: bytes, key: bytes, steps: seq<AgentStep>) {
    && key in t.keys && t.keys[key] in t.evidence
    && exists k :: 0 <= k < |steps| && FedKey(steps[k], tenant, key, KeyOf(t.evidence[t.keys[key]]))
  }

  ghost predicate SourceFed(t: Tenant, tenant: bytes, sk: SourceKey, steps: seq<AgentStep>) {
    && sk in t.sources && t.sources[sk] in t.evidence
    && exists k :: 0 <= k < |steps| && FedSource(steps[k], tenant, sk, t.evidence[t.sources[sk]].wit.documentDigest)
  }

  ghost predicate FedTenant(t: Tenant, tenant: bytes, steps: seq<AgentStep>) {
    && (forall key :: key in t.keys ==> KeyFed(t, tenant, key, steps))
    && (forall sk :: sk in t.sources ==> SourceFed(t, tenant, sk, steps))
  }

  ghost predicate FedInv(db: Db, steps: seq<AgentStep>) {
    forall name :: name in db ==> FedTenant(db[name], name, steps)
  }

  /** More steps and more evidence explain the same keys and sources. */
  lemma FedFrame(t: Tenant, t': Tenant, name: bytes, steps: seq<AgentStep>, more: seq<AgentStep>)
    requires FedTenant(t, name, steps) && Extends(t, t') && steps <= more
    ensures forall key :: key in t.keys ==> KeyFed(t', name, key, more)
    ensures forall sk :: sk in t.sources ==> SourceFed(t', name, sk, more)
  {
    hide FedKey, FedSource;
    forall key | key in t.keys ensures KeyFed(t', name, key, more) {
      assert KeyFed(t, name, key, steps);
      var k :| 0 <= k < |steps| && FedKey(steps[k], name, key, KeyOf(t.evidence[t.keys[key]]));
      assert more[k] == steps[k];
    }
    forall sk | sk in t.sources ensures SourceFed(t', name, sk, more) {
      assert SourceFed(t, name, sk, steps);
      var k :| 0 <= k < |steps| && FedSource(steps[k], name, sk, t.evidence[t.sources[sk]].wit.documentDigest);
      assert more[k] == steps[k];
    }
  }

  /** A step that adds no key or source of this tenant without a handled event behind it. */
  lemma StepFeeds(db: Db, step: AgentStep, name: bytes, more: seq<AgentStep>)
    requires DbValid(db) && name in StepTo(db, step) && more != [] && more[|more| - 1] == step
    ensures var t, t' := TenantOf(db, name), StepTo(db, step)[name];
            && (forall key :: key in t'.keys ==> key in t.keys || KeyFed(t', name, key, more))
            && (forall sk :: sk in t'.sources ==> sk in t.sources || SourceFed(t', name, sk, more))
  {
    hide Handle, KeyFed, SourceFed, Valid, Apply;
    match step {
      case Maintains(action) => if !action.DoIngest? { MaintenanceKeepsIndexes(db, action, name); }
      case Handles(job) => HandleFeeds(db, job, name, more);
    }
  }

  lemma FedStep(db: Db, steps: seq<AgentStep>, step: AgentStep)
    requires DbValid(db) && FedInv(db, steps)
    ensures FedInv(StepTo(db, step), steps + [step])
  {
    hide StepTo, Extends, Valid, KeyFed, SourceFed;
    var db' := StepTo(db, step);
    var more := steps + [step];
    StepToKeeps(db, step);
    forall name | name in db' ensures FedTenant(db'[name], name, more) {
      StepFeeds(db, step, name, more);
      if name in db {
        assert Extends(db[name], db'[name]);
        FedFrame(db[name], db'[name], name, steps, more);
      }
    }
  }

  /** Handling an event adds at most its own key and its own source. */
  lemma HandleFeeds(db: Db, job: Job, name: bytes, more: seq<AgentStep>)
    requires DbValid(db) && name in Handle(db, job).0 && more != [] && more[|more| - 1] == Handles(job)
    ensures var t, t' := TenantOf(db, name), Handle(db, job).0[name];
            && (forall key :: key in t'.keys ==> key in t.keys || KeyFed(t', name, key, more))
            && (forall sk :: sk in t'.sources ==> sk in t.sources || SourceFed(t', name, sk, more))
  {
    hide IngestDocument, RequestOf, Content, PlanOf, Valid, StableKey, Parts, ValidEvent;
    if Planned(job) && Content(job).Success? {
      RequestValid(job);
      AloneOutcome(db, RequestOf(job), job.nonce, job.draws);
      AloneChange(db, RequestOf(job), job.nonce, job.draws);
      var (db', r) := IngestDocument(db, RequestOf(job), job.nonce, job.draws);
      if db' != db && name == job.event.tenant {
        AddedIsFed(TenantOf(db, name), RequestOf(job), r.value.0, job, more);
      }
    }
  }

  lemma AddedIsFed(t: Tenant, req: DocumentRequest, e: Evidence, job: Job, more: seq<AgentStep>)
    requires t.counter + 1 < U64_LIMIT && e == NewEvidence(WithWitness(req, e.wit), e.id, t.counter + 1)
             && KeyOf(e) == Key(req)
    requires more != [] && more[|more| - 1] == Handles(job)
    requires Planned(job) && req.key == StableKey(Parts(job.event)) && Key(req) == SourceKeyOf(job.event)
    requires Content(job).Success? && SHA256(Content(job).value) == e.wit.documentDigest
    ensures var t' := AddEvidence(t, WithWitness(req, e.wit), e.id, t.counter + 1);
            && (forall key :: key in t'.keys ==> key in t.keys || KeyFed(t', job.event.tenant, key, more))
            && (forall sk :: sk in t'.sources ==> sk in t.sources || SourceFed(t', job.event.tenant, sk, more))
  {
    hide StableKey, Parts, Content, BigEndian64, ValidEvent;
    var t' := AddEvidence(t, WithWitness(req, e.wit), e.id, t.counter + 1);
    var last := |more| - 1;
    assert FedKey(more[last], job.event.tenant, req.key, KeyOf(e));
    assert FedSource(more[last], job.event.tenant, Key(req), e.wit.documentDigest);
    assert KeyFed(t', job.event.tenant, req.key, more);
    assert SourceFed(t', job.event.tenant, Key(req), more);
  }

  /** Every key and every source of such a store was fed by an event handled before. */
  lemma {:induction false} AfterFed(steps: seq<AgentStep>)
    ensures FedInv(After(steps), steps)
  {
    hide StepTo, FedTenant, Valid;
    if steps != [] {
      var init := steps[..|steps| - 1];
      AfterFed(init);
      AfterValid(init);
      FedStep(After(init), init, steps[|steps| - 1]);
      assert steps == init + [steps[|steps| - 1]];
    }
  }

  // ---------- Conflicts ----------

  /** An event that was not skipped explains a conflict of this one: it named the same instance, document, version and
      representation for other bytes, or its stable key and this one's exhibit a hash collision. */
  predicate Explains(other: Job, job: Job)
    requires Content(job).Success?
  {
    && Planned(other) && other.event.tenant == job.event.tenant
    && (|| (&& SamePaper(other.event, job.event)
            && Content(other).Success? && Content(other).value != Content(job).value)
        || Collides(KeyClash(other.event, job.event)))
  }

  /** In a store fed only through the agent, an ingestion conflicts only when some event handled before named the same
      paper with different bytes, or exhibits a collision with this one. */
  lemma ConflictExplained(steps: seq<AgentStep>, job: Job)
    requires Handle(After(steps), job).1 == Failure(StoreError(Conflict))
    ensures Content(job).Success?
    ensures exists k :: 0 <= k < |steps| && steps[k].Handles? && Explains(steps[k].job, job)
  {
    hide After, Handle, Valid, Explains, FedInv;
    var db := After(steps);
    AfterValid(steps);
    AfterFed(steps);
    ConflictMeansClash(db, job);
    ClashExplained(db, steps, job);
  }

  lemma ConflictMeansClash(db: Db, job: Job)
    requires DbValid(db) && Handle(db, job).1 == Failure(StoreError(Conflict))
    ensures Planned(job) && Content(job).Success? && Clashes(db, RequestOf(job))
  {
    hide IngestDocument, RequestOf, PlanOf, Valid, Clashes, Content, Known, Recorded;
    ContentNotStored(job);
    RequestValid(job);
    AloneOutcome(db, RequestOf(job), job.nonce, job.draws);
  }

  lemma ContentNotStored(job: Job)
    ensures Content(job).Failure? ==> !Content(job).error.StoreError?
  {
  }

  lemma ClashExplained(db: Db, steps: seq<AgentStep>, job: Job)
    requires FedInv(db, steps) && Planned(job) && Content(job).Success? && Clashes(db, RequestOf(job))
    ensures exists k :: 0 <= k < |steps| && steps[k].Handles? && Explains(steps[k].job, job)
  {
    hide RequestOf, Content, PlanOf, ValidEvent, StableKey, Parts, Commitment.HashDocument, Explains;
    RequestValid(job);
    var name, t, req := job.event.tenant, db[job.event.tenant], RequestOf(job);
    assert FedTenant(t, name, steps);
    if req.key in t.keys && t.keys[req.key] in t.evidence && KeyOf(t.evidence[t.keys[req.key]]) != Key(req) {
      assert KeyFed(t, name, req.key, steps);
      var k :| 0 <= k < |steps| && FedKey(steps[k], name, req.key, KeyOf(t.evidence[t.keys[req.key]]));
      OtherSourceExplains(steps[k].job, job);
    } else {
      assert SourceFed(t, name, Key(req), steps);
      var k :| 0 <= k < |steps| && FedSource(steps[k], name, Key(req),
                                             t.evidence[t.sources[Key(req)]].wit.documentDigest);
      OtherBytesExplain(steps[k].job, job);
    }
  }

  lemma OtherSourceExplains(other: Job, job: Job)
    requires Planned(other) && ValidEvent(job.event) && Content(job).Success?
    requires other.event.tenant == job.event.tenant
    requires StableKey(Parts(other.event)) == StableKey(Parts(job.event))
    requires SourceKeyOf(other.event) != SourceKeyOf(job.event)
    ensures Explains(other, job) && Collides(KeyClash(other.event, job.event))
  {
    hide Content;
    KeyInjective(other.event, job.event);
    SourceInjective(other.event, job.event);
  }

  lemma OtherBytesExplain(other: Job, job: Job)
    requires Planned(other) && ValidEvent(job.event) && Content(job).Success?
    requires other.event.tenant == job.event.tenant && SourceKeyOf(other.event) == SourceKeyOf(job.event)
    requires Content(other).Success? && SHA256(Content(other).value) != SHA256(Content(job).value)
    ensures Explains(other, job)
  {
    hide Content;
    SourceInjective(other.event, job.event);
  }
}
