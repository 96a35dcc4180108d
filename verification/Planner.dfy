/** Turning a Paperless event into one deterministic ingestion request. */
module Planner {
  import opened Prelude
  import opened Encoding
  import opened Storage
  import Commitment

  /** strings.TrimSpace: some fixed function on texts. */
  const TRIM_SPACE: bytes -> bytes

  const ORIGINAL_UPLOAD: bytes := Ascii("original")
  const ARCHIVE_OUTPUT: bytes := Ascii("archive")
  const OBJECT_PREFIX: bytes := Ascii("paperless-document:")
  const COLON: bytes := Ascii(":")

  datatype Event = Event(
    tenant: bytes, instance: bytes, documentId: bytes, version: bytes, eventId: bytes, representation: bytes,
    changedFields: seq<bytes>)

  datatype Plan = Skip | Ingest(tenant: bytes, key: bytes, source: Source, representation: byte)

  datatype PlanError = InvalidEvent

  // ---------- Write-back events ----------

  /** Only evidence fields changed; an empty list on either side never counts. */
  predicate WritebackOnly(changed: seq<bytes>, evidenceFields: seq<bytes>) {
    && changed != [] && evidenceFields != []
    && forall c :: c in changed ==> exists f :: f in evidenceFields && TRIM_SPACE(f) == TRIM_SPACE(c)
  }

  method IsWritebackOnly(changed: seq<bytes>, evidenceFields: seq<bytes>) returns (only: bool)
    ensures only <==> WritebackOnly(changed, evidenceFields)
  {
    if changed == [] || evidenceFields == [] {
      return false;
    }
    var allowed: map<bytes, bool> := map[];
    for i := 0 to |evidenceFields|
      invariant forall x :: x in allowed <==> exists f :: f in evidenceFields[..i] && TRIM_SPACE(f) == x
    {
      allowed := allowed[TRIM_SPACE(evidenceFields[i]) := true];
      assert evidenceFields[..i + 1] == evidenceFields[..i] + [evidenceFields[i]];
    }
    assert evidenceFields[..|evidenceFields|] == evidenceFields;
    for i := 0 to |changed|
      invariant forall c :: c in changed[..i] ==> TRIM_SPACE(c) in allowed
    {
      if TRIM_SPACE(changed[i]) !in allowed {
        assert changed[i] in changed;
        return false;
      }
      assert changed[..i + 1] == changed[..i] + [changed[i]];
    }
    assert changed[..|changed|] == changed;
    return true;
  }

  // ---------- Stable keys ----------

  /** The framed text of the parts: each one behind a NUL. */
  function Frame(parts: seq<bytes>): bytes {
    if parts == [] then [] else Frame(parts[..|parts| - 1]) + [0] + parts[|parts| - 1]
  }

  function StableKey(parts: seq<bytes>): bytes {
    HexEncode(SHA256(Frame(parts)))
  }

  /** Feeding the hasher part by part. */
  method ComputeStableKey(parts: seq<bytes>) returns (key: bytes)
    ensures key == StableKey(parts)
  {
    var fed: bytes := [];
    for i := 0 to |parts|
      invariant fed == Frame(parts[..i])
    {
      fed := fed + [0];
      fed := fed + parts[i];
      assert parts[..i + 1][..i] == parts[..i];
    }
    assert parts[..|parts|] == parts;
    return HexEncode(SHA256(fed));
  }

  predicate NoNul(text: bytes) {
    0 !in text
  }

  lemma LastPartUnique(a: bytes, x: bytes, b: bytes, y: bytes)
    requires a + [0] + x == b + [0] + y && NoNul(x) && NoNul(y)
    ensures a == b && x == y
  {
    var u, v := a + [0] + x, b + [0] + y;
    assert u[|a|] == 0 && v[|b|] == 0;
    assert |x| == |y|;
    assert a == u[..|a|] && b == v[..|b|];
    assert x == u[|a| + 1..] && y == v[|b| + 1..];
  }

  /** Framing NUL-free parts is injective, whatever their number. */
  lemma {:induction false} FrameInjective(ps: seq<bytes>, qs: seq<bytes>)
    requires forall p: bytes :: p in ps ==> NoNul(p)
    requires forall q: bytes :: q in qs ==> NoNul(q)
    requires Frame(ps) == Frame(qs)
    ensures ps == qs
  {
    if ps != [] && qs != [] {
      var m, n := |ps| - 1, |qs| - 1;
      assert ps[m] in ps && qs[n] in qs;
      LastPartUnique(Frame(ps[..m]), ps[m], Frame(qs[..n]), qs[n]);
      FrameInjective(ps[..m], qs[..n]);
      assert ps == ps[..m] + [ps[m]] && qs == qs[..n] + [qs[n]];
    }
  }

  /** Without the NUL check two lists of parts would share a frame. */
  lemma FrameAmbiguous(a: bytes, b: bytes)
    ensures Frame([a + [0] + b]) == Frame([a, b])
  {
    assert [a + [0] + b][..0] == [] && [a, b][..1] == [a] && [a][..0] == [];
    assert Frame([a]) == [0] + a;
  }

  // ---------- Planning ----------

  function Parts(e: Event): seq<bytes> {
    [e.tenant, e.instance, e.documentId, e.version, e.representation, e.eventId]
  }

  function RepresentationOf(value: bytes): Option<byte> {
    if value == ORIGINAL_UPLOAD then Some(Commitment.ORIGINAL)
    else if value == ARCHIVE_OUTPUT then Some(Commitment.DERIVED)
    else None
  }

  function SourceOf(e: Event): Source {
    Source(e.instance, OBJECT_PREFIX + e.documentId, e.version + COLON + e.representation)
  }

  predicate ValidEvent(e: Event) {
    && ValidText(e.tenant) && ValidText(e.instance) && ValidText(e.documentId) && ValidText(e.version)
       && ValidText(e.eventId)
    && RepresentationOf(e.representation).Some?
    && ValidText(SourceOf(e).obj) && ValidText(SourceOf(e).version)
  }

  /** The plan an event deserves. */
  function PlanOf(e: Event, evidenceFields: seq<bytes>): Result<Plan, PlanError> {
    if WritebackOnly(e.changedFields, evidenceFields) then Success(Skip)
    else if !ValidEvent(e) then Failure(InvalidEvent)
    else Success(Ingest(e.tenant, StableKey(Parts(e)), SourceOf(e), RepresentationOf(e.representation).value))
  }

  predicate HasSuffix(text: bytes, suffix: bytes) {
    |suffix| <= |text| && text[|text| - |suffix|..] == suffix
  }

  method PlanIngest(e: Event, evidenceFields: seq<bytes>) returns (r: Result<Plan, PlanError>)
    ensures r == PlanOf(e, evidenceFields)
  {
    var writeback := IsWritebackOnly(e.changedFields, evidenceFields);
    if writeback {
      return Success(Skip);
    }
    if !ValidText(e.tenant) || !ValidText(e.instance) || !ValidText(e.documentId) || !ValidText(e.version)
      || !ValidText(e.eventId) {
      return Failure(InvalidEvent);
    }
    var rep := RepresentationOf(e.representation);
    if rep.None? {
      return Failure(InvalidEvent);
    }
    var source := SourceOf(e);
    var key := ComputeStableKey(Parts(e));
    SuffixHolds(e.version, COLON + e.representation);
    assert e.version + COLON + e.representation == e.version + (COLON + e.representation);
    if !ValidText(source.obj) || !ValidText(source.version) || !HasSuffix(source.version, COLON + e.representation) {
      return Failure(InvalidEvent);
    }
    return Success(Ingest(e.tenant, key, source, rep.value));
  }

  lemma SuffixHolds(text: bytes, suffix: bytes)
    ensures HasSuffix(text + suffix, suffix)
  {
  }

  // ---------- Identity ----------

  predicate IsPlanned(e: Event, evidenceFields: seq<bytes>) {
    PlanOf(e, evidenceFields).Success? && PlanOf(e, evidenceFields).value.Ingest?
  }

  /** The source tuple of a valid event. */
  function SourceKeyOf(e: Event): SourceKey
    requires RepresentationOf(e.representation).Some?
  {
    SourceKey(SourceOf(e), RepresentationOf(e.representation).value)
  }

  predicate SamePaper(e: Event, e': Event) {
    && e.instance == e'.instance && e.documentId == e'.documentId
    && e.version == e'.version && e.representation == e'.representation
  }

  /** Two events give the same source tuple exactly when they name the same instance, document, version and
      representation. */
  lemma SourceInjective(e: Event, e': Event)
    requires RepresentationOf(e.representation).Some? && RepresentationOf(e'.representation).Some?
    ensures SourceKeyOf(e) == SourceKeyOf(e') <==> SamePaper(e, e')
  {
    hide OBJECT_PREFIX, COLON, ORIGINAL_UPLOAD, ARCHIVE_OUTPUT;
    if SourceKeyOf(e) == SourceKeyOf(e') {
      TwoRepresentations();
      assert e.representation == e'.representation;
      HeadCancels(OBJECT_PREFIX, e.documentId, e'.documentId);
      TailCancels(e.version, e'.version, COLON + e.representation);
      assert e.version + COLON + e.representation == e.version + (COLON + e.representation);
      assert e'.version + COLON + e.representation == e'.version + (COLON + e.representation);
    }
  }

  lemma HeadCancels(head: bytes, a: bytes, b: bytes)
    ensures head + a == head + b ==> a == b
  {
    assert a == (head + a)[|head|..] && b == (head + b)[|head|..];
  }

  lemma TailCancels(a: bytes, b: bytes, tail: bytes)
    ensures a + tail == b + tail ==> a == b
  {
    if a + tail == b + tail {
      assert |a| == |b|;
      assert a == (a + tail)[..|a|] && b == (b + tail)[..|b|];
    }
  }

  function KeyClash(e: Event, e': Event): Collision {
    Collision(Frame(Parts(e)), Frame(Parts(e')))
  }

  /** Equal stable keys of planned events mean six equal fields, or the frames are a collision. */
  lemma KeyInjective(e: Event, e': Event)
    requires ValidEvent(e) && ValidEvent(e') && StableKey(Parts(e)) == StableKey(Parts(e'))
    ensures || (&& e.tenant == e'.tenant && e.instance == e'.instance && e.documentId == e'.documentId
                && e.version == e'.version && e.representation == e'.representation && e.eventId == e'.eventId)
            || Collides(KeyClash(e, e'))
  {
    HexInjective(SHA256(Frame(Parts(e))), SHA256(Frame(Parts(e'))));
    if Frame(Parts(e)) == Frame(Parts(e')) {
      NulFree(e);
      NulFree(e');
      FrameInjective(Parts(e), Parts(e'));
      SameParts(e, e');
    }
  }

  lemma SameParts(e: Event, e': Event)
    requires Parts(e) == Parts(e')
    ensures e.tenant == e'.tenant && e.instance == e'.instance && e.documentId == e'.documentId
    ensures e.version == e'.version && e.representation == e'.representation && e.eventId == e'.eventId
  {
    assert Parts(e)[0] == e.tenant && Parts(e)[1] == e.instance && Parts(e)[2] == e.documentId;
    assert Parts(e)[3] == e.version && Parts(e)[4] == e.representation && Parts(e)[5] == e.eventId;
  }

  function Trimmed(texts: seq<bytes>): set<bytes> {
    set text | text in texts :: TRIM_SPACE(text)
  }

  /** The five texts are acceptable, the representation is one of the two, and so are the texts of the source tuple. */
  predicate Acceptable(e: Event) {
    && ValidText(e.tenant) && ValidText(e.instance) && ValidText(e.documentId) && ValidText(e.version)
    && ValidText(e.eventId) && e.representation in {Ascii("original"), Ascii("archive")}
    && ValidText(Ascii("paperless-document:") + e.documentId)
    && ValidText(e.version + Ascii(":") + e.representation)
  }

  /** The framed identity whose hash, in hexadecimal, is the idempotency key. */
  function Identity(e: Event): bytes {
    [0] + e.tenant + [0] + e.instance + [0] + e.documentId + [0] + e.version + [0] + e.representation + [0] + e.eventId
  }

  /** An event whose changes are all evidence fields is skipped; any other is planned exactly when it is acceptable,
      under its own tenant, identity and source tuple: an original upload as byte 1, an archive as byte 2. */
  lemma PlanExact(e: Event, evidenceFields: seq<bytes>)
    ensures var r := PlanOf(e, evidenceFields);
            var writeback := e.changedFields != [] && evidenceFields != []
                             && Trimmed(e.changedFields) <= Trimmed(evidenceFields);
            && (r == Success(Skip) <==> writeback)
            && (r == Failure(InvalidEvent) <==> !writeback && !Acceptable(e))
            && (!writeback && Acceptable(e) ==>
                  r == Success(Ingest(e.tenant, HexEncode(SHA256(Identity(e))),
                                      Source(e.instance, Ascii("paperless-document:") + e.documentId,
                                             e.version + Ascii(":") + e.representation),
                                      if e.representation == Ascii("original") then 1 else 2)))
  {
    hide ValidText, WritebackOnly, Frame, HexEncode;
    WritebackExact(e.changedFields, evidenceFields);
    TwoRepresentations();
    IdentityIsFrame(e);
  }

  lemma WritebackExact(changed: seq<bytes>, evidenceFields: seq<bytes>)
    ensures WritebackOnly(changed, evidenceFields) <==>
            changed != [] && evidenceFields != [] && Trimmed(changed) <= Trimmed(evidenceFields)
  {
    if WritebackOnly(changed, evidenceFields) {
      forall text | text in Trimmed(changed) ensures text in Trimmed(evidenceFields) {
        var c :| c in changed && TRIM_SPACE(c) == text;
        var f :| f in evidenceFields && TRIM_SPACE(f) == TRIM_SPACE(c);
      }
    }
    if Trimmed(changed) <= Trimmed(evidenceFields) {
      forall c | c in changed ensures exists f :: f in evidenceFields && TRIM_SPACE(f) == TRIM_SPACE(c) {
        assert TRIM_SPACE(c) in Trimmed(changed);
      }
    }
  }

  lemma TwoRepresentations()
    ensures ORIGINAL_UPLOAD != ARCHIVE_OUTPUT
  {
    assert ORIGINAL_UPLOAD[0] != ARCHIVE_OUTPUT[0];
  }

  lemma {:induction false} FrameNext(parts: seq<bytes>, part: bytes)
    ensures Frame(parts + [part]) == Frame(parts) + [0] + part
  {
    assert (parts + [part])[..|parts|] == parts;
  }

  lemma IdentityIsFrame(e: Event)
    ensures Frame(Parts(e)) == Identity(e)
  {
    hide Frame;
    var one := [] + [e.tenant];
    var two := one + [e.instance];
    var three := two + [e.documentId];
    var four := three + [e.version];
    var five := four + [e.representation];
    FrameNone();
    FrameNext([], e.tenant);
    FrameNext(one, e.instance);
    FrameNext(two, e.documentId);
    FrameNext(three, e.version);
    FrameNext(four, e.representation);
    FrameNext(five, e.eventId);
    assert Parts(e) == five + [e.eventId];
    assert [] + [0] + e.tenant == [0] + e.tenant;
  }

  lemma FrameNone()
    ensures Frame([]) == []
  {
  }

  lemma NulFree(e: Event)
    requires ValidEvent(e)
    ensures forall p: bytes :: p in Parts(e) ==> NoNul(p)
  {
    assert NoNul(ORIGINAL_UPLOAD) && NoNul(ARCHIVE_OUTPUT);
  }
}
