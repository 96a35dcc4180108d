/** The report on a document and a package, and what a fully verified report binds. */
module Verifier {
  import opened Prelude
  import Merkle
  import Commitment
  import Batch
  import Package

  datatype Status = Verified | Failed | Unavailable | Unsupported

  datatype Report = Report(format: Status, document: Status, inclusion: Status, anchor: Status)

  const INITIAL_REPORT := Report(Unavailable, Unavailable, Unavailable, Unavailable)

  predicate IntegrityVerified(r: Report) {
    r.format == Verified && r.document == Verified && r.inclusion == Verified
  }

  function Judge(holds: bool): Status {
    if holds then Verified else Failed
  }

  predicate Matches(p: Package.Package, document: Option<Reader>, maxBytes: Int64) {
    Commitment.HashDocument(document, maxBytes) == Success(p.wit.documentDigest)
  }

  predicate Included(p: Package.Package) {
    Commitment.Supported(p.wit) && Batch.Includes(p.manifest, Commitment.Commit(p.wit), p.index, p.path)
  }

  /** The report each pair of inputs deserves: three separate judgements, and never one on the anchor. */
  function Assess(document: Option<Reader>, encoded: Option<Reader>, maxBytes: Int64): Report {
    match Package.Read(encoded)
    case Failure(e) => INITIAL_REPORT.(format := if e.Unsupported? then Unsupported else Failed)
    case Success(p) => Report(Verified, Judge(Matches(p, document, maxBytes)), Judge(Included(p)), Unavailable)
  }

  /** A parsed package's commitment always computes, so document and inclusion are always both judged. */
  method Verify(document: Option<Reader>, encoded: Option<Reader>, maxBytes: Int64) returns (result: Report)
    ensures result == Assess(document, encoded, maxBytes)
  {
    result := INITIAL_REPORT;
    var read := Package.Read(encoded);
    if read.Failure? {
      var status := Failed;
      if read.error.Unsupported? {
        status := Unsupported;
      }
      result := result.(format := status);
      return;
    }
    var p := read.value;
    result := result.(format := Verified);
    result := result.(anchor := Unavailable);
    var c := Commitment.Compute(p.wit);
    ReadIsWritable(encoded);
    if c.Failure? {
      result := result.(inclusion := Failed);
      return;
    }
    var member := Batch.Verify(p.manifest, c.value, p.index, p.path);
    if !member {
      result := result.(inclusion := Failed);
    } else {
      result := result.(inclusion := Verified);
    }
    if Commitment.Verify(document, p.wit, c.value, maxBytes).Failure? {
      result := result.(document := Failed);
    } else {
      result := result.(document := Verified);
    }
  }

  /** Bytes framed as a package whose version, anchor count or profile fields no verifier of this profile knows. */
  predicate UnknownProfile(data: bytes) {
    && 170 <= |data| <= 682 && data[..8] == Ascii("SIGMAPRF")
    && (|| data[8] != 1
        || (&& data[168] <= 16 && |data| == 170 + 32 * data[168] as int
            && (|| data[|data| - 1] != 0
                || data[31..35] !in {[1, 1, 1, 0], [1, 1, 2, 0]}
                || data[116..120] != [1, 1, 1, 1])))
  }

  /** The reader delivers all of these bytes, and no verifier needs more. */
  predicate Delivers(encoded: Option<Reader>, data: bytes) {
    encoded.Some? && !encoded.value.fails && encoded.value.content == data && |data| <= 682
  }

  /** The format is verified exactly for the bytes that some package is written as, unsupported exactly for an unknown
      profile, and failed otherwise. Only for a verified format are document and inclusion judged at all, and each is
      verified exactly when it holds and failed when it does not. */
  lemma AssessExact(document: Option<Reader>, encoded: Option<Reader>, maxBytes: Int64)
    ensures var r := Assess(document, encoded, maxBytes);
            && r.anchor == Unavailable
            && (r.format == Unsupported <==> encoded.Some? && Delivers(encoded, encoded.value.content)
                                             && UnknownProfile(encoded.value.content))
            && (r.format == Verified <==> exists p, data ::
                  Delivers(encoded, data) && Package.Writable(p) && Package.Marshal(p) == Success(data))
            && (r.format != Verified ==>
                  r.format in {Failed, Unsupported} && r.document == r.inclusion == Unavailable)
            && (forall p, data ::
                  Delivers(encoded, data) && Package.Writable(p) && Package.Marshal(p) == Success(data) ==>
                    && r.document == (if MatchesBytes(p, document, maxBytes) then Verified else Failed)
                    && r.inclusion == (if Member(p) then Verified else Failed))
  {
    hide Package.Marshal, Package.Parse, Package.Screen, Batch.Includes, Commitment.HashDocument, UnknownProfile;
    if encoded.Some? {
      ReadUnsupported(encoded.value);
      if Package.Read(encoded).Success? {
        var p := Package.Read(encoded).value;
        ReadIsWritable(encoded);
        Package.MarshalParsed(encoded.value.content);
        assert Delivers(encoded, encoded.value.content);
      }
    }
    forall p, data | Delivers(encoded, data) && Package.Writable(p) && Package.Marshal(p) == Success(data)
      ensures Package.Read(encoded) == Success(p)
      ensures Matches(p, document, maxBytes) == MatchesBytes(p, document, maxBytes)
      ensures Included(p) == Member(p)
    {
      ReadMarshalled(p);
      assert encoded == Some(Reader(data, false));
      Commitment.HashDocumentExact(document, maxBytes, p.wit.documentDigest);
      IncludedIsMember(p);
    }
  }

  /** The document is read to its end within the limit and has the witnessed digest. */
  predicate MatchesBytes(p: Package.Package, document: Option<Reader>, maxBytes: Int64) {
    && document.Some? && 0 <= maxBytes < MAX_INT64
    && !document.value.fails && |document.value.content| <= maxBytes
    && SHA256(document.value.content) == p.wit.documentDigest
  }

  /** The witness's commitment is at the package's index of a tree with the manifest's size and root. */
  predicate Member(p: Package.Package)
    requires Package.Writable(p)
  {
    Merkle.Accepts(SHA256(Commitment.Encode(p.wit).value), p.index, p.manifest.size, p.path, p.manifest.root)
  }

  lemma IncludedIsMember(p: Package.Package)
    requires Package.Writable(p)
    ensures Included(p) == Member(p)
  {
    hide Merkle.Accepts;
  }

  lemma ReadUnsupported(reader: Reader)
    ensures Package.Read(Some(reader)) == Failure(Package.Unsupported) <==>
            !reader.fails && |reader.content| <= 682 && UnknownProfile(reader.content)
    ensures Package.Read(Some(reader)).Success? ==> |reader.content| <= 682 && !reader.fails
  {
    hide Commitment.Parse, Batch.Parse, Merkle.Depth, Package.PathField, Package.Screen, UnknownProfile;
    ScreenUnsupported(if |reader.content| <= 682 then reader.content else reader.content[..683]);
  }

  lemma ScreenUnsupported(data: bytes)
    ensures Package.Screen(data) == Failure(Package.Unsupported) <==> UnknownProfile(data)
    ensures |data| > 682 ==> Package.Screen(data) == Failure(Package.BadLength)
  {
    if |data| >= 170 {
      assert data[31..35] == [data[31], data[32], data[33], data[34]];
      assert data[116..120] == [data[116], data[117], data[118], data[119]];
    }
  }

  /** A successful read saw the reader's whole content, and what it returned can be written back as that content. */
  lemma ReadIsWritable(encoded: Option<Reader>)
    requires Package.Read(encoded).Success?
    ensures encoded.Some? && Package.Parse(encoded.value.content) == Package.Read(encoded)
    ensures Package.Writable(Package.Read(encoded).value)
  {
    Package.MarshalParsed(encoded.value.content);
  }

  /** Reading back the bytes of a writable package. */
  lemma ReadMarshalled(p: Package.Package)
    requires Package.Writable(p)
    ensures Package.Marshal(p).Success? && Package.Read(Some(Reader(Package.Marshal(p).value, false))) == Success(p)
  {
    Package.ParseMarshalled(p);
    Package.WritablePath(p);
  }

  /** The collision two verified packages of one batch position would give: in the tree, in the preimage, or in the
      document. */
  function BindingClash(p: Package.Package, document: bytes, p': Package.Package, document': bytes): Collision
    requires Package.Writable(p) && Package.Writable(p') && p.manifest == p'.manifest && p.index == p'.index
  {
    var c, c' := Commitment.Commit(p.wit), Commitment.Commit(p'.wit);
    var tree := Merkle.ProofClash(c, p.path, c', p'.path, p.index, p.manifest.size);
    var preimage := Collision(Commitment.Encode(p.wit).value, Commitment.Encode(p'.wit).value);
    if Collides(tree) then tree
    else if Collides(preimage) then preimage
    else Collision(document, document')
  }

  /** Two fully verified document and package pairs with the same 61 manifest bytes and the same leaf index are the same
      package bytes and the same document, or BindingClash computes a collision. */
  lemma WholePackageBinds(document: Reader, encoded: Reader, maxBytes: Int64, document': Reader, encoded': Reader,
                          maxBytes': Int64)
    requires IntegrityVerified(Assess(Some(document), Some(encoded), maxBytes))
    requires IntegrityVerified(Assess(Some(document'), Some(encoded'), maxBytes'))
    requires |encoded.content| >= 170 && |encoded'.content| >= 170
    requires encoded.content[99..160] == encoded'.content[99..160]
    requires encoded.content[160..168] == encoded'.content[160..168]
    ensures Package.Parse(encoded.content).Success? && Package.Parse(encoded'.content).Success?
    ensures var p, p' := Package.Parse(encoded.content).value, Package.Parse(encoded'.content).value;
            && Package.Writable(p) && Package.Writable(p') && p.manifest == p'.manifest && p.index == p'.index
            && ((encoded.content == encoded'.content && document.content == document'.content)
                || Collides(BindingClash(p, document.content, p', document'.content)))
  {
    hide Package.Screen, Package.PathField, Merkle.Depth, Merkle.ProofClash, Batch.Parse, Commitment.Parse,
      Commitment.Encode;
    ReadIsWritable(Some(encoded));
    ReadIsWritable(Some(encoded'));
    var p, p' := Package.Parse(encoded.content).value, Package.Parse(encoded'.content).value;
    SameFields(encoded.content, encoded'.content);
    var c, c' := Commitment.Commit(p.wit), Commitment.Commit(p'.wit);
    Merkle.ProofsBind(c, p.path, c', p'.path, p.index, p.manifest.size);
    Commitment.HashDocumentExact(Some(document), maxBytes, p.wit.documentDigest);
    Commitment.HashDocumentExact(Some(document'), maxBytes', p'.wit.documentDigest);
    if Commitment.Encode(p.wit) == Commitment.Encode(p'.wit) {
      Commitment.EncodeInjective(p.wit, p'.wit);
      if p == p' { Package.ParseInjective(encoded.content, encoded'.content); }
    }
  }

  lemma SameFields(data: bytes, data': bytes)
    requires Package.Parse(data).Success? && Package.Parse(data').Success?
    requires |data| >= 170 && |data'| >= 170
    requires data[99..160] == data'[99..160] && data[160..168] == data'[160..168]
    ensures Package.Parse(data).value.manifest == Package.Parse(data').value.manifest
    ensures Package.Parse(data).value.index == Package.Parse(data').value.index
  {
  }
}
