/** The SEP-2 commitment profile: the 90-byte preimage, its digest, and checking a document against it. */
module Commitment {
  import opened Prelude

  const VERSION: byte := 1
  const SHA256_ALGORITHM: byte := 1
  const METADATA_ABSENT: byte := 0
  const ORIGINAL: byte := 1
  const DERIVED: byte := 2
  const DOMAIN: bytes := Ascii("sigmaproof:commitment") + [0]

  datatype Witness = Witness(
    version: byte, algorithm: byte, representation: byte, metadata: byte, documentDigest: Hash, nonce: Hash)

  datatype Error =
    | UnsupportedVersion | UnsupportedAlgorithm | UnsupportedRepresentation | UnsupportedMetadata
    | BadFraming
    | MissingDocument | BadLimit | ReadFailed | TooLong
    | CommitmentMismatch | DigestMismatch

  function Encode(w: Witness): (r: Result<bytes, Error>)
    ensures r.Success? ==> |r.value| == 90
  {
    if w.version != VERSION then Failure(UnsupportedVersion)
    else if w.algorithm != SHA256_ALGORITHM then Failure(UnsupportedAlgorithm)
    else if w.representation != ORIGINAL && w.representation != DERIVED then Failure(UnsupportedRepresentation)
    else if w.metadata != METADATA_ABSENT then Failure(UnsupportedMetadata)
    else Success(DOMAIN + [w.version, w.algorithm, w.representation, w.metadata] + w.documentDigest + w.nonce)
  }

  predicate Supported(w: Witness) {
    Encode(w).Success?
  }

  function Compute(w: Witness): Result<Hash, Error> {
    var preimage :- Encode(w);
    Success(SHA256(preimage))
  }

  /** The commitment of a supported witness. */
  function Commit(w: Witness): Hash
    requires Supported(w)
  {
    SHA256(Encode(w).value)
  }

  function HashDocument(document: Option<Reader>, maxBytes: Int64): Result<Hash, Error> {
    if document.None? then Failure(MissingDocument)
    else if maxBytes < 0 || maxBytes == MAX_INT64 then Failure(BadLimit)
    else
      match ReadLimited(document.value, maxBytes + 1)
      case None => Failure(ReadFailed)
      case Some(data) => if |data| > maxBytes then Failure(TooLong) else Success(SHA256(data))
  }

  function New(document: Option<Reader>, representation: byte, maxBytes: Int64, nonce: Hash)
    : Result<(Witness, Hash), Error>
  {
    var w := Witness(VERSION, SHA256_ALGORITHM, representation, METADATA_ABSENT, seq(32, _ => 0), seq(32, _ => 0));
    var _ :- Encode(w);
    var digest :- HashDocument(document, maxBytes);
    var filled := w.(documentDigest := digest, nonce := nonce);
    var c :- Compute(filled);
    Success((filled, c))
  }

  function Verify(document: Option<Reader>, w: Witness, expected: Hash, maxBytes: Int64): Result<(), Error> {
    var actual :- Compute(w);
    if actual != expected then Failure(CommitmentMismatch)
    else
      var digest :- HashDocument(document, maxBytes);
      if digest != w.documentDigest then Failure(DigestMismatch) else Success(())
  }

  function Parse(data: bytes): Result<Witness, Error> {
    if |data| != 90 || data[..22] != DOMAIN then Failure(BadFraming)
    else
      var w := Witness(data[22], data[23], data[24], data[25], data[26..58], data[58..90]);
      var _ :- Encode(w);
      Success(w)
  }

  // ---------- Properties ----------

  /** A document hashes exactly when it is read to its end within a legal limit, and then to its own digest. */
  lemma HashDocumentExact(document: Option<Reader>, maxBytes: Int64, h: Hash)
    ensures HashDocument(document, maxBytes) == Success(h) <==>
            && document.Some? && 0 <= maxBytes < MAX_INT64
            && !document.value.fails && |document.value.content| <= maxBytes && h == SHA256(document.value.content)
  {
  }

  /** A check succeeds exactly for a supported witness with its own commitment and a document with its own digest. */
  lemma VerifyExact(document: Option<Reader>, w: Witness, expected: Hash, maxBytes: Int64)
    ensures Verify(document, w, expected, maxBytes).Success? <==>
            && w.version == w.algorithm == 1 && w.representation in {1, 2} && w.metadata == 0
            && Encode(w).Success? && expected == SHA256(Encode(w).value)
            && document.Some? && 0 <= maxBytes < MAX_INT64
            && !document.value.fails && |document.value.content| <= maxBytes
            && SHA256(document.value.content) == w.documentDigest
  {
    HashDocumentExact(document, maxBytes, w.documentDigest);
  }

  /** New and Verify agree: a witness made from a document verifies that document and no other digest's. */
  lemma NewVerifies(document: Option<Reader>, representation: byte, maxBytes: Int64, nonce: Hash,
                    document': Option<Reader>, maxBytes': Int64)
    requires New(document, representation, maxBytes, nonce).Success?
    ensures var (w, c) := New(document, representation, maxBytes, nonce).value;
            && Supported(w) && w.representation == representation && w.nonce == nonce
            && HashDocument(document, maxBytes) == Success(w.documentDigest)
            && (Verify(document', w, c, maxBytes').Success? <==>
                HashDocument(document', maxBytes') == Success(w.documentDigest))
  {
  }

  /** The byte offsets of the preimage fields. */
  lemma PreimageLayout(w: Witness)
    requires Supported(w)
    ensures var b := Encode(w).value;
            && |b| == 90 && b[..22] == DOMAIN && b[22] == w.version && b[23] == w.algorithm
            && b[24] == w.representation && b[25] == w.metadata && b[26..58] == w.documentDigest && b[58..] == w.nonce
  {
  }

  lemma ParseEncoded(w: Witness)
    requires Supported(w)
    ensures Parse(Encode(w).value) == Success(w)
  {
    var data := Encode(w).value;
    assert data[..22] == DOMAIN;
    assert data[26..58] == w.documentDigest;
    assert data[58..90] == w.nonce;
  }

  lemma EncodeParsed(data: bytes)
    requires Parse(data).Success?
    ensures Encode(Parse(data).value) == Success(data)
  {
    assert data[22..26] == [data[22], data[23], data[24], data[25]];
    assert data == data[..22] + data[22..26] + data[26..58] + data[58..90];
  }

  /** Equal preimages come from equal witnesses. */
  lemma EncodeInjective(w: Witness, w': Witness)
    requires Supported(w) && Encode(w) == Encode(w')
    ensures w == w'
  {
    ParseEncoded(w);
    ParseEncoded(w');
  }
}
