/** The SEP-5 public manifest: 61 bytes binding a batch's size and root. */
module Batch {
  import opened Prelude
  import Encoding
  import Merkle
  import Commitment
  import Buffers

  const VERSION: byte := 1
  const RFC6962_SHA256: byte := 1
  const MAX_LEAVES: nat := 65536
  const ENCODED_SIZE: nat := 61
  const DOMAIN: bytes := Ascii("sigmaproof:batch") + [0]

  datatype Manifest = Manifest(
    version: byte, commitmentVersion: byte, commitmentAlgorithm: byte, treeAlgorithm: byte, size: U64, root: Hash)

  datatype Error =
    | UnsupportedVersion | UnsupportedCommitment | UnsupportedAlgorithm | UnsupportedTree | BadSize
    | BadLength | BadDomain

  function Validate(m: Manifest): Result<(), Error> {
    if m.version != VERSION then Failure(UnsupportedVersion)
    else if m.commitmentVersion != Commitment.VERSION then Failure(UnsupportedCommitment)
    else if m.commitmentAlgorithm != Commitment.SHA256_ALGORITHM then Failure(UnsupportedAlgorithm)
    else if m.treeAlgorithm != RFC6962_SHA256 then Failure(UnsupportedTree)
    else if m.size == 0 || m.size > MAX_LEAVES then Failure(BadSize)
    else Success(())
  }

  predicate Valid(m: Manifest) {
    Validate(m).Success?
  }

  /** The manifest of an ordered list of commitments. */
  function Of(commitments: seq<bytes>): Manifest
    requires |commitments| < U64_LIMIT
  {
    Manifest(VERSION, Commitment.VERSION, Commitment.SHA256_ALGORITHM, RFC6962_SHA256, |commitments|,
             Merkle.Root(commitments))
  }

  method New(commitments: seq<Hash>) returns (r: Result<Manifest, Error>)
    requires |commitments| < U64_LIMIT
    ensures 0 < |commitments| <= MAX_LEAVES ==> r == Success(Of(commitments))
    ensures !(0 < |commitments| <= MAX_LEAVES) ==> r == Failure(BadSize)
  {
    var m := Manifest(VERSION, Commitment.VERSION, Commitment.SHA256_ALGORITHM, RFC6962_SHA256, |commitments|,
                      seq(32, _ => 0));
    if Validate(m).Failure? {
      return Failure(Validate(m).error);
    }
    var entries: seq<bytes> := [];
    for i := 0 to |commitments|
      invariant entries == commitments[..i]
    {
      entries := entries + [commitments[i]];
    }
    assert entries == commitments;
    return Success(m.(root := Merkle.Root(entries)));
  }

  /** The exact public bytes of a manifest. */
  function Encode(m: Manifest): (b: bytes)
    ensures |b| == ENCODED_SIZE
  {
    DOMAIN + [m.version, m.commitmentVersion, m.commitmentAlgorithm, m.treeAlgorithm]
    + Encoding.BigEndian64(m.size) + m.root
  }

  function Marshal(m: Manifest): Result<bytes, Error> {
    var _ :- Validate(m);
    Success(Encode(m))
  }

  method MarshalBinary(m: Manifest) returns (r: Result<bytes, Error>)
    ensures r == Marshal(m)
  {
    hide Encoding.BigEndian;
    if Validate(m).Failure? {
      return Failure(Validate(m).error);
    }
    var out := new byte[ENCODED_SIZE](_ => 0);
    Buffers.Copy(out, 0, DOMAIN);
    out[17], out[18], out[19], out[20] := m.version, m.commitmentVersion, m.commitmentAlgorithm, m.treeAlgorithm;
    assert out[..21] == DOMAIN + [m.version, m.commitmentVersion, m.commitmentAlgorithm, m.treeAlgorithm];
    Buffers.Copy(out, 21, Encoding.BigEndian64(m.size));
    assert out[..29] == out[..21] + Encoding.BigEndian64(m.size);
    Buffers.Copy(out, 29, m.root);
    assert out[..] == out[..29] + m.root;
    return Success(out[..]);
  }

  function Parse(data: bytes): Result<Manifest, Error> {
    if |data| != ENCODED_SIZE then Failure(BadLength)
    else if data[..17] != DOMAIN then Failure(BadDomain)
    else
      var size := Encoding.FromBigEndian(data[21..29]);
      SizeFits(data[21..29]);
      var m := Manifest(data[17], data[18], data[19], data[20], size, data[29..]);
      var _ :- Validate(m);
      Success(m)
  }

  lemma SizeFits(field: bytes)
    requires |field| == 8
    ensures Encoding.FromBigEndian(field) < U64_LIMIT
    ensures Encoding.BigEndian64(Encoding.FromBigEndian(field)) == field
  {
    Encoding.EncodeDecoded(field);
    assert Encoding.Pow256(8) == U64_LIMIT;
  }

  /** Membership of a commitment relative to this manifest. */
  predicate Includes(m: Manifest, c: Hash, index: nat, path: seq<Hash>) {
    Valid(m) && Merkle.Accepts(c, index, m.size, path, m.root)
  }

  method Verify(m: Manifest, c: Hash, index: U64, path: seq<Hash>) returns (ok: bool)
    ensures ok <==> Includes(m, c, index, path)
  {
    if Validate(m).Failure? {
      return false;
    }
    var verdict := Merkle.Verify(c, index, m.size, path, m.root);
    return verdict == Merkle.Accepted;
  }

  // ---------- Properties ----------

  /** Membership needs a supported manifest of 1 to 65536 leaves, and a path that leads to its root. */
  lemma IncludesExact(m: Manifest, c: Hash, index: nat, path: seq<Hash>)
    ensures Includes(m, c, index, path) <==>
            && m.version == m.commitmentVersion == m.commitmentAlgorithm == m.treeAlgorithm == 1
            && 1 <= m.size <= 65536 && Merkle.Accepts(c, index, m.size, path, m.root)
  {
    hide Merkle.Accepts;
  }

  /** The byte offsets of the manifest fields. */
  lemma ManifestLayout(m: Manifest)
    ensures var b := Encode(m);
            && b[..17] == DOMAIN && b[17] == m.version && b[18] == m.commitmentVersion && b[19] == m.commitmentAlgorithm
            && b[20] == m.treeAlgorithm && b[21..29] == Encoding.BigEndian64(m.size) && b[29..] == m.root
  {
  }

  lemma ParseEncoded(m: Manifest)
    requires Valid(m)
    ensures Parse(Encode(m)) == Success(m)
  {
    hide Encoding.BigEndian64, Encoding.FromBigEndian;
    var data := Encode(m);
    assert data[..17] == DOMAIN;
    assert data[21..29] == Encoding.BigEndian64(m.size);
    assert data[29..] == m.root;
    Encoding.BigEndian64RoundTrip(m.size);
  }

  lemma EncodeParsed(data: bytes)
    requires Parse(data).Success?
    ensures Encode(Parse(data).value) == data && Valid(Parse(data).value)
  {
    hide Encoding.BigEndian64, Encoding.FromBigEndian;
    SizeFits(data[21..29]);
    assert data == data[..17] + data[17..21] + data[21..29] + data[29..];
  }
}
