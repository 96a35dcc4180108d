/** The portable unanchored package: 170 + 32n bytes around a witness, a manifest, an index and a path. */
module Package {
  import opened Prelude
  import Encoding
  import Merkle
  import Commitment
  import Batch
  import Buffers

  const PACKAGE_VERSION: byte := 1
  const MAX_PACKAGE_BYTES: nat := 170 + 16 * 32
  const MAGIC: bytes := Ascii("SIGMAPRF")

  datatype Package = Package(wit: Commitment.Witness, manifest: Batch.Manifest, index: U64, path: seq<Hash>)

  datatype Error =
    | Unsupported
    | BadLength | BadMagic | BadFraming | BadIndex | BadPathLength | MissingReader | ReadFailed
    | BadWitness(wit: Commitment.Error)
    | BadManifest(manifest: Batch.Error)

  /** The verifier's own top-down depth loop agrees with the tree's depth. */
  method PathLength(index: nat, size: nat) returns (depth: nat)
    ensures index < size ==> depth == Merkle.Depth(index, size)
  {
    depth := 0;
    var i, n := index, size;
    while n > 1
      invariant index < size ==> i < n && depth + Merkle.Depth(i, n) == Merkle.Depth(index, size)
      decreases n
    {
      var k := Merkle.Pow2(Merkle.BitLen(n - 1) - 1) by { Merkle.BitLenBounds(n - 1); }
      assert k == Merkle.Split(n);
      if i < k {
        n := k;
      } else {
        i := i - k;
        n := n - k;
      }
      depth := depth + 1;
    }
  }

  // ---------- Layout ----------

  function Flatten(path: seq<Hash>): (b: bytes)
    ensures |b| == 32 * |path|
  {
    if path == [] then [] else Flatten(path[..|path| - 1]) + path[|path| - 1]
  }

  function Nodes(b: bytes): (path: seq<Hash>)
    requires |b| % 32 == 0
    ensures |b| == 32 * |path|
  {
    if b == [] then [] else Nodes(b[..|b| - 32]) + [b[|b| - 32..]]
  }

  /** The exact bytes of a package whose parts are already encoded. */
  function Layout(wit: bytes, manifest: bytes, index: U64, path: seq<Hash>): (b: bytes)
    requires |wit| == 90 && |manifest| == 61 && |path| < 256
    ensures |b| == 170 + 32 * |path|
  {
    MAGIC + [PACKAGE_VERSION] + wit + manifest + Encoding.BigEndian64(index) + [|path| as byte] + Flatten(path) + [0]
  }

  /** The packages that can be written. */
  predicate Writable(p: Package) {
    && Commitment.Supported(p.wit) && Batch.Valid(p.manifest)
    && p.index < p.manifest.size && |p.path| == Merkle.Depth(p.index, p.manifest.size)
  }

  lemma WritablePath(p: Package)
    requires Writable(p)
    ensures |p.path| <= 16
  {
    Merkle.DepthLimits(p.index, p.manifest.size);
  }

  function Marshal(p: Package): Result<bytes, Error> {
    if !Commitment.Supported(p.wit) then Failure(Unsupported)
    else if !Batch.Valid(p.manifest) then Failure(BadManifest(Batch.Validate(p.manifest).error))
    else if p.index >= p.manifest.size then Failure(BadIndex)
    else if |p.path| != Merkle.Depth(p.index, p.manifest.size) then Failure(BadPathLength)
    else
      WritablePath(p);
      Success(Layout(Commitment.Encode(p.wit).value, Batch.Encode(p.manifest), p.index, p.path))
  }

  method MarshalBinary(p: Package) returns (r: Result<bytes, Error>)
    ensures r == Marshal(p)
  {
    var encoded := Commitment.Encode(p.wit);
    if encoded.Failure? {
      return Failure(Unsupported);
    }
    var manifest := Batch.MarshalBinary(p.manifest);
    if manifest.Failure? {
      return Failure(BadManifest(manifest.error));
    }
    if p.index >= p.manifest.size {
      return Failure(BadIndex);
    }
    var depth := PathLength(p.index, p.manifest.size);
    if |p.path| != depth {
      return Failure(BadPathLength);
    }
    WritablePath(p);
    var out := Fill(encoded.value, manifest.value, p.index, p.path);
    return Success(out);
  }

  method Fill(wit: bytes, manifest: bytes, index: U64, path: seq<Hash>) returns (r: bytes)
    requires |wit| == 90 && |manifest| == 61 && |path| < 256
    ensures r == Layout(wit, manifest, index, path)
  {
    hide Flatten, Encoding.BigEndian;
    var out := new byte[170 + |path| * 32](_ => 0);
    FillHead(out, wit, manifest, index, |path| as byte);
    FillPath(out, path);
    return out[..];
  }

  method FillHead(out: array<byte>, wit: bytes, manifest: bytes, index: U64, count: byte)
    requires |wit| == 90 && |manifest| == 61 && out.Length >= 170
    modifies out
    ensures out[..169] == MAGIC + [PACKAGE_VERSION] + wit + manifest + Encoding.BigEndian64(index) + [count]
    ensures out[169..] == old(out[169..])
  {
    hide Encoding.BigEndian;
    Buffers.Copy(out, 0, MAGIC);
    out[8] := PACKAGE_VERSION;
    assert out[..9] == MAGIC + [PACKAGE_VERSION] && out[169..] == old(out[169..]);
    Buffers.Copy(out, 9, wit);
    assert out[..99] == MAGIC + [PACKAGE_VERSION] + wit && out[169..] == old(out[169..]);
    Buffers.Copy(out, 99, manifest);
    assert out[..160] == MAGIC + [PACKAGE_VERSION] + wit + manifest && out[169..] == old(out[169..]);
    Buffers.Copy(out, 160, Encoding.BigEndian64(index));
    assert out[..168] == MAGIC + [PACKAGE_VERSION] + wit + manifest + Encoding.BigEndian64(index);
    out[168] := count;
  }

  /** Writes the siblings behind the 169 fixed bytes; the last byte stays zero. */
  method FillPath(out: array<byte>, path: seq<Hash>)
    requires out.Length == 170 + 32 * |path|
    requires forall b :: b in out[169..] ==> b == 0
    modifies out
    ensures out[..] == old(out[..169]) + Flatten(path) + [0]
  {
    var i := 0;
    forall j | 169 <= j < out.Length ensures out[j] == 0 {
      assert out[169..][j - 169] in out[169..];
    }
    while i < |path|
      invariant 0 <= i <= |path|
      invariant out[..169 + 32 * i] == old(out[..169]) + Flatten(path[..i])
      invariant forall j :: 169 + 32 * i <= j < out.Length ==> out[j] == 0
    {
      Buffers.Copy(out, 169 + i * 32, path[i]);
      assert path[..i + 1][..i] == path[..i];
      i := i + 1;
    }
    assert path[..i] == path;
  }

  // ---------- Parsing ----------

  /** Fields whose values no supported profile uses. */
  predicate UnsupportedFields(data: bytes)
    requires |data| >= 170
  {
    || data[31] != 1 || data[32] != 1 || (data[33] != 1 && data[33] != 2) || data[34] != 0
    || data[116] != 1 || data[117] != 1 || data[118] != 1 || data[119] != 1
  }

  /** Length, magic, version, path framing, anchor count and the unsupported-field screen, in the order they are
      checked; the result is the number of siblings. */
  function Screen(data: bytes): (r: Result<nat, Error>)
    ensures r.Success? ==> r.value <= 16 && |data| == 170 + 32 * r.value
  {
    if |data| < 170 || |data| > MAX_PACKAGE_BYTES then Failure(BadLength)
    else if data[..8] != MAGIC then Failure(BadMagic)
    else if data[8] != PACKAGE_VERSION then Failure(Unsupported)
    else
      var count := data[168] as int;
      if count > 16 || |data| != 170 + 32 * count then Failure(BadFraming)
      else if data[|data| - 1] != 0 then Failure(Unsupported)
      else if UnsupportedFields(data) then Failure(Unsupported)
      else Success(count)
  }

  function PathField(data: bytes, count: nat): seq<Hash>
    requires 169 + 32 * count <= |data|
  {
    Nodes(data[169..169 + 32 * count])
  }

  function ParseBody(data: bytes, count: nat): Result<Package, Error>
    requires |data| == 170 + 32 * count
  {
    match Commitment.Parse(data[9..99])
    case Failure(e) => Failure(BadWitness(e))
    case Success(wit) =>
      match Batch.Parse(data[99..160])
      case Failure(e) => Failure(BadManifest(e))
      case Success(manifest) =>
        var index := Encoding.FromBigEndian(data[160..168]);
        if index >= manifest.size then Failure(BadIndex)
        else if count != Merkle.Depth(index, manifest.size) then Failure(BadPathLength)
        else Success(Package(wit, manifest, index, PathField(data, count)))
  }

  function Parse(data: bytes): Result<Package, Error> {
    var count :- Screen(data);
    ParseBody(data, count)
  }

  method ParseBinary(data: bytes) returns (r: Result<Package, Error>)
    ensures r == Parse(data)
  {
    if |data| < 170 || |data| > MAX_PACKAGE_BYTES {
      return Failure(BadLength);
    }
    if data[..8] != MAGIC {
      return Failure(BadMagic);
    }
    if data[8] != PACKAGE_VERSION {
      return Failure(Unsupported);
    }
    var count := data[168] as int;
    if count > 16 || |data| != 170 + 32 * count {
      return Failure(BadFraming);
    }
    if data[|data| - 1] != 0 || UnsupportedFields(data) {
      return Failure(Unsupported);
    }
    var wit := Commitment.Parse(data[9..99]);
    if wit.Failure? {
      return Failure(BadWitness(wit.error));
    }
    var manifest := Batch.Parse(data[99..160]);
    if manifest.Failure? {
      return Failure(BadManifest(manifest.error));
    }
    var index := Encoding.FromBigEndian(data[160..168]);
    if index >= manifest.value.size {
      return Failure(BadIndex);
    }
    var depth := PathLength(index, manifest.value.size);
    if count != depth {
      return Failure(BadPathLength);
    }
    var path := ReadNodes(data, count);
    return Success(Package(wit.value, manifest.value, index, path));
  }

  method ReadNodes(data: bytes, count: nat) returns (path: seq<Hash>)
    requires 169 + 32 * count <= |data|
    ensures path == PathField(data, count)
  {
    path := [];
    for i := 0 to count
      invariant path == Nodes(data[169..169 + 32 * i])
    {
      ghost var upTo := data[169..169 + 32 * (i + 1)];
      assert upTo[..|upTo| - 32] == data[169..169 + 32 * i];
      path := path + [data[169 + i * 32..169 + (i + 1) * 32]];
    }
  }

  /** Read takes at most one byte more than the longest package. */
  function Read(reader: Option<Reader>): Result<Package, Error> {
    if reader.None? then Failure(MissingReader)
    else
      match ReadLimited(reader.value, MAX_PACKAGE_BYTES + 1)
      case None => Failure(ReadFailed)
      case Some(data) => Parse(data)
  }

  function CreateUnanchored(document: Option<Reader>, representation: byte, maxBytes: Int64, nonce: Hash)
    : Result<Package, Commitment.Error>
  {
    var (w, c) :- Commitment.New(document, representation, maxBytes, nonce);
    Success(Package(w, Batch.Of([c]), 0, []))
  }

  // ---------- Properties ----------

  lemma {:induction false} NodesFlatten(path: seq<Hash>)
    ensures Nodes(Flatten(path)) == path
  {
    if path != [] {
      var b, last := Flatten(path), |path| - 1;
      NodesFlatten(path[..last]);
      assert b[..|b| - 32] == Flatten(path[..last]) && b[|b| - 32..] == path[last];
    }
  }

  /** Siblings lie in path order, 32 bytes each. */
  lemma {:induction false} FlattenAt(path: seq<Hash>, i: nat)
    requires i < |path|
    ensures Flatten(path)[32 * i..32 * i + 32] == path[i]
  {
    var last := |path| - 1;
    if i < last {
      FlattenAt(path[..last], i);
      assert Flatten(path)[32 * i..32 * i + 32] == Flatten(path[..last])[32 * i..32 * i + 32];
    }
  }

  lemma {:induction false} FlattenNodes(b: bytes)
    requires |b| % 32 == 0
    ensures Flatten(Nodes(b)) == b
  {
    if b != [] {
      FlattenNodes(b[..|b| - 32]);
      var path := Nodes(b);
      assert path[..|path| - 1] == Nodes(b[..|b| - 32]);
    }
  }

  /** Where each part of a layout lies. */
  lemma LayoutParts(wit: bytes, manifest: bytes, index: U64, path: seq<Hash>)
    requires |wit| == 90 && |manifest| == 61 && |path| <= 16
    ensures var b := Layout(wit, manifest, index, path);
            && b[..8] == MAGIC && b[8] == PACKAGE_VERSION && b[9..99] == wit && b[99..160] == manifest
            && b[160..168] == Encoding.BigEndian64(index) && b[168] == |path| as byte
            && b[169..169 + 32 * |path|] == Flatten(path) && b[|b| - 1] == 0
  {
    hide Encoding.BigEndian64, Flatten;
  }

  /** Any bytes with those parts are that layout. */
  lemma LayoutOf(b: bytes, path: seq<Hash>)
    requires |b| == 170 + 32 * |path| && |path| <= 16
    requires b[..8] == MAGIC && b[8] == PACKAGE_VERSION && b[168] == |path| as byte && b[|b| - 1] == 0
    requires b[169..169 + 32 * |path|] == Flatten(path)
    ensures Encoding.FromBigEndian(b[160..168]) < U64_LIMIT
    ensures b == Layout(b[9..99], b[99..160], Encoding.FromBigEndian(b[160..168]), path)
  {
    hide Encoding.BigEndian64, Encoding.FromBigEndian, Flatten;
    Batch.SizeFits(b[160..168]);
    var tail := 169 + 32 * |path|;
    assert b == b[..8] + b[8..9] + b[9..99] + b[99..160] + b[160..168] + b[168..169] + b[169..tail] + b[tail..];
    assert b[8..9] == [b[8]] && b[168..169] == [b[168]] && b[tail..] == [b[tail]];
  }

  /** Round trip: what is written is read back, and everything that passes the checks can be written. */
  lemma ParseMarshalled(p: Package)
    ensures Marshal(p).Success? <==> Writable(p)
    ensures Writable(p) ==> Parse(Marshal(p).value) == Success(p)
  {
    if Writable(p) {
      hide Layout, Batch.Parse, Batch.Encode, Commitment.Parse, Flatten, Nodes, Merkle.Depth;
      WritablePath(p);
      var w, m := Commitment.Encode(p.wit).value, Batch.Encode(p.manifest);
      var b := Layout(w, m, p.index, p.path);
      LayoutParts(w, m, p.index, p.path);
      Commitment.ParseEncoded(p.wit);
      Batch.ParseEncoded(p.manifest);
      Encoding.BigEndian64RoundTrip(p.index);
      NodesFlatten(p.path);
      NoUnsupportedFields(b);
    }
  }

  /** Accepted inner encodings never meet the unsupported-field screen. */
  lemma NoUnsupportedFields(b: bytes)
    requires |b| >= 170
    requires Commitment.Parse(b[9..99]).Success? && Batch.Parse(b[99..160]).Success?
    ensures !UnsupportedFields(b)
  {
    var w, m := b[9..99], b[99..160];
    assert w[22] == b[31] && w[23] == b[32] && w[24] == b[33] && w[25] == b[34];
    assert m[17] == b[116] && m[18] == b[117] && m[19] == b[118] && m[20] == b[119];
  }

  /** The written bytes, field by field, across the three nested codecs. */
  lemma WrittenBytes(p: Package)
    requires Writable(p)
    ensures Marshal(p).Success?
    ensures var b := Marshal(p).value;
            && |b| == 170 + 32 * |p.path| && b[..8] == Ascii("SIGMAPRF") && b[8] == 1
            && b[9..31] == Ascii("sigmaproof:commitment") + [0]
            && b[31] == 1 && b[32] == 1 && b[33] == p.wit.representation && b[34] == 0
            && b[35..67] == p.wit.documentDigest && b[67..99] == p.wit.nonce
            && b[99..116] == Ascii("sigmaproof:batch") + [0]
            && b[116] == 1 && b[117] == 1 && b[118] == 1 && b[119] == 1
            && Encoding.FromBigEndian(b[120..128]) == p.manifest.size && b[128..160] == p.manifest.root
            && Encoding.FromBigEndian(b[160..168]) == p.index && b[168] as int == |p.path|
            && (forall i :: 0 <= i < |p.path| ==> b[169 + 32 * i..201 + 32 * i] == p.path[i])
            && b[|b| - 1] == 0
  {
    hide Layout, Batch.Encode, Commitment.Encode, Flatten, Merkle.Depth, Encoding.FromBigEndian, Encoding.BigEndian64;
    WritablePath(p);
    var w, m := Commitment.Encode(p.wit).value, Batch.Encode(p.manifest);
    var b := Layout(w, m, p.index, p.path);
    LayoutParts(w, m, p.index, p.path);
    WitnessBytes(p.wit, b);
    ManifestBytes(p.manifest, b);
    Encoding.BigEndian64RoundTrip(p.index);
    SiblingBytes(p.path, b);
  }

  lemma WitnessBytes(w: Commitment.Witness, b: bytes)
    requires Commitment.Supported(w) && |b| >= 170 && b[9..99] == Commitment.Encode(w).value
    ensures b[9..31] == Ascii("sigmaproof:commitment") + [0]
    ensures b[31] == 1 && b[32] == 1 && b[33] == w.representation && b[34] == 0
    ensures b[35..67] == w.documentDigest && b[67..99] == w.nonce
  {
    Commitment.PreimageLayout(w);
    SupportedFields(w);
    hide Commitment.Encode;
    var part := b[9..99];
    assert part[..22] == b[9..31] && part[26..58] == b[35..67] && part[58..] == b[67..99];
    assert part[22] == b[31] && part[23] == b[32] && part[24] == b[33] && part[25] == b[34];
  }

  lemma SupportedFields(w: Commitment.Witness)
    requires Commitment.Supported(w)
    ensures w.version == 1 && w.algorithm == 1 && w.metadata == 0
  {
  }

  lemma ManifestBytes(m: Batch.Manifest, b: bytes)
    requires Batch.Valid(m) && |b| >= 170 && b[99..160] == Batch.Encode(m)
    ensures b[99..116] == Ascii("sigmaproof:batch") + [0]
    ensures b[116] == 1 && b[117] == 1 && b[118] == 1 && b[119] == 1
    ensures Encoding.FromBigEndian(b[120..128]) == m.size && b[128..160] == m.root
  {
    hide Batch.Encode, Encoding.FromBigEndian, Encoding.BigEndian64;
    Batch.ManifestLayout(m);
    Encoding.BigEndian64RoundTrip(m.size);
    var part := b[99..160];
    assert part[..17] == b[99..116] && part[21..29] == b[120..128] && part[29..] == b[128..160];
    assert part[17] == b[116] && part[18] == b[117] && part[19] == b[118] && part[20] == b[119];
  }

  lemma SiblingBytes(path: seq<Hash>, b: bytes)
    requires |b| == 170 + 32 * |path| && b[169..169 + 32 * |path|] == Flatten(path)
    ensures forall i :: 0 <= i < |path| ==> b[169 + 32 * i..201 + 32 * i] == path[i]
  {
    hide Flatten;
    forall i | 0 <= i < |path| ensures b[169 + 32 * i..201 + 32 * i] == path[i] {
      FlattenAt(path, i);
      InnerSlice(b, 169, 169 + 32 * |path|, 32 * i, 32 * i + 32);
    }
  }

  lemma InnerSlice(b: bytes, lo: nat, hi: nat, i: nat, j: nat)
    requires lo <= hi <= |b| && i <= j <= hi - lo
    ensures b[lo..hi][i..j] == b[lo + i..lo + j]
  {
    forall k | 0 <= k < j - i ensures b[lo..hi][i..j][k] == b[lo + i..lo + j][k] {
      assert b[lo..hi][i..j][k] == b[lo..hi][i + k] == b[lo + (i + k)] == b[lo + i..lo + j][k];
    }
  }

  /** Canonical form: every accepted byte string is exactly what its package is written as. */
  lemma MarshalParsed(data: bytes)
    requires Parse(data).Success?
    ensures Writable(Parse(data).value) && Marshal(Parse(data).value) == Success(data)
  {
    hide Layout, Batch.Parse, Batch.Encode, Commitment.Parse, Commitment.Encode, Flatten, Nodes, Merkle.Depth;
    var p := Parse(data).value;
    Commitment.EncodeParsed(data[9..99]);
    Batch.EncodeParsed(data[99..160]);
    FlattenNodes(data[169..169 + 32 * |p.path|]);
    LayoutOf(data, p.path);
  }

  /** Two byte strings that parse to the same package are the same bytes. */
  lemma ParseInjective(data: bytes, data': bytes)
    requires Parse(data).Success? && Parse(data) == Parse(data')
    ensures data == data'
  {
    MarshalParsed(data);
    MarshalParsed(data');
  }

  /** Past the unsupported-field screen the inner parsers can fail only on their domain bytes or the manifest size. */
  lemma InnerFailures(data: bytes)
    requires |data| >= 170 && !UnsupportedFields(data)
    ensures Commitment.Parse(data[9..99]).Failure? <==> data[9..31] != Commitment.DOMAIN
    ensures Batch.Parse(data[99..160]).Failure? <==>
            data[99..116] != Batch.DOMAIN || !(0 < Encoding.FromBigEndian(data[120..128]) <= Batch.MAX_LEAVES)
  {
    var w, m := data[9..99], data[99..160];
    assert w[..22] == data[9..31] && m[..17] == data[99..116] && m[21..29] == data[120..128];
    assert w[22] == data[31] && w[23] == data[32] && w[24] == data[33] && w[25] == data[34];
    assert m[17] == data[116] && m[18] == data[117] && m[19] == data[118] && m[20] == data[119];
  }

  /** A package created locally can be written, and its single leaf is accepted under its own manifest. */
  lemma CreatedIsWritable(document: Option<Reader>, representation: byte, maxBytes: Int64, nonce: Hash)
    requires CreateUnanchored(document, representation, maxBytes, nonce).Success?
    ensures var p := CreateUnanchored(document, representation, maxBytes, nonce).value;
            && Writable(p) && Batch.Includes(p.manifest, Commitment.Commit(p.wit), p.index, p.path)
            && HashMatches(document, maxBytes, p)
  {
    var (w, c) := Commitment.New(document, representation, maxBytes, nonce).value;
    Merkle.InclusionComplete([c], 0);
  }

  /** A local package is created exactly for a document read whole within the limit and a legal representation: the one
      leaf of its own tree, with the given nonce. */
  lemma CreatedExact(document: Option<Reader>, representation: byte, maxBytes: Int64, nonce: Hash)
    ensures var r := CreateUnanchored(document, representation, maxBytes, nonce);
            && (r.Success? <==>
                && representation in {1, 2} && document.Some? && 0 <= maxBytes < MAX_INT64
                && !document.value.fails && |document.value.content| <= maxBytes)
            && (r.Success? ==>
                  && r.value.wit == Commitment.Witness(1, 1, representation, 0, SHA256(document.value.content), nonce)
                  && r.value.index == 0 && r.value.path == [] && r.value.manifest.size == 1
                  && Commitment.Encode(r.value.wit).Success?
                  && r.value.manifest.root == SHA256([0] + SHA256(Commitment.Encode(r.value.wit).value)))
  {
    hide Merkle.Root;
    if document.Some? {
      Commitment.HashDocumentExact(document, maxBytes, SHA256(document.value.content));
    }
    var r := CreateUnanchored(document, representation, maxBytes, nonce);
    if r.Success? { OneLeafRoot(SHA256(Commitment.Encode(r.value.wit).value)); }
  }

  lemma OneLeafRoot(c: bytes)
    ensures Merkle.Root([c]) == SHA256([0] + c)
  {
    Merkle.RootBytes([c], 0);
    assert Merkle.RootPreimage([c]) == [0] + c;
  }

  predicate HashMatches(document: Option<Reader>, maxBytes: Int64, p: Package) {
    Commitment.HashDocument(document, maxBytes) == Success(p.wit.documentDigest)
  }
}
