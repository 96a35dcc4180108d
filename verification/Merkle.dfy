/** The RFC 6962 tree (section 2.1): roots, audit paths (section 2.1.1) and inclusion checking. */
module Merkle {
  import opened Prelude

  // ---------- Powers of two ----------

  function Pow2(e: nat): (p: nat)
    ensures p >= 1
  {
    if e == 0 then 1 else 2 * Pow2(e - 1)
  }

  /** bits.Len64: the number of bits needed to write x. */
  function BitLen(x: nat): nat {
    if x == 0 then 0 else 1 + BitLen(x / 2)
  }

  lemma {:induction false} BitLenBounds(x: nat)
    requires x > 0
    ensures BitLen(x) > 0 && Pow2(BitLen(x) - 1) <= x < Pow2(BitLen(x))
  {
    if x > 1 { BitLenBounds(x / 2); }
  }

  lemma {:induction false} BitLenUnique(x: nat, e: nat)
    requires Pow2(e) <= x < Pow2(e + 1)
    ensures BitLen(x) == e + 1
  {
    if e > 0 { BitLenUnique(x / 2, e - 1); }
  }

  lemma {:induction false} BitLenMonotone(x: nat, y: nat)
    requires x <= y
    ensures BitLen(x) <= BitLen(y)
  {
    if x > 0 { BitLenMonotone(x / 2, y / 2); }
  }

  lemma {:induction false} Pow2Monotone(d: nat, e: nat)
    requires d <= e
    ensures Pow2(d) <= Pow2(e)
  {
    if d < e { Pow2Monotone(d, e - 1); }
  }

  lemma {:induction false} BitLenPow2(x: nat, e: nat)
    requires x < Pow2(e)
    ensures BitLen(x) <= e
  {
    if x > 0 { BitLenPow2(x / 2, e - 1); }
  }

  lemma {:induction false} Pow2Sum(d: nat, e: nat)
    ensures Pow2(d + e) == Pow2(d) * Pow2(e)
  {
    if e > 0 { Pow2Sum(d, e - 1); }
  }

  /** The subtree boundary: the largest power of two below n. */
  function Split(n: nat): (k: nat)
    requires n >= 2
    ensures 1 <= k < n <= 2 * k
  {
    BitLenBounds(n - 1);
    Pow2(BitLen(n - 1) - 1)
  }

  lemma SplitUnique(n: nat, e: nat)
    requires Pow2(e) < n <= 2 * Pow2(e)
    ensures Split(n) == Pow2(e)
  {
    BitLenUnique(n - 1, e);
  }

  // ---------- Roots and paths ----------

  function LeafPreimage(entry: bytes): bytes { [0] + entry }

  function NodePreimage(left: Hash, right: Hash): bytes { [1] + left + right }

  function Leaf(entry: bytes): Hash { SHA256(LeafPreimage(entry)) }

  function Node(left: Hash, right: Hash): Hash { SHA256(NodePreimage(left, right)) }

  /** What the root of a list hashes. */
  function RootPreimage(entries: seq<bytes>): bytes
    decreases |entries|, 0
  {
    if |entries| == 0 then []
    else if |entries| == 1 then LeafPreimage(entries[0])
    else
      var k := Split(|entries|);
      NodePreimage(Root(entries[..k]), Root(entries[k..]))
  }

  function Root(entries: seq<bytes>): Hash
    decreases |entries|, 1
  {
    SHA256(RootPreimage(entries))
  }

  /** Sibling hashes from the leaf toward the root. */
  function Siblings(entries: seq<bytes>, index: nat): seq<Hash>
    requires index < |entries|
    decreases |entries|
  {
    if |entries| == 1 then []
    else
      var k := Split(|entries|);
      if index < k then Siblings(entries[..k], index) + [Root(entries[k..])]
      else Siblings(entries[k..], index - k) + [Root(entries[..k])]
  }

  datatype PathError = OutsideTree

  function Path(entries: seq<bytes>, index: nat): Result<seq<Hash>, PathError> {
    if index >= |entries| then Failure(OutsideTree) else Success(Siblings(entries, index))
  }

  // ---------- Depth ----------

  /** Position and size, one level down, of the subtree that holds leaf `index` of `size`. */
  function Below(index: nat, size: nat): (p: (nat, nat))
    requires index < size && size >= 2
    ensures p.0 < p.1 < size
  {
    var k := Split(size);
    if index < k then (index, k) else (index - k, size - k)
  }

  /** Number of siblings above leaf `index` of `size`. */
  function Depth(index: nat, size: nat): nat
    requires index < size
    decreases size
  {
    if size == 1 then 0
    else
      var (i, n) := Below(index, size);
      1 + Depth(i, n)
  }

  lemma {:induction false} SiblingCount(entries: seq<bytes>, index: nat)
    requires index < |entries|
    ensures |Siblings(entries, index)| == Depth(index, |entries|)
    decreases |entries|
  {
    if |entries| > 1 {
      var k := Split(|entries|);
      if index < k { SiblingCount(entries[..k], index); } else { SiblingCount(entries[k..], index - k); }
    }
  }

  lemma {:induction false} DepthAtMost(index: nat, size: nat, e: nat)
    requires index < size <= Pow2(e)
    ensures Depth(index, size) <= e
    decreases e
  {
    if size > 1 {
      BitLenPow2(size - 1, e);
      Pow2Monotone(BitLen(size - 1) - 1, e - 1);
      var (i, n) := Below(index, size);
      DepthAtMost(i, n, e - 1);
    }
  }

  lemma {:induction false} FirstOfPow2(e: nat)
    ensures Depth(0, Pow2(e)) == e
  {
    if e > 0 {
      SplitUnique(Pow2(e), e - 1);
      FirstOfPow2(e - 1);
    }
  }

  /** No leaf is deeper than the bit length of size - 1, and the first leaf is exactly that deep. */
  lemma DepthBound(index: nat, size: nat)
    requires index < size
    ensures Depth(index, size) <= BitLen(size - 1) == Depth(0, size)
  {
    if size > 1 {
      BitLenBounds(size - 1);
      DepthAtMost(index, size, BitLen(size - 1));
      FirstOfPow2(BitLen(size - 1) - 1);
    }
  }

  lemma PowerValues()
    ensures Pow2(16) == 65536 && Pow2(64) == U64_LIMIT
  {
    assert Pow2(8) == 16 * Pow2(4) == 256;
    Pow2Sum(8, 8);
    Pow2Sum(16, 16);
    Pow2Sum(32, 32);
  }

  /** A path never exceeds 64 siblings for 64-bit sizes, nor 16 for sizes up to 65536. */
  lemma DepthLimits(index: nat, size: nat)
    requires index < size
    ensures size < U64_LIMIT ==> Depth(index, size) <= 64
    ensures size <= 65536 ==> Depth(index, size) <= 16
  {
    PowerValues();
    if size < U64_LIMIT { DepthAtMost(index, size, 64); }
    if size <= 65536 { DepthAtMost(index, size, 16); }
  }

  // ---------- Inclusion ----------

  /** What the top of a climb hashes: the child's climb and the last sibling, in tree order. */
  function ClimbPreimage(entry: bytes, index: nat, size: nat, path: seq<Hash>): bytes
    requires index < size && |path| == Depth(index, size)
    decreases size, 0
  {
    if size == 1 then LeafPreimage(entry)
    else
      var (i, n) := Below(index, size);
      var last := |path| - 1;
      var child := Climb(entry, i, n, path[..last]);
      if index < Split(size) then NodePreimage(child, path[last]) else NodePreimage(path[last], child)
  }

  /** The root that an entry and exactly the right number of siblings lead to, peeling the path from the root down. */
  function Climb(entry: bytes, index: nat, size: nat, path: seq<Hash>): Hash
    requires index < size && |path| == Depth(index, size)
    decreases size, 1
  {
    SHA256(ClimbPreimage(entry, index, size, path))
  }

  datatype Verdict = Accepted | BadPosition | TooDeep | Truncated | Extra | RootMismatch

  /** The inclusion statement a verifier accepts. */
  predicate Accepts(entry: bytes, index: nat, size: nat, path: seq<Hash>, root: Hash) {
    index < size && |path| <= 64 && |path| == Depth(index, size) && Climb(entry, index, size, path) == root
  }

  lemma ClimbLeaf(entry: bytes, path: seq<Hash>)
    requires path == []
    ensures Depth(0, 1) == 0 && Climb(entry, 0, 1, path) == Leaf(entry)
  {
  }

  /** Consuming one more sibling extends the climb of the subtree below by one node. */
  lemma ClimbStep(entry: bytes, index: nat, size: nat, path: seq<Hash>, start: nat, last: nat)
    requires index < size && size >= 2 && start <= last < |path|
    requires last == start + Depth(Below(index, size).0, Below(index, size).1)
    ensures Depth(index, size) == last + 1 - start
    ensures var child := Climb(entry, Below(index, size).0, Below(index, size).1, path[start..last]);
            Climb(entry, index, size, path[start..last + 1])
            == if index < Split(size) then Node(child, path[last]) else Node(path[last], child)
  {
    var consumed := path[start..last + 1];
    assert consumed[..|consumed| - 1] == path[start..last];
  }

  /** Verify's closure: `used` counts the path nodes consumed so far. */
  class Rebuilder {
    const entry: bytes
    const path: seq<Hash>
    var used: nat

    constructor (entry: bytes, path: seq<Hash>)
      ensures this.entry == entry && this.path == path && used == 0
    {
      this.entry, this.path, used := entry, path, 0;
    }

    /** Succeeds exactly when enough siblings remain, and then consumes exactly Depth(i, n) of them. */
    method Rebuild(i: nat, n: nat) returns (r: Option<Hash>)
      requires i < n && used <= |path|
      modifies this`used
      ensures used <= |path|
      ensures r.Some? <==> old(used) + Depth(i, n) <= |path|
      ensures r.Some? ==> used == old(used) + Depth(i, n) && r.value == Climb(entry, i, n, path[old(used)..used])
      decreases n
    {
      hide Split, Climb, ClimbPreimage, Node, Leaf;
      if n == 1 {
        ClimbLeaf(entry, path[used..used]);
        return Some(Leaf(entry));
      }
      var k := Split(n);
      var child;
      if i < k {
        child := Rebuild(i, k);
      } else {
        child := Rebuild(i - k, n - k);
      }
      if child.None? || used >= |path| {
        return None;
      }
      var sibling := path[used];
      ghost var start, last := old(used), used;
      used := used + 1;
      ClimbStep(entry, i, n, path, start, last);
      if i < k {
        return Some(Node(child.value, sibling));
      }
      return Some(Node(sibling, child.value));
    }
  }

  method Verify(entry: bytes, index: U64, size: U64, path: seq<Hash>, root: Hash) returns (v: Verdict)
    ensures v == BadPosition <==> index >= size
    ensures v == TooDeep <==> index < size && |path| > 64
    ensures v == Truncated <==> index < size && |path| < Depth(index, size)
    ensures v == Extra <==> index < size && Depth(index, size) < |path| <= 64
    ensures v == Accepted <==> Accepts(entry, index, size, path, root)
  {
    if size == 0 || index >= size {
      return BadPosition;
    }
    DepthLimits(index, size);
    if |path| > 64 {
      return TooDeep;
    }
    var rebuilder := new Rebuilder(entry, path);
    var got := rebuilder.Rebuild(index, size);
    if got.None? {
      return Truncated;
    }
    if rebuilder.used != |path| {
      return Extra;
    }
    assert path[0..|path|] == path;
    if got.value != root {
      return RootMismatch;
    }
    return Accepted;
  }

  lemma {:induction false} ClimbSiblings(entries: seq<bytes>, index: nat)
    requires index < |entries|
    ensures |Siblings(entries, index)| == Depth(index, |entries|)
    ensures Climb(entries[index], index, |entries|, Siblings(entries, index)) == Root(entries)
    decreases |entries|
  {
    hide Split, Climb, ClimbPreimage, Node, Leaf, Root, RootPreimage;
    SiblingCount(entries, index);
    var path := Siblings(entries, index);
    if |entries| == 1 {
      ClimbLeaf(entries[0], path);
      RootLeaf(entries);
    } else {
      var k := Split(|entries|);
      var left := index < k;
      var held, other := if left then entries[..k] else entries[k..], if left then entries[k..] else entries[..k];
      var (i, n) := Below(index, |entries|);
      ClimbSiblings(held, i);
      assert path == Siblings(held, i) + [Root(other)];
      assert path[0..|path|] == path && path[0..|path| - 1] == Siblings(held, i);
      ClimbStep(entries[index], index, |entries|, path, 0, |path| - 1);
      RootNode(entries);
    }
  }

  lemma RootLeaf(entries: seq<bytes>)
    requires |entries| == 1
    ensures Root(entries) == Leaf(entries[0])
  {
  }

  lemma RootNode(entries: seq<bytes>)
    requires |entries| > 1
    ensures Root(entries) == Node(Root(entries[..Split(|entries|)]), Root(entries[Split(|entries|)..]))
  {
  }

  /** Completeness: the computed path of every entry of every list below 2^64 entries is accepted. */
  lemma InclusionComplete(entries: seq<bytes>, index: nat)
    requires index < |entries| < U64_LIMIT
    ensures Path(entries, index).Success?
    ensures Accepts(entries[index], index, |entries|, Path(entries, index).value, Root(entries))
  {
    ClimbSiblings(entries, index);
    DepthLimits(index, |entries|);
  }

  // ---------- What is hashed ----------

  /** The tree boundary of RFC 6962: the power of two below n that leaves no more than itself on the right. */
  ghost predicate SplitsAt(k: nat, n: nat) {
    k < n <= 2 * k && exists e :: k == Pow2(e)
  }

  lemma BoundaryIsSplit(k: nat, n: nat)
    requires SplitsAt(k, n)
    ensures k == Split(n)
  {
    var e :| k == Pow2(e);
    SplitUnique(n, e);
  }

  lemma SplitIsBoundary(n: nat)
    requires n > 1
    ensures SplitsAt(Split(n), n)
  {
    assert Split(n) == Pow2(BitLen(n - 1) - 1);
  }

  /** What a root hashes, byte by byte: nothing for the empty list; a zero and the entry for one entry; otherwise a one,
      the root of the entries before the boundary, and then the root of those after it. */
  lemma RootBytes(entries: seq<bytes>, k: nat)
    requires |entries| > 1 ==> SplitsAt(k, |entries|)
    ensures Root(entries) == SHA256(RootPreimage(entries))
    ensures |entries| == 0 ==> RootPreimage(entries) == []
    ensures |entries| == 1 ==>
              && |RootPreimage(entries)| == 1 + |entries[0]|
              && RootPreimage(entries)[0] == 0 && RootPreimage(entries)[1..] == entries[0]
    ensures |entries| > 1 ==>
              var b := RootPreimage(entries);
              |b| == 65 && b[0] == 1 && b[1..33] == Root(entries[..k]) && b[33..65] == Root(entries[k..])
  {
    hide Split;
    if |entries| > 1 { BoundaryIsSplit(k, |entries|); }
  }

  /** What a climb hashes at the top: a one, then the child and the last sibling, the child first exactly when the leaf
      lies before the boundary; and at the leaf a zero and the entry. */
  lemma ClimbBytes(entry: bytes, index: nat, size: nat, path: seq<Hash>, k: nat)
    requires index < size && |path| == Depth(index, size) && (size > 1 ==> SplitsAt(k, size))
    ensures Climb(entry, index, size, path) == SHA256(ClimbPreimage(entry, index, size, path))
    ensures size == 1 ==>
              && path == [] && |ClimbPreimage(entry, index, size, path)| == 1 + |entry|
              && ClimbPreimage(entry, index, size, path)[0] == 0
              && ClimbPreimage(entry, index, size, path)[1..] == entry
    ensures size > 1 ==> |path| > 0 && |path| - 1 == if index < k then Depth(index, k) else Depth(index - k, size - k)
    ensures size > 1 ==>
              var b, last := ClimbPreimage(entry, index, size, path), |path| - 1;
              && |b| == 65 && b[0] == 1
              && (index < k ==> b[1..33] == Climb(entry, index, k, path[..last]) && b[33..65] == path[last])
              && (index >= k ==>
                    b[1..33] == path[last] && b[33..65] == Climb(entry, index - k, size - k, path[..last]))
  {
    hide Split;
    if size > 1 { BoundaryIsSplit(k, size); }
  }

  // ---------- Binding ----------

  lemma NodeInjective(l: Hash, r: Hash, l': Hash, r': Hash)
    requires NodePreimage(l, r) == NodePreimage(l', r')
    ensures l == l' && r == r'
  {
    assert l == NodePreimage(l, r)[1..33] && l' == NodePreimage(l', r')[1..33];
    assert r == NodePreimage(l, r)[33..] && r' == NodePreimage(l', r')[33..];
  }

  lemma LeafInjective(a: bytes, b: bytes)
    requires LeafPreimage(a) == LeafPreimage(b)
    ensures a == b
  {
    assert a == LeafPreimage(a)[1..] && b == LeafPreimage(b)[1..];
  }

  /** From two accepted proofs at one position, the first pair of preimages that differ, root first. */
  function ProofClash(e: bytes, p: seq<Hash>, e': bytes, p': seq<Hash>, index: nat, size: nat): Collision
    requires index < size && |p| == |p'| == Depth(index, size)
    decreases size
  {
    var c := Collision(ClimbPreimage(e, index, size, p), ClimbPreimage(e', index, size, p'));
    if size == 1 || c.left != c.right then c
    else
      var (i, n) := Below(index, size);
      ProofClash(e, p[..|p| - 1], e', p'[..|p| - 1], i, n)
  }

  /** Two proofs that lead to one root from one position are the same proof of the same entry,
      or ProofClash computes a collision. */
  lemma {:induction false} ProofsBind(e: bytes, p: seq<Hash>, e': bytes, p': seq<Hash>, index: nat, size: nat)
    requires index < size && |p| == |p'| == Depth(index, size)
    requires Climb(e, index, size, p) == Climb(e', index, size, p')
    ensures (e == e' && p == p') || Collides(ProofClash(e, p, e', p', index, size))
    decreases size
  {
    hide Split, Below;
    if ClimbPreimage(e, index, size, p) == ClimbPreimage(e', index, size, p') {
      if size == 1 {
        LeafInjective(e, e');
      } else {
        var (i, n) := Below(index, size);
        var last := |p| - 1;
        var child, child' := Climb(e, i, n, p[..last]), Climb(e', i, n, p'[..last]);
        if index < Split(size) {
          NodeInjective(child, p[last], child', p'[last]);
        } else {
          NodeInjective(p[last], child, p'[last], child');
        }
        ProofsBind(e, p[..last], e', p'[..last], i, n);
        assert p == p[..last] + [p[last]] && p' == p'[..last] + [p'[last]];
      }
    }
  }

  /** Soundness: what is accepted against the root of a list, with the list's length as size,
      is that list's entry and its own path, or ProofClash computes a collision. */
  lemma InclusionSound(entries: seq<bytes>, entry: bytes, index: nat, path: seq<Hash>)
    requires Accepts(entry, index, |entries|, path, Root(entries))
    ensures |Siblings(entries, index)| == Depth(index, |entries|)
    ensures (entry == entries[index] && Path(entries, index) == Success(path))
         || Collides(ProofClash(entry, path, entries[index], Siblings(entries, index), index, |entries|))
  {
    ClimbSiblings(entries, index);
    ProofsBind(entry, path, entries[index], Siblings(entries, index), index, |entries|);
  }

  lemma RootPreimageTag(a: seq<bytes>)
    ensures a == [] <==> RootPreimage(a) == []
    ensures a != [] ==> RootPreimage(a)[0] == if |a| == 1 then 0 else 1
  {
  }

  lemma HalvesEqual(a: seq<bytes>, j: nat, b: seq<bytes>, k: nat)
    requires j <= |a| && k <= |b| && a[..j] == b[..k] && a[j..] == b[k..]
    ensures a == b
  {
    assert a == a[..j] + a[j..] && b == b[..k] + b[k..];
  }

  /** From two lists with one root, the first pair of preimages that differ, depth first. */
  function RootClash(a: seq<bytes>, b: seq<bytes>): Collision
    decreases |a|
  {
    var c := Collision(RootPreimage(a), RootPreimage(b));
    if c.left != c.right || |a| < 2 || |b| < 2 then c
    else
      var j, k := Split(|a|), Split(|b|);
      var below := RootClash(a[..j], b[..k]);
      if Collides(below) then below else RootClash(a[j..], b[k..])
  }

  /** Equal roots of lists of any two lengths, empty included, mean equal lists, or RootClash computes a collision. */
  lemma {:induction false} RootBinds(a: seq<bytes>, b: seq<bytes>)
    requires Root(a) == Root(b)
    ensures a == b || Collides(RootClash(a, b))
    decreases |a|
  {
    RootPreimageTag(a);
    RootPreimageTag(b);
    if RootPreimage(a) != RootPreimage(b) {
    } else if |a| >= 2 {
      assert |b| >= 2;
      var j, k := Split(|a|), Split(|b|);
      NodeInjective(Root(a[..j]), Root(a[j..]), Root(b[..k]), Root(b[k..]));
      RootBinds(a[..j], b[..k]);
      RootBinds(a[j..], b[k..]);
      if !Collides(RootClash(a[..j], b[..k])) && !Collides(RootClash(a[j..], b[k..])) {
        HalvesEqual(a, j, b, k);
      }
    } else if |a| == 1 {
      assert |b| == 1;
      LeafInjective(a[0], b[0]);
    }
  }

  // ---------- What a root alone does not fix ----------

  /** The left/right turns from the root down to a leaf. */
  function Turns(index: nat, size: nat): (t: seq<bool>)
    requires index < size
    ensures |t| == Depth(index, size)
    decreases size
  {
    if size == 1 then []
    else
      var (i, n) := Below(index, size);
      Turns(i, n) + [index >= Split(size)]
  }

  function ClimbTurns(entry: bytes, turns: seq<bool>, path: seq<Hash>): Hash
    requires |turns| == |path|
    decreases |path|
  {
    if path == [] then Leaf(entry)
    else
      var last := |path| - 1;
      var child := ClimbTurns(entry, turns[..last], path[..last]);
      if turns[last] then Node(path[last], child) else Node(child, path[last])
  }

  lemma {:induction false} ClimbFollowsTurns(entry: bytes, index: nat, size: nat, path: seq<Hash>)
    requires index < size && |path| == Depth(index, size)
    ensures Climb(entry, index, size, path) == ClimbTurns(entry, Turns(index, size), path)
    decreases size
  {
    if size > 1 {
      var (i, n) := Below(index, size);
      var last := |path| - 1;
      assert Turns(index, size)[..last] == Turns(i, n);
      ClimbFollowsTurns(entry, i, n, path[..last]);
    }
  }

  /** An accepted proof is accepted for every other position and size with the same turns,
      so the root alone does not authenticate the claimed size. */
  lemma SizeNotBound(entry: bytes, index: nat, size: nat, index': nat, size': nat, path: seq<Hash>, root: Hash)
    requires index < size && index' < size' && Turns(index, size) == Turns(index', size')
    ensures Accepts(entry, index, size, path, root) <==> Accepts(entry, index', size', path, root)
  {
    if |path| == Depth(index, size) {
      ClimbFollowsTurns(entry, index, size, path);
      ClimbFollowsTurns(entry, index', size', path);
    }
  }

  /** The way to the first leaf always turns left. */
  lemma {:induction false} FirstLeafTurns(size: nat)
    requires size > 0
    ensures Turns(0, size) == seq(BitLen(size - 1), _ => false)
    decreases size
  {
    hide Turns, Split;
    DepthBound(0, size);
    if size > 1 {
      var (i, n) := Below(0, size);
      FirstLeafTurns(n);
      DepthBound(0, n);
      TurnsAbove(0, size);
    } else {
      assert |Turns(0, 1)| == 0;
    }
  }

  lemma TurnsAbove(index: nat, size: nat)
    requires index < size && size > 1
    ensures var (i, n) := Below(index, size); Turns(index, size) == Turns(i, n) + [index >= Split(size)]
  {
  }

  /** An accepted proof of a first leaf is accepted for exactly the sizes whose trees are as high. */
  lemma FirstLeafSizes(entry: bytes, size: nat, size': nat, path: seq<Hash>, root: Hash)
    requires 0 < size && 0 < size' && Accepts(entry, 0, size, path, root)
    ensures Accepts(entry, 0, size', path, root) <==> BitLen(size - 1) == BitLen(size' - 1)
  {
    hide Turns, BitLen;
    DepthBound(0, size);
    DepthBound(0, size');
    if BitLen(size - 1) == BitLen(size' - 1) {
      FirstLeafTurns(size);
      FirstLeafTurns(size');
      SizeNotBound(entry, 0, size, 0, size', path, root);
    }
  }

  /** For example: any entry with any two siblings proves itself the first of three and the first of four. */
  lemma ThreeOrFour(entry: bytes, a: Hash, b: Hash)
    ensures Depth(0, 3) == 2
    ensures Accepts(entry, 0, 3, [a, b], Climb(entry, 0, 3, [a, b]))
    ensures Accepts(entry, 0, 4, [a, b], Climb(entry, 0, 3, [a, b]))
  {
    DepthBound(0, 3);
    assert BitLen(2) == BitLen(3) == 2;
    FirstLeafSizes(entry, 3, 4, [a, b], Climb(entry, 0, 3, [a, b]));
  }
}
