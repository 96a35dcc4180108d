/** The bottom-up tree builder of the vector generator: whole levels, odd nodes carried up. */
module LevelTree {
  import opened Prelude
  import opened Merkle

  /** Entries lo..lo+width, cut off at the end of the list. */
  function Chunk(entries: seq<bytes>, lo: nat, width: nat): (c: seq<bytes>)
    requires lo < |entries| && width >= 1
    ensures 1 <= |c| <= width && lo + |c| <= |entries|
  {
    entries[lo..if lo + width <= |entries| then lo + width else |entries|]
  }

  /** Where chunk m starts: m times the width. */
  function At(m: nat, width: nat): (lo: nat)
    ensures m == 0 ==> lo == 0
  {
    if m == 0 then 0 else At(m - 1, width) + width
  }

  function Indices(lo: nat, count: nat): (s: set<nat>)
    ensures forall i: nat :: i in s <==> lo <= i < lo + count
  {
    if count == 0 then {} else Indices(lo, count - 1) + {lo + count - 1}
  }

  /** A level cell: the root of its chunk and the positions it covers. */
  predicate IsCell(cell: (Hash, set<nat>), entries: seq<bytes>, lo: nat, width: nat) {
    && width >= 1 && lo < |entries|
    && cell.0 == Root(Chunk(entries, lo, width))
    && cell.1 == Indices(lo, |Chunk(entries, lo, width)|)
  }

  /** The path so far is the target's path inside its own chunk. */
  predicate IsPathWithin(path: seq<Hash>, entries: seq<bytes>, lo: nat, width: nat, target: nat) {
    && width >= 1 && lo < |entries|
    && (target in Indices(lo, |Chunk(entries, lo, width)|) ==> path == Siblings(Chunk(entries, lo, width), target - lo))
  }

  /** `cells` are the first chunks of the given width, each with its place. */
  predicate AreCells(cells: seq<(Hash, set<nat>)>, entries: seq<bytes>, width: nat) {
    forall m :: 0 <= m < |cells| ==> IsCell(cells[m], entries, At(m, width), width)
  }

  predicate ArePathsWithin(path: seq<Hash>, entries: seq<bytes>, width: nat, target: nat, from: nat, upTo: nat) {
    forall m :: from <= m < upTo ==> IsPathWithin(path, entries, At(m, width), width, target)
  }

  /** `level` lists all chunks of the given width, and `path` is right for the one holding the target. */
  predicate IsLevel(level: seq<(Hash, set<nat>)>, path: seq<Hash>, entries: seq<bytes>, width: nat, target: nat) {
    && |entries| <= At(|level|, width)
    && AreCells(level, entries, width)
    && ArePathsWithin(path, entries, width, target, 0, |level|)
    && (target >= |entries| ==> path == [])
  }

  /** Two neighbouring chunks join into one of twice the width, whose split is exactly between them. */
  lemma JoinChunks(entries: seq<bytes>, lo: nat, e: nat)
    requires lo + Pow2(e) < |entries|
    ensures var w, both := Pow2(e), Chunk(entries, lo, 2 * Pow2(e));
            && |both| > w && Split(|both|) == w
            && both[..w] == Chunk(entries, lo, w) && both[w..] == Chunk(entries, lo + w, w)
  {
    hide Split;
    SplitUnique(|Chunk(entries, lo, 2 * Pow2(e))|, e);
  }

  /** A last chunk without a right neighbour is the same chunk at twice the width. */
  lemma CarryChunk(entries: seq<bytes>, lo: nat, width: nat)
    requires width >= 1 && lo < |entries| <= lo + width
    ensures Chunk(entries, lo, 2 * width) == Chunk(entries, lo, width)
  {
  }

  lemma {:induction false} Double(m: nat, width: nat)
    ensures At(m, 2 * width) == At(2 * m, width)
  {
    if m > 0 { Double(m - 1, width); }
  }

  lemma {:induction false} AtOne(m: nat)
    ensures At(m, 1) == m
  {
    if m > 0 { AtOne(m - 1); }
  }

  lemma {:induction false} Apart(j: nat, m: nat, width: nat)
    requires j < m
    ensures At(j, width) + width <= At(m, width)
  {
    if j < m - 1 { Apart(j, m - 1, width); }
  }

  /** Growing the path inside cell m leaves the other cells' claims alone: the target is not in them. */
  lemma Elsewhere(entries: seq<bytes>, m: nat, e: nat, target: nat, path: seq<Hash>, count: nat)
    requires At(m, 2 * Pow2(e)) <= target < At(m, 2 * Pow2(e)) + 2 * Pow2(e)
    requires At(m, 2 * Pow2(e)) < |entries|
    requires count > 0 ==> At(count - 1, Pow2(e)) < |entries|
    ensures ArePathsWithin(path, entries, 2 * Pow2(e), target, 0, m)
    ensures ArePathsWithin(path, entries, Pow2(e), target, 2 * m + 2, count)
  {
    hide Root, Siblings, Pow2, Indices;
    var w := Pow2(e);
    forall j | 0 <= j < m ensures IsPathWithin(path, entries, At(j, 2 * w), 2 * w, target) {
      Apart(j, m, 2 * w);
    }
    Double(m + 1, w);
    forall j | 2 * m + 2 <= j < count ensures IsPathWithin(path, entries, At(j, w), w, target) {
      if 2 * m + 2 < j { Apart(2 * m + 2, j, w); }
      if j < count - 1 { Apart(j, count - 1, w); }
    }
  }

  /** One pair of cells: the joined cell, and the target's path with its new sibling. */
  method Pair(left: (Hash, set<nat>), right: (Hash, set<nat>), path: seq<Hash>, target: nat,
              ghost entries: seq<bytes>, ghost lo: nat, ghost e: nat)
    returns (joined: (Hash, set<nat>), path': seq<Hash>)
    requires lo + Pow2(e) < |entries|
    requires IsCell(left, entries, lo, Pow2(e)) && IsCell(right, entries, lo + Pow2(e), Pow2(e))
    requires IsPathWithin(path, entries, lo, Pow2(e), target)
             && IsPathWithin(path, entries, lo + Pow2(e), Pow2(e), target)
    ensures IsCell(joined, entries, lo, 2 * Pow2(e)) && IsPathWithin(path', entries, lo, 2 * Pow2(e), target)
    ensures target !in joined.1 ==> path' == path
  {
    JoinChunks(entries, lo, e);
    path' := path;
    if target in left.1 {
      path' := path + [right.0];
    } else if target in right.1 {
      path' := path + [left.0];
    }
    joined := (Node(left.0, right.0), left.1 + right.1);
  }

  /** Where a pass stands: the cells joined so far, and a path right for them and for the cells still to come. */
  predicate IsPass(next: seq<(Hash, set<nat>)>, path: seq<Hash>, entries: seq<bytes>, width: nat, target: nat,
                   count: nat) {
    && AreCells(next, entries, 2 * width)
    && ArePathsWithin(path, entries, 2 * width, target, 0, |next|)
    && ArePathsWithin(path, entries, width, target, 2 * |next|, count)
    && (target >= |entries| ==> path == [])
  }

  lemma PassStep(next: seq<(Hash, set<nat>)>, cell: (Hash, set<nat>), path: seq<Hash>, path': seq<Hash>,
                 entries: seq<bytes>, e: nat, target: nat, count: nat)
    requires IsPass(next, path, entries, Pow2(e), target, count)
    requires IsCell(cell, entries, At(|next|, 2 * Pow2(e)), 2 * Pow2(e))
    requires IsPathWithin(path', entries, At(|next|, 2 * Pow2(e)), 2 * Pow2(e), target)
    requires target !in cell.1 ==> path' == path
    requires count > 0 ==> At(count - 1, Pow2(e)) < |entries|
    ensures IsPass(next + [cell], path', entries, Pow2(e), target, count)
  {
    hide Root, Siblings, Chunk, Pow2, Indices;
    if target in cell.1 {
      Elsewhere(entries, |next|, e, target, path', count);
    }
  }

  /** The next cell of a level, its right neighbour if there is one, and the path, all at the place the pass has
      reached. */
  lemma PassInputs(level: seq<(Hash, set<nat>)>, next: seq<(Hash, set<nat>)>, path: seq<Hash>, entries: seq<bytes>,
                   e: nat, target: nat)
    requires 2 * |next| < |level|
    requires AreCells(level, entries, Pow2(e))
    requires IsPass(next, path, entries, Pow2(e), target, |level|)
    ensures var w, lo := Pow2(e), At(|next|, 2 * Pow2(e));
            && IsCell(level[2 * |next|], entries, lo, w) && IsPathWithin(path, entries, lo, w, target)
            && (2 * |next| + 1 < |level| ==>
                  IsCell(level[2 * |next| + 1], entries, lo + w, w) && IsPathWithin(path, entries, lo + w, w, target))
  {
    hide Root, Siblings, Chunk, Pow2, Indices;
    var w, i := Pow2(e), 2 * |next|;
    Double(|next|, w);
    assert IsCell(level[i], entries, At(i, w), w) && IsPathWithin(path, entries, At(i, w), w, target);
    if i + 1 < |level| {
      assert At(i + 1, w) == At(i, w) + w;
      assert IsCell(level[i + 1], entries, At(i + 1, w), w) && IsPathWithin(path, entries, At(i + 1, w), w, target);
    }
  }

  /** One turn of a pass: the pair at the place reached joins, an odd last cell is carried up. */
  method NextCell(level: seq<(Hash, set<nat>)>, i: nat, path: seq<Hash>, target: nat,
                  ghost next: seq<(Hash, set<nat>)>, ghost entries: seq<bytes>, ghost e: nat)
    returns (cell: (Hash, set<nat>), path': seq<Hash>)
    requires i == 2 * |next| < |level| && At(|level| - 1, Pow2(e)) < |entries| <= At(|level|, Pow2(e))
    requires AreCells(level, entries, Pow2(e)) && IsPass(next, path, entries, Pow2(e), target, |level|)
    ensures IsPass(next + [cell], path', entries, Pow2(e), target, |level|)
  {
    hide Root, Siblings, Chunk, Pow2;
    ghost var lo := At(|next|, 2 * Pow2(e));
    PassInputs(level, next, path, entries, e, target);
    if i + 1 == |level| {
      Double(|next|, Pow2(e));
      CarryChunk(entries, lo, Pow2(e));
      cell, path' := level[i], path;
    } else {
      cell, path' := Pair(level[i], level[i + 1], path, target, entries, lo, e);
    }
    PassStep(next, cell, path, path', entries, e, target, |level|);
  }

  lemma LastCell(level: seq<(Hash, set<nat>)>, entries: seq<bytes>, width: nat)
    requires level != [] && AreCells(level, entries, width)
    ensures At(|level| - 1, width) < |entries|
  {
    assert IsCell(level[|level| - 1], entries, At(|level| - 1, width), width);
  }

  lemma PassEnds(next: seq<(Hash, set<nat>)>, path: seq<Hash>, entries: seq<bytes>, e: nat, target: nat, count: nat)
    requires IsPass(next, path, entries, Pow2(e), target, count)
    requires |entries| <= At(count, Pow2(e)) && count <= 2 * |next| <= count + 1
    ensures IsLevel(next, path, entries, Pow2(e + 1), target)
  {
    hide Root, Siblings, Chunk, Indices;
    Double(|next|, Pow2(e));
  }

  /** One pass over a level. */
  method NextLevel(level: seq<(Hash, set<nat>)>, path: seq<Hash>, target: nat, ghost entries: seq<bytes>, ghost e: nat)
    returns (next: seq<(Hash, set<nat>)>, path': seq<Hash>)
    requires |level| > 1 && IsLevel(level, path, entries, Pow2(e), target)
    ensures 0 < |next| < |level| && IsLevel(next, path', entries, Pow2(e + 1), target)
  {
    LastCell(level, entries, Pow2(e));
    next, path' := [], path;
    var i := 0;
    while i < |level|
      invariant i == 2 * |next| <= |level| + 1
      invariant IsPass(next, path', entries, Pow2(e), target, |level|)
    {
      var cell;
      cell, path' := NextCell(level, i, path', target, next, entries, e);
      next := next + [cell];
      i := i + 2;
    }
    PassEnds(next, path', entries, e, target, |level|);
  }

  lemma Leaves(entries: seq<bytes>, level: seq<(Hash, set<nat>)>, target: nat)
    requires |level| == |entries|
    requires forall i :: 0 <= i < |entries| ==> level[i] == (Leaf(entries[i]), {i as nat})
    ensures IsLevel(level, [], entries, 1, target)
  {
    forall i | 0 <= i < |level|
      ensures IsCell(level[i], entries, At(i, 1), 1) && IsPathWithin([], entries, At(i, 1), 1, target)
    {
      AtOne(i);
      assert Chunk(entries, i, 1) == [entries[i]];
    }
    AtOne(|entries|);
  }

  /** The level-by-level builder computes the recursive root and the target's recursive path
      (no path for a target outside the list). */
  method Tree(entries: seq<bytes>, target: nat) returns (root: Hash, path: seq<Hash>)
    ensures root == Root(entries)
    ensures path == if target < |entries| then Siblings(entries, target) else []
  {
    var level := seq(|entries|, i requires 0 <= i < |entries| => (Leaf(entries[i]), {i as nat}));
    path := [];
    if level == [] {
      return SHA256([]), path;
    }
    ghost var e := 0;
    Leaves(entries, level, target);
    while |level| > 1
      invariant level != [] && IsLevel(level, path, entries, Pow2(e), target)
      decreases |level|
    {
      level, path := NextLevel(level, path, target, entries, e);
      e := e + 1;
    }
    assert Chunk(entries, 0, Pow2(e)) == entries;
    assert IsCell(level[0], entries, 0, Pow2(e)) && IsPathWithin(path, entries, 0, Pow2(e), target);
    return level[0].0, path;
  }
}
