/** The tree's tables as values: node table, undo log, and what they say about past trees. */
module TreeTables {
  import opened Field
  import opened Crypto
  import opened Merkle
  import opened Blocks
  import opened Base

  /** A node address: number of bits and their value; the root is the empty path. */
  datatype BitPath = BitPath(length: nat, value: nat)

  const ROOT_PATH := BitPath(0, 0)

  function Sibling(p: BitPath): BitPath { BitPath(p.length, SiblingOf(p.value)) }

  function Pop(p: BitPath): BitPath { if p.length == 0 then p else BitPath(p.length - 1, p.value / 2) }

  /** A row of the undo log: what a node was before and after the given tree index. */
  datatype Row = Row(index: nat, path: BitPath, oldHash: Fr, newHash: Fr)

  /** A node's hash: the stored one, or the empty subtree of its level. */
  function Lookup(nodes: map<BitPath, Fr>, h: Hash, height: nat, p: BitPath): Fr
    requires p.length <= height
  {
    if p in nodes then nodes[p] else ZeroHash(h, height - p.length)
  }

  /** The node `j` levels above leaf `n`; at the top always the root path. */
  function PathAt(height: nat, n: nat, j: nat): BitPath
    requires j <= height
  {
    if j == height then ROOT_PATH else BitPath(height - j, Shr(n, j))
  }

  /**
   Root of the tree after `leaves`. Nothing stops an append when the tree is full: the path of leaf `n`
   is then a path of a further tree, and the stored root is the root of the block holding the last leaf.
   */
  function BlockRoot(h: Hash, leaves: seq<Fr>, height: nat): Fr {
    if leaves == [] then ZeroHash(h, height) else Node(h, leaves, height, Shr(|leaves| - 1, height))
  }

  /** Until the tree overflows the block root is the plain Merkle root. */
  lemma BlockRootIsRoot(h: Hash, leaves: seq<Fr>, height: nat)
    requires |leaves| <= Pow2(height)
    ensures BlockRoot(h, leaves, height) == Root(h, leaves, height)
  {
    if leaves == [] { EmptyNode(h, height, 0); } else { ShrZeroIff(|leaves| - 1, height); }
  }

  /** Every inner path of the node table holds the reference subtree hash; so does the root until overflow. */
  ghost predicate Represents(h: Hash, leaves: seq<Fr>, height: nat, nodes: map<BitPath, Fr>) {
    && (forall p: BitPath :: 1 <= p.length <= height ==>
          Lookup(nodes, h, height, p) == Node(h, leaves, height - p.length, p.value))
    && (|leaves| <= Pow2(height) ==> Lookup(nodes, h, height, ROOT_PATH) == Root(h, leaves, height))
  }

  // --------------------------------------------------------------------- undo log

  /** The old hash in the first row for `p` with `lo < index <= hi`. */
  function First(log: seq<Row>, lo: nat, hi: nat, p: BitPath): Option<Fr> {
    if log == [] then None
    else
      var f := First(log[..|log| - 1], lo, hi, p);
      var last := log[|log| - 1];
      if f.Some? then f
      else if last.path == p && lo < last.index <= hi then Some(last.oldHash)
      else None
  }

  lemma {:induction false} FirstConcat(a: seq<Row>, b: seq<Row>, lo: nat, hi: nat, p: BitPath)
    ensures First(a + b, lo, hi, p)
         == if First(a, lo, hi, p).Some? then First(a, lo, hi, p) else First(b, lo, hi, p)
  {
    if b == [] {
      assert a + b == a;
    } else {
      FirstConcat(a, b[..|b| - 1], lo, hi, p);
      assert (a + b)[..|a + b| - 1] == a + b[..|b| - 1];
    }
  }

  lemma FirstOne(r: Row, lo: nat, hi: nat, p: BitPath)
    ensures First([r], lo, hi, p) == if r.path == p && lo < r.index <= hi then Some(r.oldHash) else None
  {
    assert [r][..0] == [];
  }

  /** `DELETE ... WHERE tree_index <= floor`. */
  function Prune(log: seq<Row>, floor: nat): seq<Row> {
    if log == [] then []
    else Prune(log[..|log| - 1], floor) + if log[|log| - 1].index <= floor then [] else [log[|log| - 1]]
  }

  lemma {:induction false} PruneBounds(log: seq<Row>, floor: nat)
    ensures forall r :: r in Prune(log, floor) <==> r in log && r.index > floor
  {
    if log == [] {
    } else {
      PruneBounds(log[..|log| - 1], floor);
      assert log == log[..|log| - 1] + [log[|log| - 1]];
    }
  }

  /** Pruning is invisible to every reader that looks only above the floor. */
  lemma {:induction false} PruneKeepsFirst(log: seq<Row>, floor: nat, lo: nat, hi: nat, p: BitPath)
    requires floor <= lo
    ensures First(Prune(log, floor), lo, hi, p) == First(log, lo, hi, p)
  {
    if log == [] {
    } else {
      var init, last := log[..|log| - 1], log[|log| - 1];
      PruneKeepsFirst(init, floor, lo, hi, p);
      FirstConcat(Prune(init, floor), if last.index <= floor then [] else [last], lo, hi, p);
      assert [last][..0] == [];
    }
  }

  /** Below the floor nothing is left, so a lower bound under it reads like the floor itself. */
  lemma {:induction false} FirstBelowFloor(log: seq<Row>, floor: nat, lo: nat, hi: nat, p: BitPath)
    requires lo <= floor && forall r :: r in log ==> r.index > floor
    ensures First(log, lo, hi, p) == First(log, floor, hi, p)
  {
    if log == [] {
    } else {
      assert log[|log| - 1] in log;
      FirstBelowFloor(log[..|log| - 1], floor, lo, hi, p);
    }
  }

  /** A node as reconstructed for a past index: the log's old hash if there is one, else the table. */
  function At(h: Hash, height: nat, nodes: map<BitPath, Fr>, log: seq<Row>, target: nat, latest: nat, p: BitPath): Fr
    requires p.length <= height
  {
    var f := First(log, target, latest, p);
    if f.Some? then f.value else Lookup(nodes, h, height, p)
  }

  /** The reconstruction is right for every index from the floor on. */
  ghost predicate History(h: Hash, leaves: seq<Fr>, height: nat, nodes: map<BitPath, Fr>, log: seq<Row>, floor: nat) {
    forall t: nat, p: BitPath :: floor <= t <= |leaves| && 1 <= p.length <= height ==>
      At(h, height, nodes, log, t, |leaves|, p) == Node(h, leaves[..t], height - p.length, p.value)
  }

  // ------------------------------------------------------------------- one append

  /** The old hash an append records for level `j`: once the tree overflowed the root row is not
      among the prefetched ones and reads as empty. */
  function OldAt(h: Hash, height: nat, nodes: map<BitPath, Fr>, n: nat, j: nat): Fr
    requires j <= height
  {
    if j == height && Shr(n, height) != 0 then ZeroHash(h, height) else Lookup(nodes, h, height, PathAt(height, n, j))
  }

  /** The rows written when `leaves` (last one new) changes the nodes at levels below `j`. */
  function Plan(h: Hash, height: nat, nodes: map<BitPath, Fr>, leaves: seq<Fr>, j: nat): seq<Row>
    requires leaves != [] && j <= height + 1
  {
    if j == 0 then []
    else
      var n, k := |leaves| - 1, j - 1;
      var before, after := OldAt(h, height, nodes, n, k), Node(h, leaves, k, Shr(n, k));
      Plan(h, height, nodes, leaves, k)
      + if before == after then [] else [Row(n + 1, PathAt(height, n, k), before, after)]
  }

  /** The upsert of planned rows into the node table. */
  function Apply(nodes: map<BitPath, Fr>, rows: seq<Row>): map<BitPath, Fr> {
    if rows == [] then nodes
    else Apply(nodes, rows[..|rows| - 1])[rows[|rows| - 1].path := rows[|rows| - 1].newHash]
  }

  lemma ApplyConcat(nodes: map<BitPath, Fr>, rows: seq<Row>, r: Row)
    ensures Apply(nodes, rows + [r]) == Apply(nodes, rows)[r.path := r.newHash]
  {
    assert (rows + [r])[..|rows|] == rows;
  }

  /** Path `p` is the one of leaf `n` at its level, and that level is below `j`. */
  predicate OnPath(height: nat, n: nat, j: nat, p: BitPath)
    requires j <= height + 1
  {
    p.length <= height && height - p.length < j && p == PathAt(height, n, height - p.length)
  }

  /** One more level of the plan writes at most the path's node of that level. */
  lemma ApplyNextLevel(h: Hash, height: nat, nodes: map<BitPath, Fr>, leaves: seq<Fr>, k: nat)
    requires leaves != [] && k <= height
    ensures var n := |leaves| - 1;
            var before, after := OldAt(h, height, nodes, n, k), Node(h, leaves, k, Shr(n, k));
            Apply(nodes, Plan(h, height, nodes, leaves, k + 1))
            == if before == after then Apply(nodes, Plan(h, height, nodes, leaves, k))
               else Apply(nodes, Plan(h, height, nodes, leaves, k))[PathAt(height, n, k) := after]
  {
    var n, rows := |leaves| - 1, Plan(h, height, nodes, leaves, k);
    var before, after := OldAt(h, height, nodes, n, k), Node(h, leaves, k, Shr(n, k));
    if before != after {
      ApplyConcat(nodes, rows, Row(n + 1, PathAt(height, n, k), before, after));
    } else {
      assert rows + [] == rows;
    }
  }

  /** After the planned rows, nodes on the path hold the new hashes and all others are untouched. */
  lemma {:induction false} PlanApplied(
    h: Hash, height: nat, nodes: map<BitPath, Fr>, leaves: seq<Fr>, j: nat, p: BitPath)
    requires leaves != [] && j <= height + 1 && 1 <= p.length <= height
    ensures var n := |leaves| - 1;
            Lookup(Apply(nodes, Plan(h, height, nodes, leaves, j)), h, height, p)
            == if OnPath(height, n, j, p) then Node(h, leaves, height - p.length, p.value)
               else Lookup(nodes, h, height, p)
    decreases j
  {
    if j == 0 {
    } else {
      var k := j - 1;
      PlanApplied(h, height, nodes, leaves, k, p);
      ApplyNextLevel(h, height, nodes, leaves, k);
      LevelApplied(h, height, nodes, leaves, k, p, Apply(nodes, Plan(h, height, nodes, leaves, k)),
                   Apply(nodes, Plan(h, height, nodes, leaves, j)));
    }
  }

  /** What one level's write does to the reading of a path. */
  lemma LevelApplied(
    h: Hash, height: nat, nodes: map<BitPath, Fr>, leaves: seq<Fr>, k: nat, p: BitPath,
    m: map<BitPath, Fr>, m': map<BitPath, Fr>)
    requires leaves != [] && k <= height && 1 <= p.length <= height
    requires var n := |leaves| - 1;
             var before, after := OldAt(h, height, nodes, n, k), Node(h, leaves, k, Shr(n, k));
             m' == if before == after then m else m[PathAt(height, n, k) := after]
    requires Lookup(m, h, height, p)
          == if OnPath(height, |leaves| - 1, k, p) then Node(h, leaves, height - p.length, p.value)
             else Lookup(nodes, h, height, p)
    ensures Lookup(m', h, height, p)
         == if OnPath(height, |leaves| - 1, k + 1, p) then Node(h, leaves, height - p.length, p.value)
            else Lookup(nodes, h, height, p)
  {
  }

  lemma FirstNextLevel(
    h: Hash, height: nat, nodes: map<BitPath, Fr>, leaves: seq<Fr>, k: nat, lo: nat, hi: nat, p: BitPath)
    requires leaves != [] && k <= height && lo < |leaves| <= hi
    ensures var n := |leaves| - 1;
            var before, after := OldAt(h, height, nodes, n, k), Node(h, leaves, k, Shr(n, k));
            var earlier := First(Plan(h, height, nodes, leaves, k), lo, hi, p);
            First(Plan(h, height, nodes, leaves, k + 1), lo, hi, p)
            == if earlier.None? && before != after && p == PathAt(height, n, k) then Some(before) else earlier
  {
    var n, rows := |leaves| - 1, Plan(h, height, nodes, leaves, k);
    var before, after := OldAt(h, height, nodes, n, k), Node(h, leaves, k, Shr(n, k));
    if before != after {
      var r := Row(n + 1, PathAt(height, n, k), before, after);
      FirstConcat(rows, [r], lo, hi, p);
      FirstOne(r, lo, hi, p);
    } else {
      assert rows + [] == rows;
    }
  }

  /** The planned rows record the old hash of exactly the changed nodes of the path. */
  lemma {:induction false} PlanFirst(
    h: Hash, height: nat, nodes: map<BitPath, Fr>, leaves: seq<Fr>, j: nat, lo: nat, hi: nat, p: BitPath)
    requires leaves != [] && j <= height + 1 && 1 <= p.length <= height && lo < |leaves| <= hi
    ensures First(Plan(h, height, nodes, leaves, j), lo, hi, p) == RecordedAt(h, height, nodes, leaves, j, p)
    decreases j
  {
    if j == 0 {
    } else {
      var k := j - 1;
      PlanFirst(h, height, nodes, leaves, k, lo, hi, p);
      FirstNextLevel(h, height, nodes, leaves, k, lo, hi, p);
      LevelRecorded(h, height, nodes, leaves, k, p, First(Plan(h, height, nodes, leaves, k), lo, hi, p),
                    First(Plan(h, height, nodes, leaves, j), lo, hi, p));
    }
  }

  /** The old hash of a path that the levels up to `j` record. */
  function RecordedAt(h: Hash, height: nat, nodes: map<BitPath, Fr>, leaves: seq<Fr>, j: nat, p: BitPath): Option<Fr>
    requires leaves != [] && j <= height + 1 && 1 <= p.length <= height
  {
    var before := Lookup(nodes, h, height, p);
    if OnPath(height, |leaves| - 1, j, p) && before != Node(h, leaves, height - p.length, p.value) then Some(before)
    else None
  }

  lemma LevelRecorded(
    h: Hash, height: nat, nodes: map<BitPath, Fr>, leaves: seq<Fr>, k: nat, p: BitPath, f: Option<Fr>, f': Option<Fr>)
    requires leaves != [] && k <= height && 1 <= p.length <= height
    requires f == RecordedAt(h, height, nodes, leaves, k, p)
    requires var n := |leaves| - 1;
             var before, after := OldAt(h, height, nodes, n, k), Node(h, leaves, k, Shr(n, k));
             f' == if f.None? && before != after && p == PathAt(height, n, k) then Some(before) else f
    ensures f' == RecordedAt(h, height, nodes, leaves, k + 1, p)
  {
  }

  /** New hashes on the path and old ones elsewhere are the node hashes of the longer list. */
  lemma AppendNode(h: Hash, leaves: seq<Fr>, x: Fr, height: nat, p: BitPath, before: Fr, after: Fr)
    requires 1 <= p.length <= height && before == Node(h, leaves, height - p.length, p.value)
    requires after == if OnPath(height, |leaves|, height + 1, p)
                      then Node(h, leaves + [x], height - p.length, p.value) else before
    ensures after == Node(h, leaves + [x], height - p.length, p.value)
  {
    if Shr(|leaves|, height - p.length) != p.value { AppendElsewhere(h, leaves, x, height - p.length, p.value); }
  }

  /** The incremental update refines the full recomputation. */
  lemma AppendRepresents(h: Hash, leaves: seq<Fr>, x: Fr, height: nat, nodes: map<BitPath, Fr>)
    requires height >= 1 && Represents(h, leaves, height, nodes)
    ensures Represents(h, leaves + [x], height,
                       Apply(nodes, Plan(h, height, nodes, leaves + [x], height + 1)))
  {
    var leaves', n := leaves + [x], |leaves|;
    var nodes' := Apply(nodes, Plan(h, height, nodes, leaves', height + 1));
    forall p: BitPath | 1 <= p.length <= height
      ensures Lookup(nodes', h, height, p) == Node(h, leaves', height - p.length, p.value)
    {
      PlanApplied(h, height, nodes, leaves', height + 1, p);
      AppendNode(h, leaves, x, height, p, Lookup(nodes, h, height, p), Lookup(nodes', h, height, p));
    }
    if |leaves'| <= Pow2(height) {
      ShrZeroIff(n, height);
      RootApplied(h, height, nodes, leaves');
    }
  }

  lemma RootApplied(h: Hash, height: nat, nodes: map<BitPath, Fr>, leaves: seq<Fr>)
    requires leaves != [] && height >= 1 && Shr(|leaves| - 1, height) == 0
    ensures Lookup(Apply(nodes, Plan(h, height, nodes, leaves, height + 1)), h, height, ROOT_PATH)
         == Root(h, leaves, height)
  {
    RootUntouched(h, height, nodes, leaves, height);
    ApplyNextLevel(h, height, nodes, leaves, height);
  }

  lemma {:induction false} RootUntouched(h: Hash, height: nat, nodes: map<BitPath, Fr>, leaves: seq<Fr>, j: nat)
    requires leaves != [] && j <= height
    ensures Lookup(Apply(nodes, Plan(h, height, nodes, leaves, j)), h, height, ROOT_PATH)
         == Lookup(nodes, h, height, ROOT_PATH)
    decreases j
  {
    if j == 0 {
    } else {
      var n, k := |leaves| - 1, j - 1;
      RootUntouched(h, height, nodes, leaves, k);
      ApplyNextLevel(h, height, nodes, leaves, k);
    }
  }

  /** Rows of tree index `n + 1` that turn `nodes` into `nodes'` and record what they overwrite. */
  ghost predicate Undoes(
    h: Hash, height: nat, nodes: map<BitPath, Fr>, nodes': map<BitPath, Fr>, rows: seq<Row>, n: nat)
  {
    forall t: nat, p: BitPath :: t <= n && 1 <= p.length <= height ==>
      UndoesAt(h, height, nodes, nodes', rows, n, t, p)
  }

  /** The recorded old hash is the one overwritten; no record means no change. */
  predicate UndoesAt(
    h: Hash, height: nat, nodes: map<BitPath, Fr>, nodes': map<BitPath, Fr>, rows: seq<Row>, n: nat, t: nat, p: BitPath)
    requires p.length <= height
  {
    var f := First(rows, t, n + 1, p);
    if f.Some? then f.value == Lookup(nodes, h, height, p)
    else Lookup(nodes', h, height, p) == Lookup(nodes, h, height, p)
  }

  lemma PlanUndoesAt(h: Hash, height: nat, nodes: map<BitPath, Fr>, leaves: seq<Fr>, j: nat, t: nat, p: BitPath)
    requires leaves != [] && j <= height + 1 && t < |leaves| && 1 <= p.length <= height
    ensures var rows := Plan(h, height, nodes, leaves, j);
            UndoesAt(h, height, nodes, Apply(nodes, rows), rows, |leaves| - 1, t, p)
  {
    PlanFirst(h, height, nodes, leaves, j, t, |leaves|, p);
    PlanApplied(h, height, nodes, leaves, j, p);
  }

  lemma PlanUndoes(h: Hash, height: nat, nodes: map<BitPath, Fr>, leaves: seq<Fr>, j: nat)
    requires leaves != [] && j <= height + 1
    ensures var rows := Plan(h, height, nodes, leaves, j);
            Undoes(h, height, nodes, Apply(nodes, rows), rows, |leaves| - 1)
  {
    var rows, n := Plan(h, height, nodes, leaves, j), |leaves| - 1;
    var nodes' := Apply(nodes, rows);
    forall t: nat, p: BitPath | t <= n && 1 <= p.length <= height
      ensures UndoesAt(h, height, nodes, nodes', rows, n, t, p)
    {
      PlanUndoesAt(h, height, nodes, leaves, j, t, p);
    }
  }

  /** An append does not change what a reader reconstructs for an earlier index. */
  lemma AppendKeepsAt(
    h: Hash, height: nat, nodes: map<BitPath, Fr>, nodes': map<BitPath, Fr>, log: seq<Row>, rows: seq<Row>,
    n: nat, t: nat, p: BitPath)
    requires Undoes(h, height, nodes, nodes', rows, n) && t <= n && 1 <= p.length <= height
    requires forall r :: r in log ==> r.index <= n
    ensures At(h, height, nodes', log + rows, t, n + 1, p) == At(h, height, nodes, log, t, n, p)
  {
    FirstConcat(log, rows, t, n + 1, p);
    FirstHigherBound(log, t, n, p);
    assert UndoesAt(h, height, nodes, nodes', rows, n, t, p);
  }

  /** Every past index that could be rebuilt before an append can still be rebuilt after it. */
  lemma AppendKeepsHistory(
    h: Hash, leaves: seq<Fr>, x: Fr, height: nat, nodes: map<BitPath, Fr>, nodes': map<BitPath, Fr>,
    log: seq<Row>, rows: seq<Row>, floor: nat)
    requires History(h, leaves, height, nodes, log, floor)
    requires Undoes(h, height, nodes, nodes', rows, |leaves|) && Represents(h, leaves + [x], height, nodes')
    requires forall r :: r in log ==> r.index <= |leaves|
    ensures History(h, leaves + [x], height, nodes', log + rows, floor)
  {
    var leaves', n := leaves + [x], |leaves|;
    forall t: nat, p: BitPath | floor <= t <= n + 1 && 1 <= p.length <= height
      ensures At(h, height, nodes', log + rows, t, n + 1, p) == Node(h, leaves'[..t], height - p.length, p.value)
    {
      if t == n + 1 {
        assert leaves'[..t] == leaves';
        NoRowsAbove(log + rows, n + 1, n + 1, p);
      } else {
        assert leaves'[..t] == leaves[..t];
        AppendKeepsAt(h, height, nodes, nodes', log, rows, n, t, p);
      }
    }
  }

  lemma {:induction false} FirstHigherBound(log: seq<Row>, lo: nat, hi: nat, p: BitPath)
    requires forall r :: r in log ==> r.index <= hi
    ensures First(log, lo, hi + 1, p) == First(log, lo, hi, p)
  {
    if log == [] {
    } else {
      assert log[|log| - 1] in log;
      FirstHigherBound(log[..|log| - 1], lo, hi, p);
    }
  }

  lemma {:induction false} NoRowsAbove(log: seq<Row>, lo: nat, hi: nat, p: BitPath)
    requires hi <= lo
    ensures First(log, lo, hi, p) == None
  {
    if log == [] {
    } else {
      NoRowsAbove(log[..|log| - 1], lo, hi, p);
    }
  }

  /** Pruning up to a new floor gives up exactly the indices below it. */
  lemma PruneKeepsHistory(
    h: Hash, leaves: seq<Fr>, height: nat, nodes: map<BitPath, Fr>, log: seq<Row>, floor: nat, floor': nat)
    requires floor <= floor' && History(h, leaves, height, nodes, log, floor)
    ensures History(h, leaves, height, nodes, Prune(log, floor'), floor')
  {
    forall t: nat, p: BitPath | floor' <= t <= |leaves| && 1 <= p.length <= height
      ensures At(h, height, nodes, Prune(log, floor'), t, |leaves|, p)
           == Node(h, leaves[..t], height - p.length, p.value)
    {
      PruneKeepsFirst(log, floor', t, |leaves|, p);
      assert At(h, height, nodes, log, t, |leaves|, p) == Node(h, leaves[..t], height - p.length, p.value);
    }
  }

  /** What a reader gets for any target: the tree at the target, or at the floor if that is later. */
  lemma ReadAny(
    h: Hash, leaves: seq<Fr>, height: nat, nodes: map<BitPath, Fr>, log: seq<Row>, floor: nat, t: nat, p: BitPath)
    requires History(h, leaves, height, nodes, log, floor) && floor <= |leaves|
    requires forall r :: r in log ==> r.index > floor
    requires t <= |leaves| && 1 <= p.length <= height
    ensures var m := if t < floor then floor else t;
            At(h, height, nodes, log, t, |leaves|, p) == Node(h, leaves[..m], height - p.length, p.value)
  {
    if t < floor {
      FirstBelowFloor(log, floor, t, |leaves|, p);
      assert At(h, height, nodes, log, floor, |leaves|, p) == Node(h, leaves[..floor], height - p.length, p.value);
    }
  }

  lemma {:induction false} PlanIndices(h: Hash, height: nat, nodes: map<BitPath, Fr>, leaves: seq<Fr>, j: nat)
    requires leaves != [] && j <= height + 1
    ensures forall r :: r in Plan(h, height, nodes, leaves, j) ==> r.index == |leaves|
    decreases j
  {
    if j == 0 {
    } else {
      PlanIndices(h, height, nodes, leaves, j - 1);
    }
  }

  // ----------------------------------------------------------------- proofs rebuilt

  /** The stored root of an overflowed tree is the Merkle root exactly when the last block holds the same leaves as
      the first one, or a collision is in hand. */
  lemma BlockRootIff(c: Suite, leaves: seq<Fr>, height: nat)
    requires leaves != []
    ensures var last := Shr(|leaves| - 1, height);
            && (SameBlock(leaves, last, leaves, 0, height) ==>
                  BlockRoot(c.h, leaves, height) == Root(c.h, leaves, height))
            && (BlockRoot(c.h, leaves, height) == Root(c.h, leaves, height)
                && !SameBlock(leaves, last, leaves, 0, height) ==>
                  Genuine(c, BlockBreach(c.h, leaves, last, leaves, 0, height)))
  {
    NodesEqualIff(c, leaves, Shr(|leaves| - 1, height), leaves, 0, height);
  }

  /** Two overflowing inputs: three leaves in a tree of two store the root of the second block, while four equal
      leaves store a root that happens to be the Merkle root. */
  lemma OverflowedTrees(h: Hash, x: Fr, y: Fr, z: Fr, height: nat)
    requires height == 1
    ensures BlockRoot(h, [x, y, z], height) == h(z, 0) && Root(h, [x, y, z], height) == h(x, y)
    ensures BlockRoot(h, [x, x, x, x], height) == Root(h, [x, x, x, x], height) == h(x, x)
  {
    assert Shr(2, height) == Shr(1, height - 1) == 1 && Shr(3, height) == Shr(1, height - 1) == 1;
    assert Node(h, [x, y, z], height, 1) == h(Node(h, [x, y, z], height - 1, 2), Node(h, [x, y, z], height - 1, 3));
  }

  /** The list whose siblings a rebuild for `target` reads, and the blocks the proof and the stored root belong to. */
  ghost predicate Rebuildable(leaves: seq<Fr>, height: nat, floor: nat, target: nat, leaf: nat)
    requires 1 <= target <= |leaves| && floor <= |leaves|
  {
    SameBlock(leaves[..Max(target, floor)], Shr(leaf, height), leaves[..target], Shr(target - 1, height), height)
  }

  function RebuildBreach(h: Hash, leaves: seq<Fr>, height: nat, floor: nat, target: nat, leaf: nat): Breach
    requires 1 <= target <= |leaves| && floor <= |leaves|
  {
    BlockBreach(h, leaves[..Max(target, floor)], Shr(leaf, height), leaves[..target], Shr(target - 1, height), height)
  }

  /** A good proof of a leaf outside the target's block, and no collision behind it: four equal leaves in a tree of two,
      the leaf in the first block, the stored root that of the second. */
  lemma RepeatedBlockIsGood(h: Hash, x: Fr, height: nat)
    requires height == 1
    ensures var leaves := [x, x, x, x];
            && Shr(0, height) != Shr(|leaves| - 1, height)
            && Fold(h, x, 0, Siblings(h, leaves, 0, 0, height)) == BlockRoot(h, leaves, height)
            && RebuildBreach(h, leaves, height, 0, |leaves|, 0) == NoBreach
  {
    var leaves := [x, x, x, x];
    assert Shr(3, height) == Shr(1, height - 1) == 1 && Shr(0, height) == Shr(0, height - 1) == 0;
    assert leaves[..4] == leaves;
    FoldSiblings(h, leaves, 0, 0, height);
    assert Node(h, leaves, height, 0) == h(Node(h, leaves, height - 1, 0), Node(h, leaves, height - 1, 1)) == h(x, x);
    assert Node(h, leaves, height, 1) == h(Node(h, leaves, height - 1, 2), Node(h, leaves, height - 1, 3)) == h(x, x);
    assert BlockBreach(h, leaves, 0, leaves, 2, height - 1) == NoBreach
        && BlockBreach(h, leaves, 1, leaves, 3, height - 1) == NoBreach;
  }

  /**
   Exactly when a rebuilt proof is good: it folds with its leaf to the stored root if and only if the leaf's block, as
   read for the target, holds the same leaves as the block of the stored root; or there is a collision.
   */
  lemma RebuiltProofGood(c: Suite, leaves: seq<Fr>, height: nat, floor: nat, target: nat, leaf: nat)
    requires leaf < target <= |leaves| && floor <= |leaves|
    ensures var siblings := Siblings(c.h, leaves[..Max(target, floor)], 0, leaf, height);
            var good := Fold(c.h, leaves[leaf], leaf, siblings) == BlockRoot(c.h, leaves[..target], height);
            && (Rebuildable(leaves, height, floor, target, leaf) ==> good)
            && (good && !Rebuildable(leaves, height, floor, target, leaf) ==>
                  Genuine(c, RebuildBreach(c.h, leaves, height, floor, target, leaf)))
  {
    var read := leaves[..Max(target, floor)];
    FoldSiblings(c.h, read, 0, leaf, height);
    NodesEqualIff(c, read, Shr(leaf, height), leaves[..target], Shr(target - 1, height), height);
  }

  /** A leaf in the block of the target's last leaf can be rebuilt exactly when the target is not below the floor or
      ends its block; or the first leaf past the target is zero. */
  lemma RebuildableIff(leaves: seq<Fr>, height: nat, floor: nat, target: nat, leaf: nat)
    requires leaf < target <= |leaves| && floor <= |leaves| && Shr(leaf, height) == Shr(target - 1, height)
    ensures target >= floor || Low(target, height) == 0 ==> Rebuildable(leaves, height, floor, target, leaf)
    ensures target < floor && Low(target, height) != 0 && Rebuildable(leaves, height, floor, target, leaf) ==>
              leaves[target] == 0
  {
    var v := Shr(target - 1, height);
    if target >= floor {
      assert Rebuildable(leaves, height, floor, target, leaf);
    } else if Low(target, height) == 0 {
      BlockEnd(target, height);
      CutBlock(leaves, v, target, floor, height);
    } else if Rebuildable(leaves, height, floor, target, leaf) {
      BlockInside(target, height);
      CutInside(leaves, v, target, floor, height);
    }
  }

  lemma BlockEnd(n: nat, k: nat)
    requires n >= 1 && Low(n, k) == 0
    ensures Pow2(k) * (Shr(n - 1, k) + 1) == n
  {
    ShrLow(n, k);
    BeforeMultiple(Pow2(k), Shr(n, k));
    ShrLowUnique(n - 1, k, Shr(n, k) - 1, Pow2(k) - 1);
  }

  lemma BeforeMultiple(d: nat, q: nat)
    requires d * q >= 1
    ensures q >= 1 && d * q - 1 == d * (q - 1) + (d - 1)
  {
    assert q >= 1 by { assert d * 0 == 0; }
    assert d * q == d * (q - 1) + d;
  }

  lemma BlockInside(n: nat, k: nat)
    requires n >= 1 && Low(n, k) != 0
    ensures Shr(n, k) == Shr(n - 1, k)
  {
    ShrLow(n, k);
    ShrLowUnique(n - 1, k, Shr(n, k), Low(n, k) - 1);
  }

  /** The floor after the `|windows|`-th append, when append `i` pruned with `windows[i]`. */
  function FloorAfter(windows: seq<nat>): (f: nat)
    ensures f <= |windows|
  {
    if windows == [] then 0
    else
      var before, n, w := FloorAfter(windows[..|windows| - 1]), |windows|, windows[|windows| - 1];
      if n - w > before then n - w else before
  }

  lemma {:induction false} ConstantWindow(windows: seq<nat>, w: nat)
    requires forall i :: 0 <= i < |windows| ==> windows[i] == w
    ensures FloorAfter(windows) == if |windows| <= w then 0 else |windows| - w
  {
    if windows == [] {
    } else {
      ConstantWindow(windows[..|windows| - 1], w);
    }
  }

  lemma FloorNext(windows: seq<nat>, w: nat)
    ensures var n := |windows| + 1;
            FloorAfter(windows + [w]) == Max(FloorAfter(windows), if n <= w then 0 else n - w)
  {
    assert (windows + [w])[..|windows|] == windows;
  }

  // ------------------------------------------------------------ all tables together

  /** A row of the snapshot table; row `i` of the sequence belongs to tree index `i + 1`. */
  datatype Snapshot = Snapshot(root: Fr, chain: Fr)

  function SnapshotOf(c: Suite, height: nat, ts: seq<Transfer>): Snapshot {
    Snapshot(BlockRoot(c.h, Leaves(c, ts), height), ChainOf(c, 0, ts))
  }

  ghost predicate SnapshotsOk(c: Suite, height: nat, ts: seq<Transfer>, snapshots: seq<Snapshot>) {
    && |snapshots| == |ts|
    && forall i :: 1 <= i <= |ts| ==> snapshots[i - 1] == SnapshotOf(c, height, ts[..i])
  }

  /** The tables stand for the transfers `ts` and can rebuild every index from `floor` on. */
  ghost predicate TablesOk(
    c: Suite, height: nat, ts: seq<Transfer>, floor: nat,
    nodes: map<BitPath, Fr>, log: seq<Row>, snapshots: seq<Snapshot>)
  {
    && floor <= |ts|
    && SnapshotsOk(c, height, ts, snapshots)
    && Represents(c.h, Leaves(c, ts), height, nodes)
    && History(c.h, Leaves(c, ts), height, nodes, log, floor)
    && (forall r :: r in log ==> floor < r.index <= |ts|)
    && LogOrdered(log)
    && (forall r :: r in log ==> RowOnPath(height, r))
  }

  /** A row belongs to the path of the leaf whose append wrote it. */
  predicate RowOnPath(height: nat, r: Row) {
    r.index >= 1 && r.path.length <= height && r.path == PathAt(height, r.index - 1, height - r.path.length)
  }

  lemma SnapshotsGrow(c: Suite, height: nat, ts: seq<Transfer>, t: Transfer, snapshots: seq<Snapshot>)
    requires SnapshotsOk(c, height, ts, snapshots)
    ensures SnapshotsOk(c, height, ts + [t], snapshots + [SnapshotOf(c, height, ts + [t])])
  {
    var ts', snapshots' := ts + [t], snapshots + [SnapshotOf(c, height, ts + [t])];
    forall i | 1 <= i <= |ts'|
      ensures snapshots'[i - 1] == SnapshotOf(c, height, ts'[..i])
    {
      if i <= |ts| { assert ts'[..i] == ts[..i]; } else { assert ts'[..i] == ts'; }
    }
  }

  lemma PruneTables(
    h: Hash, leaves: seq<Fr>, height: nat, nodes: map<BitPath, Fr>, log: seq<Row>, floor: nat, threshold: nat)
    requires History(h, leaves, height, nodes, log, floor)
    requires forall r :: r in log ==> floor < r.index <= |leaves|
    ensures History(h, leaves, height, nodes, Prune(log, threshold), Max(floor, threshold))
    ensures forall r :: r in Prune(log, threshold) ==> Max(floor, threshold) < r.index <= |leaves|
  {
    PruneBounds(log, threshold);
    if threshold > floor {
      PruneKeepsHistory(h, leaves, height, nodes, log, floor, threshold);
    } else {
      PruneNothing(log, threshold);
    }
  }

  lemma {:induction false} PruneNothing(log: seq<Row>, threshold: nat)
    requires forall r :: r in log ==> r.index > threshold
    ensures Prune(log, threshold) == log
  {
    if log == [] {
    } else {
      assert log[|log| - 1] in log;
      PruneNothing(log[..|log| - 1], threshold);
      assert log == log[..|log| - 1] + [log[|log| - 1]];
    }
  }

  /** One append with its pruning takes tables for `ts` to tables for `ts + [t]`. */
  lemma AppendHistory(
    h: Hash, leaves: seq<Fr>, x: Fr, height: nat, floor: nat, nodes: map<BitPath, Fr>, log: seq<Row>, rows: seq<Row>)
    requires height >= 1 && History(h, leaves, height, nodes, log, floor)
    requires forall r :: r in log ==> r.index <= |leaves|
    requires rows == Plan(h, height, nodes, leaves + [x], height + 1)
    requires Represents(h, leaves + [x], height, Apply(nodes, rows))
    ensures History(h, leaves + [x], height, Apply(nodes, rows), log + rows, floor)
  {
    PlanUndoes(h, height, nodes, leaves + [x], height + 1);
    AppendKeepsHistory(h, leaves, x, height, nodes, Apply(nodes, rows), log, rows, floor);
  }

  lemma AppendNodes(
    h: Hash, leaves: seq<Fr>, x: Fr, height: nat, floor: nat, nodes: map<BitPath, Fr>, log: seq<Row>, rows: seq<Row>)
    requires height >= 1 && floor <= |leaves| && Represents(h, leaves, height, nodes)
    requires History(h, leaves, height, nodes, log, floor) && forall r :: r in log ==> floor < r.index <= |leaves|
    requires rows == Plan(h, height, nodes, leaves + [x], height + 1)
    ensures Represents(h, leaves + [x], height, Apply(nodes, rows))
    ensures History(h, leaves + [x], height, Apply(nodes, rows), log + rows, floor)
    ensures forall r :: r in log + rows ==> floor < r.index <= |leaves| + 1
  {
    AppendRepresents(h, leaves, x, height, nodes);
    AppendHistory(h, leaves, x, height, floor, nodes, log, rows);
    PlanIndices(h, height, nodes, leaves + [x], height + 1);
  }

  /** The log grows by index, and no index has two rows for one path. */
  ghost predicate LogOrdered(log: seq<Row>) {
    forall i, j :: 0 <= i < j < |log| ==> InOrder(log[i], log[j])
  }

  predicate InOrder(a: Row, b: Row) { a.index <= b.index && (a.index == b.index ==> a.path != b.path) }

  lemma {:induction false} PruneOrdered(log: seq<Row>, floor: nat)
    requires LogOrdered(log)
    ensures LogOrdered(Prune(log, floor))
  {
    if log == [] {
    } else {
      var init, last := log[..|log| - 1], log[|log| - 1];
      PruneOrdered(init, floor);
      PruneBounds(init, floor);
      forall r | r in Prune(init, floor) ensures InOrder(r, last) {
        var i :| 0 <= i < |init| && init[i] == r;
        assert log[i] == r;
      }
    }
  }

  lemma {:induction false} PlanOnPath(h: Hash, height: nat, nodes: map<BitPath, Fr>, leaves: seq<Fr>, j: nat)
    requires leaves != [] && j <= height + 1
    ensures forall r :: r in Plan(h, height, nodes, leaves, j) ==> RowOnPath(height, r)
    decreases j
  {
    if j == 0 {
    } else {
      PlanOnPath(h, height, nodes, leaves, j - 1);
    }
  }

  /** The rows of one append go up the levels. */
  lemma {:induction false} PlanOrdered(h: Hash, height: nat, nodes: map<BitPath, Fr>, leaves: seq<Fr>, j: nat)
    requires leaves != [] && j <= height + 1
    ensures LogOrdered(Plan(h, height, nodes, leaves, j))
    ensures forall r :: r in Plan(h, height, nodes, leaves, j) ==> r.index == |leaves| && r.path.length > height - j
    decreases j
  {
    if j == 0 {
    } else {
      PlanOrdered(h, height, nodes, leaves, j - 1);
    }
  }

  lemma AppendOrdered(
    h: Hash, height: nat, leaves: seq<Fr>, threshold: nat, nodes: map<BitPath, Fr>, log: seq<Row>, rows: seq<Row>)
    requires LogOrdered(log) && leaves != [] && forall r :: r in log ==> r.index < |leaves|
    requires rows == Plan(h, height, nodes, leaves, height + 1)
    ensures LogOrdered(Prune(log + rows, threshold))
  {
    PlanOrdered(h, height, nodes, leaves, height + 1);
    PruneOrdered(log + rows, threshold);
  }

  lemma AppendOnPath(
    h: Hash, height: nat, leaves: seq<Fr>, threshold: nat, nodes: map<BitPath, Fr>, log: seq<Row>, rows: seq<Row>)
    requires leaves != [] && forall r :: r in log ==> RowOnPath(height, r)
    requires rows == Plan(h, height, nodes, leaves, height + 1)
    ensures forall r :: r in Prune(log + rows, threshold) ==> RowOnPath(height, r)
  {
    PlanOnPath(h, height, nodes, leaves, height + 1);
    PruneBounds(log + rows, threshold);
  }

  /** In an ordered log each row is the one found for its path by a reader just below its index. */
  lemma {:induction false} RowIsFirst(log: seq<Row>, k: nat, hi: nat)
    requires LogOrdered(log) && k < |log| && 1 <= log[k].index <= hi
    ensures First(log, log[k].index - 1, hi, log[k].path) == Some(log[k].oldHash)
    decreases |log|
  {
    var init, r := log[..|log| - 1], log[k];
    if k < |init| {
      RowIsFirst(init, k, hi);
    } else {
      NothingEarlier(init, r, hi);
    }
  }

  lemma {:induction false} NothingEarlier(log: seq<Row>, r: Row, hi: nat)
    requires r.index >= 1 && forall i :: 0 <= i < |log| ==> InOrder(log[i], r)
    ensures First(log, r.index - 1, hi, r.path) == None
  {
    if log == [] {
    } else {
      NothingEarlier(log[..|log| - 1], r, hi);
    }
  }

  /** Asked for a row's own path just below its index, the kept log answers with that row. */
  lemma KeptRowIsFound(
    c: Suite, height: nat, ts: seq<Transfer>, floor: nat, nodes: map<BitPath, Fr>, log: seq<Row>,
    snapshots: seq<Snapshot>, k: nat)
    requires TablesOk(c, height, ts, floor, nodes, log, snapshots) && k < |log|
    ensures floor <= log[k].index - 1 < |ts|
    ensures First(log, log[k].index - 1, |ts|, log[k].path) == Some(log[k].oldHash)
  {
    assert log[k] in log;
    RowIsFirst(log, k, |ts|);
  }

  // --------------------------------------------------------------- which rows a proof reads

  /** For this target the row is the oldest one of its path, so it is what the overlay holds. */
  ghost predicate Overlaid(log: seq<Row>, k: nat, target: nat)
    requires k < |log|
  {
    target < log[k].index && forall i :: 0 <= i < k && log[i].path == log[k].path ==> log[i].index <= target
  }

  /** The path is a sibling on the way from the leaf to the root. */
  ghost predicate SiblingPath(height: nat, leaf: nat, p: BitPath) {
    exists j :: 0 <= j < height && IsSiblingAt(height, leaf, j, p)
  }

  predicate IsSiblingAt(height: nat, leaf: nat, j: nat, p: BitPath)
    requires j <= height
  {
    p == Sibling(BitPath(height - j, Shr(leaf, j)))
  }

  /** A rebuild for this target and leaf takes a sibling from the row. */
  ghost predicate Reads(log: seq<Row>, k: nat, height: nat, target: nat, leaf: nat)
    requires k < |log|
  {
    leaf < target && Overlaid(log, k, target) && SiblingPath(height, leaf, log[k].path)
  }

  /** A right child: not the root, and at an odd position of its level. */
  predicate RightChild(p: BitPath) { p.length >= 1 && p.value % 2 == 1 }

  /** What an overlaid row is read as. */
  lemma {:induction false} OverlaidIsFirst(log: seq<Row>, k: nat, target: nat, hi: nat)
    requires k < |log| && Overlaid(log, k, target) && log[k].index <= hi
    ensures First(log, target, hi, log[k].path) == Some(log[k].oldHash)
    decreases |log|
  {
    var init := log[..|log| - 1];
    if k < |init| {
      OverlaidIsFirst(init, k, target, hi);
    } else {
      NoneAbove(init, log[k].path, target, hi);
    }
  }

  lemma {:induction false} NoneAbove(log: seq<Row>, p: BitPath, target: nat, hi: nat)
    requires forall i :: 0 <= i < |log| && log[i].path == p ==> log[i].index <= target
    ensures First(log, target, hi, p) == None
  {
    if log == [] {
    } else {
      NoneAbove(log[..|log| - 1], p, target, hi);
    }
  }

  /** Leaves before the one that wrote a row have it as a sibling only if it is a right child. */
  lemma ReadIsRight(height: nat, r: Row, leaf: nat)
    requires RowOnPath(height, r) && leaf < r.index - 1 && SiblingPath(height, leaf, r.path)
    ensures RightChild(r.path)
  {
    var j :| 0 <= j < height && IsSiblingAt(height, leaf, j, r.path);
    var n := r.index - 1;
    assert r.path == BitPath(height - j, Shr(n, j));
    ShrMono(leaf, n, j);
  }

  /** The first leaf of the left neighbour's range has a right child as a sibling. */
  lemma RightIsRead(height: nat, r: Row, j: nat, q: nat, leaf: nat)
    requires RowOnPath(height, r) && RightChild(r.path) && j == height - r.path.length
    requires q + 1 == r.path.value && leaf == Pow2(j) * q
    ensures leaf < r.index - 1 && SiblingPath(height, leaf, r.path)
  {
    LeftNeighbour(r.index - 1, j, q, leaf);
    assert IsSiblingAt(height, leaf, j, r.path);
  }

  lemma LeftNeighbour(n: nat, j: nat, q: nat, leaf: nat)
    requires Shr(n, j) == q + 1 && leaf == Pow2(j) * q
    ensures leaf < n && Shr(leaf, j) == q
  {
    ShrLow(n, j);
    OneMore(Pow2(j), q);
    ShrLowUnique(leaf, j, q, 0);
  }

  lemma OneMore(d: nat, q: nat)
    ensures d * (q + 1) == d * q + d
  {
  }

  /** Every append at an even position keeps a row that no proof reads: the one of its own leaf. */
  lemma LeftLeafIsNeverRead(
    c: Suite, height: nat, ts: seq<Transfer>, t: Transfer, floor: nat, nodes: map<BitPath, Fr>, log: seq<Row>,
    snapshots: seq<Snapshot>, rows: seq<Row>, later: seq<Row>, target: nat, leaf: nat)
    requires height >= 1 && TablesOk(c, height, ts, floor, nodes, log, snapshots) && |ts| % 2 == 0 && Leaf(c, t) != 0
    requires rows == Plan(c.h, height, nodes, Leaves(c, ts + [t]), height + 1)
    ensures rows != [] && rows[0] == Row(|ts| + 1, BitPath(height, |ts|), 0, Leaf(c, t))
    ensures !Reads(log + rows + later, |log|, height, target, leaf)
  {
    var leaves := Leaves(c, ts + [t]);
    assert OldAt(c.h, height, nodes, |ts|, 0) == Node(c.h, Leaves(c, ts), 0, |ts|) == 0;
    assert Node(c.h, leaves, 0, |ts|) == Leaf(c, t);
    PlanStartsAtLeaf(c.h, height, nodes, leaves, height + 1, 0, Leaf(c, t));
    if Reads(log + rows + later, |log|, height, target, leaf) {
      ReadIsRight(height, rows[0], leaf);
    }
  }

  lemma {:induction false} PlanStartsAtLeaf(
    h: Hash, height: nat, nodes: map<BitPath, Fr>, leaves: seq<Fr>, j: nat, before: Fr, after: Fr)
    requires leaves != [] && 1 <= j <= height + 1 && before != after
    requires before == OldAt(h, height, nodes, |leaves| - 1, 0) && after == Node(h, leaves, 0, |leaves| - 1)
    ensures var rows := Plan(h, height, nodes, leaves, j);
            rows != [] && rows[0] == Row(|leaves|, PathAt(height, |leaves| - 1, 0), before, after)
    decreases j
  {
    if j == 1 {
      assert Plan(h, height, nodes, leaves, 0) == [];
    } else {
      PlanStartsAtLeaf(h, height, nodes, leaves, j - 1, before, after);
    }
  }

  lemma AppendTables(
    c: Suite, height: nat, ts: seq<Transfer>, t: Transfer, floor: nat, threshold: nat,
    nodes: map<BitPath, Fr>, log: seq<Row>, snapshots: seq<Snapshot>, rows: seq<Row>)
    requires height >= 1 && TablesOk(c, height, ts, floor, nodes, log, snapshots) && threshold <= |ts|
    requires rows == Plan(c.h, height, nodes, Leaves(c, ts + [t]), height + 1)
    ensures TablesOk(c, height, ts + [t], Max(floor, threshold), Apply(nodes, rows), Prune(log + rows, threshold),
                     snapshots + [SnapshotOf(c, height, ts + [t])])
  {
    assert Leaves(c, ts + [t]) == Leaves(c, ts) + [Leaf(c, t)];
    AppendNodes(c.h, Leaves(c, ts), Leaf(c, t), height, floor, nodes, log, rows);
    PruneTables(c.h, Leaves(c, ts + [t]), height, Apply(nodes, rows), log + rows, floor, threshold);
    SnapshotsGrow(c, height, ts, t, snapshots);
    AppendOrdered(c.h, height, Leaves(c, ts + [t]), threshold, nodes, log, rows);
    AppendOnPath(c.h, height, Leaves(c, ts + [t]), threshold, nodes, log, rows);
  }

  lemma EmptyTables(c: Suite, height: nat)
    ensures TablesOk(c, height, [], 0, map[], [], [])
  {
    assert Leaves(c, []) == [];
    forall p: BitPath | p.length <= height
      ensures Lookup(map[], c.h, height, p) == Node(c.h, [], height - p.length, p.value)
    {
      EmptyNode(c.h, height - p.length, p.value);
    }
  }

  // ------------------------------------------------- single steps of the climbing loops

  /** Hashing a node of the new leaf's path with its sibling gives the next node of the path. */
  lemma ClimbStep(
    c: Suite, height: nat, ts: seq<Transfer>, t: Transfer, nodes: map<BitPath, Fr>, k: nat, sibling: Fr)
    requires k < height && Represents(c.h, Leaves(c, ts), height, nodes)
    requires sibling == Lookup(nodes, c.h, height, Sibling(BitPath(height - k, Shr(|ts|, k))))
    ensures var leaves, v := Leaves(c, ts + [t]), Shr(|ts|, k);
            var hash := Node(c.h, leaves, k, v);
            && Shr(|ts|, k + 1) == v / 2
            && Node(c.h, leaves, k + 1, v / 2) == if v % 2 == 0 then c.h(hash, sibling) else c.h(sibling, hash)
  {
    var v := Shr(|ts|, k);
    ShrAdd(|ts|, k, 1);
    assert Leaves(c, ts + [t]) == Leaves(c, ts) + [Leaf(c, t)];
    AppendElsewhere(c.h, Leaves(c, ts), Leaf(c, t), k, SiblingOf(v));
  }

}
