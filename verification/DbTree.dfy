/** The database-backed incremental Merkle tree: append, prune and prove over its tables. */
module DbTree {
  import opened Field
  import opened Crypto
  import opened Merkle
  import opened Base
  import opened TreeTables
  import AggregationRoot

  const I64_MAX: int := 0x7fff_ffff_ffff_ffff

  datatype AppendResult = AppendResult(index: nat, leafIndex: nat, root: Fr, chain: Fr)

  datatype HistoricalProof =
    HistoricalProof(targetIndex: nat, leafIndex: nat, root: Fr, chain: Fr, siblings: seq<Fr>)

  datatype TreeError =
    | IndexOverflow(index: nat)
    | InvalidProofTargetZero
    | TreeEmpty
    | TargetIndexTooHigh(target: nat, latest: nat)
    | RetentionWindowExceeded(target: nat, window: nat)
    | LeafIndexOutOfBounds(leaf: nat, target: nat)

  datatype Result<T> = Ok(value: T) | Err(error: TreeError)

  class Tree {
    const c: Suite
    const height: nat
    const zeros: seq<Fr>
    var nodes: map<BitPath, Fr>
    var log: seq<Row>
    var snapshots: seq<Snapshot>

    /** Every transfer appended so far, the window each append pruned with, and so the lowest index the log still
        reaches back to. */
    ghost var transfers: seq<Transfer>
    ghost var windows: seq<nat>
    ghost var floor: nat

    predicate ZerosOk() {
      && height >= 1
      && |zeros| == height + 1 && (forall k :: 0 <= k <= height ==> zeros[k] == ZeroHash(c.h, k))
    }

    ghost predicate Valid()
      reads this
    {
      && ZerosOk() && |snapshots| == |transfers| == |windows| && floor == FloorAfter(windows) <= |transfers|
      && (forall k {:trigger LooksInside(TablesPart, k)} ::
            LooksInside(TablesPart, k) ==> TablesOk(c, height, transfers, floor, nodes, log, snapshots))
    }

    /** Attaches to tables as earlier sessions left them. */
    constructor (
      c: Suite, height: nat, zeros: seq<Fr>, nodes: map<BitPath, Fr>, log: seq<Row>, snapshots: seq<Snapshot>,
      ghost transfers: seq<Transfer>, ghost windows: seq<nat>)
      requires height >= 1 && |windows| == |transfers|
      requires |zeros| == height + 1 && forall k :: 0 <= k <= height ==> zeros[k] == ZeroHash(c.h, k)
      requires TablesOk(c, height, transfers, FloorAfter(windows), nodes, log, snapshots)
      ensures Valid() && this.transfers == transfers && this.windows == windows
      ensures this.c == c && this.height == height
    {
      this.c, this.height, this.zeros := c, height, zeros;
      this.nodes, this.log, this.snapshots := nodes, log, snapshots;
      this.transfers, this.windows, this.floor := transfers, windows, FloorAfter(windows);
    }

    /** The stored hash of a path, or the empty subtree of its level. */
    function StoredHash(known: map<BitPath, Fr>, p: BitPath): (r: Fr)
      requires ZerosOk() && p.length <= height
      ensures r == Lookup(known, c.h, height, p)
    {
      if p in known then known[p] else zeros[height - p.length]
    }

    /** Collects every path the append will read: the leaf's path and all its siblings. */
    method FetchPositions(leafIndex: nat) returns (fetch: set<BitPath>)
      requires height >= 1
      ensures Fetched(fetch, height, leafIndex)
    {
      var cursor := BitPath(height, leafIndex);
      fetch := {cursor};
      var k := 0;
      while k < height
        invariant 0 <= k <= height && cursor == BitPath(height - k, Shr(leafIndex, k)) && cursor in fetch
        invariant forall j :: 0 <= j < k ==> FetchedAt(fetch, height, leafIndex, j)
        invariant forall p :: p in fetch && p.length == 0 ==> p == cursor
      {
        ghost var before := fetch;
        var parent := Pop(cursor);
        fetch := fetch + {Sibling(cursor), parent};
        assert forall j :: 0 <= j < k && FetchedAt(before, height, leafIndex, j) ==>
                 FetchedAt(fetch, height, leafIndex, j);
        assert FetchedAt(fetch, height, leafIndex, k);
        ShrAdd(leafIndex, k, 1);
        cursor := parent;
        k := k + 1;
      }
    }

    /** The climb for transfer `t` has reached level `k`. */
    ghost predicate Climbed(
      known: map<BitPath, Fr>, t: Transfer, k: nat, existing: map<BitPath, Fr>, hash: Fr, planned: seq<Row>)
      requires k <= height
      reads this
    {
      Reached(c.h, height, nodes, Leaves(c, transfers + [t]), known, k, existing, hash, planned)
    }

    /** One level of the climb: plans a row if the node changes and hashes it with its sibling. */
    method ClimbLevel(fetch: set<BitPath>, known: map<BitPath, Fr>, existing: map<BitPath, Fr>, t: Transfer,
                      k: nat, current: BitPath, hash: Fr, planned: seq<Row>)
      returns (existing': map<BitPath, Fr>, hash': Fr, planned': seq<Row>)
      requires Valid() && k < height && Fetched(fetch, height, |transfers|)
      requires current == BitPath(height - k, Shr(|transfers|, k))
      requires known == (map p | p in fetch && p in nodes :: nodes[p]) && Climbed(known, t, k, existing, hash, planned)
      ensures Climbed(known, t, k + 1, existing', hash', planned')
    {
      var sibling := Sibling(current);
      var oldHash := StoredHash(existing, current);
      if oldHash != hash {
        planned' := planned + [Row(|snapshots| + 1, current, oldHash, hash)];
        existing' := existing[current := hash];
      } else {
        planned', existing' := planned, existing;
      }
      var siblingHash := StoredHash(existing', sibling);
      hash' := if current.value % 2 == 0 then c.h(hash, siblingHash) else c.h(siblingHash, hash);
      ClimbDone(fetch, known, existing, t, k, current, hash, planned, oldHash, siblingHash, existing', hash', planned');
    }

    /** What one level writes takes the climb one level up. */
    lemma ClimbDone(
      fetch: set<BitPath>, known: map<BitPath, Fr>, existing: map<BitPath, Fr>, t: Transfer, k: nat, current: BitPath,
      hash: Fr, planned: seq<Row>, oldHash: Fr, siblingHash: Fr,
      existing': map<BitPath, Fr>, hash': Fr, planned': seq<Row>)
      requires Valid() && k < height && Fetched(fetch, height, |transfers|)
      requires current == BitPath(height - k, Shr(|transfers|, k)) && oldHash == Lookup(existing, c.h, height, current)
      requires known == (map p | p in fetch && p in nodes :: nodes[p]) && Climbed(known, t, k, existing, hash, planned)
      requires existing' == if oldHash != hash then existing[current := hash] else existing
      requires planned' == if oldHash != hash then planned + [Row(|transfers| + 1, current, oldHash, hash)] else planned
      requires siblingHash == Lookup(existing', c.h, height, Sibling(current))
      requires hash' == if current.value % 2 == 0 then c.h(hash, siblingHash) else c.h(siblingHash, hash)
      ensures Climbed(known, t, k + 1, existing', hash', planned')
    {
      HashUp(t, k, Lookup(nodes, c.h, height, Sibling(current)));
      LevelUp(c.h, height, nodes, Leaves(c, transfers + [t]), fetch, known, k, current,
              Level(existing, hash, planned), Level(existing', hash', planned'), oldHash, siblingHash);
    }

    lemma HashUp(t: Transfer, k: nat, siblingHash: Fr)
      requires Valid() && k < height
      requires siblingHash == Lookup(nodes, c.h, height, Sibling(BitPath(height - k, Shr(|transfers|, k))))
      ensures var hash := Node(c.h, Leaves(c, transfers + [t]), k, Shr(|transfers|, k));
              Node(c.h, Leaves(c, transfers + [t]), k + 1, Shr(|transfers|, k + 1))
              == if Shr(|transfers|, k) % 2 == 0 then c.h(hash, siblingHash) else c.h(siblingHash, hash)
    {
      assert LooksInside(TablesPart, 0);
      ClimbStep(c, height, transfers, t, nodes, k, siblingHash);
    }

    /** Walks from the leaf to the root, hashing and planning one row per changed node. */
    method PlanUpdates(known: map<BitPath, Fr>, fetch: set<BitPath>, t: Transfer)
      returns (planned: seq<Row>, root: Fr)
      requires Valid() && Fetched(fetch, height, |transfers|)
      requires known == map p | p in fetch && p in nodes :: nodes[p]
      ensures planned == Plan(c.h, height, nodes, Leaves(c, transfers + [t]), height + 1)
      ensures root == BlockRoot(c.h, Leaves(c, transfers + [t]), height)
    {
      var existing: map<BitPath, Fr> := known;
      var current := BitPath(height, |snapshots|);
      root := c.h(t.to, t.value);
      planned := [];
      var k := 0;
      while k < height
        invariant 0 <= k <= height && current == BitPath(height - k, Shr(|transfers|, k))
        invariant Climbed(known, t, k, existing, root, planned)
      {
        existing, root, planned := ClimbLevel(fetch, known, existing, t, k, current, root, planned);
        ShrAdd(|transfers|, k, 1);
        current := Pop(current);
        k := k + 1;
      }
      planned := RootLevel(known, fetch, existing, t, root, planned);
    }

    /** The row of the root, whose old hash is the empty tree's once the tree has overflowed. */
    method RootLevel(
      known: map<BitPath, Fr>, fetch: set<BitPath>, existing: map<BitPath, Fr>, t: Transfer, root: Fr,
      planned: seq<Row>)
      returns (planned': seq<Row>)
      requires Valid() && Fetched(fetch, height, |transfers|)
      requires known == (map p | p in fetch && p in nodes :: nodes[p])
      requires Climbed(known, t, height, existing, root, planned)
      ensures planned' == Plan(c.h, height, nodes, Leaves(c, transfers + [t]), height + 1)
      ensures root == BlockRoot(c.h, Leaves(c, transfers + [t]), height)
    {
      assert LooksInside(ClimbPart, 0);
      var oldRoot := StoredHash(existing, ROOT_PATH);
      planned' := if oldRoot == root then planned else planned + [Row(|snapshots| + 1, ROOT_PATH, oldRoot, root)];
    }

    /** The transaction's writes: nodes, undo rows, snapshot, and the prune. */
    method Store(planned: seq<Row>, snapshot: Snapshot, threshold: nat, ghost t: Transfer, ghost window: nat)
      requires Valid() && threshold <= |transfers|
      requires threshold == if |transfers| + 1 <= window then 0 else |transfers| + 1 - window
      requires planned == Plan(c.h, height, nodes, Leaves(c, transfers + [t]), height + 1)
      requires snapshot == SnapshotOf(c, height, transfers + [t])
      modifies this
      ensures Valid() && transfers == old(transfers) + [t] && windows == old(windows) + [window]
      ensures floor == Max(old(floor), threshold)
    {
      assert TablesOk(c, height, transfers, floor, nodes, log, snapshots) by { assert LooksInside(TablesPart, 0); }
      AppendTables(c, height, transfers, t, floor, threshold, nodes, log, snapshots, planned);
      FloorNext(windows, window);
      nodes := Apply(nodes, planned);
      log := Prune(log + planned, threshold);
      snapshots := snapshots + [snapshot];
      transfers, windows := transfers + [t], windows + [window];
      floor := Max(floor, threshold);
    }

    lemma PreviousChain()
      requires Valid()
      ensures ChainOf(c, 0, transfers) == if |snapshots| == 0 then 0 else snapshots[|snapshots| - 1].chain
    {
      assert LooksInside(TablesPart, 0);
      assert transfers[..|snapshots|] == transfers;
    }

    /** `root_at` and `hash_chain_at`: the snapshot of an index, if there is one. */
    method SnapshotAt(index: nat) returns (r: Option<Snapshot>)
      requires Valid()
      ensures r.Some? <==> 1 <= index <= |transfers|
      ensures r.Some? ==> r.value == SnapshotOf(c, height, transfers[..index])
    {
      assert LooksInside(TablesPart, 0);
      if index == 0 || index > |snapshots| { return None; }
      return Some(snapshots[index - 1]);
    }

    /** Overlay before node table: the hash a path had at the target. */
    lemma HashAt(target: nat, p: BitPath)
      requires Valid() && target <= |transfers| && 1 <= p.length <= height
      ensures At(c.h, height, nodes, log, target, |transfers|, p)
           == Node(c.h, Leaves(c, transfers[..Max(target, floor)]), height - p.length, p.value)
    {
      assert LooksInside(TablesPart, 0);
      ReadPast(c, height, transfers, floor, nodes, log, snapshots, target, p);
    }

    /** Reads the affected nodes and computes the rows and the snapshot of the append. */
    method ComputeAppend(t: Transfer) returns (planned: seq<Row>, snapshot: Snapshot)
      requires Valid()
      ensures planned == Plan(c.h, height, nodes, Leaves(c, transfers + [t]), height + 1)
      ensures snapshot == SnapshotOf(c, height, transfers + [t])
    {
      var latest := |snapshots|;
      var prevChain := if latest == 0 then 0 else snapshots[latest - 1].chain;
      PreviousChain();
      ChainSnoc(c, 0, transfers, t);
      var fetch := FetchPositions(latest);
      var known := map p | p in fetch && p in nodes :: nodes[p];
      var root;
      planned, root := PlanUpdates(known, fetch, t);
      snapshot := Snapshot(root, c.chain(prevChain, t.to, t.value));
    }

    /** `append_leaf`: one transaction that writes the changed nodes, their undo rows and a snapshot, then
        prunes the undo log by the caller's window. */
    method AppendLeaf(window: nat, t: Transfer) returns (r: Result<AppendResult>)
      requires Valid() && window > 0
      modifies this
      ensures Valid()
      ensures r.Err? <==> |old(transfers)| >= I64_MAX
      ensures r.Err? ==> r.error == IndexOverflow(|old(transfers)| + 1)
      ensures r.Err? ==> transfers == old(transfers) && windows == old(windows) && floor == old(floor)
      ensures r.Ok? ==> transfers == old(transfers) + [t] && windows == old(windows) + [window]
      ensures r.Ok? ==> r.value.index == |transfers| && r.value.leafIndex == |transfers| - 1
      ensures r.Ok? ==> Snapshot(r.value.root, r.value.chain) == SnapshotOf(c, height, transfers)
      ensures r.Ok? ==> floor == Max(old(floor), if |transfers| <= window then 0 else |transfers| - window)
    {
      var latest := |snapshots|;
      var next := latest + 1;
      if next > I64_MAX {
        return Err(IndexOverflow(next));
      }
      var planned, snapshot := ComputeAppend(t);
      var threshold := if next <= window then 0 else next - window;
      Store(planned, snapshot, threshold, t, window);
      return Ok(AppendResult(next, latest, snapshot.root, snapshot.chain));
    }

    /** `load_overlay`: the oldest recorded hash of every node changed in the given index range. */
    method LoadOverlay(from: nat, to: nat) returns (overlay: map<BitPath, Fr>)
      requires from >= 1
      ensures forall p :: p in overlay <==> First(log, from - 1, to, p).Some?
      ensures forall p :: p in overlay ==> First(log, from - 1, to, p) == Some(overlay[p])
    {
      overlay := map[];
      if from > to {
        var lo := from - 1;
        forall p ensures First(log, lo, to, p) == None { NoRowsAbove(log, lo, to, p); }
        return;
      }
      var i := 0;
      while i < |log|
        invariant 0 <= i <= |log|
        invariant forall p :: p in overlay <==> First(log[..i], from - 1, to, p).Some?
        invariant forall p :: p in overlay ==> First(log[..i], from - 1, to, p) == Some(overlay[p])
      {
        var row := log[i];
        assert log[..i + 1][..i] == log[..i] && log[..i + 1][i] == row;
        if from <= row.index <= to && row.path !in overlay {
          overlay := overlay[row.path := row.oldHash];
        }
        i := i + 1;
      }
      assert log[..i] == log;
    }

    /** The overlay holds what the log says about the nodes at the target. */
    ghost predicate OverlayOk(overlay: map<BitPath, Fr>, target: nat)
      reads this
    {
      && (forall p :: p in overlay <==> First(log, target, |transfers|, p).Some?)
      && (forall p :: p in overlay ==> First(log, target, |transfers|, p) == Some(overlay[p]))
    }

    /** Outside the overlay the cache reads like the node table. */
    ghost predicate CachedAt(overlay: map<BitPath, Fr>, cache: map<BitPath, Fr>, leaf: nat, j: nat)
      requires j <= height
      reads this
    {
      var p := Sibling(BitPath(height - j, Shr(leaf, j)));
      p !in overlay ==> Lookup(cache, c.h, height, p) == Lookup(nodes, c.h, height, p)
    }

    lemma OverlayRead(overlay: map<BitPath, Fr>, cache: map<BitPath, Fr>, leaf: nat, target: nat, j: nat)
      requires Valid() && target <= |transfers| && j < height
      requires OverlayOk(overlay, target) && CachedAt(overlay, cache, leaf, j)
      ensures var p := Sibling(BitPath(height - j, Shr(leaf, j)));
              (if p in overlay then overlay[p] else StoredHash(cache, p))
              == Node(c.h, Leaves(c, transfers[..Max(target, floor)]), j, SiblingOf(Shr(leaf, j)))
    {
      HashAt(target, Sibling(BitPath(height - j, Shr(leaf, j))));
    }

    /** Siblings of one leaf: overlay first, then the prefetched nodes, then the empty subtree. */
    method CollectSiblings(overlay: map<BitPath, Fr>, cache: map<BitPath, Fr>, leaf: nat, ghost target: nat)
      returns (siblings: seq<Fr>)
      requires Valid() && target <= |transfers| && OverlayOk(overlay, target)
      requires forall j :: 0 <= j < height ==> CachedAt(overlay, cache, leaf, j)
      ensures siblings == Siblings(c.h, Leaves(c, transfers[..Max(target, floor)]), 0, leaf, height)
    {
      siblings := [];
      var path := BitPath(height, leaf);
      ghost var past := Leaves(c, transfers[..Max(target, floor)]);
      var k := 0;
      while k < height
        invariant 0 <= k <= height && |siblings| == k && path == BitPath(height - k, Shr(leaf, k))
        invariant Collected(c.h, past, leaf, k, siblings)
      {
        var sibling := Sibling(path);
        var hash := if sibling in overlay then overlay[sibling] else StoredHash(cache, sibling);
        OverlayRead(overlay, cache, leaf, target, k);
        CollectedNext(c.h, past, leaf, k, siblings, hash);
        siblings := siblings + [hash];
        ShrAdd(leaf, k, 1);
        path := Pop(path);
        k := k + 1;
      }
      CollectedAll(c.h, past, leaf, height, siblings);
    }

    /** Paths whose current hash is needed because the overlay does not have them. */
    method PrefetchPaths(overlay: map<BitPath, Fr>, leaves: seq<nat>) returns (paths: set<BitPath>)
      ensures forall i, j :: 0 <= i < |leaves| && 0 <= j < height ==>
                var p := Sibling(BitPath(height - j, Shr(leaves[i], j)));
                p in overlay || p in paths
    {
      paths := {};
      var i := 0;
      while i < |leaves|
        invariant 0 <= i <= |leaves|
        invariant forall a, j :: 0 <= a < i && 0 <= j < height ==>
                    var p := Sibling(BitPath(height - j, Shr(leaves[a], j)));
                    p in overlay || p in paths
      {
        var path := BitPath(height, leaves[i]);
        var k := 0;
        while k < height
          invariant 0 <= k <= height && path == BitPath(height - k, Shr(leaves[i], k))
          invariant forall a, j :: 0 <= a < i && 0 <= j < height ==>
                      var p := Sibling(BitPath(height - j, Shr(leaves[a], j)));
                      p in overlay || p in paths
          invariant forall j :: 0 <= j < k ==>
                      var p := Sibling(BitPath(height - j, Shr(leaves[i], j)));
                      p in overlay || p in paths
        {
          if Sibling(path) !in overlay { paths := paths + {Sibling(path)}; }
          ShrAdd(leaves[i], k, 1);
          path := Pop(path);
          k := k + 1;
        }
        i := i + 1;
      }
    }

    /** Some requested leaf is not in the tree at the target; the first one is reported. */
    function FirstBad(leaves: seq<nat>, target: nat): (i: nat)
      ensures i <= |leaves|
      ensures forall j :: 0 <= j < i ==> leaves[j] < target
      ensures i < |leaves| ==> leaves[i] >= target
    {
      if leaves == [] || leaves[0] >= target then 0 else 1 + FirstBad(leaves[1..], target)
    }

    /** The errors of `prove_many`, in the order the checks are made. */
    function ProveError(window: nat, target: nat, leaves: seq<nat>, latest: nat): Option<TreeError> {
      if target == 0 then Some(InvalidProofTargetZero)
      else if latest == 0 then Some(TreeEmpty)
      else if target > latest then Some(TargetIndexTooHigh(target, latest))
      else if latest - target > window then Some(RetentionWindowExceeded(target, window))
      else
        var i := FirstBad(leaves, target);
        if i < |leaves| then Some(LeafIndexOutOfBounds(leaves[i], target))
      else None
    }

    /** Each bad request is answered by the first of the five checks it fails, and no other request is refused. */
    static predicate RefusedAs(
      r: Result<seq<HistoricalProof>>, window: nat, target: nat, leaves: seq<nat>, latest: nat)
    {
      && (r == Err(InvalidProofTargetZero) <==> target == 0)
      && (r == Err(TreeEmpty) <==> target > 0 && latest == 0)
      && (r == Err(TargetIndexTooHigh(target, latest)) <==> 0 < latest < target)
      && (r == Err(RetentionWindowExceeded(target, window)) <==> 0 < target <= latest && target + window < latest)
      && (r.Err? && r.error.LeafIndexOutOfBounds? <==>
            0 < target <= latest <= target + window && exists i :: 0 <= i < |leaves| && leaves[i] >= target)
      && (r.Err? && r.error.LeafIndexOutOfBounds? ==>
            && r.error.target == target
            && exists i :: 0 <= i < |leaves| && leaves[i] == r.error.leaf >= target
                           && forall j :: 0 <= j < i ==> leaves[j] < target)
      && (r.Ok? <==>
            0 < target <= latest <= target + window && forall i :: 0 <= i < |leaves| ==> leaves[i] < target)
    }

    /** The proof handed out for a leaf: root and chain of the target, siblings of the tree at the target, or
        at the pruning floor when the target lies below it. */
    ghost function ProofAt(target: nat, leaf: nat): HistoricalProof
      requires Valid() && target <= |transfers|
      reads this
    {
      HistoricalProof(target, leaf, BlockRoot(c.h, Leaves(c, transfers[..target]), height),
                      ChainOf(c, 0, transfers[..target]),
                      Siblings(c.h, Leaves(c, transfers[..Max(target, floor)]), 0, leaf, height))
    }

    /** The proof leads from its leaf to its root. */
    ghost predicate Leads(p: HistoricalProof)
      reads this
    {
      && p.leafIndex < |transfers|
      && Fold(c.h, Leaf(c, transfers[p.leafIndex]), p.leafIndex, p.siblings) == p.root
    }

    ghost predicate CanRebuild(target: nat, leaf: nat)
      requires Valid() && 1 <= target <= |transfers|
      reads this
    {
      Rebuildable(Leaves(c, transfers), height, floor, target, leaf)
    }

    /** Exactly which of the proofs handed out lead to the root they carry. */
    lemma ProofVerdict(target: nat, leaf: nat)
      requires Valid() && leaf < target <= |transfers|
      ensures CanRebuild(target, leaf) ==> Leads(ProofAt(target, leaf))
      ensures Leads(ProofAt(target, leaf)) && !CanRebuild(target, leaf) ==>
                Genuine(c, RebuildBreach(c.h, Leaves(c, transfers), height, floor, target, leaf))
    {
      var leaves := Leaves(c, transfers);
      assert Leaves(c, transfers[..target]) == leaves[..target];
      assert Leaves(c, transfers[..Max(target, floor)]) == leaves[..Max(target, floor)];
      RebuiltProofGood(c, leaves, height, floor, target, leaf);
    }

    /** Every append pruned with this window. */
    ghost predicate OneWindow(window: nat)
      reads this
    {
      forall i :: 0 <= i < |windows| ==> windows[i] == window
    }

    /** With one window throughout, the retention check admits exactly the targets from the floor on. */
    lemma AllowedIsRebuildable(window: nat, target: nat)
      requires Valid() && OneWindow(window) && target <= |transfers|
      ensures |transfers| - target <= window <==> floor <= target
    {
      ConstantWindow(windows, window);
    }

    /** Within the window and the tree's capacity every proof leads to the Merkle root of the first transfers. */
    lemma AllowedProofLeads(window: nat, target: nat, leaf: nat)
      requires Valid() && OneWindow(window) && leaf < target <= |transfers| <= target + window && target <= Pow2(height)
      ensures Leads(ProofAt(target, leaf))
      ensures ProofAt(target, leaf).root == Root(c.h, Leaves(c, transfers[..target]), height)
    {
      AllowedIsRebuildable(window, target);
      ShrZeroIff(leaf, height);
      ShrZeroIff(target - 1, height);
      RebuildableIff(Leaves(c, transfers), height, floor, target, leaf);
      ProofVerdict(target, leaf);
      BlockRootIsRoot(c.h, Leaves(c, transfers[..target]), height);
    }

    /** A rebuild takes from a row it reads the row's old hash. */
    lemma ReadIsOldHash(k: nat, target: nat, leaf: nat)
      requires Valid() && k < |log| && Reads(log, k, height, target, leaf)
      ensures At(c.h, height, nodes, log, target, |transfers|, log[k].path) == log[k].oldHash
    {
      assert LooksInside(TablesPart, 0);
      assert log[k] in log;
      OverlaidIsFirst(log, k, target, |transfers|);
    }

    /** The retention check admits the request and its proof reads the row. */
    ghost predicate ReadByProof(window: nat, k: nat, target: nat, leaf: nat)
      requires k < |log|
      reads this
    {
      ProveError(window, target, [leaf], |transfers|).None? && Reads(log, k, height, target, leaf)
    }

    /**
     Exactly which kept rows are needed. With one window throughout, a kept row is read by some proof the retention
     check admits if and only if it belongs to a right child: rows of left children and of the root are written and
     kept, but no proof reads them.
     */
    lemma KeptRowReadIff(window: nat, k: nat)
      requires Valid() && OneWindow(window) && k < |log|
      ensures (exists target: nat, leaf: nat :: ReadByProof(window, k, target, leaf)) <==> RightChild(log[k].path)
    {
      assert LooksInside(TablesPart, 0);
      var r := log[k];
      assert r in log;
      forall target: nat, leaf: nat | ReadByProof(window, k, target, leaf) ensures RightChild(r.path) {
        ReadIsRight(height, r, leaf);
      }
      if RightChild(r.path) {
        var j, q, target := height - r.path.length, r.path.value - 1, r.index - 1;
        var leaf := Pow2(j) * q;
        RightIsRead(height, r, j, q, leaf);
        AllowedIsRebuildable(window, target);
        assert ReadByProof(window, k, target, leaf);
      }
    }

    /** Once the window was raised, the targets the check admits in addition lie below the floor; in a tree that has
        not overflowed their proofs do not lead to their root, or there is a break. */
    lemma RaisedWindow(window: nat, target: nat, leaf: nat)
      requires Valid() && OneWindow(window) && leaf < target <= |transfers| <= Pow2(height)
      requires target + window < |transfers|
      ensures target < floor
      ensures Leads(ProofAt(target, leaf)) ==>
                Genuine(c, RaisedBreach(target, leaf))
    {
      AllowedIsRebuildable(window, target);
      ShrZeroIff(leaf, height);
      ShrZeroIff(target - 1, height);
      ShrZeroIff(target, height);
      ShrLow(target, height);
      RebuildableIff(Leaves(c, transfers), height, floor, target, leaf);
      ProofVerdict(target, leaf);
    }

    lemma ProofVerdicts(window: nat, target: nat, leaves: seq<nat>)
      requires Valid() && ProveError(window, target, leaves, |transfers|).None?
      ensures forall i :: 0 <= i < |leaves| ==>
                && (CanRebuild(target, leaves[i]) ==> Leads(ProofAt(target, leaves[i])))
                && (Leads(ProofAt(target, leaves[i])) && !CanRebuild(target, leaves[i]) ==>
                      Genuine(c, RebuildBreach(c.h, Leaves(c, transfers), height, floor, target, leaves[i])))
      ensures OneWindow(window) && target <= Pow2(height) ==> forall i :: 0 <= i < |leaves| ==>
                && Leads(ProofAt(target, leaves[i]))
                && ProofAt(target, leaves[i]).root == Root(c.h, Leaves(c, transfers[..target]), height)
    {
      forall i | 0 <= i < |leaves|
        ensures CanRebuild(target, leaves[i]) ==> Leads(ProofAt(target, leaves[i]))
        ensures Leads(ProofAt(target, leaves[i])) && !CanRebuild(target, leaves[i]) ==>
                  Genuine(c, RebuildBreach(c.h, Leaves(c, transfers), height, floor, target, leaves[i]))
        ensures OneWindow(window) && target <= Pow2(height) ==>
                  && Leads(ProofAt(target, leaves[i]))
                  && ProofAt(target, leaves[i]).root == Root(c.h, Leaves(c, transfers[..target]), height)
      {
        ProofVerdict(target, leaves[i]);
        if OneWindow(window) && target <= Pow2(height) { AllowedProofLeads(window, target, leaves[i]); }
      }
    }

    ghost function RaisedBreach(target: nat, leaf: nat): Breach
      requires Valid() && 1 <= target < |transfers|
      reads this
    {
      if CanRebuild(target, leaf) then ZeroPreimage(transfers[target].to, transfers[target].value)
      else RebuildBreach(c.h, Leaves(c, transfers), height, floor, target, leaf)
    }

    /** The accepted case of `prove_many`: overlay, snapshot row, prefetched nodes, and one path per leaf. */
    method RebuildProofs(target: nat, leaves: seq<nat>) returns (proofs: seq<HistoricalProof>)
      requires Valid() && 1 <= target <= |transfers|
      ensures |proofs| == |leaves| && forall i :: 0 <= i < |leaves| ==> proofs[i] == ProofAt(target, leaves[i])
    {
      var overlay := LoadOverlay(target + 1, |snapshots|);
      var row := SnapshotAt(target);
      var paths := PrefetchPaths(overlay, leaves);
      var cache := map p | p in paths && p in nodes :: nodes[p];
      proofs := [];
      var i := 0;
      while i < |leaves|
        invariant 0 <= i <= |leaves| && |proofs| == i
        invariant forall a :: 0 <= a < i ==> proofs[a] == ProofAt(target, leaves[a])
      {
        assert forall j :: 0 <= j < height ==> CachedAt(overlay, cache, leaves[i], j);
        var siblings := CollectSiblings(overlay, cache, leaves[i], target);
        proofs := proofs + [HistoricalProof(target, leaves[i], row.value.root, row.value.chain, siblings)];
        i := i + 1;
      }
    }

    /** `prove_many`: for each leaf the stored root and chain of the target and rebuilt siblings. The siblings
        are those of the tree at the target, or at the pruning floor when the target lies below it. */
    method ProveMany(window: nat, target: nat, leaves: seq<nat>) returns (r: Result<seq<HistoricalProof>>)
      requires Valid()
      ensures leaves == [] ==> r == Ok([])
      ensures leaves != [] ==> RefusedAs(r, window, target, leaves, |transfers|)
      ensures leaves != [] && ProveError(window, target, leaves, |transfers|).None? ==>
                && r.Ok? && |r.value| == |leaves|
                && forall i :: 0 <= i < |leaves| ==> r.value[i] == ProofAt(target, leaves[i])
      ensures r.Ok? ==> forall i :: 0 <= i < |r.value| ==>
                && (CanRebuild(target, leaves[i]) ==> Leads(r.value[i]))
                && (Leads(r.value[i]) && !CanRebuild(target, leaves[i]) ==>
                      Genuine(c, RebuildBreach(c.h, Leaves(c, transfers), height, floor, target, leaves[i])))
      ensures r.Ok? && OneWindow(window) && target <= Pow2(height) ==> forall i :: 0 <= i < |r.value| ==>
                Leads(r.value[i]) && r.value[i].root == Root(c.h, Leaves(c, transfers[..target]), height)
    {
      if leaves == [] { return Ok([]); }
      var latest := |snapshots|;
      var error := ProveError(window, target, leaves, latest);
      if error.Some? {
        return Err(error.value);
      }
      var proofs := RebuildProofs(target, leaves);
      ProofVerdicts(window, target, leaves);
      return Ok(proofs);
    }
  }

  /** What the climb carries from level to level. */
  datatype Level = Level(existing: map<BitPath, Fr>, hash: Fr, planned: seq<Row>)

  /** The climb has reached level `k`: its hash is the new node there, its rows are the plan up to there,
      and the prefetched nodes above are unchanged. */
  ghost predicate Reached(
    h: Hash, height: nat, nodes: map<BitPath, Fr>, leaves: seq<Fr>, known: map<BitPath, Fr>, k: nat,
    existing: map<BitPath, Fr>, hash: Fr, planned: seq<Row>)
    requires leaves != [] && k <= height
  {
    forall j {:trigger LooksInside(ClimbPart, j)} :: LooksInside(ClimbPart, j) ==>
      && SameBelow(existing, known, height - k)
      && hash == Node(h, leaves, k, Shr(|leaves| - 1, k))
      && planned == Plan(h, height, nodes, leaves, k)
  }

  lemma ReachedFacts(
    h: Hash, height: nat, nodes: map<BitPath, Fr>, leaves: seq<Fr>, known: map<BitPath, Fr>, k: nat, l: Level)
    requires leaves != [] && k <= height && Reached(h, height, nodes, leaves, known, k, l.existing, l.hash, l.planned)
    ensures SameBelow(l.existing, known, height - k)
    ensures l.hash == Node(h, leaves, k, Shr(|leaves| - 1, k)) && l.planned == Plan(h, height, nodes, leaves, k)
  {
    assert LooksInside(ClimbPart, 0);
  }

  /** One level: the row recorded and the hash computed are those of the next level. */
  lemma LevelUp(
    h: Hash, height: nat, nodes: map<BitPath, Fr>, leaves: seq<Fr>, fetch: set<BitPath>, known: map<BitPath, Fr>,
    k: nat, current: BitPath, l: Level, l': Level, oldHash: Fr, siblingHash: Fr)
    requires leaves != [] && k < height && Fetched(fetch, height, |leaves| - 1)
    requires current == BitPath(height - k, Shr(|leaves| - 1, k)) && oldHash == Lookup(l.existing, h, height, current)
    requires known == (map p | p in fetch && p in nodes :: nodes[p])
    requires Reached(h, height, nodes, leaves, known, k, l.existing, l.hash, l.planned)
    requires l'.existing == if oldHash != l.hash then l.existing[current := l.hash] else l.existing
    requires l'.planned
          == if oldHash != l.hash then l.planned + [Row(|leaves|, current, oldHash, l.hash)] else l.planned
    requires siblingHash == Lookup(l'.existing, h, height, Sibling(current))
    requires l'.hash == if current.value % 2 == 0 then h(l.hash, siblingHash) else h(siblingHash, l.hash)
    requires var hash, sibling := Node(h, leaves, k, current.value), Lookup(nodes, h, height, Sibling(current));
             Node(h, leaves, k + 1, Shr(|leaves| - 1, k + 1))
             == if current.value % 2 == 0 then h(hash, sibling) else h(sibling, hash)
    ensures Reached(h, height, nodes, leaves, known, k + 1, l'.existing, l'.hash, l'.planned)
  {
    ReachedFacts(h, height, nodes, leaves, known, k, l);
    LevelIsStored(h, height, nodes, fetch, known, l.existing, |leaves| - 1, k);
    assert Sibling(current) != current;
  }

  /** Level `j` of the leaf's path and its sibling are among the fetched paths. */
  predicate FetchedAt(fetch: set<BitPath>, height: nat, n: nat, j: nat)
    requires j <= height
  {
    BitPath(height - j, Shr(n, j)) in fetch && Sibling(BitPath(height - j, Shr(n, j))) in fetch
  }

  /** All levels below the root are fetched, and of the root level only the path reached by popping. */
  ghost predicate Fetched(fetch: set<BitPath>, height: nat, n: nat) {
    && (forall j :: 0 <= j < height ==> FetchedAt(fetch, height, n, j))
    && BitPath(0, Shr(n, height)) in fetch
    && (forall p :: p in fetch && p.length == 0 ==> p == BitPath(0, Shr(n, height)))
  }

  /** The two maps agree on paths up to the given length. */
  ghost predicate SameBelow(a: map<BitPath, Fr>, b: map<BitPath, Fr>, length: int) {
    forall p: BitPath :: p.length <= length ==> (p in a <==> p in b) && (p in a ==> a[p] == b[p])
  }

  lemma LevelIsStored(
    h: Hash, height: nat, nodes: map<BitPath, Fr>, fetch: set<BitPath>, known: map<BitPath, Fr>,
    existing: map<BitPath, Fr>, n: nat, k: nat)
    requires known == (map q | q in fetch && q in nodes :: nodes[q]) && k < height && Fetched(fetch, height, n)
    requires SameBelow(existing, known, height - k)
    ensures var p := BitPath(height - k, Shr(n, k));
            && Lookup(existing, h, height, p) == OldAt(h, height, nodes, n, k)
            && Lookup(existing, h, height, Sibling(p)) == Lookup(nodes, h, height, Sibling(p))
  {
    assert FetchedAt(fetch, height, n, k);
  }

  lemma {:induction false} SiblingsSnoc(h: Hash, leaves: seq<Fr>, k: nat, v: nat, m: nat, last: Fr)
    requires last == Node(h, leaves, k + m, SiblingOf(Shr(v, m)))
    ensures Siblings(h, leaves, k, v, m + 1) == Siblings(h, leaves, k, v, m) + [last]
    decreases m
  {
    var first := Node(h, leaves, k, SiblingOf(v));
    if m == 0 {
      assert Siblings(h, leaves, k + 1, v / 2, 0) == [];
    } else {
      SiblingsSnoc(h, leaves, k + 1, v / 2, m - 1, last);
    }
  }

  ghost predicate Collected(h: Hash, leaves: seq<Fr>, leaf: nat, k: nat, siblings: seq<Fr>) {
    forall j {:trigger LooksInside(TablesPart, j)} ::
      LooksInside(TablesPart, j) ==> siblings == Siblings(h, leaves, 0, leaf, k)
  }

  lemma CollectedAll(h: Hash, leaves: seq<Fr>, leaf: nat, k: nat, siblings: seq<Fr>)
    requires Collected(h, leaves, leaf, k, siblings)
    ensures siblings == Siblings(h, leaves, 0, leaf, k)
  {
    assert LooksInside(TablesPart, 0);
  }

  lemma CollectedNext(h: Hash, leaves: seq<Fr>, leaf: nat, k: nat, siblings: seq<Fr>, hash: Fr)
    requires Collected(h, leaves, leaf, k, siblings) && hash == Node(h, leaves, k, SiblingOf(Shr(leaf, k)))
    ensures Collected(h, leaves, leaf, k + 1, siblings + [hash])
  {
    assert LooksInside(TablesPart, 0);
    SiblingsSnoc(h, leaves, 0, leaf, k, hash);
  }

  lemma ReadPast(
    c: Suite, height: nat, ts: seq<Transfer>, floor: nat, nodes: map<BitPath, Fr>, log: seq<Row>,
    snapshots: seq<Snapshot>,
    target: nat, p: BitPath)
    requires TablesOk(c, height, ts, floor, nodes, log, snapshots) && target <= |ts| && 1 <= p.length <= height
    ensures At(c.h, height, nodes, log, target, |ts|, p)
         == Node(c.h, Leaves(c, ts[..Max(target, floor)]), height - p.length, p.value)
  {
    ReadAny(c.h, Leaves(c, ts), height, nodes, log, floor, target, p);
    assert Leaves(c, ts)[..Max(target, floor)] == Leaves(c, ts[..Max(target, floor)]);
  }

  /** `new`: refuses height zero, computes the zero hashes and attaches to the tables. */
  method OpenTree(
    c: Suite, height: nat, nodes: map<BitPath, Fr>, log: seq<Row>, snapshots: seq<Snapshot>,
    ghost transfers: seq<Transfer>, ghost windows: seq<nat>)
    returns (tree: Tree?)
    requires |windows| == |transfers| && TablesOk(c, height, transfers, FloorAfter(windows), nodes, log, snapshots)
    ensures tree == null <==> height == 0
    ensures tree != null ==> fresh(tree) && tree.Valid() && tree.transfers == transfers && tree.windows == windows
                             && tree.c == c && tree.height == height
  {
    if height == 0 { return null; }
    var zeros := AggregationRoot.GenerateZeroHashes(c.h, height);
    tree := new Tree(c, height, zeros, nodes, log, snapshots, transfers, windows);
  }

  /** The first session finds empty tables, which stand for no transfers. */
  method NewTree(c: Suite, height: nat) returns (tree: Tree)
    requires height >= 1
    ensures fresh(tree) && tree.Valid() && tree.transfers == [] && tree.floor == 0
    ensures tree.c == c && tree.height == height
  {
    EmptyTables(c, height);
    tree := OpenTree(c, height, map[], [], [], [], []);
  }
}
