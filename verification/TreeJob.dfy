/** Tree ingestion: appends the contiguous events to the tree, while event sync goes on beside it. */
module TreeJob {
  import Base
  import opened Crypto
  import EventSync
  import DbTree

  type Event = EventSync.Event

  function EventTransfers(events: seq<Event>): (ts: seq<Transfer>)
    ensures |ts| == |events|
    ensures forall i :: 0 <= i < |events| ==> ts[i] == events[i].transfer
  {
    seq(|events|, i requires 0 <= i < |events| => events[i].transfer)
  }

  /** The tree holds exactly the transfers of the first events of the chain, and never runs ahead of the
      contiguous prefix. */
  ghost predicate Prefix(ix: EventSync.Indexer, tree: DbTree.Tree)
    reads ix, tree
  {
    HoldsLog(ix, tree) && |tree.transfers| <= ix.contiguous + 1
  }

  /** Event sync at work at any moment: some block range is inserted, and the contiguous prefix may advance. */
  method OtherSync(ix: EventSync.Indexer)
    requires ix.Valid()
    modifies ix`table, ix`contiguous, ix`contiguousBlock
    ensures ix.Valid() && ix.contiguous >= old(ix.contiguous)
    ensures forall i :: i in old(ix.table) ==> i in ix.table
  {
    var from: nat, to: nat := *, *;
    if to <= EventSync.U64_MAX { var _ := ix.ScanChunked(from, to); }
    if * { ix.AdvanceContiguous(); }
  }

  ghost predicate AllPresent(table: EventSync.Table, start: nat, upper: nat) {
    forall i :: start <= i <= upper ==> i in table
  }

  /** The first `limit` stored rows with indices from `i` to `upper`. */
  function Stored(table: EventSync.Table, i: nat, upper: nat, limit: nat): seq<(nat, Event)>
    decreases upper + 1 - i
  {
    if i > upper || limit == 0 then []
    else if i in table then [(i, table[i])] + Stored(table, i + 1, upper, limit - 1)
    else Stored(table, i + 1, upper, limit)
  }

  /** They are true rows of the range in ascending order, and all of them unless the limit cuts them off. */
  lemma {:induction false} StoredRows(table: EventSync.Table, i: nat, upper: nat, limit: nat)
    ensures var rows := Stored(table, i, upper, limit);
            && |rows| <= limit
            && (forall k :: 0 <= k < |rows| ==>
                  i <= rows[k].0 <= upper && rows[k].0 in table && rows[k].1 == table[rows[k].0])
            && (forall j, k :: 0 <= j < k < |rows| ==> rows[j].0 < rows[k].0)
            && (|rows| < limit ==> forall j :: i <= j <= upper && j in table ==> (j, table[j]) in rows)
    decreases upper + 1 - i
  {
    if i > upper || limit == 0 {
    } else {
      StoredRows(table, i + 1, upper, if i in table then limit - 1 else limit);
    }
  }

  lemma {:induction false} StoredAll(table: EventSync.Table, i: nat, upper: nat, limit: nat)
    requires i <= upper + 1 && AllPresent(table, i, upper)
    ensures var rows := Stored(table, i, upper, limit);
            |rows| == Base.Min(limit, upper + 1 - i) && forall k :: 0 <= k < |rows| ==> rows[k].0 == i + k
    decreases upper + 1 - i
  {
    if i > upper || limit == 0 {
    } else {
      StoredAll(table, i + 1, upper, limit - 1);
    }
  }

  /** Event rows in `[start, upper]`, ascending, at most `limit` of them. */
  method FetchRows(table: EventSync.Table, start: nat, upper: nat, limit: nat) returns (rows: seq<(nat, Event)>)
    requires limit > 0
    ensures rows == Stored(table, start, upper, limit) && |rows| <= limit
    ensures forall i :: 0 <= i < |rows| ==>
              start <= rows[i].0 <= upper && rows[i].0 in table && rows[i].1 == table[rows[i].0]
    ensures start <= upper && AllPresent(table, start, upper) ==>
              |rows| == Base.Min(limit, upper + 1 - start) && forall i :: 0 <= i < |rows| ==> rows[i].0 == start + i
  {
    rows := [];
    var i := start;
    while i <= upper && |rows| < limit
      invariant start <= i && |rows| <= limit
      invariant rows + Stored(table, i, upper, limit - |rows|) == Stored(table, start, upper, limit)
      decreases upper + 1 - i
    {
      if i in table { rows := rows + [(i, table[i])]; }
      i := i + 1;
    }
    StoredRows(table, start, upper, limit);
    if start <= upper && AllPresent(table, start, upper) { StoredAll(table, start, upper, limit); }
  }

  datatype IngestEnd = Done | NothingFetched | OutOfOrder | AppendFailed

  /** The tree holds the transfers of the first events of the chain. */
  ghost predicate HoldsLog(ix: EventSync.Indexer, tree: DbTree.Tree)
    reads ix, tree
  {
    && ix.Valid() && tree.Valid()
    && |tree.transfers| <= |ix.log|
    && tree.transfers == EventTransfers(ix.log[..|tree.transfers|])
  }

  /** One fetched batch: rows already in the tree are skipped, a row out of order ends the run. */
  method IngestRows(
    ix: EventSync.Indexer, tree: DbTree.Tree, window: nat, target: nat, rows: seq<(nat, Event)>, ghost whole: bool)
    returns (end: IngestEnd)
    requires HoldsLog(ix, tree) && window > 0 && rows != [] && RowsTrue(ix.log, rows, target)
    requires |tree.transfers| < target
    requires whole ==> forall k :: 0 <= k < |rows| ==> rows[k].0 == |tree.transfers| + k
    modifies ix`table, ix`contiguous, ix`contiguousBlock, tree
    ensures HoldsLog(ix, tree) && ix.contiguous >= old(ix.contiguous)
    ensures |old(tree.transfers)| <= |tree.transfers| <= target
    ensures forall i :: i in old(ix.table) ==> i in ix.table
    ensures end == Done || end == OutOfOrder || end == AppendFailed
    ensures end == AppendFailed ==> |tree.transfers| >= DbTree.I64_MAX
    ensures end == Done && rows[0].0 >= |old(tree.transfers)| ==> |tree.transfers| > |old(tree.transfers)|
    ensures whole ==> end != OutOfOrder
    ensures FloorStep(old(tree.floor), |old(tree.transfers)|, tree.floor, |tree.transfers|, window)
  {
    end := Done;
    ghost var start := |tree.transfers|;
    var k, processed := 0, |tree.snapshots|;
    while k < |rows|
      invariant 0 <= k <= |rows| && HoldsLog(ix, tree) && start <= processed == |tree.transfers| <= target
      invariant ix.contiguous >= old(ix.contiguous) && forall i :: i in old(ix.table) ==> i in ix.table
      invariant whole ==> processed == start + k
      invariant k > 0 && rows[0].0 >= start ==> processed > start
      invariant FloorStep(old(tree.floor), start, tree.floor, processed, window)
    {
      OtherSync(ix);
      if rows[k].0 > processed { return OutOfOrder; }
      if rows[k].0 == processed {
        var ok := IngestEvent(ix, tree, window, rows[k].1);
        if !ok { return AppendFailed; }
        processed := processed + 1;
      }
      k := k + 1;
    }
  }

  /** Appends the next event of the chain. */
  method IngestEvent(ix: EventSync.Indexer, tree: DbTree.Tree, window: nat, event: Event) returns (ok: bool)
    requires HoldsLog(ix, tree) && window > 0 && |tree.transfers| < |ix.log| && event == ix.log[|tree.transfers|]
    modifies tree
    ensures HoldsLog(ix, tree)
    ensures |tree.transfers| == |old(tree.transfers)| + if ok then 1 else 0
    ensures !ok ==> |tree.transfers| >= DbTree.I64_MAX
    ensures FloorStep(old(tree.floor), |old(tree.transfers)|, tree.floor, |tree.transfers|, window)
  {
    var r := tree.AppendLeaf(window, event.transfer);
    ok := r.Ok?;
  }

  /** `ingest_events`, with event sync running between any two of its steps. It ends, every append is the next
      event of the chain, and within the contiguous prefix it reaches the target unless indices run out. */
  method IngestEvents(ix: EventSync.Indexer, tree: DbTree.Tree, window: nat, target: nat, batchSize: nat)
    returns (end: IngestEnd)
    requires HoldsLog(ix, tree) && window > 0 && batchSize > 0
    modifies ix`table, ix`contiguous, ix`contiguousBlock, tree
    ensures HoldsLog(ix, tree) && ix.contiguous >= old(ix.contiguous)
    ensures |old(tree.transfers)| <= |tree.transfers| <= Base.Max(target, |old(tree.transfers)|)
    ensures end == Done ==> |tree.transfers| >= target
    ensures end == AppendFailed ==> |tree.transfers| >= DbTree.I64_MAX
    ensures target <= old(ix.contiguous) + 1 ==> end == Done || end == AppendFailed
    ensures FloorStep(old(tree.floor), |old(tree.transfers)|, tree.floor, |tree.transfers|, window)
  {
    end := Done;
    var processed := |tree.snapshots|;
    while processed < target
      invariant HoldsLog(ix, tree) && processed == |tree.transfers| && ix.contiguous >= old(ix.contiguous)
      invariant |old(tree.transfers)| <= processed <= Base.Max(target, |old(tree.transfers)|)
      invariant end == Done
      invariant FloorStep(old(tree.floor), |old(tree.transfers)|, tree.floor, |tree.transfers|, window)
      decreases target - processed
    {
      var rows := FetchRows(ix.table, processed, target - 1, Base.Min(target - processed, batchSize));
      if rows == [] { return NothingFetched; }
      end := IngestRows(ix, tree, window, target, rows, AllPresent(ix.table, processed, target - 1));
      if end != Done { return; }
      processed := |tree.snapshots|;
    }
  }

  /** Fetched rows are true events below the target. */
  predicate RowsTrue(log: seq<Event>, rows: seq<(nat, Event)>, target: nat) {
    forall i :: 0 <= i < |rows| ==> rows[i].0 < target && rows[i].0 < |log| && rows[i].1 == log[rows[i].0]
  }

  /** Appending with one window keeps the floor where that window puts it. */
  predicate FloorStep(floor: nat, n: nat, floor': nat, n': nat, window: nat) {
    FloorFits(floor, n, window) ==> FloorFits(floor', n', window)
  }

  /** Every index within the window can still be rebuilt. */
  predicate FloorFits(floor: nat, n: nat, window: nat) {
    floor <= if n <= window then 0 else n - window
  }

  /** `ingest_token`: catches up with the contiguous prefix as it was when the job looked. */
  method IngestToken(ix: EventSync.Indexer, tree: DbTree.Tree, window: nat, batchSize: nat)
    requires Prefix(ix, tree) && window > 0 && batchSize > 0
    modifies ix`table, ix`contiguous, ix`contiguousBlock, tree
    ensures Prefix(ix, tree) && |tree.transfers| >= |old(tree.transfers)|
    ensures |tree.transfers| == old(ix.contiguous) + 1 || |tree.transfers| >= DbTree.I64_MAX
    ensures FloorStep(old(tree.floor), |old(tree.transfers)|, tree.floor, |tree.transfers|, window)
  {
    var processed := |tree.snapshots|;
    var target := if ix.contiguous < 0 then 0 else ix.contiguous + 1;
    if processed == target { return; }
    var _ := IngestEvents(ix, tree, window, target, batchSize);
  }

  /** Event sync and ingestion seen from another job: any of their steps, up to any point they may have reached. */
  method OtherIngest(ix: EventSync.Indexer, tree: DbTree.Tree, window: nat)
    requires Prefix(ix, tree) && window > 0
    modifies ix`table, ix`contiguous, ix`contiguousBlock, tree
    ensures Prefix(ix, tree) && |tree.transfers| >= |old(tree.transfers)|
    ensures FloorStep(old(tree.floor), |old(tree.transfers)|, tree.floor, |tree.transfers|, window)
  {
    if * { OtherSync(ix); }
    var target: nat, batchSize: nat := *, *;
    if batchSize > 0 && target <= ix.contiguous + 1 {
      var _ := IngestEvents(ix, tree, window, target, batchSize);
    }
  }
}
