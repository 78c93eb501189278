/** Event synchronisation: chunked scans, the contiguous prefix and gap backfill. */
module EventSync {
  import opened Base
  import opened Crypto

  const U64_MAX: int := 0xffff_ffff_ffff_ffff

  function SaturatingAdd(a: nat, b: nat): nat { Min(a + b, U64_MAX) }
  function SaturatingSub(a: nat, b: nat): nat { if a < b then 0 else a - b }

  /** An indexed transfer event; its index is its position in the chain's log. */
  datatype Event = Event(transfer: Transfer, block: nat)

  type Table = map<nat, Event>

  /** Blocks never decrease along the log and start at the deployment. */
  predicate ValidLog(log: seq<Event>, deployed: nat) {
    && (forall i :: 0 <= i < |log| ==> deployed <= log[i].block <= U64_MAX)
    && (forall i, j :: 0 <= i < j < |log| ==> log[i].block <= log[j].block)
  }

  /** A truthful answer to a block range query. */
  function Query(log: seq<Event>, from: nat, to: nat): Table {
    map i | 0 <= i < |log| && from <= log[i].block <= to :: log[i]
  }

  /** The same for a range whose end may still lie before its start. */
  function QueryUpTo(log: seq<Event>, from: nat, to: int): Table {
    map i | 0 <= i < |log| && from <= log[i].block <= to :: log[i]
  }

  // ------------------------------------------------------------------ chunking alone

  /** End of the chunk that starts at `from`. */
  function ChunkEnd(from: nat, to: nat, span: nat): nat
    requires span > 0
  {
    Min(to, SaturatingAdd(from, span - 1))
  }

  /** Start of the next chunk. */
  function NextFrom(end: nat, overlap: nat): nat {
    var next := SaturatingAdd(end, 1);
    SaturatingSub(next, Min(overlap, next))
  }

  /** Start of chunk `n` of a scan, `None` when the scan ended before. */
  function FromAfter(from: nat, to: nat, span: nat, overlap: nat, n: nat): Option<nat>
    requires span > 0
  {
    if n == 0 then if from <= to then Some(from) else None
    else
      var f := FromAfter(from, to, span, overlap, n - 1);
      if f.None? || ChunkEnd(f.value, to, span) == to then None
      else
        var next := NextFrom(ChunkEnd(f.value, to, span), overlap);
        if next <= to then Some(next) else None
  }

  /** With an overlap of at least the span the chunk start never moves forward. */
  lemma {:induction false} StuckScan(from: nat, to: nat, span: nat, overlap: nat, n: nat)
    requires 0 < span <= overlap && from + span <= to <= U64_MAX
    ensures FromAfter(from, to, span, overlap, n).Some?
    ensures FromAfter(from, to, span, overlap, n).value <= from
  {
    if n == 0 {
    } else {
      StuckScan(from, to, span, overlap, n - 1);
    }
  }

  /** With a smaller overlap every chunk starts later than the one before. */
  lemma {:induction false} MovingScan(from: nat, to: nat, span: nat, overlap: nat, n: nat)
    requires overlap < span && to <= U64_MAX
    ensures FromAfter(from, to, span, overlap, n).Some? ==>
              from + n <= FromAfter(from, to, span, overlap, n).value <= to
  {
    if n == 0 {
    } else {
      MovingScan(from, to, span, overlap, n - 1);
    }
  }

  lemma OneChunk(from: nat, to: nat, span: nat, overlap: nat, n: nat)
    requires span > 0 && to <= U64_MAX && to < from + span && n == 1
    ensures FromAfter(from, to, span, overlap, n).None?
  {
    assert FromAfter(from, to, span, overlap, n - 1) == if from <= to then Some(from) else None;
  }

  /** The scan ends exactly when the overlap is smaller than the span or one chunk covers the range;
      the configuration does not check this. */
  lemma ScanEndsIff(from: nat, to: nat, span: nat, overlap: nat)
    requires span > 0 && to <= U64_MAX
    ensures (exists n: nat :: FromAfter(from, to, span, overlap, n).None?) <==> overlap < span || to < from + span
  {
    if overlap < span {
      MovingScan(from, to, span, overlap, to + 1);
      assert FromAfter(from, to, span, overlap, to + 1).None?;
    } else if to < from + span {
      var n: nat :| n == 1;
      OneChunk(from, to, span, overlap, n);
    } else {
      forall n: nat ensures FromAfter(from, to, span, overlap, n).Some? { StuckScan(from, to, span, overlap, n); }
    }
  }

  /** With an overlap of at most the span no chunk starts below the range. */
  lemma {:induction false} ChunksStayInRange(from: nat, to: nat, span: nat, overlap: nat, n: nat)
    requires overlap <= span && span > 0 && to <= U64_MAX
    ensures FromAfter(from, to, span, overlap, n).Some? ==> FromAfter(from, to, span, overlap, n).value >= from
  {
    if n == 0 {
    } else {
      ChunksStayInRange(from, to, span, overlap, n - 1);
    }
  }

  lemma {:induction false} NothingAfterOneChunk(from: nat, to: nat, span: nat, overlap: nat, n: nat)
    requires span > 0 && to <= U64_MAX && to < from + span && n >= 1
    ensures FromAfter(from, to, span, overlap, n).None?
  {
    if n == 1 {
      OneChunk(from, to, span, overlap, n);
    } else {
      NothingAfterOneChunk(from, to, span, overlap, n - 1);
    }
  }

  /** A scan starts no chunk below the range it was asked for exactly when the overlap is at most the span, one chunk
      covers the range, or the range starts at block zero; the configuration does not check this either. */
  lemma ScanStaysInRangeIff(from: nat, to: nat, span: nat, overlap: nat)
    requires span > 0 && to <= U64_MAX
    ensures (forall n: nat :: FromAfter(from, to, span, overlap, n).Some? ==>
               FromAfter(from, to, span, overlap, n).value >= from)
      <==> overlap <= span || to < from + span || from == 0
  {
    if overlap <= span {
      forall n: nat | FromAfter(from, to, span, overlap, n).Some?
        ensures FromAfter(from, to, span, overlap, n).value >= from
      {
        ChunksStayInRange(from, to, span, overlap, n);
      }
    } else if to < from + span {
      forall n: nat | n >= 1 ensures FromAfter(from, to, span, overlap, n).None? {
        NothingAfterOneChunk(from, to, span, overlap, n);
      }
    } else {
      SecondChunk(from, to, span, overlap, 1);
    }
  }

  lemma SecondChunk(from: nat, to: nat, span: nat, overlap: nat, n: nat)
    requires 0 < span < overlap && from + span <= to <= U64_MAX && n == 1
    ensures FromAfter(from, to, span, overlap, n) == Some(SaturatingSub(from + span, overlap))
  {
    assert FromAfter(from, to, span, overlap, n - 1) == Some(from);
  }

  // ---------------------------------------------------------------------- the indexer

  datatype GapAnchor = GapAnchor(fromBlock: nat, toBlock: nat)

  /** The table holds true events only. */
  predicate TrueEvents(log: seq<Event>, table: Table) {
    forall i :: i in table ==> i < |log| && table[i] == log[i]
  }

  lemma QueryIsTrue(log: seq<Event>, table: Table, from: nat, to: nat)
    requires TrueEvents(log, table)
    ensures TrueEvents(log, table + Query(log, from, to))
  {
  }

  /** Scanning an adjacent or overlapping range extends what was scanned. */
  lemma QueryExtends(log: seq<Event>, table: Table, start: nat, done: int, from: nat, to: nat)
    requires start <= from <= done + 1 && done <= to
    ensures table + QueryUpTo(log, start, done) + Query(log, from, to) == table + Query(log, start, to)
  {
  }

  class Indexer {
    const log: seq<Event>
    const deployed: nat
    const span: nat
    const overlap: nat
    var table: Table
    var contiguous: int
    var contiguousBlock: Option<nat>
    var lastSynced: nat
    var lastSeenIndex: Option<nat>

    /** All indices up to `contiguous` are present, and its block is remembered. */
    ghost predicate Valid()
      reads this
    {
      && ValidLog(log, deployed) && span > 0 && deployed <= U64_MAX
      && TrueEvents(log, table)
      && -1 <= contiguous < |log|
      && (forall i :: 0 <= i <= contiguous ==> i in table)
      && contiguousBlock == (if contiguous < 0 then None else Some(log[contiguous].block))
      && lastSynced <= U64_MAX
    }

    constructor (log: seq<Event>, deployed: nat, span: nat, overlap: nat)
      requires ValidLog(log, deployed) && span > 0 && deployed <= U64_MAX
      ensures Valid() && table == map[] && contiguous == -1
      ensures this.log == log && this.deployed == deployed && this.span == span && this.overlap == overlap
    {
      this.log, this.deployed, this.span, this.overlap := log, deployed, span, overlap;
      table, contiguous, contiguousBlock, lastSynced, lastSeenIndex := map[], -1, None, deployed, None;
    }

    /** `scan_chunked`: inserts exactly the events of the blocks in the range. Where its loop would never end, as
        `ScanEndsIff` says, the method reports so after the first chunk instead of looping; the chunks of such a scan
        that start below the range, as `ScanStaysInRangeIff` says, are then not queried. */
    method ScanChunked(fromBlock: nat, toBlock: nat) returns (ends: bool)
      requires Valid() && toBlock <= U64_MAX
      modifies this`table
      ensures Valid() && old(table).Keys <= table.Keys
      ensures ends <==> overlap < span || toBlock < fromBlock + span
      ensures ends ==> table == old(table) + Query(log, fromBlock, toBlock)
    {
      ends := overlap < span || toBlock < fromBlock + span;
      if fromBlock > toBlock {
        assert Query(log, fromBlock, toBlock) == map[];
        return;
      }
      var from := fromBlock;
      ghost var done: int := fromBlock - 1;
      assert table == table + QueryUpTo(log, fromBlock, done);
      while from <= toBlock
        invariant fromBlock <= from <= done + 1 && done < toBlock
        invariant ends || done == fromBlock - 1
        invariant overlap < span || done == fromBlock - 1
        invariant done >= fromBlock ==> from == done + 1 - Min(overlap, done + 1)
        invariant Valid() && table == old(table) + QueryUpTo(log, fromBlock, done)
        decreases toBlock - from
      {
        var to := ChunkEnd(from, toBlock, span);
        QueryIsTrue(log, table, from, to);
        QueryExtends(log, old(table), fromBlock, done, from, to);
        table := table + Query(log, from, to);
        if to == toBlock || !ends { break; }
        done := to;
        from := NextFrom(to, overlap);
      }
    }

    /** `advance_contiguous_index`: moves to the end of the gap-free prefix of the table. */
    method AdvanceContiguous()
      requires Valid()
      modifies this`contiguous, this`contiguousBlock
      ensures Valid() && contiguous >= old(contiguous)
      ensures contiguous + 1 !in table
    {
      while contiguous + 1 in table
        invariant Valid() && contiguous >= old(contiguous)
        decreases |log| - contiguous
      {
        contiguousBlock := Some(table[contiguous + 1].block);
        contiguous := contiguous + 1;
      }
    }

    /** The smallest stored index at or above `start`. */
    method NextKnown(start: nat) returns (r: Option<nat>)
      ensures r.Some? ==> r.value >= start && r.value in table
      ensures forall i :: i in table && i >= start ==> r.Some? && r.value <= i
    {
      var rest := set i | i in table && i >= start;
      r := None;
      while rest != {}
        invariant forall i :: i in rest ==> i in table && i >= start
        invariant r.Some? ==> r.value >= start && r.value in table
        invariant forall i :: i in table && i >= start ==> i in rest || (r.Some? && r.value <= i)
        decreases rest
      {
        var i :| i in rest;
        if r.None? || i < r.value { r := Some(i); }
        rest := rest - {i};
      }
    }

    /** `find_gap_anchor`: a block range that holds the first missing event, if that lies at or below the latest
        block; it reaches up to the nearest stored event. Otherwise why there is none. */
    method FindGapAnchor(target: nat, latestBlock: nat) returns (r: Option<GapAnchor>)
      requires Valid()
      ensures r.None? ==>
                || contiguous + 1 > target
                || contiguous + 1 in table
                || (contiguousBlock.Some? && contiguousBlock.value > latestBlock)
                || deployed > latestBlock
      ensures r.Some? ==>
                && r.value.fromBlock == Max(if contiguous < 0 then deployed else log[contiguous].block, deployed)
                && ReachesNext(r.value.toBlock, latestBlock) && (latestBlock <= U64_MAX ==> r.value.toBlock <= U64_MAX)
      ensures r.Some? && contiguous + 1 < |log| && log[contiguous + 1].block <= latestBlock ==>
                r.value.fromBlock <= log[contiguous + 1].block <= r.value.toBlock
    {
      var gapStart := contiguous + 1;
      if gapStart > target { return None; }
      var next := NextKnown(gapStart);
      if next.Some? && next.value <= gapStart { return None; }
      var toBlock := if next.Some? then table[next.value].block else latestBlock;
      var fromBlock := Max(if contiguousBlock.Some? then contiguousBlock.value else deployed, deployed);
      if fromBlock > toBlock { return None; }
      assert next.Some? ==> IsNextKnown(next.value);
      return Some(GapAnchor(fromBlock, toBlock));
    }

    /** The nearest stored event past the contiguous prefix. */
    ghost predicate IsNextKnown(k: nat)
      reads this
    {
      k in table && k > contiguous && forall i :: i in table && i > contiguous ==> k <= i
    }

    ghost predicate ReachesNext(toBlock: nat, latestBlock: nat)
      reads this
    {
      if exists k :: k in table && k > contiguous
      then exists k :: IsNextKnown(k) && toBlock == table[k].block
      else toBlock == latestBlock
    }

    /** All events up to a block lie in the contiguous prefix. */
    ghost predicate Covers(latestBlock: nat)
      reads this
    {
      forall i :: 0 <= i < |log| && log[i].block <= latestBlock ==> i <= contiguous
    }

    /** `backfill_missing_indices`: each round closes the first gap, so the loop ends unless a scan does not, and it
        ends covered. */
    method BackfillMissing(target: int, latestBlock: nat) returns (ends: bool)
      requires Valid() && contiguous + 1 !in table && latestBlock <= U64_MAX
      requires forall i :: 0 <= i < |log| && log[i].block <= latestBlock ==> i <= target
      modifies this`table, this`contiguous, this`contiguousBlock
      ensures Valid() && contiguous >= old(contiguous) && old(table).Keys <= table.Keys
      ensures overlap < span ==> ends
      ensures ends ==> Covers(latestBlock)
    {
      ends := true;
      if target < 0 { return; }
      while contiguous < target
        invariant Valid() && contiguous + 1 !in table && contiguous >= old(contiguous)
        invariant old(table).Keys <= table.Keys && ends
        decreases |log| - contiguous
      {
        var anchor := FindGapAnchor(target, latestBlock);
        if anchor.None? {
          return;
        }
        var moved;
        ends, moved := CloseGap(anchor.value, latestBlock);
        if !ends || !moved { return; }
      }
    }

    /** One round: scan the range, advance, and see whether the prefix grew. */
    method CloseGap(anchor: GapAnchor, latestBlock: nat) returns (ends: bool, moved: bool)
      requires Valid() && contiguous + 1 !in table && anchor.toBlock <= U64_MAX
      requires contiguous + 1 < |log| && log[contiguous + 1].block <= latestBlock ==>
                 anchor.fromBlock <= log[contiguous + 1].block <= anchor.toBlock
      modifies this`table, this`contiguous, this`contiguousBlock
      ensures Valid() && contiguous >= old(contiguous) && old(table).Keys <= table.Keys
      ensures overlap < span ==> ends
      ensures ends ==> contiguous + 1 !in table && (moved <==> contiguous > old(contiguous))
      ensures ends && !moved ==> Covers(latestBlock)
    {
      var prior := contiguous;
      ghost var known := table;
      moved := false;
      ends := ScanChunked(anchor.fromBlock, anchor.toBlock);
      if ends {
        AdvanceContiguous();
        moved := contiguous > prior;
        if !moved { NoProgressCovers(anchor, latestBlock, known); }
      }
    }

    /** A scan that should have found the first missing event and did not: it lies above the latest block. */
    lemma NoProgressCovers(anchor: GapAnchor, latestBlock: nat, known: Table)
      requires Valid() && contiguous + 1 !in table
      requires contiguous + 1 < |log| && log[contiguous + 1].block <= latestBlock ==>
                 anchor.fromBlock <= log[contiguous + 1].block <= anchor.toBlock
      requires table == known + Query(log, anchor.fromBlock, anchor.toBlock)
      ensures Covers(latestBlock)
    {
      var g := contiguous + 1;
      if g < |log| { assert g !in Query(log, anchor.fromBlock, anchor.toBlock); }
    }

    /**
     `sync`. With a truthful node whose token index covers the events up to its latest block, one call from any table
     of true events that returns ends with every event up to the latest block in the contiguous prefix; and it
     returns unless some scan never ends, which an overlap below the span rules out.
     */
    method Sync(latestBlock: nat, nextIndex: nat) returns (ends: bool)
      requires Valid() && latestBlock <= U64_MAX && nextIndex <= |log|
      requires forall i :: 0 <= i < |log| && log[i].block <= latestBlock ==> i < nextIndex
      modifies this
      ensures Valid() && contiguous >= old(contiguous) && old(table).Keys <= table.Keys
      ensures overlap < span ==> ends
      ensures ends ==> Covers(latestBlock) && lastSynced == latestBlock && lastSeenIndex == Some(nextIndex)
    {
      if lastSynced < deployed { lastSynced := deployed; }
      var forwardStart := Max(SaturatingSub(lastSynced, overlap), deployed);
      ends := true;
      if forwardStart <= latestBlock {
        ends := ScanChunked(forwardStart, latestBlock);
        if !ends { return; }
      }
      lastSynced, lastSeenIndex := latestBlock, Some(nextIndex);
      AdvanceContiguous();
      ends := BackfillMissing(nextIndex - 1, latestBlock);
    }
  }
}
