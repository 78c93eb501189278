/**
 The root prover: compiles one folded proof per index, reserves a hash chain, submits, and keeps its state in
 separate database writes. The job may stop before any write, and all other jobs and the chain run beside it,
 also between any two writes.
 */
module RootProver {
  import opened Base
  import opened Field
  import opened Crypto
  import opened Merkle
  import opened RootCircuit
  import opened ProverTables
  import opened ProverChain
  import Contracts
  import Invariant
  import EventSync
  import DbTree
  import TreeTables
  import TreeJob

  datatype Outcome =
    | Finished
    | Submitted(index: nat)
    | Stopped
    | HistoryExhausted
    | MissingProof
    | RetentionExceeded
    | StepRefused
    | SubmitReverted

  /** What a cycle meets: which branches are due, what the node answers, and after how many writes the job stops. */
  datatype Plan = Plan(doCompile: bool, doSubmit: bool, submits: bool, tokenIndex: nat, answer: nat, writes: nat)

  /** What a cycle saw and did; `state` and `cut` are those it started with. */
  datatype Cycle = Cycle(
    end: Outcome, answer: Option<nat>, receipt: Option<nat>, tokenIndex: nat, treeIndex: nat,
    state: Option<ProverState>, cut: bool)

  class Job {
    const ix: EventSync.Indexer
    const tree: DbTree.Tree
    const env: Verifier
    const treeWindow: nat
    const rootWindow: nat
    var state: Option<ProverState>
    var records: map<nat, Record>

    /** How many more writes the process makes before it stops. */
    var writesLeft: nat

    /** Kept by the model, no column, and reported by every cycle: an alignment stopped between its delete and its
        write, and the state has not been written since. */
    var cut: bool

    /** The greatest index the deployment was told, by an answer or a receipt, and whether no answer fell below it. */
    ghost var told: nat
    ghost var monotone: bool

    constructor (ix: EventSync.Indexer, tree: DbTree.Tree, env: Verifier, treeWindow: nat, rootWindow: nat)
      requires env.Valid() && env.log == TreeJob.EventTransfers(ix.log)
      requires forall i :: 0 <= i < |env.log| ==> InRange(env.log[i])
      requires TreeJob.Prefix(ix, tree) && tree.transfers == [] && treeWindow > 0
      requires tree.c == env.net.c && tree.height == env.net.height
      ensures Valid() && state == None && records == map[] && told == 0 && monotone
      ensures this.ix == ix && this.tree == tree && this.env == env
      ensures this.treeWindow == treeWindow && this.rootWindow == rootWindow
    {
      this.ix, this.tree, this.env := ix, tree, env;
      this.treeWindow, this.rootWindow := treeWindow, rootWindow;
      state, records, writesLeft, cut, told, monotone := None, map[], 0, false, 0, true;
    }

    /** What the surrounding jobs and the chain keep. */
    ghost predicate World()
      reads ix, tree, env
    {
      && Contracts.ValidNet(env.net) && |tree.snapshots| == |tree.transfers| <= |env.log| == |ix.log| && treeWindow > 0
      && (forall k {:trigger LooksInside(WorldPart, k)} :: LooksInside(WorldPart, k) ==> WorldParts())
    }

    ghost predicate WorldParts()
      reads ix, tree, env
    {
      && env.Valid() && TreeJob.Prefix(ix, tree)
      && tree.c == env.net.c && tree.height == env.net.height
      && treeWindow > 0 && TreeJob.FloorFits(tree.floor, |tree.transfers|, treeWindow)
      && env.log == TreeJob.EventTransfers(ix.log)
      && (forall i :: 0 <= i < |env.log| ==> InRange(env.log[i]))
    }

    ghost predicate StateOk(s: ProverState)
      reads this, env
    {
      && Books(env.net, env.log, env.ch, records, s, cut)
      && (monotone ==> s.base <= told && (cut ==> s.base < told))
    }

    ghost predicate Valid()
      reads this, ix, tree, env
    {
      World() && (state.Some? ==> StateOk(state.value))
    }

    /** The two tables as they stand. */
    ghost function Stored(): Tables
      reads this
    {
      Tables(state, records)
    }

    /** Event sync, tree ingestion up to any point it may have reached, and other users of the contracts. */
    method OtherJobs()
      requires Valid()
      modifies ix`table, ix`contiguous, ix`contiguousBlock, tree, env`ch
      ensures Valid() && Follows(old(env.ch), env.ch)
      ensures |tree.transfers| >= |old(tree.transfers)|
    {
      assert LooksInside(WorldPart, 0);
      TreeJob.OtherIngest(ix, tree, treeWindow);
      env.Others();
      if state.Some? { BooksLater(env.net, env.log, old(env.ch), env.ch, records, state.value, cut); }
    }

    /** The next write is made, unless the process stops here. Others run before it. */
    method NextWrite() returns (ok: bool)
      requires Valid()
      modifies this`writesLeft, ix`table, ix`contiguous, ix`contiguousBlock, tree, env`ch
      ensures Valid() && Follows(old(env.ch), env.ch) && |tree.transfers| >= |old(tree.transfers)|
      ensures ok <==> old(writesLeft) > 0
      ensures writesLeft == if ok then old(writesLeft) - 1 else 0
    {
      OtherJobs();
      ok := writesLeft > 0;
      if ok { writesLeft := writesLeft - 1; }
    }

    /** A fresh state relies on nothing but its base being proved. */
    lemma FreshBooks(base: nat, records: map<nat, Record>, cut: bool)
      requires World() && base in env.ch.proved
      ensures Books(env.net, env.log, env.ch, records, Fresh(base), cut)
    {
      assert LooksInside(WorldPart, 0);
      Invariant.ProvedRoot(env.net, env.ch, base);
    }

    /** `ensure_state_alignment`: the tables after however many writes were made; after all of them the state works
        from `base`, and with every proof it needs unless it was already cut. */
    method EnsureAlignment(base: nat) returns (s: Option<ProverState>)
      requires Valid() && base in env.ch.proved && base <= told
      requires !(state.Some? && state.value.base == base) ==> (monotone ==> base == told)
      modifies this`state, this`records, this`writesLeft, this`cut
      modifies ix`table, ix`contiguous, ix`contiguousBlock, tree, env`ch
      ensures Valid() && Follows(old(env.ch), env.ch) && |tree.transfers| >= |old(tree.transfers)|
      ensures Stored() == AlignWrites(old(Stored()), base, old(writesLeft))
      ensures var aligned := old(state).Some? && old(state).value.base == base;
              && (s.Some? <==> aligned || old(writesLeft) >= 2)
              && (aligned ==> writesLeft == old(writesLeft) && cut == old(cut))
              && (!aligned ==> cut == (if old(writesLeft) == 0 then old(cut) else old(writesLeft) == 1))
              && (!aligned && s.Some? ==> old(writesLeft) == writesLeft + 2)
      ensures s.Some? ==> state == s && s.value.base == base
    {
      if state.Some? && state.value.base == base { return state; }
      s := None;
      var ok := DeleteProofs(base);
      if ok {
        ok := WriteFresh(base);
        if ok { s := state; }
      }
    }

    /** The delete of an alignment, which leaves the state cut. */
    method DeleteProofs(ghost base: nat) returns (ok: bool)
      requires Valid() && base <= told && (monotone ==> base == told)
      requires state.Some? ==> state.value.base != base
      modifies this`records, this`writesLeft, this`cut, ix`table, ix`contiguous, ix`contiguousBlock, tree, env`ch
      ensures Valid() && Follows(old(env.ch), env.ch) && |tree.transfers| >= |old(tree.transfers)|
      ensures ok <==> old(writesLeft) > 0
      ensures writesLeft == if ok then old(writesLeft) - 1 else 0
      ensures records == (if ok then map[] else old(records)) && cut == (ok || old(cut))
    {
      ok := NextWrite();
      if ok { records, cut := map[], true; }
    }

    /** The write of a fresh state. */
    method WriteFresh(base: nat) returns (ok: bool)
      requires Valid() && base in env.ch.proved && base <= told
      modifies this`state, this`writesLeft, this`cut, ix`table, ix`contiguous, ix`contiguousBlock, tree, env`ch
      ensures Valid() && Follows(old(env.ch), env.ch) && |tree.transfers| >= |old(tree.transfers)|
      ensures ok <==> old(writesLeft) > 0
      ensures writesLeft == if ok then old(writesLeft) - 1 else 0
      ensures state == (if ok then Some(Fresh(base)) else old(state)) && cut == (!ok && old(cut))
    {
      ok := NextWrite();
      if ok {
        FreshBooks(base, records, false);
        state, cut := Some(Fresh(base)), false;
      }
    }

    /** `load_state_vector`: the state of the tree at an index, the empty tree's when there is no snapshot. */
    method LoadStateVector(index: nat) returns (z: RootState)
      requires World() && index < P
      ensures z.index == index
      ensures index == 0 || index > |tree.transfers| ==> z.chain == 0 && z.root == ZeroHash(tree.c.h, tree.height)
      ensures index <= |tree.transfers| && index <= Pow2(tree.height) ==>
                z == StateOf(tree.c, tree.height, tree.transfers[..index])
    {
      assert LooksInside(WorldPart, 0);
      var row := tree.SnapshotAt(index);
      if row.None? {
        EmptyNode(tree.c.h, tree.height, 0);
        assert tree.transfers[..0] == [] && Leaves(tree.c, []) == [];
        return RootState(index, 0, tree.zeros[tree.height]);
      }
      z := RootState(index, row.value.chain, row.value.root);
      if index <= Pow2(tree.height) {
        TreeTables.BlockRootIsRoot(tree.c.h, Leaves(tree.c, tree.transfers[..index]), tree.height);
      }
    }

    /** `initialise_nova`: a new proof at the base, or the stored proof of the compiled index. */
    method InitialiseNova(s: ProverState) returns (v: Option<Ivc>)
      requires Valid() && state == Some(s) && s.compiled < |tree.transfers|
      ensures v.None? <==> cut && s.compiled != s.base
      ensures v.Some? ==> GoodIvc(env.net, env.log, s.base, s.compiled, v.value)
      ensures v.Some? ==> Complete(records, s.base, s.compiled)
    {
      if s.compiled == s.base {
        v := FreshNova(s.base);
      } else {
        BooksLast(env.net, env.log, env.ch, records, s, cut);
        v := if s.compiled in records then Some(records[s.compiled].ivc) else None;
      }
    }

    /** `initial_nova` at the state of the base. */
    method FreshNova(base: nat) returns (v: Option<Ivc>)
      requires World() && base in env.ch.proved && base <= |tree.transfers|
      ensures v.Some? && GoodIvc(env.net, env.log, base, base, v.value)
    {
      assert LooksInside(WorldPart, 0) && env.Valid();
      Invariant.ProvedRoot(env.net, env.ch, base);
      var z := LoadStateVector(base);
      assert tree.transfers[..base] == env.log[..base];
      assert env.log[base..base] == [];
      v := Some(Ivc(z, [], z));
    }

    /** Event rows are the log's own transfers. */
    lemma RowIsLogged(rows: seq<(nat, EventSync.Event)>, k: nat, target: nat)
      requires World() && TreeJob.RowsTrue(ix.log, rows, target) && k < |rows|
      ensures rows[k].0 < |env.log| && rows[k].1.transfer == env.log[rows[k].0]
    {
      assert LooksInside(WorldPart, 0);
    }

    /** Compiles one event: a proof for it from the tree as it is now, then one folding step. */
    method CompileEvent(v: Ivc, ghost base: nat, i: nat, t: Transfer) returns (end: Outcome, v': Ivc)
      requires World() && GoodIvc(env.net, env.log, base, i, v)
      requires i < |tree.transfers| && t == env.log[i]
      ensures end == Finished || end == RetentionExceeded || end == StepRefused
      ensures end == RetentionExceeded <==> |tree.transfers| > i + 1 + treeWindow
      ensures end == StepRefused ==> i >= Pow2(env.net.height)
      ensures end == Finished ==> GoodIvc(env.net, env.log, base, i + 1, v')
    {
      assert LooksInside(WorldPart, 0);
      v' := v;
      var proof := tree.ProveMany(treeWindow, i + 1, [i]);
      assert tree.FirstBad([i], i + 1) == 1;
      if proof.Err? { return RetentionExceeded, v; }
      var siblings := proof.value[0].siblings;
      assert proof.value[0] == tree.ProofAt(i + 1, [i][0]);
      assert Max(i + 1, tree.floor) == i + 1;
      assert tree.transfers[..i + 1] == env.log[..i + 1];
      var x := RootInput(false, t.to, t.value, siblings);
      CompileStep(env.net, env.log, base, i, v, x);
      if |siblings| != env.net.height || !RootStepOk(env.net.c, env.net.height, v.z, x) { return StepRefused, v; }
      return Finished, Ivc(v.start, v.inputs + [x], RootStepNext(env.net.c, v.z, x));
    }

    /** One pass of the compile loop: the other jobs move, one event is folded, its record is stored. */
    method CompileRow(s: ProverState, current: nat, v: Ivc, t: Transfer) returns (end: Outcome, v': Ivc)
      requires Valid() && state == Some(s) && s.compiled <= current < |tree.transfers|
      requires Ahead(env.net, env.log, records, s, current, v) && t == env.log[current]
      modifies this`records, this`writesLeft, ix`table, ix`contiguous, ix`contiguousBlock, tree, env`ch
      ensures Valid() && |tree.transfers| >= |old(tree.transfers)|
      ensures end == Finished || end == RetentionExceeded || end == StepRefused || end == Stopped
      ensures end == RetentionExceeded ==> |tree.transfers| > current + 1 + treeWindow
      ensures end == StepRefused ==> current >= Pow2(env.net.height)
      ensures end == Finished ==> Ahead(env.net, env.log, records, s, current + 1, v')
      ensures Since(old(env.ch), env.ch)
      ensures if end == Finished then old(writesLeft) == writesLeft + 1 else end == Stopped ==> old(writesLeft) == 0
      ensures records
           == if end == Finished then Upsert(old(records), current + 1, RecordOf(s.base, v')) else old(records)
    {
      OtherJobs();
      end, v' := CompileEvent(v, s.base, current, t);
      if end == Finished {
        var ok := StoreProof(s, current, v, v');
        if !ok { end := Stopped; }
      }
    }

    /** The write of one proof. */
    method StoreProof(s: ProverState, current: nat, ghost v: Ivc, v': Ivc) returns (ok: bool)
      requires Valid() && state == Some(s) && s.compiled <= current && Ahead(env.net, env.log, records, s, current, v)
      requires GoodIvc(env.net, env.log, s.base, current + 1, v')
      modifies this`records, this`writesLeft, ix`table, ix`contiguous, ix`contiguousBlock, tree, env`ch
      ensures Valid() && |tree.transfers| >= |old(tree.transfers)|
      ensures ok ==> Ahead(env.net, env.log, records, s, current + 1, v')
      ensures Follows(old(env.ch), env.ch)
      ensures if ok then old(writesLeft) == writesLeft + 1 else old(writesLeft) == 0
      ensures records == if ok then Upsert(old(records), current + 1, RecordOf(s.base, v')) else old(records)
    {
      ok := NextWrite();
      if ok {
        records := Upsert(records, current + 1, RecordOf(s.base, v'));
      }
    }

    /** The compile loop, started with `from` and on the chain `ch`, has stored `proofs` and holds `v` for `current`. */
    ghost predicate Compiling(
      s: ProverState, from: map<nat, Record>, ch: Contracts.Chain, current: nat, v: Ivc, proofs: seq<Ivc>)
      reads this, ix, tree, env
    {
      forall k {:trigger LooksInside(LoopPart, k)} :: LooksInside(LoopPart, k) ==>
        && Valid() && state == Some(s) && s.compiled <= current
        && Ahead(env.net, env.log, records, s, current, v)
        && StoredAs(from, s.base, s.compiled, proofs, records) && Since(ch, env.ch)
    }

    lemma CompilingStart(s: ProverState, first: Ivc)
      requires Valid() && state == Some(s) && GoodIvc(env.net, env.log, s.base, s.compiled, first)
      ensures Compiling(s, records, env.ch, s.compiled, first, [])
    {
      StoredAsNone(records, s.base, s.compiled);
    }

    /** One pass of the loop on the row of the next event. */
    method CompileNext(
      s: ProverState, v: Ivc, rows: seq<(nat, EventSync.Event)>, k: nat, target: nat,
      ghost from: map<nat, Record>, ghost ch: Contracts.Chain, ghost proofs: seq<Ivc>)
      returns (end: Outcome, current: nat, v': Ivc, ghost proofs': seq<Ivc>)
      requires k < |rows| && rows[k].0 < |tree.transfers| && rows[k].0 == s.compiled + |proofs|
      requires TreeJob.RowsTrue(ix.log, rows, target) && Compiling(s, from, ch, rows[k].0, v, proofs)
      modifies this`records, this`writesLeft, ix`table, ix`contiguous, ix`contiguousBlock, tree, env`ch
      ensures |tree.transfers| >= |old(tree.transfers)|
      ensures end == Finished || end == RetentionExceeded || end == StepRefused || end == Stopped
      ensures end == RetentionExceeded ==> |tree.transfers| > rows[k].0 + 1 + treeWindow
      ensures end == StepRefused ==> |env.log| > rows[k].0 >= Pow2(env.net.height)
      ensures Compiling(s, from, ch, current, v', proofs') && current == s.compiled + |proofs'|
      ensures current == if end == Finished then rows[k].0 + 1 else rows[k].0
      ensures if end == Finished then old(writesLeft) == writesLeft + 1 else end == Stopped ==> old(writesLeft) == 0
    {
      assert LooksInside(LoopPart, 0);
      RowIsLogged(rows, k, target);
      current, proofs' := rows[k].0, proofs;
      end, v' := CompileRow(s, current, v, rows[k].1.transfer);
      SinceThrough(ch, old(env.ch), env.ch);
      if end == Finished {
        StoredAsNext(from, s.base, s.compiled, proofs, old(records), v', current + 1);
        current, proofs' := current + 1, proofs + [v'];
      } else {
        v' := v;
      }
    }

    /** The compile loop over the fetched rows: it stores one proof after the other, and nothing else. */
    method CompileRows(s: ProverState, first: Ivc, rows: seq<(nat, EventSync.Event)>, target: nat)
      returns (end: Outcome, current: nat, v: Ivc, ghost proofs: seq<Ivc>)
      requires s.compiled < target <= |tree.transfers| && Compiling(s, records, env.ch, s.compiled, first, [])
      requires TreeJob.RowsTrue(ix.log, rows, target) && |rows| == target - s.compiled
      requires forall j :: 0 <= j < |rows| ==> rows[j].0 == s.compiled + j
      modifies this`records, this`writesLeft, ix`table, ix`contiguous, ix`contiguousBlock, tree, env`ch
      ensures |tree.transfers| >= |old(tree.transfers)|
      ensures current == s.compiled + |proofs| && Compiling(s, old(records), old(env.ch), current, v, proofs)
      ensures end == Finished || end == RetentionExceeded || end == StepRefused || end == Stopped
      ensures end == RetentionExceeded ==> |tree.transfers| > s.compiled + 1 + treeWindow
      ensures end == StepRefused ==> |env.log| > Pow2(env.net.height)
      ensures end == Finished ==> current == target && old(writesLeft) == writesLeft + (target - s.compiled)
      ensures end == Stopped ==> old(writesLeft) < target - s.compiled
    {
      v, current, end, proofs := first, s.compiled, Finished, [];
      var k := 0;
      while k < |rows| && end == Finished
        invariant 0 <= k <= |rows| && current == s.compiled + k == s.compiled + |proofs|
        invariant |tree.transfers| >= |old(tree.transfers)|
        invariant Compiling(s, old(records), old(env.ch), current, v, proofs)
        invariant end == Finished ==> old(writesLeft) == writesLeft + k
        invariant end != Finished ==> k < |rows|
        invariant end == Finished || end == RetentionExceeded || end == StepRefused || end == Stopped
        invariant end == RetentionExceeded ==> |tree.transfers| > s.compiled + 1 + treeWindow
        invariant end == StepRefused ==> |env.log| > Pow2(env.net.height)
        invariant end == Stopped ==> old(writesLeft) <= k
        decreases |rows| - k, end == Finished
      {
        if rows[k].0 != current { break; }
        end, current, v, proofs := CompileNext(s, v, rows, k, target, old(records), old(env.ch), proofs);
        if end == Finished { k := k + 1; }
      }
    }

    /** The write of the compiled index. */
    method RecordCompiled(s: ProverState, current: nat, v: Ivc) returns (end: Outcome, s': ProverState)
      requires Valid() && state == Some(s) && s.compiled <= current && Ahead(env.net, env.log, records, s, current, v)
      requires Complete(records, s.base, s.compiled)
      modifies this`state, this`writesLeft, this`cut, ix`table, ix`contiguous, ix`contiguousBlock, tree, env`ch
      ensures Valid() && |tree.transfers| >= |old(tree.transfers)|
      ensures end == Stopped || end == Finished
      ensures end == Finished ==> s' == s.(compiled := current) && state == Some(s') && (cut ==> old(cut) && s' == s)
      ensures Follows(old(env.ch), env.ch) && (end == Stopped ==> old(writesLeft) == 0)
      ensures end == Finished ==> old(writesLeft) == writesLeft + if current > s.compiled then 1 else 0
    {
      end, s' := Finished, s;
      if current > s.compiled {
        var ok := NextWrite();
        if ok {
          s' := s.(compiled := current);
          state, cut := Some(s'), false;
        } else {
          end := Stopped;
        }
      }
    }

    /**
     `sync_ivc_proofs`: compiles every event up to the tree and the token index as read. It finds the proof of its
     compiled index missing exactly when the state was cut and there is something to compile; it is refused by the
     tree only when the tree ran more than the window ahead, and by the circuit only on a full tree.
     */
    method SyncIvcProofs(s: ProverState, tokenIndex: nat) returns (end: Outcome, s': ProverState)
      requires Valid() && state == Some(s)
      modifies this`state, this`records, this`writesLeft, this`cut
      modifies ix`table, ix`contiguous, ix`contiguousBlock, tree, env`ch
      ensures Valid() && |tree.transfers| >= |old(tree.transfers)|
      ensures end != HistoryExhausted && !end.Submitted? && end != SubmitReverted
      ensures end == MissingProof <==>
                old(cut) && s.base < s.compiled < Min(|old(tree.transfers)|, tokenIndex)
      ensures Min(|old(tree.transfers)|, tokenIndex) <= s.compiled ==> end == Finished
      ensures end == RetentionExceeded ==> |tree.transfers| > s.compiled + 1 + treeWindow
      ensures end == StepRefused ==> |env.log| > Pow2(env.net.height)
      ensures end == Finished ==>
                && state == Some(s') && s' == s.(compiled := s'.compiled)
                && s'.compiled == Max(s.compiled, Min(|old(tree.transfers)|, tokenIndex))
                && (cut <==> old(cut) && s' == s)
                && old(writesLeft) <= writesLeft + (s'.compiled - s.compiled) + 1
      ensures Follows(old(env.ch), env.ch)
      ensures end == Stopped ==> old(writesLeft) <= Min(|old(tree.transfers)|, tokenIndex) - s.compiled
    {
      assert LooksInside(WorldPart, 0);
      end, s' := Finished, s;
      var target := Min(|tree.snapshots|, tokenIndex);
      if target > s.compiled {
        var rows := TreeJob.FetchRows(ix.table, s.compiled, target - 1, target);
        var nova := InitialiseNova(s);
        if nova.None? {
          end := MissingProof;
        } else {
          end, s' := CompileFrom(s, nova.value, rows, target);
        }
      }
    }

    /** Compiles the rows and then records how far it got. */
    method CompileFrom(s: ProverState, first: Ivc, rows: seq<(nat, EventSync.Event)>, target: nat)
      returns (end: Outcome, s': ProverState)
      requires Valid() && state == Some(s) && s.compiled < target <= |tree.transfers|
      requires GoodIvc(env.net, env.log, s.base, s.compiled, first) && Complete(records, s.base, s.compiled)
      requires TreeJob.RowsTrue(ix.log, rows, target) && |rows| == target - s.compiled
      requires forall j :: 0 <= j < |rows| ==> rows[j].0 == s.compiled + j
      modifies this`state, this`records, this`writesLeft, this`cut
      modifies ix`table, ix`contiguous, ix`contiguousBlock, tree, env`ch
      ensures Valid() && |tree.transfers| >= |old(tree.transfers)|
      ensures end == Finished || end == RetentionExceeded || end == StepRefused || end == Stopped
      ensures end == RetentionExceeded ==> |tree.transfers| > s.compiled + 1 + treeWindow
      ensures end == StepRefused ==> |env.log| > Pow2(env.net.height)
      ensures end == Finished ==> state == Some(s') && s' == s.(compiled := target) && !cut
      ensures Follows(old(env.ch), env.ch)
      ensures end == Finished ==> old(writesLeft) == writesLeft + (target - s.compiled) + 1
      ensures end == Stopped ==> old(writesLeft) < target - s.compiled + 1
    {
      s' := s;
      var current, v;
      ghost var proofs;
      CompilingStart(s, first);
      end, current, v, proofs := CompileRows(s, first, rows, target);
      assert LooksInside(LoopPart, 0) && LooksInside(TimePart, 0);
      if end == Finished {
        StoredAsIs(old(records), s.base, s.compiled, proofs, records);
        forall i | s.base < i <= s.compiled ensures i in records {
          StoredAt(old(records), s.base, s.compiled, proofs, i);
        }
        end, s' := RecordCompiled(s, current, v);
      }
    }

    /** The proof handed to the decider: a one-step proof is padded with a dummy step. */
    method ProofToSubmit(s: ProverState, r: Record) returns (inputs: Option<seq<RootInput>>)
      requires Contracts.ValidNet(env.net) && s.base < s.compiled && GoodRecord(env.net, env.log, s.base, s.compiled, r)
      ensures inputs.None? <==> s.compiled == s.base + 1 && s.compiled == Pow2(env.net.height)
      ensures inputs.Some? ==> |inputs.value| == Max(2, s.compiled - s.base)
      ensures inputs.Some? ==>
                && r.ivc.start == StateOf(env.net.c, env.net.height, env.log[..s.base])
                && r.chain == ChainOf(env.net.c, 0, env.log[..s.compiled])
                && r.ivc.z == StateOf(env.net.c, env.net.height, env.log[..s.compiled])
                && Runs(env.net, r.ivc.start, inputs.value, r.ivc.z)
    {
      assert Folds(env.net, env.log, s.base, s.compiled, r.ivc) by { assert LooksInside(ProofPart, 0); }
      if s.compiled - s.base != 1 { return Some(r.ivc.inputs); }
      var pad := RootInput(true, 0, 0, seq(env.net.height, i => 0));
      PadStep(env.net, env.log, s.base, s.compiled, r.ivc, pad);
      if !RootStepOk(env.net.c, env.net.height, r.ivc.z, pad) { return None; }
      return Some(r.ivc.inputs + [pad]);
    }

    /** The reservation was made while the token had between `low` and `high` transfers, at the then newest one. */
    static predicate NewReservation(s: ProverState, low: nat, high: nat) {
      s.pending.Some? && low <= s.pending.value.0 <= high
    }

    /** Takes the stored reservation when it is for the compiled index, else reserves and stores a new one. */
    method Reservation(s: ProverState) returns (s': Option<ProverState>)
      requires Valid() && state == Some(s)
      modifies this`state, this`writesLeft, ix`table, ix`contiguous, ix`contiguousBlock, tree, env`ch
      ensures Valid() && Follows(old(env.ch), env.ch)
      ensures var kept := s.pending.Some? && s.pending.value.0 == s.compiled;
              && (kept ==> s' == Some(s) && writesLeft == old(writesLeft))
              && (!kept ==> (s'.Some? <==> old(writesLeft) > 0) && old(writesLeft) <= writesLeft + 1)
              && (!kept && s'.Some? ==> NewReservation(s'.value, |old(env.ch.events)|, |env.ch.events|))
      ensures s'.Some? ==> state == s' && s'.value.pending.Some? && s'.value == s.(pending := s'.value.pending)
    {
      if s.pending.Some? && s.pending.value.0 == s.compiled { return Some(s); }
      var index, chain := Reserve();
      s' := None;
      var ok := NextWrite();
      if ok {
        s' := Some(s.(pending := Some((index, chain))));
        state := s';
      }
    }

    method Reserve() returns (index: nat, chain: Fr)
      requires Valid()
      modifies env`ch
      ensures Valid() && Follows(old(env.ch), env.ch)
      ensures index in env.ch.reserved && index <= |env.log| && chain == ChainOf(env.net.c, 0, env.log[..index])
      ensures index == |env.ch.events|
    {
      assert LooksInside(WorldPart, 0);
      index, chain := env.Reserve();
      if state.Some? { BooksLater(env.net, env.log, old(env.ch), env.ch, records, state.value, cut); }
    }

    /** The writes after a confirmed submission: reset, then delete, then align. */
    method FinishSubmission(target: nat) returns (end: Outcome)
      requires Valid() && target <= told && target in env.ch.proved && (state.Some? ==> !cut)
      modifies this`state, this`records, this`writesLeft, this`cut
      modifies ix`table, ix`contiguous, ix`contiguousBlock, tree, env`ch
      ensures Valid() && Follows(old(env.ch), env.ch)
      ensures Stored() == SubmitWrites(old(Stored()), target, old(writesLeft))
      ensures end == if old(writesLeft) >= 2 then Submitted(target) else Stopped
    {
      end := Stopped;
      var ok := WriteFresh(target);
      if ok {
        ok := NextWrite();
        if ok {
          FreshBooks(target, map[], false);
          records := map[];
          var _ := EnsureAlignment(target);
          end := Submitted(target);
        }
      }
    }

    /** Sends the proof; the verifier's answer is known before any table changes. */
    method Send(s: ProverState, start: RootState, inputs: seq<RootInput>, ghost e: RootState) returns (ok: bool)
      requires Valid() && state == Some(s) && s.base <= s.compiled <= Pow2(env.net.height)
      requires s.compiled < P && s.compiled in env.ch.reserved
      requires start == StateOf(env.net.c, env.net.height, env.log[..s.base])
      requires Runs(env.net, start, inputs, e) && e == StateOf(env.net.c, env.net.height, env.log[..s.compiled])
      modifies env
      ensures Valid() && Follows(old(env.ch), env.ch)
      ensures ok <==> !old(env.ch.paused) && start.root != 0 && ChainOf(env.net.c, 0, env.log[..s.compiled]) != 0
      ensures ok ==> s.compiled in env.ch.proved && s.compiled <= env.ch.latestProved
    {
      assert LooksInside(WorldPart, 0);
      ok := env.Submit(start, inputs, s.base, s.compiled, e);
      BooksLater(env.net, env.log, old(env.ch), env.ch, records, s, cut);
    }

    /** Submits against a reservation: it waits exactly when the reservation is for another index, so a proof
        never carries another chain than the one reserved for its index. */
    method SubmitReserved(
      s: ProverState, r: Record, inputs: seq<RootInput>, ghost e: RootState)
      returns (end: Outcome, receipt: Option<nat>)
      requires Valid() && state == Some(s) && s.pending.Some? && s.base < s.compiled && !cut
      requires GoodRecord(env.net, env.log, s.base, s.compiled, r)
      requires r.ivc.start == StateOf(env.net.c, env.net.height, env.log[..s.base])
      requires r.chain == ChainOf(env.net.c, 0, env.log[..s.compiled])
      requires Runs(env.net, r.ivc.start, inputs, e) && e == StateOf(env.net.c, env.net.height, env.log[..s.compiled])
      modifies this`state, this`records, this`writesLeft, this`cut, this`told
      modifies ix`table, ix`contiguous, ix`contiguousBlock, tree, env
      ensures Valid()
      ensures end == Finished || end == Stopped || end == SubmitReverted || end == Submitted(s.compiled)
      ensures end == Finished <==> s.pending.value.0 != s.compiled
      ensures end == Finished ==> state == old(state) && env.ch == old(env.ch)
      ensures Follows(old(env.ch), env.ch) && (receipt.Some? ==> s.compiled <= env.ch.latestProved)
      ensures end == Stopped ==> old(writesLeft) < 2
      ensures end == SubmitReverted ==>
                old(env.ch.paused) || r.ivc.start.root == 0 || ChainOf(env.net.c, 0, env.log[..s.compiled]) == 0
      ensures receipt == if end == Submitted(s.compiled) || end == Stopped then Some(s.compiled) else None
      ensures told == if receipt.Some? then Max(old(told), s.compiled) else old(told)
      ensures receipt.Some? ==> Stored() == SubmitWrites(old(Stored()), s.compiled, old(writesLeft))
      ensures end.Submitted? ==> state == Some(Fresh(s.compiled)) && records == map[]
    {
      receipt := None;
      BooksPending(env.net, env.log, env.ch, records, s, cut);
      var reserved, chain := s.pending.value.0, s.pending.value.1;
      if reserved != s.compiled || r.chain != chain { return Finished, None; }
      var ok := Send(s, r.ivc.start, inputs, e);
      end := SubmitReverted;
      if ok {
        receipt := Some(s.compiled);
        told := Max(told, s.compiled);
        end := FinishSubmission(s.compiled);
      }
    }

    /** What was done about a due or not due submission from `base` to `target` since the chain was `ch`. */
    ghost predicate Tells(end: Outcome, receipt: Option<nat>, base: nat, target: nat, due: bool, ch: Contracts.Chain)
      reads this, env
    {
      var pending := if state.Some? then state.value.pending else None;
      Explained(env.net, env.log, Submission(end, receipt, base, target, due), ch, env.ch, pending)
    }

    /**
     `submit_if_ready`. The stored proof of the compiled index is missing exactly when the state was cut; the padding
     step is refused only on a full tree; a receipt means the tables went through the writes of a submission. A due
     submission that does not happen is explained.
     */
    method SubmitIfReady(s: ProverState, tokenIndex: nat, submits: bool) returns (end: Outcome, receipt: Option<nat>)
      requires Valid() && state == Some(s)
      modifies this`state, this`records, this`writesLeft, this`cut, this`told
      modifies ix`table, ix`contiguous, ix`contiguousBlock, tree, env
      ensures Valid()
      ensures end != HistoryExhausted && end != RetentionExceeded
      ensures end == MissingProof <==> old(cut) && s.base < s.compiled <= tokenIndex
      ensures end == StepRefused ==> s.compiled == s.base + 1 == Pow2(env.net.height)
      ensures receipt.Some? ==> receipt.value == s.compiled > s.base
      ensures told == if receipt.Some? then Max(old(told), receipt.value) else old(told)
      ensures end.Submitted? ==> receipt == Some(end.index) && state == Some(Fresh(end.index)) && records == map[]
      ensures Tells(end, receipt, s.base, s.compiled, submits && s.compiled <= tokenIndex, old(env.ch))
      ensures end == Stopped ==> old(writesLeft) < 3
    {
      end, receipt := Finished, None;
      if s.submitted < s.compiled <= tokenIndex {
        BooksLast(env.net, env.log, env.ch, records, s, cut);
        if s.compiled !in records {
          end := MissingProof;
        } else {
          end, receipt := SubmitRecord(s, records[s.compiled], submits);
        }
      }
      if end == MissingProof || !(s.base < s.compiled <= tokenIndex) {
        NothingDone(env.net, env.log, Submission(end, None, s.base, s.compiled, submits && s.compiled <= tokenIndex),
                    env.ch, s.pending);
      }
    }

    /** Pads, reserves and submits the proof of the compiled index. */
    method SubmitRecord(s: ProverState, r: Record, submits: bool) returns (end: Outcome, receipt: Option<nat>)
      requires Valid() && state == Some(s) && s.base < s.compiled && !cut
      requires GoodRecord(env.net, env.log, s.base, s.compiled, r)
      modifies this`state, this`records, this`writesLeft, this`cut, this`told
      modifies ix`table, ix`contiguous, ix`contiguousBlock, tree, env
      ensures Valid()
      ensures end != HistoryExhausted && end != RetentionExceeded && end != MissingProof
      ensures end == StepRefused ==> s.compiled == s.base + 1 == Pow2(env.net.height)
      ensures receipt.Some? ==> receipt.value == s.compiled
      ensures told == if receipt.Some? then Max(old(told), receipt.value) else old(told)
      ensures end.Submitted? ==> receipt == Some(end.index) && state == Some(Fresh(end.index)) && records == map[]
      ensures Tells(end, receipt, s.base, s.compiled, submits, old(env.ch))
      ensures end == Stopped ==> old(writesLeft) < 3
    {
      end, receipt := Finished, None;
      var inputs := ProofToSubmit(s, r);
      if inputs.None? || !submits {
        end := if inputs.None? then StepRefused else Finished;
        NothingDone(env.net, env.log, Submission(end, None, s.base, s.compiled, submits), env.ch, s.pending);
      } else {
        OtherJobs();
        end, receipt := ReserveAndSubmit(s, r, inputs.value, old(env.ch));
      }
    }

    /** Takes or makes a reservation and submits against it. */
    method ReserveAndSubmit(s: ProverState, r: Record, inputs: seq<RootInput>, ghost ch: Contracts.Chain)
      returns (end: Outcome, receipt: Option<nat>)
      requires Valid() && state == Some(s) && s.base < s.compiled && !cut && Follows(ch, env.ch)
      requires GoodRecord(env.net, env.log, s.base, s.compiled, r)
      requires r.ivc.start == StateOf(env.net.c, env.net.height, env.log[..s.base])
      requires r.chain == ChainOf(env.net.c, 0, env.log[..s.compiled])
      requires r.ivc.z == StateOf(env.net.c, env.net.height, env.log[..s.compiled])
      requires Runs(env.net, r.ivc.start, inputs, r.ivc.z)
      modifies this`state, this`records, this`writesLeft, this`cut, this`told
      modifies ix`table, ix`contiguous, ix`contiguousBlock, tree, env
      ensures Valid()
      ensures end == Finished || end == Stopped || end == SubmitReverted || end == Submitted(s.compiled)
      ensures receipt.Some? ==> receipt.value == s.compiled
      ensures told == if receipt.Some? then Max(old(told), receipt.value) else old(told)
      ensures end.Submitted? ==> receipt == Some(end.index) && state == Some(Fresh(end.index)) && records == map[]
      ensures Tells(end, receipt, s.base, s.compiled, true, ch)
      ensures end == Stopped ==> old(writesLeft) < 3
    {
      ghost var step := Submission(Stopped, None, s.base, s.compiled, true);
      var s' := Reservation(s);
      ghost var reserved := env.ch;
      if s'.None? {
        end, receipt := Stopped, None;
        StoppedEarly(env.net, env.log, step, ch, old(env.ch), env.ch, s.pending);
      } else {
        OtherJobs();
        ghost var sent, pending := env.ch, s'.value.pending;
        end, receipt := SubmitReserved(s'.value, r, inputs, r.ivc.z);
        SubmissionEnds(env.net, env.log, step.(end := end, receipt := receipt), ch, old(env.ch), reserved, sent, env.ch,
                       pending, if state.Some? then state.value.pending else None);
      }
    }

    /** The answer the job works with. With submission the node may answer any index that was ever the latest proved
        one; without it the job works from zero. */
    method ReadProved(submits: bool, answer: nat) returns (l: nat)
      requires Valid()
      modifies this`told, this`monotone
      ensures Valid() && l in env.ch.proved
      ensures l == if !submits then 0 else if answer in env.ch.proved then answer else env.ch.latestProved
      ensures told == Max(old(told), l) && (monotone <==> old(monotone) && l >= old(told))
    {
      assert LooksInside(WorldPart, 0);
      l := if !submits then 0 else if answer in env.ch.proved then answer else env.ch.latestProved;
      monotone := monotone && l >= told;
      told := Max(told, l);
    }

    /** The cycle reaches a branch that needs the proof of the compiled index. */
    static predicate NeedsProof(p: Plan, tokenIndex: nat, treeIndex: nat, compiled: nat) {
      (p.doCompile && compiled < Min(treeIndex, tokenIndex)) || (p.doSubmit && compiled <= tokenIndex)
    }

    /** The cycle starts on a cut state with compiled proofs, is told its old base again, and needs a proof. */
    predicate MeetsGap(p: Plan, c: Cycle) {
      && c.cut && c.state.Some? && c.answer == Some(c.state.value.base)
      && c.state.value.base < c.state.value.compiled
      && c.answer.value + rootWindow >= c.tokenIndex
      && NeedsProof(p, c.tokenIndex, c.treeIndex, c.state.value.compiled)
    }

    /** How far the cycle is compiled when its submit branch starts from `compiled`. */
    static function Target(p: Plan, c: Cycle, compiled: nat): nat {
      if p.doCompile then Max(compiled, Min(c.treeIndex, c.tokenIndex)) else compiled
    }

    /** The compiled index once the state is aligned with the answer. */
    static function AlignedAt(c: Cycle): nat {
      if c.answer.None? then 0
      else if c.state.Some? && c.state.value.base == c.answer.value then c.state.value.compiled
      else c.answer.value
    }

    /** The cycle tells what it did about a submission from `base` to `target`. */
    ghost predicate Reports(p: Plan, c: Cycle, base: nat, target: nat, ch: Contracts.Chain)
      reads this, env
    {
      Tells(c.end, c.receipt, base, target, p.doSubmit && p.submits && target <= c.tokenIndex, ch)
    }

    lemma ReportsEarlier(
      p: Plan, c: Cycle, base: nat, target: nat, ch0: Contracts.Chain, ch1: Contracts.Chain)
      requires Follows(ch0, ch1) && Reports(p, c, base, target, ch1)
      ensures Reports(p, c, base, target, ch0)
    {
      ExplainedEarlier(
        env.net, env.log,
        Submission(c.end, c.receipt, base, target, p.doSubmit && p.submits && target <= c.tokenIndex),
        ch0, ch1, env.ch, if state.Some? then state.value.pending else None);
    }

    lemma ReportsSince(
      p: Plan, c: Cycle, base: nat, target: nat, ch0: Contracts.Chain, ch1: Contracts.Chain)
      requires Since(ch0, ch1) && Reports(p, c, base, target, ch1)
      ensures Reports(p, c, base, target, ch0)
    {
      assert LooksInside(TimePart, 0);
      ReportsEarlier(p, c, base, target, ch0, ch1);
    }

    /** A cycle that did not come to its submit branch, or had none. */
    lemma ReportsNothing(p: Plan, c: Cycle, base: nat, target: nat, ch: Contracts.Chain)
      requires Follows(ch, env.ch) && c.receipt == None && !c.end.Submitted? && c.end != SubmitReverted
      requires c.end == Finished ==> !p.doSubmit
      ensures Reports(p, c, base, target, ch)
    {
    }

    /** The two branches, on an aligned state. */
    method WorkFrom(p: Plan, c: Cycle, s: ProverState) returns (c': Cycle)
      requires Valid() && state == Some(s) && c.end == Finished && c.receipt == None && c.treeIndex == 0
      modifies this`state, this`records, this`writesLeft, this`cut, this`told
      modifies ix`table, ix`contiguous, ix`contiguousBlock, tree, env
      ensures Valid() && c' == c.(end := c'.end, receipt := c'.receipt, treeIndex := c'.treeIndex)
      ensures c'.end == MissingProof <==>
                old(cut) && s.base < s.compiled && NeedsProof(p, c.tokenIndex, c'.treeIndex, s.compiled)
      ensures c'.end == RetentionExceeded ==> |tree.transfers| > s.compiled + 1 + treeWindow
      ensures c'.end == StepRefused ==> |env.log| >= Pow2(env.net.height)
      ensures c'.end != HistoryExhausted
      ensures Reports(p, c', s.base, Target(p, c', s.compiled), old(env.ch)) && c'.treeIndex >= |old(tree.transfers)|
      ensures c'.end == Stopped ==> old(writesLeft) < Target(p, c', s.compiled) - s.compiled + 4
      ensures c'.receipt.Some? ==> c'.receipt.value > s.base
      ensures c'.end.Submitted? ==> c'.receipt == Some(c'.end.index)
      ensures told == if c'.receipt.Some? then Max(old(told), c'.receipt.value) else old(told)
    {
      OtherJobs();
      var end, s', receipt: Option<nat> := Finished, s, None;
      var treeIndex := |tree.snapshots|;
      if p.doCompile { end, s' := SyncIvcProofs(s, c.tokenIndex); }
      ghost var ch := env.ch;
      if p.doSubmit && end == Finished {
        end, receipt := SubmitIfReady(s', c.tokenIndex, p.submits);
        c' := c.(end := end, receipt := receipt, treeIndex := treeIndex);
        ReportsEarlier(p, c', s.base, s'.compiled, old(env.ch), ch);
      } else {
        c' := c.(end := end, treeIndex := treeIndex);
        ReportsNothing(p, c', s.base, Target(p, c', s.compiled), old(env.ch));
      }
    }

    /** The cycle after its reads: align, then the two branches. */
    method AlignAndWork(p: Plan, c: Cycle, proved: nat) returns (c': Cycle)
      requires Valid() && proved in env.ch.proved && proved <= told && (monotone ==> proved == told)
      requires c == Cycle(Finished, Some(proved), None, c.tokenIndex, 0, state, cut)
      requires proved + rootWindow >= c.tokenIndex && (p.doCompile || p.doSubmit)
      modifies this`state, this`records, this`writesLeft, this`cut, this`told
      modifies ix`table, ix`contiguous, ix`contiguousBlock, tree, env
      ensures Valid() && c' == c.(end := c'.end, receipt := c'.receipt, treeIndex := c'.treeIndex)
      ensures c'.end == MissingProof <==> MeetsGap(p, c')
      ensures c'.end == RetentionExceeded ==> |tree.transfers| > proved + 1 + treeWindow
      ensures c'.end == StepRefused ==> |env.log| >= Pow2(env.net.height)
      ensures c'.receipt.Some? ==> c'.receipt.value > proved
      ensures c'.end.Submitted? ==> c'.receipt == Some(c'.end.index)
      ensures c'.end != HistoryExhausted
      ensures Reports(p, c', proved, Target(p, c', AlignedAt(c')), old(env.ch))
      ensures c'.end == Stopped || c'.treeIndex >= |old(tree.transfers)|
      ensures c'.end == Stopped ==> old(writesLeft) < Target(p, c', AlignedAt(c')) - AlignedAt(c') + 6
      ensures told == if c'.receipt.Some? then Max(old(told), c'.receipt.value) else old(told)
      ensures old(state).Some? && old(state).value.base != proved && old(writesLeft) == 1 ==>
                c'.end == Stopped && cut && state == old(state)
    {
      OtherJobs();
      var aligned := EnsureAlignment(proved);
      ghost var ch := env.ch;
      assert Follows(old(env.ch), ch);
      if aligned.None? {
        c' := c.(end := Stopped);
        ReportsNothing(p, c', proved, Target(p, c', AlignedAt(c')), old(env.ch));
      } else {
        c' := WorkFrom(p, c, aligned.value);
        assert aligned.value.compiled == AlignedAt(c');
        ReportsEarlier(p, c', proved, Target(p, c', AlignedAt(c')), old(env.ch), ch);
      }
    }

    /**
     `process_token_inner`, one cycle, whatever the node answers. It misses a proof exactly when it meets the gap a
     stopped alignment left. With a root window within the tree window it meets the retention limit only if the tree
     has run ahead of the token index it read. A due submission happens, or the cycle says why not: it stopped too
     early, waits for a transfer past its target, or was refused by a paused verifier or for a zero value.
     */
    method ProcessToken(p: Plan) returns (c: Cycle)
      requires Valid()
      modifies this, ix`table, ix`contiguous, ix`contiguousBlock, tree, env
      ensures Valid()
      ensures c.state == old(state) && c.cut == old(cut)
      ensures c.end == MissingProof <==> MeetsGap(p, c)
      ensures c.end == RetentionExceeded && rootWindow <= treeWindow ==> |tree.transfers| > c.tokenIndex + 1
      ensures c.end == StepRefused ==> |env.log| >= Pow2(env.net.height)
      ensures c.receipt.Some? ==> c.answer.Some? && c.receipt.value > c.answer.value
      ensures c.end.Submitted? ==> c.receipt == Some(c.end.index)
      ensures told == ToldAfter(old(told), c) && (monotone <==> old(monotone) && NotFallen(old(told), c))
      ensures p.doCompile || p.doSubmit ==>
                && c.tokenIndex == Min(p.tokenIndex, |old(env.ch.events)|) && c.answer.Some?
                && (p.submits && p.answer in old(env.ch.proved) ==> c.answer.value == p.answer)
      ensures old(state).Some? && c.answer.Some? && c.answer.value != old(state).value.base
              && c.end != HistoryExhausted && p.writes == 1 ==>
                c.end == Stopped && cut && state == old(state)
      ensures c.end == HistoryExhausted ==> c.answer.Some? && c.answer.value + rootWindow < c.tokenIndex
      ensures c.answer.Some? && c.end != HistoryExhausted ==>
                && Reports(p, c, c.answer.value, Target(p, c, AlignedAt(c)), old(env.ch))
                && (c.end == Stopped || c.treeIndex >= |old(tree.transfers)|)
                && (c.end == Stopped ==> p.writes < Target(p, c, AlignedAt(c)) - AlignedAt(c) + 6)
    {
      writesLeft := p.writes;
      if !p.doCompile && !p.doSubmit {
        c := Cycle(Finished, None, None, 0, 0, state, cut);
      } else {
        var tokenIndex, proved := ReadChain(p);
        c := Cycle(Finished, Some(proved), None, tokenIndex, 0, state, cut);
        if proved + rootWindow < tokenIndex {
          c := c.(end := HistoryExhausted);
        } else {
          ghost var ch := env.ch;
          c := AlignAndWork(p, c, proved);
          ReportsSince(p, c, proved, Target(p, c, AlignedAt(c)), old(env.ch), ch);
        }
      }
    }

    /** The two reads of a cycle: first the token's index, later the verifier's latest proved one. */
    method ReadChain(p: Plan) returns (tokenIndex: nat, proved: nat)
      requires Valid()
      modifies this`told, this`monotone, ix`table, ix`contiguous, ix`contiguousBlock, tree, env`ch
      ensures Valid() && Since(old(env.ch), env.ch) && proved in env.ch.proved
      ensures |tree.transfers| >= |old(tree.transfers)|
      ensures tokenIndex == Min(p.tokenIndex, |old(env.ch.events)|)
      ensures p.submits && p.answer in old(env.ch.proved) ==> proved == p.answer
      ensures told == Max(old(told), proved) && (monotone <==> old(monotone) && proved >= old(told))
    {
      tokenIndex := Min(p.tokenIndex, |env.ch.events|);
      OtherJobs();
      proved := ReadProved(p.submits, p.answer);
    }

    /**
     Any number of cycles, each with its own answers and stopped after any number of writes, with everything else
     running in between. A cycle misses a proof exactly when it meets the gap of a stopped alignment. If no answer
     ever falls below what the deployment was told before, no cycle misses a proof and receipts strictly increase.
     */
    method Run(plans: seq<Plan>) returns (trace: seq<Cycle>)
      requires Valid() && monotone
      modifies this, ix`table, ix`contiguous, ix`contiguousBlock, tree, env
      ensures Valid() && |trace| == |plans|
      ensures forall i :: 0 <= i < |trace| ==> (trace[i].end == MissingProof <==> MeetsGap(plans[i], trace[i]))
      ensures Monotone(old(told), trace) ==> forall i :: 0 <= i < |trace| ==> trace[i].end != MissingProof
      ensures Monotone(old(told), trace) ==> forall i, j :: 0 <= i < j < |trace| ==> InOrder(trace[i], trace[j])
    {
      trace := [];
      while |trace| < |plans|
        invariant Valid() && |trace| <= |plans|
        invariant forall i :: 0 <= i < |trace| ==> (trace[i].end == MissingProof <==> MeetsGap(plans[i], trace[i]))
        invariant TraceOk(old(told), trace, told, monotone)
      {
        ghost var before, risen := told, monotone;
        var c := ProcessToken(plans[|trace|]);
        TraceNext(old(told), trace, before, risen, c, told, monotone);
        trace := trace + [c];
        OtherJobs();
      }
    }
  }

  /** How a submission from `base` to `target` ended; `due` if the job meant to make it. */
  datatype Submission = Submission(end: Outcome, receipt: Option<nat>, base: nat, target: nat, due: bool)

  /** The verifier may refuse the proof: it was paused at some time between `ch` and `ch'`, or one of the two values it
      reserves zero for is zero. */
  predicate Refusable(
    n: Contracts.Net, log: seq<Transfer>, ch: Contracts.Chain, ch': Contracts.Chain, base: nat, target: nat)
  {
    || ch.paused || ch'.pauses > ch.pauses
    || (base <= |log| && Root(n.c.h, Leaves(n.c, log[..base]), n.height) == 0)
    || (target <= |log| && ChainOf(n.c, 0, log[..target]) == 0)
  }

  /**
   What is known of a submission made while the chain went from `ch` to `ch'`. A receipt is for the target, which is
   then proved. A due submission that just ends waits with a reservation made meanwhile for a newer transfer. The
   verifier refuses only when it may.
   */
  ghost predicate Explained(
    n: Contracts.Net, log: seq<Transfer>, s: Submission, ch: Contracts.Chain, ch': Contracts.Chain,
    pending: Option<(nat, Fr)>)
  {
    forall k {:trigger LooksInside(CyclePart, k)} :: LooksInside(CyclePart, k) ==>
      ExplainedParts(n, log, s, ch, ch', pending)
  }

  ghost predicate ExplainedParts(
    n: Contracts.Net, log: seq<Transfer>, s: Submission, ch: Contracts.Chain, ch': Contracts.Chain,
    pending: Option<(nat, Fr)>)
  {
    && Follows(ch, ch')
    && (s.receipt.Some? ==> s.receipt.value == s.target <= ch'.latestProved)
    && (s.end.Submitted? ==> s.receipt == Some(s.end.index))
    && (s.end == Finished && s.due && s.base < s.target ==>
          pending.Some? && |ch.events| <= pending.value.0 <= |ch'.events| && pending.value.0 != s.target)
    && (s.end == SubmitReverted ==> Refusable(n, log, ch, ch', s.base, s.target))
  }

  /** Nothing was due, or the work ended before the submission. */
  lemma NothingDone(
    n: Contracts.Net, log: seq<Transfer>, s: Submission, ch: Contracts.Chain, pending: Option<(nat, Fr)>)
    requires s.receipt == None && !s.end.Submitted? && s.end != SubmitReverted
    requires s.end == Finished ==> !s.due || s.target <= s.base
    ensures Explained(n, log, s, ch, ch, pending)
  {
  }

  lemma StoppedEarly(
    n: Contracts.Net, log: seq<Transfer>, s: Submission, ch0: Contracts.Chain, ch1: Contracts.Chain,
    ch2: Contracts.Chain, pending: Option<(nat, Fr)>)
    requires s.receipt == None && !s.end.Submitted? && s.end != SubmitReverted && s.end != Finished
    requires Follows(ch0, ch1) && Follows(ch1, ch2)
    ensures Explained(n, log, s, ch0, ch2, pending)
  {
  }

  /** What happened later is also known from earlier on. */
  lemma ExplainedEarlier(
    n: Contracts.Net, log: seq<Transfer>, s: Submission, ch0: Contracts.Chain, ch1: Contracts.Chain,
    ch2: Contracts.Chain, pending: Option<(nat, Fr)>)
    requires Follows(ch0, ch1) && Explained(n, log, s, ch1, ch2, pending)
    ensures Explained(n, log, s, ch0, ch2, pending)
  {
  }

  /** From the reservation to the receipt: reserved by `ch2`, sent on `ch3`. */
  lemma SubmissionEnds(
    n: Contracts.Net, log: seq<Transfer>, s: Submission, ch0: Contracts.Chain, ch1: Contracts.Chain,
    ch2: Contracts.Chain, ch3: Contracts.Chain, ch4: Contracts.Chain, reserved: Option<(nat, Fr)>,
    pending: Option<(nat, Fr)>)
    requires Follows(ch0, ch1) && Follows(ch1, ch2) && Follows(ch2, ch3) && Follows(ch3, ch4)
    requires reserved.Some? && (reserved.value.0 != s.target ==> |ch1.events| <= reserved.value.0 <= |ch2.events|)
    requires s.end == Finished ==> pending == reserved && reserved.value.0 != s.target
    requires s.receipt.Some? ==> s.receipt.value == s.target <= ch4.latestProved
    requires s.end.Submitted? ==> s.receipt == Some(s.end.index)
    requires s.end == SubmitReverted ==> Refusable(n, log, ch3, ch3, s.base, s.target)
    ensures Explained(n, log, s, ch0, ch4, pending)
  {
  }

  /**
   Why answers must not fall. From every valid state with compiled proofs, once another index is proved: a cycle that
   is told this index and stops after its first write, and then a cycle that is told the old base again, end with the
   proof missing.
   */
  method FallingAnswerMisses(job: Job, other: nat) returns (first: Cycle, second: Cycle)
    requires job.Valid() && job.state.Some? && job.state.value.base < job.state.value.compiled <= |job.env.ch.events|
    requires other in job.env.ch.proved && other != job.state.value.base
    requires other + job.rootWindow >= job.state.value.compiled
    requires job.state.value.base + job.rootWindow >= job.state.value.compiled
    modifies job, job.ix`table, job.ix`contiguous, job.ix`contiguousBlock, job.tree, job.env
    ensures first.end == Stopped && second.end == MissingProof
  {
    var base, compiled := job.state.value.base, job.state.value.compiled;
    first := job.ProcessToken(Plan(false, true, true, compiled, other, 1));
    assert LooksInside(CyclePart, 0);
    second := job.ProcessToken(Plan(false, true, true, compiled, base, 0));
  }

  /**
   A due submission happens. One full cycle that is told any proved index within the window, on a chain that sees no
   new transfer and no pause meanwhile, proves the newest transfer: neither a stale reservation nor anything else the
   tables hold keeps it from doing so.
   */
  method QuietCycleSubmits(job: Job, answer: nat, writes: nat) returns (c: Cycle)
    requires job.Valid() && job.rootWindow <= job.treeWindow && answer in job.env.ch.proved
    requires job.cut && job.state.Some? ==> job.state.value.base != answer
    requires answer < |job.env.ch.events| <= answer + job.rootWindow && |job.env.log| < Pow2(job.env.net.height)
    requires |job.env.ch.events| <= |job.tree.transfers|
    requires job.state.Some? ==> job.state.value.compiled <= |job.env.ch.events|
    requires writes >= |job.env.ch.events| - answer + 6
    modifies job, job.ix`table, job.ix`contiguous, job.ix`contiguousBlock, job.tree, job.env
    ensures var ch, ch', target := old(job.env.ch), job.env.ch, |old(job.env.ch.events)|;
            |ch'.events| == target && |job.tree.transfers| <= target + 1
            && !Refusable(job.env.net, job.env.log, ch, ch', answer, target) ==>
              c.end == Submitted(target) && c.receipt == Some(target) && target <= ch'.latestProved
  {
    c := job.ProcessToken(Plan(true, true, true, |job.env.ch.events|, answer, writes));
    assert LooksInside(CyclePart, 0);
  }

  function ToldAfter(told: nat, c: Cycle): nat {
    var answered := if c.answer.Some? then Max(told, c.answer.value) else told;
    if c.receipt.Some? then Max(answered, c.receipt.value) else answered
  }

  predicate NotFallen(told: nat, c: Cycle) { c.answer.Some? ==> c.answer.value >= told }

  /** The greatest index told by the answers and receipts of a trace. */
  function Told(start: nat, trace: seq<Cycle>): nat {
    if trace == [] then start else ToldAfter(Told(start, trace[..|trace| - 1]), trace[|trace| - 1])
  }

  /** No answer falls below an earlier answer or receipt. */
  predicate Monotone(start: nat, trace: seq<Cycle>) {
    trace == [] ||
    (&& Monotone(start, trace[..|trace| - 1])
     && NotFallen(Told(start, trace[..|trace| - 1]), trace[|trace| - 1]))
  }

  /** What answers that never fall give: no proof is missing and receipts strictly increase. */
  ghost predicate TraceOk(start: nat, trace: seq<Cycle>, told: nat, monotone: bool) {
    && told == Told(start, trace) && (monotone <==> Monotone(start, trace))
    && (monotone ==> forall i :: 0 <= i < |trace| ==> trace[i].end != MissingProof && KnownBy(trace[i], told))
    && (monotone ==> forall i, j :: 0 <= i < j < |trace| ==> InOrder(trace[i], trace[j]))
  }

  lemma TraceNext(
    start: nat, trace: seq<Cycle>, told: nat, monotone: bool, c: Cycle, told': nat, monotone': bool)
    requires TraceOk(start, trace, told, monotone)
    requires told' == ToldAfter(told, c) && (monotone' <==> monotone && NotFallen(told, c))
    requires monotone' ==> c.end != MissingProof
    requires c.receipt.Some? ==> c.answer.Some? && c.receipt.value > c.answer.value
    ensures TraceOk(start, trace + [c], told', monotone')
  {
    assert (trace + [c])[..|trace|] == trace;
  }

  predicate KnownBy(c: Cycle, told: nat) { c.receipt.Some? ==> c.receipt.value <= told }

  predicate InOrder(a: Cycle, b: Cycle) { a.receipt.Some? && b.receipt.Some? ==> a.receipt.value < b.receipt.value }
}
