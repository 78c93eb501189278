/**
 The root prover's two tables: what a stored proof must be, what each write does to them, and what a stop between two
 writes leaves behind.
 */
module ProverTables {
  import opened Base
  import opened Field
  import opened Crypto
  import opened Merkle
  import opened RootCircuit
  import Contracts

  // --------------------------------------------------------------------- the tables

  /** A folded proof: where it starts, the steps it folds, and the state it reached. */
  datatype Ivc = Ivc(start: RootState, inputs: seq<RootInput>, z: RootState)

  /** A row of `root_ivc_proofs`; its key is the end index. */
  datatype Record = Record(startIndex: nat, ivc: Ivc, chain: Fr, root: Fr)

  function RecordOf(startIndex: nat, v: Ivc): Record { Record(startIndex, v, v.z.chain, v.z.root) }

  datatype ProverState = ProverState(base: nat, compiled: nat, submitted: nat, pending: Option<(nat, Fr)>)

  function Fresh(base: nat): ProverState { ProverState(base, base, base, None) }

  /** `upsert_ivc_proof`: on conflict every column but the start index is replaced. */
  function Upsert(records: map<nat, Record>, end: nat, r: Record): map<nat, Record> {
    records[end := if end in records then r.(startIndex := records[end].startIndex) else r]
  }

  /** The proof folds exactly the transfers from `base` up to `end`. */
  ghost predicate GoodIvc(n: Contracts.Net, log: seq<Transfer>, base: nat, end: nat, v: Ivc)
    requires n.height <= MAX_DEPTH
  {
    && base <= end <= |log| && end <= Pow2(n.height) && end < P
    && (forall k {:trigger LooksInside(ProofPart, k)} :: LooksInside(ProofPart, k) ==> Folds(n, log, base, end, v))
  }

  ghost predicate Runs(n: Contracts.Net, z: RootState, inputs: seq<RootInput>, e: RootState)
    requires n.height <= MAX_DEPTH
  {
    forall k {:trigger LooksInside(ProofPart, k)} ::
      LooksInside(ProofPart, k) ==> RunRoot(n.c, n.height, z, inputs) == Some(e)
  }

  ghost predicate Steps(n: Contracts.Net, z: RootState, x: RootInput, e: RootState)
    requires n.height <= MAX_DEPTH
  {
    forall k {:trigger LooksInside(ProofPart, k)} :: LooksInside(ProofPart, k) ==>
      RootStepOk(n.c, n.height, z, x) && RootStepNext(n.c, z, x) == e
  }

  ghost predicate Folds(n: Contracts.Net, log: seq<Transfer>, base: nat, end: nat, v: Ivc)
    requires n.height <= MAX_DEPTH && base <= end <= |log| && end < P
  {
    && v.start == StateOf(n.c, n.height, log[..base])
    && v.z == StateOf(n.c, n.height, log[..end])
    && Runs(n, v.start, v.inputs, v.z)
    && TransfersOf(v.inputs) == log[base..end] && |v.inputs| == end - base
  }

  ghost predicate GoodRecord(n: Contracts.Net, log: seq<Transfer>, base: nat, end: nat, r: Record)
    requires n.height <= MAX_DEPTH
  {
    GoodIvc(n, log, base, end, r.ivc) && r.chain == r.ivc.z.chain && r.root == r.ivc.z.root
  }

  ghost predicate RecordsGood(n: Contracts.Net, log: seq<Transfer>, records: map<nat, Record>, base: nat, compiled: nat)
    requires n.height <= MAX_DEPTH
  {
    forall i :: base < i <= compiled && i in records ==> GoodRecord(n, log, base, i, records[i])
  }

  ghost predicate Complete(records: map<nat, Record>, base: nat, compiled: nat) {
    forall i :: base < i <= compiled ==> i in records
  }

  /**
   The stored state describes work from its own base. Its proofs are complete, unless an alignment stopped between
   its delete and its write; then the proof of the compiled index is certainly gone.
   */
  ghost predicate Books(
    n: Contracts.Net, log: seq<Transfer>, ch: Contracts.Chain, records: map<nat, Record>, s: ProverState, cut: bool)
  {
    && n.height <= MAX_DEPTH
    && s.base == s.submitted <= s.compiled <= |log| && s.base in ch.proved
    && (forall k {:trigger LooksInside(BooksPart, k)} ::
          LooksInside(BooksPart, k) ==> BooksParts(n, log, ch, records, s, cut))
  }

  ghost predicate BooksParts(
    n: Contracts.Net, log: seq<Transfer>, ch: Contracts.Chain, records: map<nat, Record>, s: ProverState, cut: bool)
    requires n.height <= MAX_DEPTH
  {
    && RecordsGood(n, log, records, s.base, s.compiled)
    && (cut || Complete(records, s.base, s.compiled))
    && (cut && s.compiled > s.base ==> s.compiled !in records)
    && (s.pending.Some? ==>
          && s.pending.value.0 in ch.reserved && s.pending.value.0 <= |log|
          && s.pending.value.1 == ChainOf(n.c, 0, log[..s.pending.value.0]))
  }

  lemma BooksPending(
    n: Contracts.Net, log: seq<Transfer>, ch: Contracts.Chain, records: map<nat, Record>, s: ProverState, cut: bool)
    requires Books(n, log, ch, records, s, cut) && s.pending.Some?
    ensures s.pending.value.0 in ch.reserved && s.pending.value.0 <= |log|
    ensures s.pending.value.1 == ChainOf(n.c, 0, log[..s.pending.value.0])
  {
    assert LooksInside(BooksPart, 0);
  }

  /** The proof of the compiled index: there and good, unless the state was cut. */
  lemma BooksLast(
    n: Contracts.Net, log: seq<Transfer>, ch: Contracts.Chain, records: map<nat, Record>, s: ProverState, cut: bool)
    requires Books(n, log, ch, records, s, cut) && s.base < s.compiled
    ensures s.compiled in records <==> !cut
    ensures s.compiled in records ==>
              GoodRecord(n, log, s.base, s.compiled, records[s.compiled]) && Complete(records, s.base, s.compiled)
  {
    assert LooksInside(BooksPart, 0);
  }

  /** The proofs a compile run has stored beyond the recorded compiled index, and the one it holds. */
  ghost predicate Ahead(
    n: Contracts.Net, log: seq<Transfer>, records: map<nat, Record>, s: ProverState, current: nat, v: Ivc)
  {
    && n.height <= MAX_DEPTH
    && GoodIvc(n, log, s.base, current, v)
    && (forall k {:trigger LooksInside(BooksPart, k)} :: LooksInside(BooksPart, k) ==>
          RecordsGood(n, log, records, s.base, current) && Complete(records, s.compiled, current))
  }

  /** Time passing on the chain changes nothing the state relies on. */
  lemma BooksLater(
    n: Contracts.Net, log: seq<Transfer>, ch: Contracts.Chain, ch': Contracts.Chain, records: map<nat, Record>,
    s: ProverState, cut: bool)
    requires Books(n, log, ch, records, s, cut)
    requires ch.reserved.Keys <= ch'.reserved.Keys && ch.proved.Keys <= ch'.proved.Keys
    ensures Books(n, log, ch', records, s, cut)
  {
    assert LooksInside(BooksPart, 0);
  }

  lemma {:induction false} RunRootSnoc(c: Suite, depth: nat, z: RootState, inputs: seq<RootInput>, x: RootInput)
    requires depth <= MAX_DEPTH && RunRoot(c, depth, z, inputs).Some?
    ensures var e := RunRoot(c, depth, z, inputs).value;
            RunRoot(c, depth, z, inputs + [x])
            == if RootStepOk(c, depth, e, x) then Some(RootStepNext(c, e, x)) else None
    decreases |inputs|
  {
    if inputs == [] {
      assert [] + [x] == [x];
    } else {
      assert (inputs + [x])[1..] == inputs[1..] + [x];
      RunRootSnoc(c, depth, RootStepNext(c, z, inputs[0]), inputs[1..], x);
    }
  }

  lemma RunsSnoc(n: Contracts.Net, z: RootState, inputs: seq<RootInput>, e: RootState, x: RootInput, e': RootState)
    requires n.height <= MAX_DEPTH && Runs(n, z, inputs, e) && Steps(n, e, x, e')
    ensures Runs(n, z, inputs + [x], e')
  {
    assert LooksInside(ProofPart, 0);
    RunRootSnoc(n.c, n.height, z, inputs, x);
  }

  lemma {:induction false} TransfersSnoc(inputs: seq<RootInput>, x: RootInput)
    requires !x.isDummy
    ensures TransfersOf(inputs + [x]) == TransfersOf(inputs) + [Transfer(x.address, x.value)]
    decreases |inputs|
  {
    if inputs == [] {
      assert [] + [x] == [x];
    } else {
      var head := if inputs[0].isDummy then [] else [Transfer(inputs[0].address, inputs[0].value)];
      assert (inputs + [x])[0] == inputs[0] && (inputs + [x])[1..] == inputs[1..] + [x];
      TransfersSnoc(inputs[1..], x);
      assert TransfersOf(inputs) == head + TransfersOf(inputs[1..]);
      assert TransfersOf(inputs + [x]) == head + (TransfersOf(inputs[1..]) + [Transfer(x.address, x.value)]);
    }
  }

  lemma FoldsNext(n: Contracts.Net, log: seq<Transfer>, base: nat, i: nat, v: Ivc, x: RootInput, e: RootState)
    requires n.height <= MAX_DEPTH && base <= i < |log| && i + 1 < P && Folds(n, log, base, i, v)
    requires !x.isDummy && Transfer(x.address, x.value) == log[i]
    requires Steps(n, v.z, x, e) && e == StateOf(n.c, n.height, log[..i + 1])
    ensures Folds(n, log, base, i + 1, Ivc(v.start, v.inputs + [x], e))
  {
    RunsSnoc(n, v.start, v.inputs, v.z, x, e);
    TransfersSnoc(v.inputs, x);
    assert log[base..i] + [log[i]] == log[base..i + 1];
  }

  lemma HonestSteps(n: Contracts.Net, log: seq<Transfer>, i: nat, x: RootInput)
    requires n.height <= MAX_DEPTH && i < |log| && i < Pow2(n.height) && InRange(log[i])
    requires x == RootInput(false, log[i].to, log[i].value, Siblings(n.c.h, Leaves(n.c, log[..i + 1]), 0, i, n.height))
    ensures i + 1 < P
    ensures RootStepOk(n.c, n.height, StateOf(n.c, n.height, log[..i]), x)
    ensures RootStepNext(n.c, StateOf(n.c, n.height, log[..i]), x) == StateOf(n.c, n.height, log[..i + 1])
  {
    assert log[..i] + [log[i]] == log[..i + 1];
    HonestRootStep(n.c, n.height, log[..i], log[i]);
  }

  lemma RefusedWhenFull(n: Contracts.Net, z: RootState, x: RootInput)
    requires n.height <= MAX_DEPTH && z.index >= Pow2(n.height)
    ensures !RootStepOk(n.c, n.height, z, x)
  {
    BitLengthIff(z.index, n.height);
  }

  /** One compile step: with the siblings of the tree just after event `i`, the step is accepted exactly while
      the tree has room, and extends a good proof to a good proof. */
  lemma CompileStep(n: Contracts.Net, log: seq<Transfer>, base: nat, i: nat, v: Ivc, x: RootInput)
    requires Contracts.ValidNet(n) && i < |log| && GoodIvc(n, log, base, i, v) && InRange(log[i])
    requires x == RootInput(false, log[i].to, log[i].value, Siblings(n.c.h, Leaves(n.c, log[..i + 1]), 0, i, n.height))
    ensures RootStepOk(n.c, n.height, v.z, x) <==> i < Pow2(n.height)
    ensures i < Pow2(n.height) ==>
              GoodIvc(n, log, base, i + 1, Ivc(v.start, v.inputs + [x], RootStepNext(n.c, v.z, x)))
  {
    assert Folds(n, log, base, i, v) by { assert LooksInside(ProofPart, 0); }
    if i < Pow2(n.height) {
      HonestSteps(n, log, i, x);
      FoldsNext(n, log, base, i, v, x, RootStepNext(n.c, v.z, x));
    } else {
      RefusedWhenFull(n, v.z, x);
    }
  }

  /** The step that pads a one-step proof is accepted exactly while the tree has room. */
  lemma PadStep(n: Contracts.Net, log: seq<Transfer>, base: nat, end: nat, v: Ivc, x: RootInput)
    requires Contracts.ValidNet(n) && GoodIvc(n, log, base, end, v)
    requires x.isDummy && |x.siblings| == n.height && x.address < TWO_160 && x.value < TWO_248
    ensures RootStepOk(n.c, n.height, v.z, x) <==> end < Pow2(n.height)
    ensures end < Pow2(n.height) ==> Runs(n, v.start, v.inputs + [x], v.z)
  {
    assert LooksInside(ProofPart, 0);
    DummyRootStep(n.c, n.height, log[..end], x);
    RunRootSnoc(n.c, n.height, v.start, v.inputs, x);
  }

  // ------------------------------------------------------------- writes, and stops between them

  /** The state row and the proof rows. */
  datatype Tables = Tables(state: Option<ProverState>, records: map<nat, Record>)

  /** `ensure_state_alignment` stopped after `writes` writes: first all proofs are deleted, then the state is
      written. */
  function AlignWrites(t: Tables, base: nat, writes: nat): Tables {
    if t.state.Some? && t.state.value.base == base then t
    else if writes == 0 then t
    else if writes == 1 then Tables(t.state, map[])
    else Tables(Some(Fresh(base)), map[])
  }

  /** The writes after a confirmed submission, stopped after `writes` of them: reset, then delete. */
  function SubmitWrites(t: Tables, target: nat, writes: nat): Tables {
    if writes == 0 then t
    else if writes == 1 then Tables(Some(Fresh(target)), t.records)
    else Tables(Some(Fresh(target)), map[])
  }

  /** Storing a run of proofs, one row after the other. */
  function StoreAll(records: map<nat, Record>, base: nat, from: nat, proofs: seq<Ivc>): map<nat, Record> {
    if proofs == [] then records
    else
      var i := |proofs| - 1;
      Upsert(StoreAll(records, base, from, proofs[..i]), from + |proofs|, RecordOf(base, proofs[i]))
  }

  lemma StoreNext(records: map<nat, Record>, base: nat, from: nat, proofs: seq<Ivc>, v: Ivc)
    ensures StoreAll(records, base, from, proofs + [v])
         == Upsert(StoreAll(records, base, from, proofs), from + |proofs| + 1, RecordOf(base, v))
  {
    assert (proofs + [v])[..|proofs|] == proofs;
  }

  /** The rows are those of storing the proofs one after the other. */
  ghost predicate StoredAs(
    before: map<nat, Record>, base: nat, from: nat, proofs: seq<Ivc>, records: map<nat, Record>)
  {
    forall k {:trigger LooksInside(ProofPart, k)} ::
      LooksInside(ProofPart, k) ==> records == StoreAll(before, base, from, proofs)
  }

  lemma StoredAsNone(before: map<nat, Record>, base: nat, from: nat)
    ensures StoredAs(before, base, from, [], before)
  {
  }

  lemma StoredAsNext(
    before: map<nat, Record>, base: nat, from: nat, proofs: seq<Ivc>, records: map<nat, Record>, v: Ivc, end: nat)
    requires StoredAs(before, base, from, proofs, records) && end == from + |proofs| + 1
    ensures StoredAs(before, base, from, proofs + [v], Upsert(records, end, RecordOf(base, v)))
  {
    assert LooksInside(ProofPart, 0);
    StoreNext(before, base, from, proofs, v);
  }

  lemma StoredAsIs(before: map<nat, Record>, base: nat, from: nat, proofs: seq<Ivc>, records: map<nat, Record>)
    requires StoredAs(before, base, from, proofs, records)
    ensures records == StoreAll(before, base, from, proofs)
  {
    assert LooksInside(ProofPart, 0);
  }

  /** The rows agree in everything the prover ever reads. */
  predicate SameProof(a: Record, b: Record) { a.ivc == b.ivc && a.chain == b.chain && a.root == b.root }

  /** What was stored before does not show in the proofs read back; it shows in the start index, which keeps
      the oldest value. */
  lemma {:induction false} StoredAt(records: map<nat, Record>, base: nat, from: nat, proofs: seq<Ivc>, i: nat)
    ensures var stored := StoreAll(records, base, from, proofs);
            if from < i <= from + |proofs|
            then && i in stored
                 && SameProof(stored[i], RecordOf(base, proofs[i - from - 1]))
                 && stored[i].startIndex == (if i in records then records[i].startIndex else base)
            else (i in stored <==> i in records) && (i in records ==> stored[i] == records[i])
  {
    if proofs == [] {
    } else {
      StoredAt(records, base, from, proofs[..|proofs| - 1], i);
    }
  }

  /**
   Recovery. Wherever the writes after a confirmed submission stop, the next full alignment to the submitted index
   reaches the state of the undisturbed path, and every proof compiled from there reads back the same.
   */
  lemma RecoveryAgrees(t: Tables, target: nat, writes: nat, proofs: seq<Ivc>, i: nat)
    requires t.state.Some? && t.state.value.base < target < i <= target + |proofs|
    ensures var found := AlignWrites(SubmitWrites(t, target, writes), target, 2);
            var undisturbed := SubmitWrites(t, target, 2);
            && found.state == undisturbed.state
            && i in StoreAll(found.records, target, target, proofs)
            && i in StoreAll(undisturbed.records, target, target, proofs)
            && SameProof(StoreAll(found.records, target, target, proofs)[i],
                         StoreAll(undisturbed.records, target, target, proofs)[i])
  {
    StoredAt(AlignWrites(SubmitWrites(t, target, writes), target, 2).records, target, target, proofs, i);
    StoredAt(SubmitWrites(t, target, 2).records, target, target, proofs, i);
  }

  /** The start column of a recovered row tells where its proof starts exactly when no older row with another
      start survived: after a stop between reset and delete a row left beyond the compiled index keeps its own. */
  lemma StartColumnIff(t: Tables, target: nat, writes: nat, proofs: seq<Ivc>, i: nat)
    requires t.state.Some? && t.state.value.base < target < i <= target + |proofs|
    ensures var found := AlignWrites(SubmitWrites(t, target, writes), target, 2);
            var stored := StoreAll(found.records, target, target, proofs);
            && i in stored
            && (stored[i].startIndex == target
                <==> writes != 1 || i !in t.records || t.records[i].startIndex == target)
  {
    StoredAt(AlignWrites(SubmitWrites(t, target, writes), target, 2).records, target, target, proofs, i);
  }
}
