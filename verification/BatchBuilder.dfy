/** The client side: global paths, the sorted proof list and the batch of real and dummy steps. */
module BatchBuilder {
  import opened Field
  import opened Crypto
  import opened Merkle
  import opened Base
  import opened Burn
  import opened WithdrawCircuit

  // ----------------------------------------------------------------- path composition

  /** `(a << height) + e`. */
  function GlobalIndex(height: nat, a: nat, e: nat): nat { Pow2(height) * a + e }

  lemma SplitIndex(height: nat, a: nat, e: nat)
    requires e < Pow2(height)
    ensures Shr(GlobalIndex(height, a, e), height) == a && Low(GlobalIndex(height, a, e), height) == e
  {
    ShrLowUnique(GlobalIndex(height, a, e), height, a, e);
  }

  lemma IndexOfParts(height: nat, v: nat)
    ensures v == GlobalIndex(height, Shr(v, height), Low(v, height)) && Low(v, height) < Pow2(height)
  {
    ShrLow(v, height);
  }

  /** Folding along the extended path is folding locally and then along the aggregation path. */
  lemma PathComposition(h: Hash, height: nat, a: nat, e: nat, leaf: Fr, local: seq<Fr>, upper: seq<Fr>)
    requires e < Pow2(height) && |local| == height
    ensures Fold(h, leaf, GlobalIndex(height, a, e), local + upper) == Fold(h, Fold(h, leaf, e, local), a, upper)
  {
    var v := GlobalIndex(height, a, e);
    SplitIndex(height, a, e);
    FoldConcat(h, leaf, v, local, upper);
    FoldLowBits(h, leaf, v, local);
  }

  /** Global indices order transfers by chain position and then by event index, without clashes. */
  lemma GlobalOrder(height: nat, a: nat, e: nat, b: nat, f: nat)
    requires e < Pow2(height) && f < Pow2(height)
    ensures GlobalIndex(height, a, e) < GlobalIndex(height, b, f) <==> a < b || (a == b && e < f)
    ensures GlobalIndex(height, a, e) == GlobalIndex(height, b, f) <==> a == b && e == f
  {
    if a < b { NextBlock(Pow2(height), a, b); }
    if b < a { NextBlock(Pow2(height), b, a); }
  }

  lemma {:induction false} NextBlock(m: nat, a: nat, b: nat)
    requires a < b
    ensures m * a + m <= m * b
    decreases b
  {
    assert m * b == m * (b - 1) + m;
    if a < b - 1 { NextBlock(m, a, b - 1); }
  }

  /** An event index past the local tree lands in a later chain's range. */
  lemma IndexPastTreeClashes(height: nat, a: nat, e: nat)
    requires e >= Pow2(height)
    ensures GlobalIndex(height, a, e) == GlobalIndex(height, a + 1, e - Pow2(height))
  {
    assert Pow2(height) * (a + 1) == Pow2(height) * a + Pow2(height);
  }

  // ------------------------------------------------------------------- global proofs

  /** A leaf with its path in its own chain's tree. */
  datatype LocalProof = LocalProof(eventIndex: nat, transfer: Transfer, siblings: seq<Fr>)

  /** A leaf with its path in the aggregated tree. */
  datatype GlobalProof = GlobalProof(transfer: Transfer, leafIndex: nat, siblings: seq<Fr>)

  /** Chain ids in slot order, the transfer roots in those slots, and the root over them. */
  datatype AggregationState = AggregationState(chainIds: seq<nat>, roots: seq<Fr>, height: nat, root: Fr)

  datatype BuildError = UnknownChain(id: nat) | InvalidProof(index: nat)

  datatype Result<T> = Done(value: T) | Failed(error: BuildError)

  /** First position of an id, or the length. */
  function Position(ids: seq<nat>, id: nat): (i: nat)
    ensures i <= |ids|
    ensures i < |ids| <==> id in ids
    ensures i < |ids| ==> ids[i] == id
  {
    if ids == [] then 0 else if ids[0] == id then 0 else 1 + Position(ids[1..], id)
  }

  function Extend(c: Suite, height: nat, g: AggregationState, id: nat, w: LocalProof): GlobalProof {
    var a := Position(g.chainIds, id);
    GlobalProof(w.transfer, GlobalIndex(height, a, w.eventIndex), w.siblings + Siblings(c.h, g.roots, 0, a, g.height))
  }

  predicate LeadsToRoot(c: Suite, g: AggregationState, p: GlobalProof) {
    Fold(c.h, Leaf(c, p.transfer), p.leafIndex, p.siblings) == g.root
  }

  predicate WitnessOk(c: Suite, height: nat, g: AggregationState, id: nat, w: LocalProof) {
    LeadsToRoot(c, g, Extend(c, height, g, id, w))
  }

  predicate GroupOk(c: Suite, height: nat, g: AggregationState, group: (nat, seq<LocalProof>)) {
    group.0 in g.chainIds && forall i :: 0 <= i < |group.1| ==> WitnessOk(c, height, g, group.0, group.1[i])
  }

  /** The error names the group's unknown chain, or the index of a proof in it that does not lead to the root. */
  predicate FailedBy(c: Suite, height: nat, g: AggregationState, group: (nat, seq<LocalProof>), error: BuildError) {
    match error
    case UnknownChain(id) => id == group.0 && id !in g.chainIds
    case InvalidProof(index) =>
      && group.0 in g.chainIds
      && exists i :: 0 <= i < |group.1| && !WitnessOk(c, height, g, group.0, group.1[i])
                     && index == Extend(c, height, g, group.0, group.1[i]).leafIndex
  }

  function ExtendAll(c: Suite, height: nat, g: AggregationState, id: nat, ws: seq<LocalProof>): seq<GlobalProof> {
    seq(|ws|, i requires 0 <= i < |ws| => Extend(c, height, g, id, ws[i]))
  }

  function Flatten(c: Suite, height: nat, g: AggregationState, groups: seq<(nat, seq<LocalProof>)>): seq<GlobalProof> {
    if groups == [] then []
    else
      var last := groups[|groups| - 1];
      Flatten(c, height, g, groups[..|groups| - 1]) + ExtendAll(c, height, g, last.0, last.1)
  }

  predicate SortedByIndex(ps: seq<GlobalProof>) {
    forall i, j :: 0 <= i < j < |ps| ==> ps[i].leafIndex <= ps[j].leafIndex
  }

  /** Places a proof behind all proofs with an index not greater than its own. */
  function Insert(ps: seq<GlobalProof>, p: GlobalProof): seq<GlobalProof> {
    if ps == [] || ps[|ps| - 1].leafIndex <= p.leafIndex then ps + [p]
    else Insert(ps[..|ps| - 1], p) + [ps[|ps| - 1]]
  }

  lemma {:induction false} InsertKeepsAll(ps: seq<GlobalProof>, p: GlobalProof)
    ensures multiset(Insert(ps, p)) == multiset(ps) + multiset{p}
  {
    if ps == [] || ps[|ps| - 1].leafIndex <= p.leafIndex {
    } else {
      InsertKeepsAll(ps[..|ps| - 1], p);
      assert ps == ps[..|ps| - 1] + [ps[|ps| - 1]];
    }
  }

  lemma {:induction false} InsertSorts(ps: seq<GlobalProof>, p: GlobalProof)
    requires SortedByIndex(ps)
    ensures SortedByIndex(Insert(ps, p))
  {
    if ps == [] || ps[|ps| - 1].leafIndex <= p.leafIndex {
    } else {
      var front, last := ps[..|ps| - 1], ps[|ps| - 1];
      InsertSorts(front, p);
      InsertKeepsAll(front, p);
      InsertBelow(front, p, Insert(front, p), last);
    }
  }

  lemma InsertBelow(ps: seq<GlobalProof>, p: GlobalProof, front: seq<GlobalProof>, last: GlobalProof)
    requires multiset(front) == multiset(ps) + multiset{p} && p.leafIndex <= last.leafIndex
    requires forall q :: q in ps ==> q.leafIndex <= last.leafIndex
    ensures forall i :: 0 <= i < |front| ==> front[i].leafIndex <= last.leafIndex
  {
    forall i | 0 <= i < |front| ensures front[i].leafIndex <= last.leafIndex {
      assert front[i] in multiset(front);
    }
  }

  /** The proofs with a given index, in their order. */
  function WithIndex(ps: seq<GlobalProof>, index: nat): seq<GlobalProof> {
    if ps == [] then []
    else
      var last := ps[|ps| - 1];
      WithIndex(ps[..|ps| - 1], index) + if last.leafIndex == index then [last] else []
  }

  lemma WithIndexNext(ps: seq<GlobalProof>, p: GlobalProof, index: nat)
    ensures WithIndex(ps + [p], index) == WithIndex(ps, index) + if p.leafIndex == index then [p] else []
  {
    assert (ps + [p])[..|ps|] == ps;
  }

  /** Insertion puts a proof behind those with its own index and leaves the order of all others. */
  lemma {:induction false} InsertIsStable(ps: seq<GlobalProof>, p: GlobalProof, index: nat)
    ensures WithIndex(Insert(ps, p), index) == WithIndex(ps, index) + if p.leafIndex == index then [p] else []
  {
    if ps == [] || ps[|ps| - 1].leafIndex <= p.leafIndex {
      WithIndexNext(ps, p, index);
    } else {
      var front, last := ps[..|ps| - 1], ps[|ps| - 1];
      InsertIsStable(front, p, index);
      WithIndexNext(Insert(front, p), last, index);
      assert WithIndex(ps, index) == WithIndex(front, index) + if last.leafIndex == index then [last] else [];
      if p.leafIndex == index {
        assert WithIndex(ps, index) == WithIndex(front, index);
      }
    }
  }

  /** A stable sort by global leaf index. */
  method SortProofs(ps: seq<GlobalProof>) returns (r: seq<GlobalProof>)
    ensures SortedByIndex(r) && multiset(r) == multiset(ps)
    ensures forall index: nat :: WithIndex(r, index) == WithIndex(ps, index)
  {
    r := [];
    var i := 0;
    while i < |ps|
      invariant 0 <= i <= |ps| && SortedByIndex(r) && multiset(r) == multiset(ps[..i])
      invariant forall index: nat :: WithIndex(r, index) == WithIndex(ps[..i], index)
    {
      assert ps[..i + 1] == ps[..i] + [ps[i]];
      ghost var before := r;
      InsertSorts(r, ps[i]);
      InsertKeepsAll(r, ps[i]);
      r := Insert(r, ps[i]);
      forall index: nat ensures WithIndex(r, index) == WithIndex(ps[..i + 1], index) {
        InsertIsStable(before, ps[i], index);
        WithIndexNext(ps[..i], ps[i], index);
      }
      i := i + 1;
    }
    assert ps[..i] == ps;
  }

  /** The inner loop: extends and checks the proofs of one chain. */
  method ExtendGroup(
    c: Suite, height: nat, g: AggregationState, id: nat, ws: seq<LocalProof>)
    returns (r: Result<seq<GlobalProof>>)
    requires id in g.chainIds
    ensures r.Done? <==> GroupOk(c, height, g, (id, ws))
    ensures r.Done? ==> r.value == ExtendAll(c, height, g, id, ws)
    ensures r.Failed? ==> FailedBy(c, height, g, (id, ws), r.error)
  {
    var a := Position(g.chainIds, id);
    var upper := Siblings(c.h, g.roots, 0, a, g.height);
    var out: seq<GlobalProof> := [];
    var i := 0;
    while i < |ws|
      invariant 0 <= i <= |ws| && out == ExtendAll(c, height, g, id, ws[..i])
      invariant forall k :: 0 <= k < i ==> WitnessOk(c, height, g, id, ws[k])
    {
      var w := ws[i];
      var index := GlobalIndex(height, a, w.eventIndex);
      var siblings := w.siblings + upper;
      assert Extend(c, height, g, id, w) == GlobalProof(w.transfer, index, siblings);
      if Fold(c.h, Leaf(c, w.transfer), index, siblings) != g.root {
        assert !WitnessOk(c, height, g, id, ws[i]);
        return Failed(InvalidProof(index));
      }
      out := out + [GlobalProof(w.transfer, index, siblings)];
      i := i + 1;
    }
    assert ws[..i] == ws;
    return Done(out);
  }

  /** `generate_global_teleport_merkle_proofs`: groups come in any order; the result holds exactly their extended
      proofs, in index order, and all of them lead to the aggregation root. */
  method GlobalProofs(
    c: Suite, height: nat, g: AggregationState, groups: seq<(nat, seq<LocalProof>)>)
    returns (r: Result<seq<GlobalProof>>)
    ensures r.Done? <==> forall k :: 0 <= k < |groups| ==> GroupOk(c, height, g, groups[k])
    ensures r.Done? ==> SortedByIndex(r.value) && multiset(r.value) == multiset(Flatten(c, height, g, groups))
    ensures r.Failed? ==> exists k :: 0 <= k < |groups| && FailedBy(c, height, g, groups[k], r.error)
  {
    var out: seq<GlobalProof> := [];
    var k := 0;
    while k < |groups|
      invariant 0 <= k <= |groups| && out == Flatten(c, height, g, groups[..k])
      invariant forall j :: 0 <= j < k ==> GroupOk(c, height, g, groups[j])
    {
      if Position(g.chainIds, groups[k].0) == |g.chainIds| {
        assert !GroupOk(c, height, g, groups[k]) && FailedBy(c, height, g, groups[k], UnknownChain(groups[k].0));
        return Failed(UnknownChain(groups[k].0));
      }
      var part := ExtendGroup(c, height, g, groups[k].0, groups[k].1);
      if part.Failed? {
        assert !GroupOk(c, height, g, groups[k]) && FailedBy(c, height, g, groups[k], part.error);
        return Failed(part.error);
      }
      assert groups[..k + 1][..k] == groups[..k] && GroupOk(c, height, g, groups[k]);
      out := out + part.value;
      k := k + 1;
    }
    assert groups[..k] == groups;
    var sorted := SortProofs(out);
    return Done(sorted);
  }

  /** A true local proof under a slot of the aggregation tree is never refused. */
  lemma TrueProofAccepted(c: Suite, height: nat, g: AggregationState, id: nat, w: LocalProof)
    requires id in g.chainIds && |g.chainIds| == |g.roots| <= Pow2(g.height) && g.root == Root(c.h, g.roots, g.height)
    requires w.eventIndex < Pow2(height) && |w.siblings| == height
    requires Fold(c.h, Leaf(c, w.transfer), w.eventIndex, w.siblings) == g.roots[Position(g.chainIds, id)]
    ensures WitnessOk(c, height, g, id, w)
  {
    var a := Position(g.chainIds, id);
    var upper := Siblings(c.h, g.roots, 0, a, g.height);
    PathComposition(c.h, height, a, w.eventIndex, Leaf(c, w.transfer), w.siblings, upper);
    FoldSiblings(c.h, g.roots, 0, a, g.height);
    ShrZeroIff(a, g.height);
  }

  // ------------------------------------------------------------------ the batch of steps

  /** `dummy_withdraw_ext_input`. */
  function DummyInput(depth: nat, index: Fr, value: Fr): WithdrawInput {
    WithdrawInput(true, value, 0, index, seq(depth, i => 0))
  }

  /** Zero-valued dummies at consecutive indices. */
  function Dummies(depth: nat, offset: nat, n: nat): (r: seq<WithdrawInput>)
    requires offset + n < P
    ensures |r| == n
  {
    seq(n, i requires 0 <= i < n => DummyInput(depth, offset + i, 0))
  }

  /** The real steps, one per proof. */
  function RealInputs(values: seq<Fr>, paths: seq<seq<Fr>>, indices: seq<Fr>, secrets: seq<Fr>): (r: seq<WithdrawInput>)
    requires |values| == |paths| == |indices| == |secrets|
    ensures |r| == |values|
  {
    seq(|values|, i requires 0 <= i < |values| => WithdrawInput(false, values[i], secrets[i], indices[i], paths[i]))
  }

  /** The inputs `batch_teleport_proof` folds: real steps, then dummies up to the last but one leaf. The number
      of dummies is drawn by the caller, from one to nine. */
  method BuildInputs(depth: nat, values: seq<Fr>, paths: seq<seq<Fr>>, indices: seq<Fr>, secrets: seq<Fr>, dummies: nat)
    returns (r: Option<seq<WithdrawInput>>)
    requires depth <= MAX_DEPTH && dummies < Pow2(depth)
    ensures r.Some? <==>
              && |values| == |paths| == |indices| == |secrets|
              && forall i :: 0 <= i < |paths| ==> |paths[i]| == depth
    ensures Pow2(depth) < P
    ensures r.Some? ==>
              r.value == RealInputs(values, paths, indices, secrets)
                         + Dummies(depth, Pow2(depth) - 1 - dummies, dummies)
  {
    DepthBelowField(depth);
    if |values| != |paths| || |values| != |indices| || |values| != |secrets| { return None; }
    var inputs: seq<WithdrawInput> := [];
    var i := 0;
    while i < |values|
      invariant 0 <= i <= |values| && inputs == RealInputs(values, paths, indices, secrets)[..i]
      invariant forall k :: 0 <= k < i ==> |paths[k]| == depth
    {
      if |paths[i]| != depth { return None; }
      inputs := inputs + [WithdrawInput(false, values[i], secrets[i], indices[i], paths[i])];
      i := i + 1;
    }
    var offset := Pow2(depth) - 1 - dummies;
    ghost var reals := inputs;
    var k := 0;
    while k < dummies
      invariant 0 <= k <= dummies && inputs == reals + Dummies(depth, offset, dummies)[..k]
    {
      inputs := inputs + [DummyInput(depth, offset + k, 0)];
      k := k + 1;
    }
    return Some(inputs);
  }

  // --------------------------------------------------------------------- which batches pass

  lemma {:induction false} IncreasingConcat(a: seq<WithdrawInput>, b: seq<WithdrawInput>, last: nat, limit: nat)
    ensures Increasing(a + b, last, limit) <==> Increasing(a, last, limit) && Increasing(b, LastOf(a, last), limit)
    decreases |a|
  {
    if a == [] {
      assert a + b == b;
    } else {
      assert (a + b)[1..] == a[1..] + b;
      IncreasingConcat(a[1..], b, a[0].leafIndex + 1, limit);
      assert LastOf(a[1..], a[0].leafIndex + 1) == LastOf(a, last);
    }
  }

  /** Ending at or before `m` is staying below `m`. */
  lemma {:induction false} IncreasingBelow(a: seq<WithdrawInput>, last: nat, limit: nat, m: nat)
    requires last <= m <= limit
    ensures Increasing(a, last, limit) && LastOf(a, last) <= m <==> Increasing(a, last, m)
    decreases |a|
  {
    if a == [] {
    } else {
      var next := a[0].leafIndex + 1;
      assert LastOf(a[1..], next) == LastOf(a, last);
      if next <= m {
        IncreasingBelow(a[1..], next, limit, m);
      } else if Increasing(a, last, limit) {
        LastGrows(a[1..], next, limit);
      }
    }
  }

  lemma {:induction false} LastGrows(a: seq<WithdrawInput>, last: nat, limit: nat)
    requires Increasing(a, last, limit)
    ensures LastOf(a, last) >= last
    decreases |a|
  {
    if a == [] {
    } else {
      LastGrows(a[1..], a[0].leafIndex + 1, limit);
      assert LastOf(a[1..], a[0].leafIndex + 1) == LastOf(a, last);
    }
  }

  lemma {:induction false} DummiesIncrease(depth: nat, offset: nat, n: nat, last: nat, limit: nat)
    requires offset + n < P && n >= 1
    ensures Increasing(Dummies(depth, offset, n), last, limit) <==> last <= offset && offset + n <= limit
    ensures LastOf(Dummies(depth, offset, n), last) == offset + n
    decreases n
  {
    var d := Dummies(depth, offset, n);
    assert d[0] == DummyInput(depth, offset, 0) && d[n - 1] == DummyInput(depth, offset + n - 1, 0);
    if n > 1 {
      assert d[1..] == Dummies(depth, offset + 1, n - 1);
      DummiesIncrease(depth, offset + 1, n - 1, offset + 1, limit);
    } else {
      assert d[1..] == [];
    }
  }

  function Sum(values: seq<Fr>): nat { if values == [] then 0 else values[0] + Sum(values[1..]) }

  /** Totals of real steps only grow, so the last one decides. */
  lemma {:induction false} RealTotals(
    values: seq<Fr>, paths: seq<seq<Fr>>, indices: seq<Fr>, secrets: seq<Fr>, total: nat)
    requires |values| == |paths| == |indices| == |secrets|
    ensures var reals := RealInputs(values, paths, indices, secrets);
            && (TotalsInRange(reals, total) <==> total + Sum(values) < TWO_248)
            && SignedSum(reals) == Sum(values)
    decreases |values|
  {
    if values == [] {
    } else {
      RealTotals(values[1..], paths[1..], indices[1..], secrets[1..], total + values[0]);
      assert RealInputs(values, paths, indices, secrets)[1..]
          == RealInputs(values[1..], paths[1..], indices[1..], secrets[1..]);
    }
  }

  lemma {:induction false} TotalsConcat(a: seq<WithdrawInput>, depth: nat, offset: nat, n: nat, total: int)
    requires offset + n < P
    ensures TotalsInRange(a + Dummies(depth, offset, n), total) <==> TotalsInRange(a, total)
    ensures SignedSum(a + Dummies(depth, offset, n)) == SignedSum(a)
    decreases |a|, n
  {
    var d := Dummies(depth, offset, n);
    if a != [] {
      assert (a + d)[1..] == a[1..] + d;
      TotalsConcat(a[1..], depth, offset, n, total + Signed(a[0]));
    } else {
      assert a + d == d;
      if n != 0 {
        assert d[0] == DummyInput(depth, offset, 0);
        assert d[1..] == Dummies(depth, offset + 1, n - 1);
        assert [] + Dummies(depth, offset + 1, n - 1) == d[1..];
        TotalsConcat([], depth, offset + 1, n - 1, total);
      }
    }
  }

  lemma OpenConcat(h: Hash, depth: nat, root: Fr, recipient: Fr, a: seq<WithdrawInput>, offset: nat, n: nat)
    requires offset + n < P
    ensures AllOpen(h, depth, root, recipient, a + Dummies(depth, offset, n)) <==> AllOpen(h, depth, root, recipient, a)
  {
    var all := a + Dummies(depth, offset, n);
    assert forall i :: 0 <= i < |a| ==> all[i] == a[i];
    assert forall i :: |a| <= i < |all| ==> all[i] == DummyInput(depth, offset + i - |a|, 0);
  }

  /** Where real steps must end: at the first dummy, or at the end of the tree. */
  function RealLimit(depth: nat, dummies: nat): nat
    requires dummies < Pow2(depth)
  {
    if dummies == 0 then Pow2(depth) else Pow2(depth) - 1 - dummies
  }

  /** The slot after the batch's last step. */
  function EndSlot(depth: nat, indices: seq<Fr>, dummies: nat): nat
    requires dummies < Pow2(depth)
  {
    if dummies > 0 then Pow2(depth) - 1
    else if indices == [] then 0
    else (indices[|indices| - 1] as int) + 1
  }

  /**
   Batch completeness, exactly. The built sequence is accepted from zero if and only if the real indices strictly
   increase below the first dummy, every real step opens the root, and the values sum below `2^248`. The accepted
   run ends with that sum and, once there is a dummy, with the same last slot whatever the number of real steps or
   dummies. A batch without dummies, which the client never builds, may go up to the last leaf of the tree.
   */
  lemma BatchIff(
    c: Suite, depth: nat, root: Fr, recipient: Fr,
    values: seq<Fr>, paths: seq<seq<Fr>>, indices: seq<Fr>, secrets: seq<Fr>, dummies: nat,
    reals: seq<WithdrawInput>, batch: seq<WithdrawInput>)
    requires depth <= MAX_DEPTH && dummies < Pow2(depth) < P
    requires |values| == |paths| == |indices| == |secrets| && reals == RealInputs(values, paths, indices, secrets)
    requires batch == reals + Dummies(depth, Pow2(depth) - 1 - dummies, dummies)
    ensures var run := RunWithdraw(c, depth, Initial(root, recipient), batch);
            && (run.Some? <==>
                  && Increasing(reals, 0, RealLimit(depth, dummies))
                  && AllOpen(c.h, depth, root, recipient, reals)
                  && Sum(values) < TWO_248)
            && (run.Some? ==>
                  && run.value.root == root && run.value.recipient == recipient
                  && run.value.last == EndSlot(depth, indices, dummies) && run.value.total == Sum(values))
  {
    WithdrawRunIff(c, depth, Initial(root, recipient), batch);
    if dummies == 0 {
      assert batch == reals;
      RealTotals(values, paths, indices, secrets, 0);
    } else {
      BatchMeaning(c, depth, root, recipient, values, paths, indices, secrets, dummies, reals, batch);
    }
  }

  /** What the run condition says about real steps followed by dummies. */
  lemma BatchMeaning(
    c: Suite, depth: nat, root: Fr, recipient: Fr,
    values: seq<Fr>, paths: seq<seq<Fr>>, indices: seq<Fr>, secrets: seq<Fr>, dummies: nat,
    reals: seq<WithdrawInput>, batch: seq<WithdrawInput>)
    requires 1 <= dummies < Pow2(depth) < P
    requires |values| == |paths| == |indices| == |secrets| && reals == RealInputs(values, paths, indices, secrets)
    requires batch == reals + Dummies(depth, Pow2(depth) - 1 - dummies, dummies)
    ensures RunMeaning(c, depth, Initial(root, recipient), batch) <==>
              && Increasing(reals, 0, Pow2(depth) - 1 - dummies)
              && AllOpen(c.h, depth, root, recipient, reals)
              && Sum(values) < TWO_248
    ensures SignedSum(batch) == Sum(values) && LastOf(batch, 0) == Pow2(depth) - 1
  {
    var offset := Pow2(depth) - 1 - dummies;
    var d := Dummies(depth, offset, dummies);
    IncreasingConcat(reals, d, 0, Pow2(depth));
    DummiesIncrease(depth, offset, dummies, LastOf(reals, 0), Pow2(depth));
    IncreasingBelow(reals, 0, Pow2(depth), offset);
    TotalsConcat(reals, depth, offset, dummies, 0);
    RealTotals(values, paths, indices, secrets, 0);
    OpenConcat(c.h, depth, root, recipient, reals, offset, dummies);
    assert batch[|batch| - 1] == d[dummies - 1];
  }
}
