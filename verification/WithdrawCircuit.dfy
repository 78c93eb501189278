/** The batch withdraw step, the single withdraw circuit and what accepted runs guarantee. */
module WithdrawCircuit {
  import opened Field
  import opened Crypto
  import opened Merkle
  import opened Base
  import opened Burn
  import opened RootCircuit

  /** Folded state; `last` is the previous leaf index plus one, so zero means "none yet". */
  datatype WithdrawState = WithdrawState(root: Fr, recipient: Fr, last: Fr, total: Fr)

  datatype WithdrawInput =
    WithdrawInput(isDummy: bool, value: Fr, secret: Fr, leafIndex: Fr, siblings: seq<Fr>)

  function Initial(root: Fr, recipient: Fr): WithdrawState { WithdrawState(root, recipient, 0, 0) }

  /** `prev + value` for a real step and `prev - value` for a dummy, in the field. */
  function NewTotal(prev: Fr, value: Fr, isDummy: bool): Fr {
    var factor := Sub(1, Mul(BitFp(isDummy), 2));
    Add(prev, Mul(value, factor))
  }

  /** The index part: in range, and past the previous index. */
  predicate IndexOk(depth: nat, last: Fr, leafIndex: Fr)
    requires depth <= MAX_DEPTH
  {
    && BitLength(leafIndex, depth)
    && BitLength(last, depth + 1)
    && StrictLessThan(last, Add(leafIndex, 1), depth + 1)
  }

  /** The leaf part: proof of work and root, both switched off for a dummy. */
  predicate LeafOk(h: Hash, root: Fr, recipient: Fr, x: WithdrawInput)
    requires |x.siblings| <= FIELD_BITS
  {
    var burn := BurnAddressVar(h, recipient, x.secret, !x.isDummy);
    var computed := CircuitRoot(h, h(burn.value, x.value), x.leafIndex, x.siblings);
    burn.satisfied && Mul(Sub(root, computed), Sub(1, BitFp(x.isDummy))) == 0
  }

  /** The value part: value and new total fit in 31 bytes. */
  predicate TotalOk(prev: Fr, value: Fr, isDummy: bool) {
    BitLength(value, 248) && BitLength(NewTotal(prev, value, isDummy), 248)
  }

  /** All constraints of one `withdraw_step`. */
  predicate WithdrawStepOk(c: Suite, depth: nat, z: WithdrawState, x: WithdrawInput)
    requires depth <= MAX_DEPTH
  {
    && |x.siblings| == depth
    && IndexOk(depth, z.last, x.leafIndex)
    && LeafOk(c.h, z.root, z.recipient, x)
    && TotalOk(z.total, x.value, x.isDummy)
  }

  function WithdrawStepNext(z: WithdrawState, x: WithdrawInput): WithdrawState {
    WithdrawState(z.root, z.recipient, Add(x.leafIndex, 1), NewTotal(z.total, x.value, x.isDummy))
  }

  function RunWithdraw(c: Suite, depth: nat, z: WithdrawState, inputs: seq<WithdrawInput>): Option<WithdrawState>
    requires depth <= MAX_DEPTH
    decreases |inputs|
  {
    if inputs == [] then Some(z)
    else if WithdrawStepOk(c, depth, z, inputs[0]) then
      RunWithdraw(c, depth, WithdrawStepNext(z, inputs[0]), inputs[1..])
    else None
  }

  // -------------------------------------------------------------- meaning of a step

  /** A leaf opened against a root: proof of work, and a path from the claimed leaf to the root. */
  predicate Opens(h: Hash, root: Fr, recipient: Fr, x: WithdrawInput) {
    && HasPow(h, recipient, x.secret)
    && Fold(h, h(BurnAddress(h, recipient, x.secret), x.value), x.leafIndex, x.siblings) == root
  }

  /** Change of the total, over the integers. */
  function Signed(x: WithdrawInput): int { if x.isDummy then 0 - x.value else x.value }

  lemma IndexOkIff(depth: nat, last: Fr, leafIndex: Fr)
    requires depth <= MAX_DEPTH
    ensures IndexOk(depth, last, leafIndex) <==> last <= leafIndex < Pow2(depth)
    ensures leafIndex < Pow2(depth) ==> Add(leafIndex, 1) == leafIndex + 1
  {
    BitLengthIff(leafIndex, depth);
    if leafIndex < Pow2(depth) {
      BitLengthIff(last, depth + 1);
      NextIndex(depth, leafIndex);
      StrictLessThanIff(last, Add(leafIndex, 1), depth + 1);
    }
  }

  lemma NextIndex(depth: nat, index: Fr)
    requires depth <= MAX_DEPTH && index < Pow2(depth)
    ensures Add(index, 1) == index + 1 <= Pow2(depth) < Pow2(depth + 1)
  {
    DepthBelowField(depth);
  }

  lemma LeafOkIff(h: Hash, root: Fr, recipient: Fr, x: WithdrawInput)
    requires |x.siblings| <= FIELD_BITS
    ensures LeafOk(h, root, recipient, x) <==> x.isDummy || Opens(h, root, recipient, x)
  {
    NativeMatchesCircuit(h, recipient, x.secret, !x.isDummy);
    var leaf := h(BurnAddress(h, recipient, x.secret), x.value);
    CircuitRootIsFold(h, leaf, x.leafIndex, x.siblings);
    var computed := Fold(h, leaf, x.leafIndex, x.siblings);
    ProductWithFlag(Sub(root, computed), x.isDummy);
    assert Sub(root, computed) == 0 <==> root == computed;
  }

  lemma ProductWithFlag(d: Fr, isDummy: bool)
    ensures Mul(d, Sub(1, BitFp(isDummy))) == 0 <==> isDummy || d == 0
  {
    assert d * 0 == 0 && d * 1 == d;
  }

  lemma NewTotalIs(prev: Fr, value: Fr, isDummy: bool)
    ensures NewTotal(prev, value, isDummy) == if isDummy then Sub(prev, value) else Add(prev, value)
  {
    Factors();
    if isDummy {
      TimesMinusOne(value);
      AddNegated(prev, value);
    } else {
      TimesOne(value);
    }
  }

  lemma Factors()
    ensures Sub(1, Mul(BitFp(false), 2)) == 1
    ensures Sub(1, Mul(BitFp(true), 2)) == P - 1
  {
    assert Mul(0, 2) == 0 && Mul(1, 2) == 2;
  }

  lemma TimesOne(value: Fr)
    ensures Mul(value, 1) == value
  {
    assert value * 1 == value;
  }

  lemma AddNegated(a: Fr, b: Fr)
    ensures Add(a, Sub(0, b)) == Sub(a, b)
  {
    assert Sub(0, b) == if b == 0 then 0 else P - b;
  }

  lemma TimesMinusOne(value: Fr)
    ensures Mul(value, P - 1) == Sub(0, value)
  {
    assert value * (P - 1) == P * value + (0 - value);
    ModShift(0 - value, value);
  }

  lemma {:induction false} ModShift(a: int, k: nat)
    ensures (P * k + a) % P == a % P
  {
    if k == 0 {
    } else {
      ModShift(a, k - 1);
      assert P * k + a == P * (k - 1) + a + P;
      assert (P * (k - 1) + a + P) % P == (P * (k - 1) + a) % P;
    }
  }

  /** 31-byte totals cannot wrap around the field: an in-range result is the integer result. */
  lemma TotalOkIff(prev: Fr, x: WithdrawInput)
    requires prev < TWO_248
    ensures TotalOk(prev, x.value, x.isDummy) <==> x.value < TWO_248 && 0 <= prev + Signed(x) < TWO_248
    ensures TotalOk(prev, x.value, x.isDummy) ==> NewTotal(prev, x.value, x.isDummy) == prev + Signed(x)
  {
    NewTotalIs(prev, x.value, x.isDummy);
    Fits248(x.value);
    Fits248(NewTotal(prev, x.value, x.isDummy));
    if x.value < TWO_248 {
      SumFits(prev, x.value);
      DifferenceFits(prev, x.value);
    }
  }

  lemma SumFits(a: Fr, b: Fr)
    requires a < TWO_248 && b < TWO_248
    ensures Add(a, b) == a + b
  {
    assert 2 * TWO_248 < P;
  }

  lemma DifferenceFits(a: Fr, b: Fr)
    requires a < TWO_248 && b < TWO_248
    ensures Sub(a, b) < TWO_248 <==> b <= a
    ensures b <= a ==> Sub(a, b) == a - b
  {
    assert 2 * TWO_248 < P;
  }

  /** What a step accepts, read over the integers. */
  predicate StepMeaning(c: Suite, depth: nat, z: WithdrawState, x: WithdrawInput) {
    && |x.siblings| == depth
    && z.last <= x.leafIndex < Pow2(depth)
    && (x.isDummy || Opens(c.h, z.root, z.recipient, x))
    && x.value < TWO_248
    && 0 <= z.total + Signed(x) < TWO_248
  }

  lemma WithdrawStepIff(c: Suite, depth: nat, z: WithdrawState, x: WithdrawInput)
    requires depth <= MAX_DEPTH && z.total < TWO_248
    ensures WithdrawStepOk(c, depth, z, x) <==> StepMeaning(c, depth, z, x)
    ensures StepMeaning(c, depth, z, x) ==>
      && x.leafIndex + 1 < P
      && WithdrawStepNext(z, x) == WithdrawState(z.root, z.recipient, x.leafIndex + 1, z.total + Signed(x))
  {
    DepthBelowField(depth);
    IndexOkIff(depth, z.last, x.leafIndex);
    TotalOkIff(z.total, x);
    if |x.siblings| == depth { LeafOkIff(c.h, z.root, z.recipient, x); }
  }

  // -------------------------------------------------------------- meaning of a run

  function SignedSum(inputs: seq<WithdrawInput>): int {
    if inputs == [] then 0 else Signed(inputs[0]) + SignedSum(inputs[1..])
  }

  /** Indices strictly increase from `last` on and stay inside the tree. */
  predicate Increasing(inputs: seq<WithdrawInput>, last: nat, limit: nat) {
    inputs == [] || (last <= inputs[0].leafIndex < limit && Increasing(inputs[1..], inputs[0].leafIndex + 1, limit))
  }

  /** Every prefix of the run keeps the total in range, over the integers. */
  predicate TotalsInRange(inputs: seq<WithdrawInput>, total: int) {
    && 0 <= total < TWO_248
    && (inputs == [] || (inputs[0].value < TWO_248 && TotalsInRange(inputs[1..], total + Signed(inputs[0]))))
  }

  predicate AllOpen(h: Hash, depth: nat, root: Fr, recipient: Fr, inputs: seq<WithdrawInput>) {
    forall i :: 0 <= i < |inputs| ==>
      |inputs[i].siblings| == depth && (!inputs[i].isDummy ==> Opens(h, root, recipient, inputs[i]))
  }

  predicate RunMeaning(c: Suite, depth: nat, z: WithdrawState, inputs: seq<WithdrawInput>) {
    && Increasing(inputs, z.last, Pow2(depth))
    && TotalsInRange(inputs, z.total)
    && AllOpen(c.h, depth, z.root, z.recipient, inputs)
  }

  function LastOf(inputs: seq<WithdrawInput>, last: nat): nat {
    if inputs == [] then last else inputs[|inputs| - 1].leafIndex + 1
  }

  /** Where an accepted run ends. */
  predicate RunEnds(z: WithdrawState, inputs: seq<WithdrawInput>, e: WithdrawState) {
    && e.root == z.root && e.recipient == z.recipient
    && e.total == z.total + SignedSum(inputs)
    && e.last == LastOf(inputs, z.last)
  }

  lemma RunMeaningCons(
    c: Suite, depth: nat, z: WithdrawState, x: WithdrawInput, rest: seq<WithdrawInput>, z1: WithdrawState)
    requires z.total < TWO_248
    requires StepMeaning(c, depth, z, x) ==>
               && z1.root == z.root && z1.recipient == z.recipient
               && z1.total == z.total + Signed(x) && z1.last == x.leafIndex + 1
    ensures RunMeaning(c, depth, z, [x] + rest)
      <==> StepMeaning(c, depth, z, x) && RunMeaning(c, depth, z1, rest)
  {
    var s := [x] + rest;
    assert s[0] == x && s[1..] == rest;
    AllOpenCons(c.h, depth, z.root, z.recipient, x, rest);
    TotalsHead(rest, z.total + Signed(x));
  }

  lemma RunUnfold(c: Suite, depth: nat, z: WithdrawState, x: WithdrawInput, rest: seq<WithdrawInput>)
    requires depth <= MAX_DEPTH
    ensures RunWithdraw(c, depth, z, [x] + rest)
      == if WithdrawStepOk(c, depth, z, x) then RunWithdraw(c, depth, WithdrawStepNext(z, x), rest) else None
  {
    var s := [x] + rest;
    assert s[0] == x && s[1..] == rest;
  }

  /** Exactly which runs are accepted, and where they end. */
  lemma {:induction false} WithdrawRunIff(c: Suite, depth: nat, z: WithdrawState, inputs: seq<WithdrawInput>)
    requires depth <= MAX_DEPTH && z.total < TWO_248
    ensures RunWithdraw(c, depth, z, inputs).Some? <==> RunMeaning(c, depth, z, inputs)
    ensures RunWithdraw(c, depth, z, inputs).Some?
      ==> RunEnds(z, inputs, RunWithdraw(c, depth, z, inputs).value)
    decreases |inputs|
  {
    if inputs == [] {
    } else {
      var x, rest := inputs[0], inputs[1..];
      assert inputs == [x] + rest;
      RunUnfold(c, depth, z, x, rest);
      WithdrawStepIff(c, depth, z, x);
      RunMeaningCons(c, depth, z, x, rest, WithdrawStepNext(z, x));
      if StepMeaning(c, depth, z, x) {
        var z1 := WithdrawStepNext(z, x);
        WithdrawRunIff(c, depth, z1, rest);
        if RunWithdraw(c, depth, z1, rest).Some? {
        }
      }
    }
  }

  lemma AllOpenCons(h: Hash, depth: nat, root: Fr, recipient: Fr, x: WithdrawInput, rest: seq<WithdrawInput>)
    ensures AllOpen(h, depth, root, recipient, [x] + rest)
      <==> && |x.siblings| == depth && (!x.isDummy ==> Opens(h, root, recipient, x))
           && AllOpen(h, depth, root, recipient, rest)
  {
    var s := [x] + rest;
    assert s[0] == x;
    assert forall i :: 0 <= i < |rest| ==> rest[i] == s[i + 1];
    assert forall i :: 1 <= i < |s| ==> s[i] == rest[i - 1];
  }

  lemma TotalsHead(inputs: seq<WithdrawInput>, total: int)
    ensures TotalsInRange(inputs, total) ==> 0 <= total < TWO_248
  {
  }

  lemma {:induction false} TotalsEnd(inputs: seq<WithdrawInput>, total: int)
    requires TotalsInRange(inputs, total)
    ensures 0 <= total + SignedSum(inputs) < TWO_248
    decreases |inputs|
  {
    if inputs == [] {
    } else {
      TotalsEnd(inputs[1..], total + Signed(inputs[0]));
    }
  }

  /** An accepted run satisfies all of its meaning and ends in range. */
  lemma AcceptedRun(c: Suite, depth: nat, z: WithdrawState, inputs: seq<WithdrawInput>, e: WithdrawState)
    requires depth <= MAX_DEPTH && z.total < TWO_248
    ensures RunWithdraw(c, depth, z, inputs) == Some(e) ==>
              RunMeaning(c, depth, z, inputs) && RunEnds(z, inputs, e) && e.total < TWO_248
  {
    WithdrawRunIff(c, depth, z, inputs);
    if RunMeaning(c, depth, z, inputs) { TotalsEnd(inputs, z.total); }
  }

  /** A run is no longer than the tree has leaves. */
  lemma {:induction false} RunLength(inputs: seq<WithdrawInput>, last: nat, limit: nat)
    requires Increasing(inputs, last, limit) && last <= limit
    ensures last + |inputs| <= limit
    decreases |inputs|
  {
    if inputs == [] {
    } else {
      RunLength(inputs[1..], inputs[0].leafIndex + 1, limit);
    }
  }

  // ------------------------------------------------------------------- no inflation

  /** The break found when an opened leaf is not the transfer at that place of the tree. */
  function OpeningBreach(c: Suite, ts: seq<Transfer>, recipient: Fr, x: WithdrawInput): Breach {
    var address := BurnAddress(c.h, recipient, x.secret);
    OrElse(PathBreach(c.h, Leaves(c, ts), 0, x.leafIndex, c.h(address, x.value), x.siblings),
           if x.leafIndex >= |ts| then ZeroPreimage(address, x.value)
           else
             var t := ts[x.leafIndex];
             if t == Transfer(address, x.value) then NoBreach
             else Collision(address, x.value, t.to, t.value))
  }

  /** An opening of the root of `ts` shows a transfer of that value to the secret's burn address. */
  lemma OpeningSound(c: Suite, depth: nat, ts: seq<Transfer>, recipient: Fr, x: WithdrawInput)
    requires |x.siblings| == depth && x.leafIndex < Pow2(depth)
    requires Opens(c.h, Root(c.h, Leaves(c, ts), depth), recipient, x)
    ensures var b := OpeningBreach(c, ts, recipient, x);
            if b.NoBreach?
            then x.leafIndex < |ts| && ts[x.leafIndex] == Transfer(BurnAddress(c.h, recipient, x.secret), x.value)
            else Genuine(c, b)
  {
    ShrZeroIff(x.leafIndex, depth);
    PathBinding(c, Leaves(c, ts), 0, x.leafIndex, c.h(BurnAddress(c.h, recipient, x.secret), x.value), x.siblings);
  }

  function RunBreach(c: Suite, ts: seq<Transfer>, recipient: Fr, inputs: seq<WithdrawInput>): Breach {
    if inputs == [] then NoBreach
    else OrElse(if inputs[0].isDummy then NoBreach else OpeningBreach(c, ts, recipient, inputs[0]),
                RunBreach(c, ts, recipient, inputs[1..]))
  }

  /** Sum of the values of the transfers of `ts` whose positions the real steps of the run open. */
  function OpenedValue(ts: seq<Transfer>, inputs: seq<WithdrawInput>): nat {
    if inputs == [] then 0
    else
      var x := inputs[0];
      (if !x.isDummy && x.leafIndex < |ts| then ts[x.leafIndex].value else 0) + OpenedValue(ts, inputs[1..])
  }

  /** The real steps of a run open transfers of `ts` to burn addresses of the recipient. */
  predicate RealStepsOpen(c: Suite, ts: seq<Transfer>, recipient: Fr, inputs: seq<WithdrawInput>) {
    forall i :: 0 <= i < |inputs| && !inputs[i].isDummy ==>
      && HasPow(c.h, recipient, inputs[i].secret)
      && inputs[i].leafIndex < |ts|
      && ts[inputs[i].leafIndex] == Transfer(BurnAddress(c.h, recipient, inputs[i].secret), inputs[i].value)
  }

  lemma {:induction false} OpeningsSound(
    c: Suite, depth: nat, ts: seq<Transfer>, recipient: Fr, inputs: seq<WithdrawInput>, last: nat)
    requires Increasing(inputs, last, Pow2(depth))
    requires AllOpen(c.h, depth, Root(c.h, Leaves(c, ts), depth), recipient, inputs)
    ensures var b := RunBreach(c, ts, recipient, inputs);
            if b.NoBreach? then RealStepsOpen(c, ts, recipient, inputs) else Genuine(c, b)
    decreases |inputs|
  {
    if inputs == [] {
    } else {
      var x, rest := inputs[0], inputs[1..];
      if !x.isDummy { OpeningSound(c, depth, ts, recipient, x); }
      OpeningsSound(c, depth, ts, recipient, rest, x.leafIndex + 1);
      assert forall i :: 1 <= i < |inputs| ==> inputs[i] == rest[i - 1];
    }
  }

  lemma {:induction false} SumWithinOpened(
    c: Suite, ts: seq<Transfer>, recipient: Fr, inputs: seq<WithdrawInput>)
    requires RealStepsOpen(c, ts, recipient, inputs)
    ensures SignedSum(inputs) <= OpenedValue(ts, inputs)
    decreases |inputs|
  {
    if inputs == [] {
    } else {
      var rest := inputs[1..];
      assert forall i :: 0 <= i < |rest| ==> rest[i] == inputs[i + 1];
      SumWithinOpened(c, ts, recipient, rest);
    }
  }

  /**
   No inflation. A run accepted from a zero total against the root of `ts` opens strictly increasing,
   hence distinct, positions; each real step shows a transfer of exactly its value to a burn address
   of the recipient whose secret the run holds; the final total is the integer sum of real values
   minus dummy values with every partial total in range, and at most the value opened; and the run
   has at most `2^depth` steps. Otherwise `RunBreach` is a genuine break.
   */
  lemma NoInflation(c: Suite, depth: nat, ts: seq<Transfer>, recipient: Fr, inputs: seq<WithdrawInput>)
    requires depth <= MAX_DEPTH
    ensures var b := RunBreach(c, ts, recipient, inputs);
            var run := RunWithdraw(c, depth, Initial(Root(c.h, Leaves(c, ts), depth), recipient), inputs);
            run.Some? ==>
              && Increasing(inputs, 0, Pow2(depth)) && |inputs| <= Pow2(depth)
              && TotalsInRange(inputs, 0) && run.value.total == SignedSum(inputs)
              && if b.NoBreach?
                 then RealStepsOpen(c, ts, recipient, inputs) && run.value.total <= OpenedValue(ts, inputs)
                 else Genuine(c, b)
  {
    var z := Initial(Root(c.h, Leaves(c, ts), depth), recipient);
    WithdrawRunIff(c, depth, z, inputs);
    if RunMeaning(c, depth, z, inputs) {
      RunLength(inputs, 0, Pow2(depth));
      OpeningsSound(c, depth, ts, recipient, inputs, 0);
      if RunBreach(c, ts, recipient, inputs).NoBreach? { SumWithinOpened(c, ts, recipient, inputs); }
    }
  }

  // ---------------------------------------------------------------- single withdraw

  /** All constraints of `single_withdraw`, for the same witness data as a real step plus `delta`. */
  predicate SingleOk(c: Suite, depth: nat, root: Fr, recipient: Fr, x: WithdrawInput, delta: Fr)
    requires depth <= MAX_DEPTH
  {
    var burn := BurnAddressVar(c.h, recipient, x.secret, true);
    && |x.siblings| == depth
    && BitLength(x.leafIndex, depth)
    && BitLength(x.value, 248)
    && BitLength(delta, 248)
    && burn.satisfied
    && root == CircuitRoot(c.h, c.h(burn.value, x.value), x.leafIndex, x.siblings)
    && BitLength(Sub(x.value, delta), 248)
  }

  lemma SingleIff(c: Suite, depth: nat, root: Fr, recipient: Fr, x: WithdrawInput, delta: Fr)
    requires depth <= MAX_DEPTH
    ensures SingleOk(c, depth, root, recipient, x, delta)
      <==> && |x.siblings| == depth
           && x.leafIndex < Pow2(depth)
           && delta <= x.value < TWO_248
           && Opens(c.h, root, recipient, x)
    ensures SingleOk(c, depth, root, recipient, x, delta) ==> Sub(x.value, delta) == x.value - delta
  {
    BitLengthIff(x.leafIndex, depth);
    Fits248(x.value);
    Fits248(delta);
    Fits248(Sub(x.value, delta));
    if x.value < TWO_248 && delta < TWO_248 { DifferenceFits(x.value, delta); }
    NativeMatchesCircuit(c.h, recipient, x.secret, true);
    if |x.siblings| == depth {
      CircuitRootIsFold(c.h, c.h(BurnAddress(c.h, recipient, x.secret), x.value), x.leafIndex, x.siblings);
    }
  }

  /** Single and batch agree: withdrawing `value - delta` from one leaf alone is accepted exactly when
      the two-step batch "that leaf, then a dummy worth `delta` at any later index" is, with equal totals. */
  lemma SingleIsTwoStepBatch(c: Suite, depth: nat, root: Fr, recipient: Fr, x: WithdrawInput, d: WithdrawInput)
    requires depth <= MAX_DEPTH && !x.isDummy
    requires d.isDummy && |d.siblings| == depth && x.leafIndex < d.leafIndex < Pow2(depth)
    ensures var run := RunWithdraw(c, depth, Initial(root, recipient), [x, d]);
            && (SingleOk(c, depth, root, recipient, x, d.value) <==> run.Some?)
            && (run.Some? ==> run.value.total == Sub(x.value, d.value))
  {
    var z := Initial(root, recipient);
    var z1 := WithdrawStepNext(z, x);
    SingleIff(c, depth, root, recipient, x, d.value);
    assert [x, d] == [x] + [d] && [d] == [d] + [];
    RunUnfold(c, depth, z, x, [d]);
    RunUnfold(c, depth, z1, d, []);
    WithdrawStepIff(c, depth, z, x);
    if StepMeaning(c, depth, z, x) {
      WithdrawStepIff(c, depth, z1, d);
    }
  }

  lemma PairIncreases(inputs: seq<WithdrawInput>, last: nat, limit: nat)
    requires |inputs| == 2 && Increasing(inputs, last, limit)
    ensures inputs[0].leafIndex < inputs[1].leafIndex < limit
  {
    assert Increasing(inputs[1..], inputs[0].leafIndex + 1, limit);
  }

  lemma TwoStepOrder(c: Suite, depth: nat, z: WithdrawState, inputs: seq<WithdrawInput>)
    requires depth <= MAX_DEPTH && |inputs| == 2 && z.total < TWO_248
    ensures RunWithdraw(c, depth, z, inputs).Some? ==> inputs[0].leafIndex < inputs[1].leafIndex < Pow2(depth)
  {
    WithdrawRunIff(c, depth, z, inputs);
    if RunMeaning(c, depth, z, inputs) { PairIncreases(inputs, z.last, Pow2(depth)); }
  }

  /** The agreement needs a later index: for the last leaf no two-step batch is accepted at all,
      while the single circuit treats it like any other leaf. */
  lemma LastLeafHasNoTwoStepBatch(c: Suite, depth: nat, z: WithdrawState, inputs: seq<WithdrawInput>)
    requires depth <= MAX_DEPTH && z.total < TWO_248
    requires |inputs| == 2 && inputs[0].leafIndex == Pow2(depth) - 1
    ensures RunWithdraw(c, depth, z, inputs).None?
  {
    TwoStepOrder(c, depth, z, inputs);
  }

  predicate DummyWorth(depth: nat, delta: Fr, d: WithdrawInput) {
    d.isDummy && d.value == delta && |d.siblings| == depth
  }

  /** The dummy right behind a leaf that is not the last one. */
  function NextDummy(depth: nat, x: WithdrawInput, delta: Fr): WithdrawInput
    requires depth <= MAX_DEPTH && x.leafIndex + 1 < Pow2(depth)
  {
    DepthBelowField(depth);
    WithdrawInput(true, delta, 0, x.leafIndex + 1, seq(depth, i => 0))
  }

  /** Exactly when single and batch agree: some two-step batch stands for the single withdrawal if and only if the
      withdrawal is accepted and its leaf is not the last one of the tree. */
  lemma TwoStepExistsIff(c: Suite, depth: nat, root: Fr, recipient: Fr, x: WithdrawInput, delta: Fr)
    requires depth <= MAX_DEPTH && !x.isDummy
    ensures (exists d :: DummyWorth(depth, delta, d) && RunWithdraw(c, depth, Initial(root, recipient), [x, d]).Some?)
       <==> SingleOk(c, depth, root, recipient, x, delta) && x.leafIndex + 1 < Pow2(depth)
  {
    forall d | DummyWorth(depth, delta, d) && RunWithdraw(c, depth, Initial(root, recipient), [x, d]).Some?
      ensures SingleOk(c, depth, root, recipient, x, delta) && x.leafIndex + 1 < Pow2(depth)
    {
      TwoStepOrder(c, depth, Initial(root, recipient), [x, d]);
      SingleIsTwoStepBatch(c, depth, root, recipient, x, d);
    }
    if SingleOk(c, depth, root, recipient, x, delta) && x.leafIndex + 1 < Pow2(depth) {
      SingleIsTwoStepBatch(c, depth, root, recipient, x, NextDummy(depth, x, delta));
      assert DummyWorth(depth, delta, NextDummy(depth, x, delta));
    }
  }
}
