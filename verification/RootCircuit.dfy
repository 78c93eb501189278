/** The root transition step and what every accepted run of it guarantees. */
module RootCircuit {
  import opened Field
  import opened Crypto
  import opened Merkle
  import opened Base
  import opened Burn

  /** Folded state: next leaf index, hash chain and transfer root. */
  datatype RootState = RootState(index: Fr, chain: Fr, root: Fr)

  datatype RootInput = RootInput(isDummy: bool, address: Fr, value: Fr, siblings: seq<Fr>)

  /** The low `n` bits of the canonical decomposition, as `to_bits_le_limited` hands them out. */
  function LimitedBits(x: Fr, n: nat): (b: seq<bool>)
    requires n <= FIELD_BITS
    ensures |b| == n
  {
    BitsLe(x, FIELD_BITS)[..n]
  }

  lemma LimitedBitsAre(x: Fr, n: nat, total: nat)
    requires n <= total
    ensures BitsLe(x, total)[..n] == BitsLe(x, n)
  {
    BitsSplit(x, n, total - n);
  }

  /** The Merkle gadget selects left and right by multiplying with the index bit. */
  function MerkleRootFromLeaf(h: Hash, leaf: Fr, bits: seq<bool>, siblings: seq<Fr>): Fr
    requires |bits| == |siblings|
    decreases |bits|
  {
    if bits == [] then leaf
    else
      var b := BitFp(bits[0]);
      var notB := Sub(1, b);
      var left := Add(Mul(leaf, notB), Mul(siblings[0], b));
      var right := Add(Mul(leaf, b), Mul(siblings[0], notB));
      MerkleRootFromLeaf(h, h(left, right), bits[1..], siblings[1..])
  }

  lemma SelectByBit(x: Fr, s: Fr, bit: bool)
    ensures var b := BitFp(bit);
            && Add(Mul(x, Sub(1, b)), Mul(s, b)) == (if bit then s else x)
            && Add(Mul(x, b), Mul(s, Sub(1, b))) == (if bit then x else s)
  {
    assert x * 1 == x && s * 1 == s && x * 0 == 0 && s * 0 == 0;
  }

  lemma {:induction false} GadgetIsFold(h: Hash, leaf: Fr, v: nat, siblings: seq<Fr>)
    ensures MerkleRootFromLeaf(h, leaf, BitsLe(v, |siblings|), siblings) == Fold(h, leaf, v, siblings)
    decreases |siblings|
  {
    if siblings == [] {
    } else {
      SelectByBit(leaf, siblings[0], v % 2 == 1);
      var p := Ordered(leaf, v, siblings[0]);
      assert BitsLe(v, |siblings|)[1..] == BitsLe(v / 2, |siblings[1..]|);
      GadgetIsFold(h, h(p.0, p.1), v / 2, siblings[1..]);
    }
  }

  /** The in-circuit root computed from a leaf and an index of limited length. */
  function CircuitRoot(h: Hash, leaf: Fr, index: Fr, siblings: seq<Fr>): Fr
    requires |siblings| <= FIELD_BITS
  {
    MerkleRootFromLeaf(h, leaf, LimitedBits(index, |siblings|), siblings)
  }

  lemma CircuitRootIsFold(h: Hash, leaf: Fr, index: Fr, siblings: seq<Fr>)
    requires |siblings| <= FIELD_BITS
    ensures CircuitRoot(h, leaf, index, siblings) == Fold(h, leaf, index, siblings)
  {
    LimitedBitsAre(index, |siblings|, FIELD_BITS);
    GadgetIsFold(h, leaf, index, siblings);
  }

  /** All constraints of one `root_transition_step`; range checks hold for dummy steps too. */
  predicate RootStepOk(c: Suite, depth: nat, z: RootState, x: RootInput)
    requires depth <= MAX_DEPTH
  {
    && |x.siblings| == depth
    && BitLength(x.address, 160)
    && BitLength(x.value, 248)
    && BitLength(z.index, depth)
    && BitLength(z.chain, 248)
    && (!x.isDummy ==> z.root == CircuitRoot(c.h, 0, z.index, x.siblings))
  }

  function RootStepNext(c: Suite, z: RootState, x: RootInput): RootState
    requires |x.siblings| <= FIELD_BITS
  {
    if x.isDummy then z
    else RootState(Add(z.index, 1), c.chain(z.chain, x.address, x.value),
                   CircuitRoot(c.h, c.h(x.address, x.value), z.index, x.siblings))
  }

  /** One step over the integers: what its constraints allow, and where it leads. */
  lemma RootStepIff(c: Suite, depth: nat, z: RootState, x: RootInput)
    requires depth <= MAX_DEPTH
    ensures RootStepOk(c, depth, z, x) <==>
              && |x.siblings| == depth && x.address < TWO_160 && x.value < TWO_248
              && z.index < Pow2(depth) && z.chain < TWO_248
              && (x.isDummy || Fold(c.h, 0, z.index, x.siblings) == z.root)
    ensures RootStepOk(c, depth, z, x) ==>
              var z' := RootStepNext(c, z, x);
              if x.isDummy then z' == z
              else && z'.index == z.index + 1 && z'.chain == c.chain(z.chain, x.address, x.value)
                   && z'.root == Fold(c.h, c.h(x.address, x.value), z.index, x.siblings)
  {
    Fits160(x.address);
    Fits248(x.value);
    Fits248(z.chain);
    BitLengthIff(z.index, depth);
    DepthBelowField(depth);
    if |x.siblings| == depth {
      CircuitRootIsFold(c.h, 0, z.index, x.siblings);
      CircuitRootIsFold(c.h, c.h(x.address, x.value), z.index, x.siblings);
    }
  }

  /** Final state of a run, `None` when some step's constraints fail. */
  function RunRoot(c: Suite, depth: nat, z: RootState, inputs: seq<RootInput>): Option<RootState>
    requires depth <= MAX_DEPTH
    decreases |inputs|
  {
    if inputs == [] then Some(z)
    else if RootStepOk(c, depth, z, inputs[0]) then
      RunRoot(c, depth, RootStepNext(c, z, inputs[0]), inputs[1..])
    else None
  }

  /** The transfers of a run: its non-dummy steps in order. */
  function TransfersOf(inputs: seq<RootInput>): seq<Transfer> {
    if inputs == [] then []
    else (if inputs[0].isDummy then [] else [Transfer(inputs[0].address, inputs[0].value)])
         + TransfersOf(inputs[1..])
  }

  /** Every transfer of an accepted run is one the token can log. */
  lemma {:induction false} RootRunInRange(c: Suite, depth: nat, z: RootState, inputs: seq<RootInput>)
    requires depth <= MAX_DEPTH && RunRoot(c, depth, z, inputs).Some?
    ensures forall t :: t in TransfersOf(inputs) ==> InRange(t)
    decreases |inputs|
  {
    if inputs == [] {
    } else {
      RootStepIff(c, depth, z, inputs[0]);
      RootRunInRange(c, depth, RootStepNext(c, z, inputs[0]), inputs[1..]);
    }
  }

  /** The state that stands for a list of transfers. */
  function StateOf(c: Suite, depth: nat, ts: seq<Transfer>): RootState
    requires |ts| < P
  {
    RootState(|ts|, ChainOf(c, 0, ts), Root(c.h, Leaves(c, ts), depth))
  }

  /** Looks for a collision on the path of every real step. */
  function RootRunBreach(c: Suite, leaves: seq<Fr>, inputs: seq<RootInput>): Breach
    decreases |inputs|
  {
    if inputs == [] then NoBreach
    else
      var x := inputs[0];
      if x.isDummy then RootRunBreach(c, leaves, inputs[1..])
      else OrElse(PathBreach(c.h, leaves, 0, |leaves|, 0, x.siblings),
                  RootRunBreach(c, leaves + [c.h(x.address, x.value)], inputs[1..]))
  }

  /** An index accepted by a real step names an empty slot of the tree, so the step appends. */
  lemma RootStepAppends(c: Suite, depth: nat, leaves: seq<Fr>, z: RootState, x: RootInput)
    requires depth <= MAX_DEPTH && !x.isDummy && RootStepOk(c, depth, z, x)
    requires z.index == |leaves| && z.root == Root(c.h, leaves, depth)
    ensures |leaves| < Pow2(depth)
    ensures var b := PathBreach(c.h, leaves, 0, |leaves|, 0, x.siblings);
            var leaf := c.h(x.address, x.value);
            var z' := RootStepNext(c, z, x);
            if b.NoBreach? then
              && z'.index == |leaves| + 1
              && z'.chain == c.chain(z.chain, x.address, x.value)
              && z'.root == Root(c.h, leaves + [leaf], depth)
            else Genuine(c, b)
  {
    BitLengthIff(z.index, depth);
    DepthBelowField(depth);
    CircuitRootIsFold(c.h, 0, z.index, x.siblings);
    CircuitRootIsFold(c.h, c.h(x.address, x.value), z.index, x.siblings);
    EmptySlotAppends(c, depth, leaves, c.h(x.address, x.value), x.siblings);
  }

  /** Siblings that lead from the empty leaf at the end to the root lead from a new leaf to the appended root. */
  lemma EmptySlotAppends(c: Suite, depth: nat, leaves: seq<Fr>, leaf: Fr, siblings: seq<Fr>)
    requires |siblings| == depth && |leaves| < Pow2(depth)
    requires Fold(c.h, 0, |leaves|, siblings) == Root(c.h, leaves, depth)
    ensures var b := PathBreach(c.h, leaves, 0, |leaves|, 0, siblings);
            if b.NoBreach? then Fold(c.h, leaf, |leaves|, siblings) == Root(c.h, leaves + [leaf], depth)
            else Genuine(c, b)
  {
    ShrZeroIff(|leaves|, depth);
    PathBinding(c, leaves, 0, |leaves|, 0, siblings);
    FoldAppend(c.h, leaves, leaf, depth);
  }

  /** `z` is where a run from the tree of `ts` and chain `p` must end after adding `added`. */
  predicate Extended(c: Suite, depth: nat, ts: seq<Transfer>, p: Fr, added: seq<Transfer>, z: RootState) {
    && z.index == |ts| + |added|
    && z.chain == ChainOf(c, p, added)
    && z.root == Root(c.h, Leaves(c, ts + added), depth)
    && (added == [] || z.index <= Pow2(depth))
  }

  lemma ExtendedByOne(c: Suite, depth: nat, ts: seq<Transfer>, p: Fr, t: Transfer, added: seq<Transfer>, z: RootState)
    requires |ts| < Pow2(depth)
    requires Extended(c, depth, ts + [t], c.chain(p, t.to, t.value), added, z)
    ensures Extended(c, depth, ts, p, [t] + added, z)
  {
    assert ts + ([t] + added) == ts + [t] + added;
    ChainOfConcat(c, p, [t], added);
    assert [t][..0] == [];
  }

  /**
   Root run soundness. A run accepted from the index and root of `ts` ends in the index and root of
   `ts` followed by exactly its non-dummy transfers, its chain is the old chain extended by them,
   and the tree never overflows; or `RootRunBreach` is a collision on some step's path.
   */
  lemma {:induction false} RootRunSound(c: Suite, depth: nat, ts: seq<Transfer>, z: RootState, inputs: seq<RootInput>)
    requires depth <= MAX_DEPTH && z.index == |ts| && z.root == Root(c.h, Leaves(c, ts), depth)
    requires RunRoot(c, depth, z, inputs).Some?
    ensures var b := RootRunBreach(c, Leaves(c, ts), inputs);
            if b.NoBreach?
            then Extended(c, depth, ts, z.chain, TransfersOf(inputs), RunRoot(c, depth, z, inputs).value)
            else Genuine(c, b)
    decreases |inputs|
  {
    if inputs == [] {
      assert ts + [] == ts;
    } else {
      var x, rest := inputs[0], inputs[1..];
      var z1 := RootStepNext(c, z, x);
      if x.isDummy {
        RootRunSound(c, depth, ts, z, rest);
        assert TransfersOf(inputs) == TransfersOf(rest);
      } else {
        var t := Transfer(x.address, x.value);
        RootStepAppends(c, depth, Leaves(c, ts), z, x);
        assert Leaves(c, ts + [t]) == Leaves(c, ts) + [Leaf(c, t)];
        if PathBreach(c.h, Leaves(c, ts), 0, |ts|, 0, x.siblings).NoBreach? {
          RootRunSound(c, depth, ts + [t], z1, rest);
          if RootRunBreach(c, Leaves(c, ts + [t]), rest).NoBreach? {
            ExtendedByOne(c, depth, ts, z.chain, t, TransfersOf(rest), RunRoot(c, depth, z1, rest).value);
          }
        }
      }
    }
  }

  /** The true siblings of the next empty slot lead both to the old root and to the new one. */
  lemma HonestRoots(c: Suite, depth: nat, ts: seq<Transfer>, t: Transfer)
    requires depth <= MAX_DEPTH && |ts| < Pow2(depth) && |ts| < P
    ensures var s := Siblings(c.h, Leaves(c, ts + [t]), 0, |ts|, depth);
            && CircuitRoot(c.h, 0, |ts|, s) == Root(c.h, Leaves(c, ts), depth)
            && CircuitRoot(c.h, Leaf(c, t), |ts|, s) == Root(c.h, Leaves(c, ts + [t]), depth)
  {
    var leaves, s := Leaves(c, ts), Siblings(c.h, Leaves(c, ts + [t]), 0, |ts|, depth);
    assert Leaves(c, ts + [t]) == leaves + [Leaf(c, t)];
    ShrZeroIff(|ts|, depth);
    SiblingsKeptByAppend(c.h, leaves, Leaf(c, t), 0, |ts|, depth);
    FoldAppend(c.h, leaves, Leaf(c, t), depth);
    CircuitRootIsFold(c.h, 0, |ts|, s);
    CircuitRootIsFold(c.h, Leaf(c, t), |ts|, s);
  }

  function HonestInput(c: Suite, depth: nat, ts: seq<Transfer>, t: Transfer): RootInput {
    RootInput(false, t.to, t.value, Siblings(c.h, Leaves(c, ts + [t]), 0, |ts|, depth))
  }

  /** Prover and circuit agree: the true siblings of the next empty slot make the step accepted, and
      it leads from the state of `ts` to the state of `ts + [t]`. */
  lemma HonestRootStep(c: Suite, depth: nat, ts: seq<Transfer>, t: Transfer)
    requires depth <= MAX_DEPTH && |ts| < Pow2(depth) && InRange(t)
    ensures |ts| + 1 < P
    ensures RootStepOk(c, depth, StateOf(c, depth, ts), HonestInput(c, depth, ts, t))
    ensures RootStepNext(c, StateOf(c, depth, ts), HonestInput(c, depth, ts, t)) == StateOf(c, depth, ts + [t])
  {
    DepthBelowField(depth);
    HonestRoots(c, depth, ts, t);
    HonestRanges(c, depth, ts, t);
    HonestNext(c, depth, ts, t);
  }

  lemma HonestNext(c: Suite, depth: nat, ts: seq<Transfer>, t: Transfer)
    requires depth <= MAX_DEPTH && |ts| < Pow2(depth) && |ts| + 1 < P
    ensures RootStepNext(c, StateOf(c, depth, ts), HonestInput(c, depth, ts, t)) == StateOf(c, depth, ts + [t])
  {
    HonestRoots(c, depth, ts, t);
    ChainSnoc(c, 0, ts, t);
  }

  lemma HonestRanges(c: Suite, depth: nat, ts: seq<Transfer>, t: Transfer)
    requires depth <= MAX_DEPTH && |ts| < Pow2(depth) && |ts| < P && InRange(t)
    ensures BitLength(t.to, 160) && BitLength(t.value, 248)
    ensures BitLength(|ts|, depth) && BitLength(ChainOf(c, 0, ts), 248)
  {
    ChainBelow(c, 0, ts);
    Fits160(t.to);
    Fits248(t.value);
    Fits248(ChainOf(c, 0, ts));
    BitLengthIff(|ts|, depth);
  }

  /** A dummy step is accepted from every state of a tree with a free slot and changes nothing. */
  lemma DummyRootStep(c: Suite, depth: nat, ts: seq<Transfer>, x: RootInput)
    requires depth <= MAX_DEPTH && |ts| < P && x.isDummy && |x.siblings| == depth
    requires x.address < TWO_160 && x.value < TWO_248
    ensures RootStepOk(c, depth, StateOf(c, depth, ts), x) <==> |ts| < Pow2(depth)
    ensures RootStepNext(c, StateOf(c, depth, ts), x) == StateOf(c, depth, ts)
  {
    var z := StateOf(c, depth, ts);
    ChainBelow(c, 0, ts);
    Fits160(x.address);
    Fits248(x.value);
    Fits248(z.chain);
    BitLengthIff(z.index, depth);
  }
}
