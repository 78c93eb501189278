/** Whoever burned can redeem: batches and single proofs of burned transfers, against local and global roots. */
module Redemption {
  import opened Base
  import opened Field
  import opened Crypto
  import opened Merkle
  import opened Burn
  import opened WithdrawCircuit
  import opened Contracts
  import opened BatchBuilder
  import opened Invariant
  import opened Openings

  // ------------------------------------------------------------- what the contract pays

  /** The run is accepted and ends in `e`. */
  ghost predicate Accepts(c: Suite, depth: nat, z: WithdrawState, inputs: seq<WithdrawInput>, e: WithdrawState)
    requires depth <= MAX_DEPTH
  {
    forall k {:trigger LooksInside(RedeemPart, k)} ::
      LooksInside(RedeemPart, k) ==> RunWithdraw(c, depth, z, inputs) == Some(e)
  }

  /** Everything the contract and the token ask for beyond a proof: the chain is not paused, the account's address is
      not zero, the total exceeds what the account received, and supply and log have room. */
  predicate Payable(s: System, k: nat, gr: Recipient, recipient: Fr, total: nat)
    requires k in s.chains
  {
    && !s.chains[k].paused
    && gr.account % TWO_160 != 0
    && Teleported(s, (k, recipient)) < total
    && s.chains[k].token.supply + total - Teleported(s, (k, recipient)) <= MAX_UINT256
    && |s.chains[k].events| + 1 < TWO_64
  }

  /** The call goes through exactly when it is payable, and then the account gets exactly the part of `total` it had
      not received before. */
  ghost predicate Pays(n: Net, s: System, a: Action, k: nat, gr: Recipient, recipient: Fr, total: nat)
    requires ValidNet(n) && k in s.chains
  {
    forall i {:trigger LooksInside(RedeemPart, i)} :: LooksInside(RedeemPart, i) ==>
      && (Step(n, s, a).Some? <==> Payable(s, k, gr, recipient, total))
      && (Step(n, s, a).Some? ==> PaidOut(s, Step(n, s, a).value, k, gr, recipient, total))
  }

  predicate PaidOut(s: System, s': System, k: nat, gr: Recipient, recipient: Fr, total: nat)
    requires k in s.chains
  {
    var due, to := total - Teleported(s, (k, recipient)), gr.account % TWO_160;
    && k in s'.chains && s'.minted == s.minted + due && Teleported(s', (k, recipient)) == total
    && Balance(s'.chains[k].token, to) == Balance(s.chains[k].token, to) + due
  }

  /** The root a hint names, and the recipient of the proof, are the ones the contract expects. */
  predicate Hinted(n: Net, s: System, k: nat, isGlobal: bool, hint: nat, gr: Recipient, root: Fr, recipient: Fr) {
    && k in s.chains && gr.chainId == k && recipient == n.c.recipient(gr)
    && HintedRoot(s.chains[k], isGlobal, hint) == root != 0
  }

  lemma StepPays(
    n: Net, s: System, k: nat, isGlobal: bool, hint: nat, gr: Recipient, root: Fr, recipient: Fr,
    xs: seq<WithdrawInput>, total: Fr)
    requires Hinted(n, s, k, isGlobal, hint, gr, root, recipient)
    ensures var r := TeleportStep(n, s, k, isGlobal, hint, gr, root, recipient, xs, total);
            && (r.Some? <==> Payable(s, k, gr, recipient, total))
            && (r.Some? ==> PaidOut(s, r.value, k, gr, recipient, total))
  {
  }

  lemma BatchPays(
    n: Net, s: System, k: nat, isGlobal: bool, hint: nat, gr: Recipient, root: Fr, recipient: Fr,
    inputs: seq<WithdrawInput>, e: WithdrawState)
    requires ValidNet(n) && Hinted(n, s, k, isGlobal, hint, gr, root, recipient)
    requires Accepts(n.c, DepthOf(n, isGlobal), Initial(root, recipient), inputs, e)
    requires e.root == root && e.recipient == recipient
    ensures Pays(n, s, Teleport(k, isGlobal, hint, gr, Initial(root, recipient), inputs), k, gr, recipient, e.total)
  {
    StepPays(n, s, k, isGlobal, hint, gr, root, recipient, inputs, e.total);
    BatchIsTeleport(n, s, k, isGlobal, hint, gr, root, recipient, inputs, e);
  }

  lemma BatchIsTeleport(
    n: Net, s: System, k: nat, isGlobal: bool, hint: nat, gr: Recipient, root: Fr, recipient: Fr,
    inputs: seq<WithdrawInput>, e: WithdrawState)
    requires ValidNet(n) && k in s.chains && e.root == root && e.recipient == recipient
    requires Accepts(n.c, DepthOf(n, isGlobal), Initial(root, recipient), inputs, e)
    ensures Step(n, s, Teleport(k, isGlobal, hint, gr, Initial(root, recipient), inputs))
         == TeleportStep(n, s, k, isGlobal, hint, gr, root, recipient, inputs, e.total)
  {
    assert LooksInside(RedeemPart, 0);
  }

  /** A single proof of one opened leaf, last leaves of the tree included. */
  lemma SinglePays(
    n: Net, s: System, k: nat, isGlobal: bool, hint: nat, gr: Recipient, root: Fr, recipient: Fr,
    x: WithdrawInput, delta: Fr)
    requires ValidNet(n) && Hinted(n, s, k, isGlobal, hint, gr, root, recipient)
    requires !x.isDummy && |x.siblings| == DepthOf(n, isGlobal) && x.leafIndex < Pow2(DepthOf(n, isGlobal))
    requires Opens(n.c.h, root, recipient, x) && delta <= x.value < TWO_248
    ensures Pays(n, s, SingleTeleport(k, isGlobal, hint, gr, root, recipient, x, delta), k, gr, recipient,
                 x.value - delta)
  {
    SingleIff(n.c, DepthOf(n, isGlobal), root, recipient, x, delta);
    StepPays(n, s, k, isGlobal, hint, gr, root, recipient, [x], Sub(x.value, delta));
  }

  lemma StepChecks(
    n: Net, s: System, k: nat, isGlobal: bool, hint: nat, gr: Recipient, root: Fr, recipient: Fr,
    xs: seq<WithdrawInput>, total: Fr)
    requires k in s.chains
    ensures TeleportStep(n, s, k, isGlobal, hint, gr, root, recipient, xs, total).Some?
       <==> Hinted(n, s, k, isGlobal, hint, gr, root, recipient) && Payable(s, k, gr, recipient, total)
  {
  }

  /** Exactly which batches the contract pays, whatever start state and steps the proof claims. */
  lemma TeleportIff(
    n: Net, s: System, k: nat, isGlobal: bool, hint: nat, gr: Recipient, z: WithdrawState, inputs: seq<WithdrawInput>)
    requires ValidNet(n)
    ensures Step(n, s, Teleport(k, isGlobal, hint, gr, z, inputs)).Some? <==>
              && z.last == 0 && z.total == 0 && RunMeaning(n.c, DepthOf(n, isGlobal), z, inputs)
              && Hinted(n, s, k, isGlobal, hint, gr, z.root, z.recipient)
              && 0 <= SignedSum(inputs) && Payable(s, k, gr, z.recipient, SignedSum(inputs))
  {
    if k in s.chains && z.last == 0 && z.total == 0 {
      WithdrawRunIff(n.c, DepthOf(n, isGlobal), z, inputs);
      var run := RunWithdraw(n.c, DepthOf(n, isGlobal), z, inputs);
      if run.Some? {
        assert run.value.total == SignedSum(inputs);
        StepChecks(n, s, k, isGlobal, hint, gr, z.root, z.recipient, inputs, run.value.total);
      }
    }
  }

  /** Exactly which single proofs the contract pays. */
  lemma SingleTeleportIff(
    n: Net, s: System, k: nat, isGlobal: bool, hint: nat, gr: Recipient, root: Fr, recipient: Fr,
    x: WithdrawInput, delta: Fr)
    requires ValidNet(n) && !x.isDummy
    ensures Step(n, s, SingleTeleport(k, isGlobal, hint, gr, root, recipient, x, delta)).Some? <==>
              && |x.siblings| == DepthOf(n, isGlobal) && x.leafIndex < Pow2(DepthOf(n, isGlobal))
              && Opens(n.c.h, root, recipient, x) && delta <= x.value < TWO_248
              && Hinted(n, s, k, isGlobal, hint, gr, root, recipient)
              && Payable(s, k, gr, recipient, x.value - delta)
  {
    SingleIff(n.c, DepthOf(n, isGlobal), root, recipient, x, delta);
    if k in s.chains {
      StepChecks(n, s, k, isGlobal, hint, gr, root, recipient, [x], Sub(x.value, delta));
    }
  }

  /** A recipient whose address is zero is never paid, whatever was burned for it: the token refuses to mint to it. */
  lemma ZeroAccountIsNeverPaid(n: Net, s: System, a: Action)
    requires ValidNet(n) && (a.Teleport? || a.SingleTeleport?) && a.gr.account % TWO_160 == 0
    ensures Step(n, s, a).None?
  {
  }

  // --------------------------------------------------------------- true paths under a view

  /** The list of transfers a view holds for leaf `v`, and the position in it. */
  function ListOf(n: Net, chains: map<nat, Chain>, view: View, v: nat): seq<Transfer> {
    match view
    case Local(k, index) => EventsOf(chains, k, index)
    case Global(snapshot) =>
      var a := Shr(v, n.height);
      if a < |snapshot| then EventsOf(chains, snapshot[a].chain, snapshot[a].index) else []
  }

  function PositionOf(n: Net, view: View, v: nat): nat { if view.Local? then v else Low(v, n.height) }

  /** Leaf `v` of the view is a transfer, not an empty slot. */
  predicate InView(n: Net, chains: map<nat, Chain>, view: View, v: nat) {
    v < Pow2(DepthOfView(n, view)) && PositionOf(n, view, v) < |ListOf(n, chains, view, v)|
  }

  /** The true path: inside the chain's tree, and for a global view on through the aggregation tree. */
  function PathOf(n: Net, chains: map<nat, Chain>, view: View, v: nat): (s: seq<Fr>)
    ensures |s| == DepthOfView(n, view)
  {
    var local := Siblings(n.c.h, Leaves(n.c, ListOf(n, chains, view, v)), 0, PositionOf(n, view, v), n.height);
    match view
    case Local(_, _) => local
    case Global(snapshot) => local + Siblings(n.c.h, RootsOf(snapshot), 0, Shr(v, n.height), n.aggHeight)
  }

  /** The transfer behind leaf `v`. */
  function TransferOf(n: Net, chains: map<nat, Chain>, view: View, v: nat): Transfer
    requires InView(n, chains, view, v)
  {
    ListOf(n, chains, view, v)[PositionOf(n, view, v)]
  }

  /** The true path of a leaf leads from its transfer to the root of the view. */
  lemma PathLeadsToRoot(n: Net, chains: map<nat, Chain>, view: View, root: Fr, v: nat)
    requires ViewOk(n, chains, view, root) && InView(n, chains, view, v)
    ensures Fold(n.c.h, Leaf(n.c, TransferOf(n, chains, view, v)), v, PathOf(n, chains, view, v)) == root
  {
    match view
    case Local(k, index) =>
      FoldSiblings(n.c.h, Leaves(n.c, EventsOf(chains, k, index)), 0, v, n.height);
      ShrZeroIff(v, n.height);
    case Global(snapshot) => GlobalPathLeadsToRoot(n, chains, snapshot, root, v);
  }

  lemma GlobalPathLeadsToRoot(n: Net, chains: map<nat, Chain>, snapshot: seq<Relayed>, root: Fr, v: nat)
    requires ViewOk(n, chains, Global(snapshot), root) && InView(n, chains, Global(snapshot), v)
    ensures var view := Global(snapshot);
            Fold(n.c.h, Leaf(n.c, TransferOf(n, chains, view, v)), v, PathOf(n, chains, view, v)) == root
  {
    var a, e, ts := Shr(v, n.height), Low(v, n.height), ListOf(n, chains, Global(snapshot), v);
    var upper := Siblings(n.c.h, RootsOf(snapshot), 0, a, n.aggHeight);
    assert SlotOk(n, chains, snapshot[a]);
    IndexOfParts(n.height, v);
    PathComposition(n.c.h, n.height, a, e, Leaf(n.c, ts[e]), Siblings(n.c.h, Leaves(n.c, ts), 0, e, n.height), upper);
    LocalRoot(n, ts, e);
    UpperRoot(n, snapshot, a);
  }

  lemma UpperRoot(n: Net, snapshot: seq<Relayed>, a: nat)
    requires a < |snapshot| <= Pow2(n.aggHeight)
    ensures Fold(n.c.h, snapshot[a].root, a, Siblings(n.c.h, RootsOf(snapshot), 0, a, n.aggHeight))
         == Root(n.c.h, RootsOf(snapshot), n.aggHeight)
  {
    FoldSiblings(n.c.h, RootsOf(snapshot), 0, a, n.aggHeight);
    ShrZeroIff(a, n.aggHeight);
  }

  lemma LocalRoot(n: Net, ts: seq<Transfer>, e: nat)
    requires e < |ts| && e < Pow2(n.height)
    ensures Fold(n.c.h, Leaf(n.c, ts[e]), e, Siblings(n.c.h, Leaves(n.c, ts), 0, e, n.height))
         == Root(n.c.h, Leaves(n.c, ts), n.height)
  {
    FoldSiblings(n.c.h, Leaves(n.c, ts), 0, e, n.height);
    ShrZeroIff(e, n.height);
  }

  // ------------------------------------------------------------------ redeeming what was burned

  /** Leaf `v` of the view was burned for the recipient under the secret. */
  predicate BurnedLeaf(n: Net, chains: map<nat, Chain>, view: View, recipient: Fr, v: nat, secret: Fr) {
    && InView(n, chains, view, v)
    && TransferOf(n, chains, view, v).to == BurnAddress(n.c.h, recipient, secret)
    && HasPow(n.c.h, recipient, secret)
  }

  /** The withdraw step for a burned leaf. */
  function StepFor(n: Net, chains: map<nat, Chain>, view: View, v: Fr, secret: Fr): WithdrawInput
    requires InView(n, chains, view, v)
  {
    WithdrawInput(false, TransferOf(n, chains, view, v).value, secret, v, PathOf(n, chains, view, v))
  }

  lemma BurnedLeafOpens(n: Net, chains: map<nat, Chain>, view: View, root: Fr, recipient: Fr, v: Fr, secret: Fr)
    requires ViewOk(n, chains, view, root) && BurnedLeaf(n, chains, view, recipient, v, secret)
    ensures Opens(n.c.h, root, recipient, StepFor(n, chains, view, v, secret))
  {
    PathLeadsToRoot(n, chains, view, root, v);
  }

  lemma LeafInRange(n: Net, s: System, view: View, v: nat)
    requires Inv(n, s) && InView(n, s.chains, view, v)
    ensures InRange(TransferOf(n, s.chains, view, v))
  {
    assert LooksInside(SystemPart, 0);
    assert ChainOk(n, s.chains[PlaceOf(n, view, v).0]) && LooksInside(ChainPart, 0);
  }

  /** A single proof redeems any burned leaf, in full or in part, against local and global roots. */
  lemma BurnedIsMintedAlone(
    n: Net, s: System, k: nat, isGlobal: bool, hint: nat, gr: Recipient, root: Fr, recipient: Fr,
    v: Fr, secret: Fr, x: WithdrawInput, delta: Fr)
    requires ValidNet(n) && Inv(n, s) && Hinted(n, s, k, isGlobal, hint, gr, root, recipient)
    requires BurnedLeaf(n, s.chains, ViewOf(s, k, isGlobal, hint), recipient, v, secret)
    requires x == StepFor(n, s.chains, ViewOf(s, k, isGlobal, hint), v, secret) && delta <= x.value
    ensures Pays(n, s, SingleTeleport(k, isGlobal, hint, gr, root, recipient, x, delta), k, gr, recipient,
                 x.value - delta)
  {
    HintIsView(n, s, k, isGlobal, hint);
    BurnedLeafOpens(n, s.chains, ViewOf(s, k, isGlobal, hint), root, recipient, v, secret);
    LeafInRange(n, s, ViewOf(s, k, isGlobal, hint), v);
    SinglePays(n, s, k, isGlobal, hint, gr, root, recipient, x, delta);
  }

  /** The leaves are distinct, in order, below `limit`, and each was burned for the recipient under its secret. */
  ghost predicate BurnedLeaves(
    n: Net, chains: map<nat, Chain>, view: View, recipient: Fr, leaves: seq<Fr>, secrets: seq<Fr>, limit: int)
  {
    && |leaves| == |secrets|
    && (forall i :: 0 <= i < |leaves| ==> leaves[i] < limit)
    && (forall i, j :: 0 <= i < j < |leaves| ==> leaves[i] < leaves[j])
    && (forall i :: 0 <= i < |leaves| ==> BurnedLeaf(n, chains, view, recipient, leaves[i], secrets[i]))
  }

  /** The values and true paths of some leaves. */
  function ValuesOf(n: Net, chains: map<nat, Chain>, view: View, leaves: seq<Fr>): (r: seq<Fr>)
    requires forall i :: 0 <= i < |leaves| ==> InView(n, chains, view, leaves[i])
    ensures |r| == |leaves|
  {
    seq(|leaves|, i requires 0 <= i < |leaves| => TransferOf(n, chains, view, leaves[i]).value)
  }

  function PathsOf(n: Net, chains: map<nat, Chain>, view: View, leaves: seq<Fr>): (r: seq<seq<Fr>>)
    ensures |r| == |leaves|
  {
    seq(|leaves|, i requires 0 <= i < |leaves| => PathOf(n, chains, view, leaves[i]))
  }

  lemma {:induction false} SortedIncrease(a: seq<WithdrawInput>, last: nat, limit: nat)
    requires forall i :: 0 <= i < |a| ==> last <= a[i].leafIndex < limit
    requires forall i, j :: 0 <= i < j < |a| ==> a[i].leafIndex < a[j].leafIndex
    ensures Increasing(a, last, limit)
    decreases |a|
  {
    if a == [] {
    } else {
      SortedIncrease(a[1..], a[0].leafIndex + 1, limit);
    }
  }

  lemma BurnedLeavesFit(
    n: Net, chains: map<nat, Chain>, view: View, root: Fr, recipient: Fr, leaves: seq<Fr>, secrets: seq<Fr>,
    limit: nat, reals: seq<WithdrawInput>)
    requires ViewOk(n, chains, view, root) && BurnedLeaves(n, chains, view, recipient, leaves, secrets, limit)
    requires reals == RealInputs(ValuesOf(n, chains, view, leaves), PathsOf(n, chains, view, leaves), leaves, secrets)
    ensures Increasing(reals, 0, limit) && AllOpen(n.c.h, DepthOfView(n, view), root, recipient, reals)
  {
    SortedIncrease(reals, 0, limit);
    forall i | 0 <= i < |reals|
      ensures |reals[i].siblings| == DepthOfView(n, view) && Opens(n.c.h, root, recipient, reals[i])
    {
      BurnedLeafOpens(n, chains, view, root, recipient, leaves[i], secrets[i]);
      assert reals[i] == StepFor(n, chains, view, leaves[i], secrets[i]);
    }
  }

  lemma FittingBatchAccepted(
    c: Suite, depth: nat, root: Fr, recipient: Fr,
    values: seq<Fr>, paths: seq<seq<Fr>>, indices: seq<Fr>, secrets: seq<Fr>, dummies: nat,
    reals: seq<WithdrawInput>, batch: seq<WithdrawInput>, e: WithdrawState)
    requires depth <= MAX_DEPTH && dummies < Pow2(depth) < P
    requires |values| == |paths| == |indices| == |secrets| && Sum(values) < TWO_248
    requires reals == RealInputs(values, paths, indices, secrets)
    requires Increasing(reals, 0, RealLimit(depth, dummies)) && AllOpen(c.h, depth, root, recipient, reals)
    requires e.root == root && e.recipient == recipient
    requires e.last == EndSlot(depth, indices, dummies) && e.total == Sum(values)
    requires batch == reals + Dummies(depth, Pow2(depth) - 1 - dummies, dummies)
    ensures Accepts(c, depth, Initial(root, recipient), batch, e)
  {
    BatchIff(c, depth, root, recipient, values, paths, indices, secrets, dummies, reals, batch);
  }

  /** The batch of true paths, followed by the client's dummies. */
  function BatchOf(n: Net, chains: map<nat, Chain>, view: View, leaves: seq<Fr>, secrets: seq<Fr>, dummies: nat)
    : seq<WithdrawInput>
    requires dummies < Pow2(DepthOfView(n, view)) < P && |leaves| == |secrets|
    requires forall i :: 0 <= i < |leaves| ==> InView(n, chains, view, leaves[i])
  {
    var depth := DepthOfView(n, view);
    RealInputs(ValuesOf(n, chains, view, leaves), PathsOf(n, chains, view, leaves), leaves, secrets)
    + Dummies(depth, Pow2(depth) - 1 - dummies, dummies)
  }

  /** Whoever holds the secrets of burned leaves gets the batch of their true paths accepted, with their exact sum. */
  lemma BurnedIsWithdrawable(
    n: Net, chains: map<nat, Chain>, view: View, root: Fr, recipient: Fr, leaves: seq<Fr>, secrets: seq<Fr>,
    dummies: nat, depth: nat, batch: seq<WithdrawInput>, e: WithdrawState)
    requires depth == DepthOfView(n, view) <= MAX_DEPTH && dummies < Pow2(depth) < P
    requires ViewOk(n, chains, view, root)
    requires BurnedLeaves(n, chains, view, recipient, leaves, secrets, RealLimit(depth, dummies))
    requires Sum(ValuesOf(n, chains, view, leaves)) < TWO_248
    requires batch == BatchOf(n, chains, view, leaves, secrets, dummies)
    requires e.root == root && e.recipient == recipient
    requires e.last == EndSlot(depth, leaves, dummies) && e.total == Sum(ValuesOf(n, chains, view, leaves))
    ensures Accepts(n.c, depth, Initial(root, recipient), batch, e)
  {
    var values, paths := ValuesOf(n, chains, view, leaves), PathsOf(n, chains, view, leaves);
    var reals, limit := RealInputs(values, paths, leaves, secrets), RealLimit(depth, dummies);
    BurnedLeavesFit(n, chains, view, root, recipient, leaves, secrets, limit, reals);
    assert batch == reals + Dummies(depth, Pow2(depth) - 1 - dummies, dummies);
    FittingBatchAccepted(n.c, depth, root, recipient, values, paths, leaves, secrets, dummies, reals, batch, e);
  }

  /**
   The other half of conservation: whoever burned can redeem. In every state that keeps the contracts' invariant,
   against any proved root of the chain or any global root it received, the batch of burned leaves, on whichever
   registered chains they were burned, is paid exactly when the recipient's address is not zero, the chain is not
   paused, the sum exceeds what the account already received and the supply has room; and then the account gets
   exactly the difference. Without dummies the batch may hold any set of burned leaves; with dummies, as the client
   builds it, any below the first dummy.
   */
  lemma BurnedIsMinted(
    n: Net, s: System, k: nat, isGlobal: bool, hint: nat, gr: Recipient, root: Fr, recipient: Fr, view: View,
    leaves: seq<Fr>, secrets: seq<Fr>, dummies: nat, depth: nat, batch: seq<WithdrawInput>)
    requires ValidNet(n) && Inv(n, s) && Hinted(n, s, k, isGlobal, hint, gr, root, recipient)
    requires view == ViewOf(s, k, isGlobal, hint) && depth == DepthOf(n, isGlobal) && dummies < Pow2(depth) < P
    requires BurnedLeaves(n, s.chains, view, recipient, leaves, secrets, RealLimit(depth, dummies))
    requires Sum(ValuesOf(n, s.chains, view, leaves)) < TWO_248
    requires batch == BatchOf(n, s.chains, view, leaves, secrets, dummies)
    ensures Pays(n, s, Teleport(k, isGlobal, hint, gr, Initial(root, recipient), batch), k, gr, recipient,
                 Sum(ValuesOf(n, s.chains, view, leaves)))
  {
    var e := WithdrawState(root, recipient, EndSlot(depth, leaves, dummies), Sum(ValuesOf(n, s.chains, view, leaves)));
    HintIsView(n, s, k, isGlobal, hint);
    BurnedIsWithdrawable(n, s.chains, view, root, recipient, leaves, secrets, dummies, depth, batch, e);
    BatchPays(n, s, k, isGlobal, hint, gr, root, recipient, batch, e);
  }
}
