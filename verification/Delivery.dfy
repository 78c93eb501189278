/** What the contracts' calls bring about: token calls, proofs that advance, and transfers that reach every chain. */
module Delivery {
  import opened Base
  import opened Field
  import opened Crypto
  import opened Merkle
  import opened RootCircuit
  import opened WithdrawCircuit
  import opened BatchBuilder
  import opened Burn
  import opened Contracts
  import opened Invariant
  import opened Openings
  import opened Conservation
  import opened Redemption
  import ProverTables
  import ProverChain

  // ------------------------------------------------------------------------ token calls

  /** The two systems differ in the token of chain `k` and its log, by one more transfer, and nowhere else. */
  predicate Logged(s: System, s': System, k: nat, t: Transfer) {
    && k in s.chains && k in s'.chains
    && s'.chains == s.chains[k := s.chains[k].(events := s.chains[k].events + [t], token := s'.chains[k].token)]
    && s'.hub == s.hub && s'.teleported == s.teleported && s'.minted == s.minted && s'.claims == s.claims
  }

  /** Every balance of chain `k` changed by exactly what came in and what went out. */
  ghost predicate Moved(s: System, s': System, k: nat, from: Option<Fr>, to: Option<Fr>, value: nat)
    requires k in s.chains && k in s'.chains
  {
    forall a: Fr ::
      Balance(s'.chains[k].token, a) + (if from == Some(a) then value else 0)
      == Balance(s.chains[k].token, a) + (if to == Some(a) then value else 0)
  }

  /** The token can log one more transfer of this size. */
  predicate HasRoom(s: System, k: nat, to: Fr, value: Fr) {
    k in s.chains && |s.chains[k].events| + 1 < TWO_64 && to < TWO_160 && value < TWO_248
  }

  /** A transfer goes through exactly when both sides are accounts and the sender has the amount; it takes the amount
      from the sender, gives it to the receiver and logs the receiver. */
  lemma TransferMoves(n: Net, s: System, k: nat, from: Fr, to: Fr, value: Fr)
    requires ValidNet(n)
    ensures var r := Step(n, s, TokenTransfer(k, from, Transfer(to, value)));
            && (r.Some? <==>
                  HasRoom(s, k, to, value) && from != 0 && to != 0 && value <= Balance(s.chains[k].token, from))
            && (r.Some? ==>
                  && Logged(s, r.value, k, Transfer(to, value))
                  && Moved(s, r.value, k, Some(from), Some(to), value)
                  && r.value.chains[k].token.supply == s.chains[k].token.supply
                  && r.value.deposited == s.deposited && r.value.withdrawn == s.withdrawn)
  {
  }

  /** A deposit creates what it pays out. */
  lemma DepositCreates(n: Net, s: System, k: nat, to: Fr, value: Fr)
    requires ValidNet(n)
    ensures var r := Step(n, s, Deposit(k, Transfer(to, value)));
            && (r.Some? <==>
                  HasRoom(s, k, to, value) && to != 0 && s.chains[k].token.supply + value <= MAX_UINT256)
            && (r.Some? ==>
                  && Logged(s, r.value, k, Transfer(to, value)) && Moved(s, r.value, k, None, Some(to), value)
                  && r.value.chains[k].token.supply == s.chains[k].token.supply + value
                  && r.value.deposited == s.deposited + value && r.value.withdrawn == s.withdrawn)
  {
  }

  /** A withdrawal destroys what it takes and is logged with the zero address. */
  lemma WithdrawalDestroys(n: Net, s: System, k: nat, from: Fr, value: Fr)
    requires ValidNet(n)
    ensures var r := Step(n, s, Withdraw(k, from, value));
            && (r.Some? <==> HasRoom(s, k, 0, value) && from != 0 && value <= Balance(s.chains[k].token, from))
            && (r.Some? ==>
                  && Logged(s, r.value, k, Transfer(0, value)) && Moved(s, r.value, k, Some(from), None, value)
                  && r.value.chains[k].token.supply == s.chains[k].token.supply - value
                  && r.value.deposited == s.deposited && r.value.withdrawn == s.withdrawn + value)
  {
  }

  // ------------------------------------------------------------------- proofs that advance

  /** The steps of an honest prover from the first `base` transfers to the first `end`. */
  function HonestSteps(c: Suite, depth: nat, ts: seq<Transfer>, base: nat, end: nat): seq<RootInput>
    requires base <= end <= |ts|
    decreases end
  {
    if base == end then []
    else HonestSteps(c, depth, ts, base, end - 1) + [HonestInput(c, depth, ts[..end - 1], ts[end - 1])]
  }

  lemma HonestStep(n: Net, ts: seq<Transfer>, i: nat, before: seq<Transfer>, after: seq<Transfer>)
    requires ValidNet(n) && i < |ts| && i < Pow2(n.height) < P && InRange(ts[i])
    requires before == ts[..i] && after == ts[..i + 1]
    ensures ProverTables.Steps(n, StateOf(n.c, n.height, before), HonestInput(n.c, n.height, before, ts[i]),
                               StateOf(n.c, n.height, after))
  {
    assert after == before + [ts[i]];
    HonestRootStep(n.c, n.height, before, ts[i]);
  }

  lemma {:induction false} HonestRun(n: Net, ts: seq<Transfer>, base: nat, end: nat)
    requires ValidNet(n) && base <= end <= |ts| && end <= Pow2(n.height) < P
    requires forall i :: 0 <= i < |ts| ==> InRange(ts[i])
    ensures ProverTables.Runs(n, StateOf(n.c, n.height, ts[..base]), HonestSteps(n.c, n.height, ts, base, end),
                              StateOf(n.c, n.height, ts[..end]))
    decreases end
  {
    if base == end {
    } else {
      HonestRun(n, ts, base, end - 1);
      HonestStep(n, ts, end - 1, ts[..end - 1], ts[..end]);
      ProverTables.RunsSnoc(n, StateOf(n.c, n.height, ts[..base]), HonestSteps(n.c, n.height, ts, base, end - 1),
                            StateOf(n.c, n.height, ts[..end - 1]),
                            HonestInput(n.c, n.height, ts[..end - 1], ts[end - 1]),
                            StateOf(n.c, n.height, ts[..end]));
    }
  }

  /** The chain once its newest hash chain is reserved. */
  function Reserved(n: Net, ch: Chain): Chain {
    ch.(reserved := ch.reserved[|ch.events| := ChainOf(n.c, 0, ch.events)])
  }

  lemma ReserveStores(n: Net, s: System, k: nat)
    requires ValidNet(n) && Inv(n, s) && k in s.chains
    ensures Step(n, s, ReserveHashChain(k)) == Some(WithChain(s, k, Reserved(n, s.chains[k])))
  {
    ChainFacts(n, s, k);
    SmallRemainder(|s.chains[k].events|);
  }

  /** An honest proof against a reserved chain. */
  lemma HonestProofAccepted(n: Net, ch: Chain, base: nat, z: RootState, steps: seq<RootInput>)
    requires ValidNet(n) && ChainOk(n, ch) && !ch.paused && Pow2(n.height) < P
    requires base in ch.proved && base <= |ch.events| <= Pow2(n.height) && ch.proved[base] != 0
    requires ChainOf(n.c, 0, ch.events) != 0 && z == StateOf(n.c, n.height, ch.events[..base])
    requires steps == HonestSteps(n.c, n.height, ch.events, base, |ch.events|)
    ensures var ts := ch.events;
            var r := ProveStep(n, Reserved(n, ch), z, steps);
            && r.Some? && r.value.events == ts && !r.value.paused && r.value.latestProved == |ts|
            && Get(r.value.proved, |ts|) == Root(n.c.h, Leaves(n.c, ts), n.height)
  {
    var ts, ch1 := ch.events, Reserved(n, ch);
    var e := StateOf(n.c, n.height, ts);
    assert ts[..|ts|] == ts;
    StorageIsOk(n, ch, ch1);
    ProvedRoot(n, ch, base);
    assert LooksInside(ChainPart, 0);
    HonestRun(n, ts, base, |ts|);
    ProverChain.HonestProof(n, ch1, ts, z, steps, base, |ts|, e);
    var next := ProveStep(n, ch1, z, steps).value;
    ProvedRoot(n, next, |ts|);
    ProvedRoot(n, next, next.latestProved);
  }

  /**
   Proofs advance. From every state that keeps the invariant, while the tree has room and the verifier is not paused,
   anybody who reserves and then proves honestly from a proved index to the newest transfer makes that index the latest
   proved one, with the root of all transfers; unless a root or the chain is zero.
   */
  lemma ProofAdvances(n: Net, s: System, k: nat, base: nat, z: RootState, steps: seq<RootInput>)
    requires ValidNet(n) && Inv(n, s) && k in s.chains && !s.chains[k].paused && Pow2(n.height) < P
    requires base in s.chains[k].proved && base <= |s.chains[k].events| <= Pow2(n.height)
    requires s.chains[k].proved[base] != 0 && ChainOf(n.c, 0, s.chains[k].events) != 0
    requires z == StateOf(n.c, n.height, s.chains[k].events[..base])
    requires steps == HonestSteps(n.c, n.height, s.chains[k].events, base, |s.chains[k].events|)
    ensures var ch := s.chains[k];
            var s' := Exec(n, s, [ReserveHashChain(k), ProveTransferRoot(k, z, steps)]);
            && k in s'.chains && s' == s.(chains := s.chains[k := s'.chains[k]])
            && s'.chains[k].events == ch.events && !s'.chains[k].paused
            && s'.chains[k].latestProved == |ch.events|
            && Get(s'.chains[k].proved, |ch.events|) == Root(n.c.h, Leaves(n.c, ch.events), n.height)
  {
    ChainFacts(n, s, k);
    HonestProofAccepted(n, s.chains[k], base, z, steps);
    ReserveAndProve(n, s, k, z, steps, ProveStep(n, Reserved(n, s.chains[k]), z, steps).value);
  }

  lemma ReserveAndProve(n: Net, s: System, k: nat, z: RootState, steps: seq<RootInput>, next: Chain)
    requires ValidNet(n) && Inv(n, s) && k in s.chains
    requires ProveStep(n, Reserved(n, s.chains[k]), z, steps) == Some(next)
    ensures Exec(n, s, [ReserveHashChain(k), ProveTransferRoot(k, z, steps)]) == WithChain(s, k, next)
  {
    var s1 := WithChain(s, k, Reserved(n, s.chains[k]));
    ReserveStores(n, s, k);
    ExecTwo(n, s, ReserveHashChain(k), ProveTransferRoot(k, z, steps), s1, WithChain(s1, k, next));
    assert WithChain(s1, k, next) == WithChain(s, k, next);
  }

  lemma ExecTwo(n: Net, s: System, a: Action, b: Action, s1: System, s2: System)
    requires ValidNet(n) && Step(n, s, a) == Some(s1) && Step(n, s1, b) == Some(s2)
    ensures Exec(n, s, [a, b]) == s2
  {
    assert [a, b][1..] == [b] && [b][1..] == [];
    assert Exec(n, s1, [b]) == Exec(n, s2, []);
  }

  /** Exactly which root proofs are accepted. A root that conflicts with a stored one pauses the verifier and stores
      nothing; any other is stored for its index alone, and the latest proved index never falls. */
  lemma ProofIff(n: Net, ch: Chain, z: RootState, steps: seq<RootInput>)
    requires ValidNet(n)
    ensures var run, r := RunRoot(n.c, n.height, z, steps), ProveStep(n, ch, z, steps);
            && (r.Some? <==>
                  && !ch.paused && run.Some? && z.root != 0 && Get(ch.proved, z.index % TWO_64) == z.root
                  && run.value.chain != 0 && Get(ch.reserved, run.value.index % TWO_64) == run.value.chain)
            && (r.Some? ==>
                  var i, root := run.value.index % TWO_64, run.value.root;
                  var conflict := Get(ch.proved, i) != 0 && Get(ch.proved, i) != root;
                  && r.value.events == ch.events && r.value.token == ch.token && r.value.reserved == ch.reserved
                  && r.value.paused == conflict
                  && r.value.latestProved == (if conflict then ch.latestProved else Max(ch.latestProved, i))
                  && forall j :: Get(r.value.proved, j) == if j == i && !conflict then root else Get(ch.proved, j))
  {
  }

  // ------------------------------------------------------------------------------ pauses

  /** Pausing and unpausing change nothing else, and are refused when there is nothing to change. */
  lemma PauseSwitches(n: Net, s: System, k: nat, paused: bool)
    requires ValidNet(n)
    ensures var r := Step(n, s, SetPaused(k, paused));
            && (r.Some? <==> k in s.chains && s.chains[k].paused != paused)
            && (r.Some? ==>
                  && k in r.value.chains && r.value.chains[k].paused == paused
                  && r.value.chains[k] == s.chains[k].(paused := paused, pauses := r.value.chains[k].pauses)
                  && r.value == s.(chains := s.chains[k := r.value.chains[k]]))
  {
  }

  /** A paused verifier accepts no proof, pays nothing and relays nothing. */
  lemma PausedRefuses(n: Net, s: System, a: Action)
    requires ValidNet(n) && (a.ProveTransferRoot? || a.Teleport? || a.SingleTeleport? || a.RelayTransferRoot?)
    requires a.chain in s.chains && s.chains[a.chain].paused
    ensures Step(n, s, a).None?
  {
  }

  // ------------------------------------------------------------- messages that arrive

  predicate Registered(s: System, k: nat) { exists i :: 0 <= i < |s.hub.slots| && s.hub.slots[i].chain == k }

  /** A slot after a message: the newer of what it held and what arrived for its chain. */
  function Updated(slot: Relayed, m: Relayed): Relayed {
    if slot.chain == m.chain && m.index > slot.index then m else slot
  }

  /** Registration opens one empty slot at the end for a chain that has none. */
  lemma RegistrationOpensSlot(n: Net, s: System, k: nat)
    requires ValidNet(n)
    ensures var r := Step(n, s, RegisterToken(k));
            && (r.Some? <==> k != 0 && k in s.chains && !Registered(s, k) && |s.hub.slots| < Pow2(n.aggHeight))
            && (r.Some? ==>
                  && r.value == s.(hub := s.hub.(slots := r.value.hub.slots))
                  && r.value.hub.slots == s.hub.slots + [Relayed(k, 0, 0)])
  {
    assert Registered(s, k) <==> SlotOf(s.hub.slots, k) < |s.hub.slots|;
  }

  /** A delivered message leaves its chain's slot at the greater of the two indices, and every other slot as it was. */
  lemma DeliveryUpdatesSlot(n: Net, s: System, m: Relayed)
    requires ValidNet(n) && Inv(n, s)
    ensures var r := Step(n, s, HubReceive(m));
            && (r.Some? <==> m in s.hub.inbox && Registered(s, m.chain))
            && (r.Some? ==>
                  && r.value == s.(hub := s.hub.(slots := r.value.hub.slots))
                  && |r.value.hub.slots| == |s.hub.slots|
                  && forall i :: 0 <= i < |s.hub.slots| ==> r.value.hub.slots[i] == Updated(s.hub.slots[i], m))
  {
    assert SlotsOk(n, s.chains, s.hub.slots) by { assert LooksInside(SystemPart, 0); }
    assert Registered(s, m.chain) <==> SlotOf(s.hub.slots, m.chain) < |s.hub.slots|;
  }

  /** A relay sends the newest proved root, unless it is zero or the verifier is paused. */
  lemma RelaySends(n: Net, s: System, k: nat)
    requires ValidNet(n)
    ensures var r := Step(n, s, RelayTransferRoot(k));
            && (r.Some? <==>
                  k in s.chains && !s.chains[k].paused && Get(s.chains[k].proved, s.chains[k].latestProved) != 0)
            && (r.Some? ==>
                  var m := Relayed(k, s.chains[k].latestProved, Get(s.chains[k].proved, s.chains[k].latestProved));
                  r.value == s.(hub := s.hub.(inbox := s.hub.inbox + {m})))
  {
  }

  /** The hub after a broadcast: one more aggregation root, that of the slots as they are. */
  function AfterBroadcast(n: Net, hub: Hub): Hub {
    var g := Aggregation(Root(n.c.h, RootsOf(hub.slots), n.aggHeight), hub.slots);
    hub.(aggSeq := hub.aggSeq + 1, aggregations := hub.aggregations[hub.aggSeq + 1 := g])
  }

  lemma BroadcastNumbers(n: Net, s: System)
    requires ValidNet(n) && Inv(n, s)
    ensures Step(n, s, Broadcast) == Some(s.(hub := AfterBroadcast(n, s.hub)))
    ensures s.hub.aggSeq + 1 !in s.hub.aggregations
    ensures forall j :: j in s.chains ==> Get(s.chains[j].globalRoots, s.hub.aggSeq + 1) == 0
  {
    assert LooksInside(SystemPart, 0);
  }

  // ------------------------------------------------------ from one chain to every other

  /** What a relay of chain `k` sends. */
  function Message(s: System, k: nat): Relayed
    requires k in s.chains
  {
    Relayed(k, s.chains[k].latestProved, Get(s.chains[k].proved, s.chains[k].latestProved))
  }

  /** Relay of `k`, its delivery, a broadcast, and its receipt by `j`. */
  function RelayRun(s: System, k: nat, j: nat): seq<Action>
    requires k in s.chains
  {
    [RelayTransferRoot(k), HubReceive(Message(s, k)), Broadcast, ReceiveGlobalRoot(j, s.hub.aggSeq + 1)]
  }

  /** Chain `j` knows the aggregation root `q` of the given slots, and no log changed. */
  ghost predicate Arrived(n: Net, s: System, s': System, j: nat, q: nat, slots: seq<Relayed>) {
    forall i {:trigger LooksInside(StepPart, i)} :: LooksInside(StepPart, i) ==> ArrivedParts(n, s, s', j, q, slots)
  }

  ghost predicate ArrivedParts(n: Net, s: System, s': System, j: nat, q: nat, slots: seq<Relayed>) {
    && Inv(n, s') && s'.chains.Keys == s.chains.Keys && j in s'.chains
    && (forall i :: i in s.chains ==> s'.chains[i].events == s.chains[i].events)
    && q in s'.hub.aggregations && s'.hub.aggregations[q].snapshot == slots
    && Get(s'.chains[j].globalRoots, q) == Root(n.c.h, RootsOf(slots), n.aggHeight)
  }

  /** The slots after the delivery of `m`. */
  predicate SlotsAfter(before: seq<Relayed>, m: Relayed, after: seq<Relayed>) {
    |after| == |before| && forall i :: 0 <= i < |before| ==> after[i] == Updated(before[i], m)
  }

  /** The call goes through and leads to the second state. */
  ghost predicate Leads(n: Net, s: System, a: Action, s': System)
    requires ValidNet(n)
  {
    forall i {:trigger LooksInside(StepPart, i)} :: LooksInside(StepPart, i) ==> Step(n, s, a) == Some(s')
  }

  /** The run leads to the second state. */
  ghost predicate Reaches(n: Net, s: System, run: seq<Action>, s': System)
    requires ValidNet(n)
  {
    forall i {:trigger LooksInside(StepPart, i)} :: LooksInside(StepPart, i) ==> Exec(n, s, run) == s'
  }

  /** The relay and its delivery. */
  lemma RelayArrives(n: Net, s: System, k: nat, m: Relayed) returns (s1: System, s2: System)
    requires ValidNet(n) && Inv(n, s) && k in s.chains && Registered(s, k) && !s.chains[k].paused
    requires m == Message(s, k) && m.root != 0
    ensures Leads(n, s, RelayTransferRoot(k), s1) && Leads(n, s1, HubReceive(m), s2)
    ensures Inv(n, s2) && s2.chains == s.chains && s2.hub.aggSeq == s.hub.aggSeq
    ensures SlotsAfter(s.hub.slots, m, s2.hub.slots)
  {
    RelaySends(n, s, k);
    MessageKeeps(n, s, RelayTransferRoot(k));
    s1 := s.(hub := s.hub.(inbox := s.hub.inbox + {m}));
    DeliveryUpdatesSlot(n, s1, m);
    MessageKeeps(n, s1, HubReceive(m));
    s2 := Step(n, s1, HubReceive(m)).value;
  }

  /** The broadcast and its receipt. */
  lemma BroadcastArrives(n: Net, s: System, j: nat, q: nat) returns (s1: System, s2: System)
    requires ValidNet(n) && Inv(n, s) && j in s.chains && q == s.hub.aggSeq + 1
    ensures Leads(n, s, Broadcast, s1) && Leads(n, s1, ReceiveGlobalRoot(j, q), s2)
    ensures Arrived(n, s, s2, j, q, s.hub.slots)
  {
    BroadcastNumbers(n, s);
    MessageKeeps(n, s, Broadcast);
    s1 := s.(hub := AfterBroadcast(n, s.hub));
    MessageKeeps(n, s1, ReceiveGlobalRoot(j, q));
    s2 := Step(n, s1, ReceiveGlobalRoot(j, q)).value;
  }

  lemma ExecFour(
    n: Net, s: System, run: seq<Action>, a: Action, b: Action, c: Action, d: Action, s1: System, s2: System,
    s3: System, s4: System, s': System)
    requires ValidNet(n) && Leads(n, s, a, s1) && Leads(n, s1, b, s2) && Leads(n, s2, c, s3) && Leads(n, s3, d, s4)
    requires run == [a, b, c, d] && Reaches(n, s, run, s')
    ensures s' == s4
  {
    assert LooksInside(StepPart, 0);
    assert [a, b, c, d][1..] == [b, c, d] && [b, c, d][1..] == [c, d];
    ExecTwo(n, s2, c, d, s3, s4);
    assert Exec(n, s1, [b, c, d]) == Exec(n, s2, [c, d]);
  }

  lemma RunArrives(n: Net, s: System, k: nat, j: nat, m: Relayed, q: nat, s': System) returns (slots: seq<Relayed>)
    requires ValidNet(n) && Inv(n, s) && k in s.chains && j in s.chains && Registered(s, k) && !s.chains[k].paused
    requires m == Message(s, k) && m.root != 0 && q == s.hub.aggSeq + 1 && Reaches(n, s, RelayRun(s, k, j), s')
    ensures SlotsAfter(s.hub.slots, m, slots) && Arrived(n, s, s', j, q, slots)
  {
    var run := RelayRun(s, k, j);
    var s1, s2 := RelayArrives(n, s, k, m);
    var s3, s4 := BroadcastArrives(n, s2, j, q);
    ExecFour(n, s, run, RelayTransferRoot(k), HubReceive(m), Broadcast, ReceiveGlobalRoot(j, q), s1, s2, s3, s4, s');
    slots := s2.hub.slots;
  }

  // ------------------------------------------------------------------- the main theorem

  /** A tree whose root is zero shows a zero preimage. */
  function ZeroRoot(h: Hash, leaves: seq<Fr>, height: nat): Breach
    requires height >= 1
  {
    ZeroPreimage(Node(h, leaves, height - 1, 0), Node(h, leaves, height - 1, 1))
  }

  lemma ZeroRootIsGenuine(c: Suite, leaves: seq<Fr>, height: nat)
    requires height >= 1 && Root(c.h, leaves, height) == 0
    ensures Genuine(c, ZeroRoot(c.h, leaves, height))
  {
  }

  function FirstEvents(s: System, k: nat, i: nat): seq<Transfer>
    requires k in s.chains
  {
    s.chains[k].events[..Min(i, |s.chains[k].events|)]
  }

  /** The break found when a delivered root is not usable: the transfer root or the aggregation root `root` is zero. */
  function DeliveryBreach(n: Net, s: System, k: nat, root: Fr, slots: seq<Relayed>): Breach
    requires ValidNet(n) && k in s.chains
  {
    if Message(s, k).root == 0 then
      ZeroRoot(n.c.h, Leaves(n.c, FirstEvents(s, k, s.chains[k].latestProved)), n.height)
    else if root != 0 then NoBreach
    else if n.aggHeight >= 1 then ZeroRoot(n.c.h, RootsOf(slots), n.aggHeight)
    else ZeroRoot(n.c.h, Leaves(n.c, FirstEvents(s, k, if slots == [] then 0 else slots[0].index)), n.height)
  }

  /** Transfer `e` of the chain in slot `a` is the leaf at its global index. */
  lemma LeafOfSlot(n: Net, chains: map<nat, Chain>, slots: seq<Relayed>, a: nat, e: nat, v: nat)
    requires a < |slots| <= Pow2(n.aggHeight) && slots[a].chain in chains && e < Pow2(n.height)
    requires e < slots[a].index <= |chains[slots[a].chain].events| && v == GlobalIndex(n.height, a, e)
    ensures InView(n, chains, Global(slots), v)
    ensures TransferOf(n, chains, Global(slots), v) == chains[slots[a].chain].events[e]
  {
    SplitIndex(n.height, a, e);
    ShrAdd(v, n.height, n.aggHeight);
    ShrZeroIff(a, n.aggHeight);
    ShrZeroIff(v, n.height + n.aggHeight);
  }

  /** After the delivery the slot of the chain covers everything it has proved. */
  lemma SlotCovers(n: Net, s: System, k: nat, chains: map<nat, Chain>, slots: seq<Relayed>, a: nat)
    requires Inv(n, s) && k in s.chains && Registered(s, k) && a == SlotOf(s.hub.slots, k)
    requires SlotsAfter(s.hub.slots, Message(s, k), slots) && SlotsOk(n, chains, slots)
    requires k in chains && chains[k].events == s.chains[k].events && s.chains[k].latestProved > 0
    ensures a < |slots| && slots[a].chain == k
    ensures s.chains[k].latestProved <= slots[a].index <= |s.chains[k].events|
    ensures slots[a].root == Root(n.c.h, Leaves(n.c, s.chains[k].events[..slots[a].index]), n.height)
    ensures s.chains[k].latestProved <= Pow2(n.height)
  {
    assert slots[a] == Updated(s.hub.slots[a], Message(s, k));
    assert SlotOk(n, chains, slots[a]);
    ChainFacts(n, s, k);
    ProvedRoot(n, s.chains[k], s.chains[k].latestProved);
  }

  lemma ZeroMessage(n: Net, s: System, k: nat)
    requires ValidNet(n) && Inv(n, s) && k in s.chains && Message(s, k).root == 0
    ensures Genuine(n.c, ZeroRoot(n.c.h, Leaves(n.c, FirstEvents(s, k, s.chains[k].latestProved)), n.height))
  {
    ChainFacts(n, s, k);
    ProvedRoot(n, s.chains[k], s.chains[k].latestProved);
    ZeroRootIsGenuine(n.c, Leaves(n.c, FirstEvents(s, k, s.chains[k].latestProved)), n.height);
  }

  lemma ZeroAggregation(n: Net, s: System, k: nat, slots: seq<Relayed>, a: nat)
    requires ValidNet(n) && k in s.chains && a < |slots| <= Pow2(n.aggHeight)
    requires Root(n.c.h, RootsOf(slots), n.aggHeight) == 0 && slots[a].index <= |s.chains[k].events|
    requires slots[a].root == Root(n.c.h, Leaves(n.c, s.chains[k].events[..slots[a].index]), n.height)
    ensures Message(s, k).root != 0 ==> Genuine(n.c, DeliveryBreach(n, s, k, 0, slots))
  {
    if n.aggHeight >= 1 {
      ZeroRootIsGenuine(n.c, RootsOf(slots), n.aggHeight);
    } else {
      assert a == 0 && Root(n.c.h, RootsOf(slots), 0) == slots[0].root;
      ZeroRootIsGenuine(n.c, Leaves(n.c, FirstEvents(s, k, slots[0].index)), n.height);
    }
  }

  /** In `s'` chain `j` holds the root of a view in which transfer `e` of chain `k` is leaf `v`. */
  ghost predicate Usable(n: Net, s: System, s': System, k: nat, j: nat, q: nat, e: nat, v: nat)
    requires k in s.chains && e < |s.chains[k].events|
  {
    && Inv(n, s') && j in s'.chains && HintedRoot(s'.chains[j], true, q) != 0
    && InView(n, s'.chains, ViewOf(s', j, true, q), v)
    && TransferOf(n, s'.chains, ViewOf(s', j, true, q), v) == s.chains[k].events[e]
  }

  /**
   Every proved transfer reaches every chain. From any state that keeps the invariant, and whatever the hub held: after
   a relay of the registered chain `k`, its delivery, a broadcast and its receipt by `j`, chain `j` holds a global root
   under which every transfer that `k` has proved is a leaf, at the slot of `k`. The only alternative is a zero root.
   */
  lemma TransfersReachEveryChain(
    n: Net, s: System, k: nat, j: nat, e: nat, v: nat, q: nat, s': System)
    requires ValidNet(n) && Inv(n, s) && k in s.chains && j in s.chains && Registered(s, k) && !s.chains[k].paused
    requires e < s.chains[k].latestProved <= |s.chains[k].events|
    requires q == s.hub.aggSeq + 1 && v == GlobalIndex(n.height, SlotOf(s.hub.slots, k), e)
    requires Reaches(n, s, RelayRun(s, k, j), s')
    ensures var b := DeliveryBreach(n, s, k, if j in s'.chains then HintedRoot(s'.chains[j], true, q) else 0,
                                    if q in s'.hub.aggregations then s'.hub.aggregations[q].snapshot else []);
            if b.NoBreach? then Usable(n, s, s', k, j, q, e, v) else Genuine(n.c, b)
  {
    if Message(s, k).root == 0 {
      ZeroMessage(n, s, k);
    } else {
      var a := SlotOf(s.hub.slots, k);
      var slots := RunArrives(n, s, k, j, Message(s, k), q, s');
      assert ArrivedParts(n, s, s', j, q, slots) by { assert LooksInside(StepPart, 0); }
      assert SlotsOk(n, s'.chains, slots) by { assert LooksInside(SystemPart, 0); }
      SlotCovers(n, s, k, s'.chains, slots, a);
      if HintedRoot(s'.chains[j], true, q) == 0 {
        ZeroAggregation(n, s, k, slots, a);
      } else {
        LeafOfSlot(n, s'.chains, slots, a, e, v);
      }
    }
  }

  /** The leaf is redeemed on chain `j` by a single proof of its true path, exactly under the contract's conditions. */
  ghost predicate Redeems(n: Net, s': System, j: nat, q: nat, v: Fr, gr: Recipient, secret: Fr, value: nat)
    requires ValidNet(n) && j in s'.chains && InView(n, s'.chains, ViewOf(s', j, true, q), v)
  {
    var x := StepFor(n, s'.chains, ViewOf(s', j, true, q), v, secret);
    var root, recipient := HintedRoot(s'.chains[j], true, q), n.c.recipient(gr);
    x.value == value
    && Pays(n, s', SingleTeleport(j, true, q, gr, root, recipient, x, 0), j, gr, recipient, value)
  }

  /**
   Burned anywhere, paid anywhere. Once the root of chain `k` was relayed, a proved transfer of `k` to the burn address
   of a recipient on chain `j` is paid on `j` exactly when the contract's own conditions hold; or a root is zero.
   */
  lemma BurnedIsPaidAnywhere(
    n: Net, s: System, k: nat, j: nat, e: nat, v: Fr, q: nat, s': System, gr: Recipient, secret: Fr)
    requires ValidNet(n) && Inv(n, s) && k in s.chains && j in s.chains && Registered(s, k) && !s.chains[k].paused
    requires e < s.chains[k].latestProved <= |s.chains[k].events|
    requires q == s.hub.aggSeq + 1 && v == GlobalIndex(n.height, SlotOf(s.hub.slots, k), e)
    requires Reaches(n, s, RelayRun(s, k, j), s') && gr.chainId == j
    requires s.chains[k].events[e].to == BurnAddress(n.c.h, n.c.recipient(gr), secret)
    requires HasPow(n.c.h, n.c.recipient(gr), secret)
    ensures var b := DeliveryBreach(n, s, k, if j in s'.chains then HintedRoot(s'.chains[j], true, q) else 0,
                                    if q in s'.hub.aggregations then s'.hub.aggregations[q].snapshot else []);
            if b.NoBreach?
            then Usable(n, s, s', k, j, q, e, v) && Redeems(n, s', j, q, v, gr, secret, s.chains[k].events[e].value)
            else Genuine(n.c, b)
  {
    TransfersReachEveryChain(n, s, k, j, e, v, q, s');
    if Usable(n, s, s', k, j, q, e, v) { UsableIsPaid(n, s, s', k, j, q, e, v, gr, secret); }
  }

  lemma UsableIsPaid(
    n: Net, s: System, s': System, k: nat, j: nat, q: nat, e: nat, v: Fr, gr: Recipient, secret: Fr)
    requires ValidNet(n) && k in s.chains && e < |s.chains[k].events| && Usable(n, s, s', k, j, q, e, v)
    requires gr.chainId == j && s.chains[k].events[e].to == BurnAddress(n.c.h, n.c.recipient(gr), secret)
    requires HasPow(n.c.h, n.c.recipient(gr), secret)
    ensures Redeems(n, s', j, q, v, gr, secret, s.chains[k].events[e].value)
  {
    var x := StepFor(n, s'.chains, ViewOf(s', j, true, q), v, secret);
    BurnedIsMintedAlone(
      n, s', j, true, q, gr, HintedRoot(s'.chains[j], true, q), n.c.recipient(gr), v, secret, x, 0);
  }
}
