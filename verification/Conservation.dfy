/**
 Conservation: in every run of the contracts, what teleports mint never exceeds the value of the transfers
 whose burn secrets were shown, and no transfer counts for two accounts; or a function of the run
 computes a concrete break of a hash function.
 */
module Conservation {
  import opened Field
  import opened Crypto
  import opened Merkle
  import opened Base
  import opened Burn
  import opened RootCircuit
  import opened WithdrawCircuit
  import opened Contracts
  import opened Sums
  import opened Invariant
  import opened Openings

  // ------------------------------------------------------------------- every action

  /** The break an action can reveal. */
  function StepBreach(n: Net, s: System, a: Action): Breach
    requires ValidNet(n)
  {
    match a
    case ProveTransferRoot(k, z, steps) => if k in s.chains then ProveBreach(n, s.chains[k], z, steps) else NoBreach
    case Teleport(k, isGlobal, hint, gr, _, inputs) =>
      if Step(n, s, a).None? then NoBreach else OpensBreach(n, s, ViewOf(s, k, isGlobal, hint), gr, inputs)
    case SingleTeleport(k, isGlobal, hint, gr, _, _, x, _) =>
      if Step(n, s, a).None? then NoBreach else OpensBreach(n, s, ViewOf(s, k, isGlobal, hint), gr, [x])
    case _ => NoBreach
  }

  /** Exchanging one chain's verifier storage, its log untouched. */
  lemma StorageKeeps(n: Net, s: System, k: nat, ch: Chain)
    requires Inv(n, s) && k in s.chains && ch.events == s.chains[k].events && ChainOk(n, ch)
    requires forall q :: q in ch.globalRoots && ch.globalRoots[q] != 0 ==>
               q in s.hub.aggregations && ch.globalRoots[q] == s.hub.aggregations[q].root
    ensures Inv(n, WithChain(s, k, ch))
  {
    assert LooksInside(SystemPart, 0);
    ChainsGrow(n, s, s.chains[k := ch]);
  }

  lemma PauseKeeps(n: Net, s: System, k: nat, p: bool)
    requires Inv(n, s) && k in s.chains
    ensures Inv(n, WithChain(s, k, Pause(s.chains[k], p)))
  {
    ChainFacts(n, s, k);
    StorageIsOk(n, s.chains[k], Pause(s.chains[k], p));
    StorageKeeps(n, s, k, Pause(s.chains[k], p));
  }

  lemma GlobalRootKeeps(n: Net, s: System, k: nat, q: nat)
    requires Inv(n, s) && k in s.chains && q in s.hub.aggregations
    ensures var roots := s.chains[k].globalRoots[q := s.hub.aggregations[q].root];
            Inv(n, WithChain(s, k, s.chains[k].(globalRoots := roots)))
  {
    var next := s.chains[k].(globalRoots := s.chains[k].globalRoots[q := s.hub.aggregations[q].root]);
    ChainFacts(n, s, k);
    StorageIsOk(n, s.chains[k], next);
    StorageKeeps(n, s, k, next);
  }

  lemma ReserveKeeps(n: Net, s: System, k: nat)
    requires Inv(n, s) && k in s.chains
    ensures var ch := s.chains[k];
            Inv(n, WithChain(s, k, ch.(reserved := ch.reserved[|ch.events| % TWO_64 := ChainOf(n.c, 0, ch.events)])))
  {
    var ch := s.chains[k];
    var next := ch.(reserved := ch.reserved[|ch.events| := ChainOf(n.c, 0, ch.events)]);
    ChainFacts(n, s, k);
    SmallRemainder(|ch.events|);
    assert ch.events[..|ch.events|] == ch.events;
    StorageIsOk(n, ch, next);
    StorageKeeps(n, s, k, next);
  }

  lemma ProveKeeps(n: Net, s: System, k: nat, z: RootState, steps: seq<RootInput>)
    requires ValidNet(n) && Inv(n, s) && k in s.chains && ProveStep(n, s.chains[k], z, steps).Some?
    ensures var b := ProveBreach(n, s.chains[k], z, steps);
            if b.NoBreach? then Inv(n, WithChain(s, k, ProveStep(n, s.chains[k], z, steps).value)) else Genuine(n.c, b)
  {
    var ch := s.chains[k];
    ChainFacts(n, s, k);
    ProveSound(n, ch, z, steps);
    if ProveBreach(n, ch, z, steps).NoBreach? {
      StorageKeeps(n, s, k, ProveStep(n, ch, z, steps).value);
    }
  }

  lemma ChainFacts(n: Net, s: System, k: nat)
    requires Inv(n, s) && k in s.chains
    ensures ChainOk(n, s.chains[k])
    ensures forall q :: q in s.chains[k].globalRoots && s.chains[k].globalRoots[q] != 0 ==>
              q in s.hub.aggregations && s.chains[k].globalRoots[q] == s.hub.aggregations[q].root
  {
    assert LooksInside(SystemPart, 0);
  }

  lemma HubKeeps(n: Net, s: System, hub: Hub)
    requires Inv(n, s) && HubOk(n, s.chains, hub) && GlobalsOk(s.chains, hub)
    ensures Inv(n, s.(hub := hub))
  {
    assert LooksInside(SystemPart, 0);
  }

  lemma RelayKeeps(n: Net, s: System, k: nat)
    requires Inv(n, s) && k in s.chains
    requires Get(s.chains[k].proved, s.chains[k].latestProved) != 0
    ensures var m := Relayed(k, s.chains[k].latestProved, Get(s.chains[k].proved, s.chains[k].latestProved));
            Inv(n, s.(hub := s.hub.(inbox := s.hub.inbox + {m})))
  {
    assert LooksInside(SystemPart, 0);
    ProvedRoot(n, s.chains[k], s.chains[k].latestProved);
    var m := Relayed(k, s.chains[k].latestProved, Get(s.chains[k].proved, s.chains[k].latestProved));
    HubKeeps(n, s, s.hub.(inbox := s.hub.inbox + {m}));
  }

  lemma ReceiveKeeps(n: Net, s: System, m: Relayed, i: nat)
    requires Inv(n, s) && m in s.hub.inbox && i < |s.hub.slots| && s.hub.slots[i].chain == m.chain
    requires m.index > s.hub.slots[i].index
    ensures Inv(n, s.(hub := s.hub.(slots := s.hub.slots[i := m])))
  {
    assert LooksInside(SystemPart, 0);
    HubKeeps(n, s, s.hub.(slots := s.hub.slots[i := m]));
  }

  lemma RegisterKeeps(n: Net, s: System, k: nat)
    requires Inv(n, s) && |s.hub.slots| < Pow2(n.aggHeight) && SlotOf(s.hub.slots, k) == |s.hub.slots|
    ensures Inv(n, s.(hub := s.hub.(slots := s.hub.slots + [Relayed(k, 0, 0)])))
  {
    assert LooksInside(SystemPart, 0);
    HubKeeps(n, s, s.hub.(slots := s.hub.slots + [Relayed(k, 0, 0)]));
  }

  lemma BroadcastKeeps(n: Net, s: System)
    requires Inv(n, s)
    ensures var g := Aggregation(Root(n.c.h, RootsOf(s.hub.slots), n.aggHeight), s.hub.slots);
            Inv(n, s.(hub := s.hub.(aggSeq := s.hub.aggSeq + 1,
                                    aggregations := s.hub.aggregations[s.hub.aggSeq + 1 := g])))
  {
    assert LooksInside(SystemPart, 0);
    var g := Aggregation(Root(n.c.h, RootsOf(s.hub.slots), n.aggHeight), s.hub.slots);
    var hub := s.hub.(aggSeq := s.hub.aggSeq + 1, aggregations := s.hub.aggregations[s.hub.aggSeq + 1 := g]);
    assert s.hub.aggSeq + 1 !in s.hub.aggregations;
    assert AggregationOk(n, s.chains, g);
    assert HubOk(n, s.chains, hub) by {
      forall q | q in hub.aggregations
        ensures q <= hub.aggSeq && AggregationOk(n, s.chains, hub.aggregations[q])
      {
        if q in s.hub.aggregations { assert AggregationOk(n, s.chains, s.hub.aggregations[q]); }
      }
    }
    HubKeeps(n, s, hub);
  }

  /** Every accepted action keeps the invariant, or reveals a genuine break. */
  lemma StepKeeps(n: Net, s: System, a: Action)
    requires ValidNet(n) && Inv(n, s) && Step(n, s, a).Some?
    ensures var b := StepBreach(n, s, a);
            if b.NoBreach? then Inv(n, Step(n, s, a).value) else Genuine(n.c, b)
  {
    match a
    case TokenTransfer(_, _, _) => TokenKeeps(n, s, a);
    case Deposit(_, _) => TokenKeeps(n, s, a);
    case Withdraw(_, _, _) => TokenKeeps(n, s, a);
    case ReserveHashChain(k) => ReserveKeeps(n, s, k);
    case ProveTransferRoot(k, z, steps) => ProveKeeps(n, s, k, z, steps);
    case Teleport(k, isGlobal, hint, gr, z, inputs) => BatchKeeps(n, s, k, isGlobal, hint, gr, z, inputs);
    case SingleTeleport(k, isGlobal, hint, gr, root, recipient, x, delta) =>
      SingleIsRun(n, isGlobal, root, recipient, x, delta);
      TeleportKeeps(n, s, k, isGlobal, hint, gr, root, recipient, [x], Sub(x.value, delta));
    case _ => MessageKeeps(n, s, a);
  }

  predicate IsMessage(a: Action) {
    a.RelayTransferRoot? || a.HubReceive? || a.RegisterToken? || a.Broadcast? || a.ReceiveGlobalRoot? || a.SetPaused?
  }

  lemma MessageKeeps(n: Net, s: System, a: Action)
    requires ValidNet(n) && Inv(n, s) && Step(n, s, a).Some? && IsMessage(a)
    ensures Inv(n, Step(n, s, a).value)
  {
    match a
    case ReceiveGlobalRoot(k, q) => GlobalRootKeeps(n, s, k, q);
    case SetPaused(k, p) => PauseKeeps(n, s, k, p);
    case _ => HubStepKeeps(n, s, a);
  }

  lemma HubStepKeeps(n: Net, s: System, a: Action)
    requires ValidNet(n) && Inv(n, s) && Step(n, s, a).Some?
    requires a.RelayTransferRoot? || a.HubReceive? || a.RegisterToken? || a.Broadcast?
    ensures Inv(n, Step(n, s, a).value)
  {
    match a
    case RelayTransferRoot(k) => RelayStepKeeps(n, s, k);
    case HubReceive(m) => DeliverKeeps(n, s, m);
    case RegisterToken(k) => RegisterStepKeeps(n, s, k);
    case Broadcast => BroadcastKeeps(n, s);
  }

  lemma RelayStepKeeps(n: Net, s: System, k: nat)
    requires ValidNet(n) && Inv(n, s) && Step(n, s, RelayTransferRoot(k)).Some?
    ensures Inv(n, Step(n, s, RelayTransferRoot(k)).value)
  {
    RelayKeeps(n, s, k);
  }

  lemma RegisterStepKeeps(n: Net, s: System, k: nat)
    requires ValidNet(n) && Inv(n, s) && Step(n, s, RegisterToken(k)).Some?
    ensures Inv(n, Step(n, s, RegisterToken(k)).value)
  {
    RegisterKeeps(n, s, k);
  }

  lemma BatchKeeps(
    n: Net, s: System, k: nat, isGlobal: bool, hint: nat, gr: Recipient, z: WithdrawState, inputs: seq<WithdrawInput>)
    requires ValidNet(n) && Inv(n, s)
    ensures var b := OpensBreach(n, s, ViewOf(s, k, isGlobal, hint), gr, inputs);
            var r := Step(n, s, Teleport(k, isGlobal, hint, gr, z, inputs));
            r.Some? ==> if b.NoBreach? then Inv(n, r.value) else Genuine(n.c, b)
  {
    if Step(n, s, Teleport(k, isGlobal, hint, gr, z, inputs)).Some? {
      var e := RunWithdraw(n.c, DepthOf(n, isGlobal), z, inputs).value;
      AcceptedRun(n.c, DepthOf(n, isGlobal), z, inputs, e);
      TeleportKeeps(n, s, k, isGlobal, hint, gr, z.root, z.recipient, inputs, e.total);
    }
  }

  lemma DeliverKeeps(n: Net, s: System, m: Relayed)
    requires ValidNet(n) && Inv(n, s) && Step(n, s, HubReceive(m)).Some?
    ensures Inv(n, Step(n, s, HubReceive(m)).value)
  {
    var i := SlotOf(s.hub.slots, m.chain);
    if m.index > s.hub.slots[i].index { ReceiveKeeps(n, s, m, i); }
  }

  lemma SingleIsRun(n: Net, isGlobal: bool, root: Fr, recipient: Fr, x: WithdrawInput, delta: Fr)
    requires ValidNet(n) && !x.isDummy && SingleOk(n.c, DepthOf(n, isGlobal), root, recipient, x, delta)
    ensures Increasing([x], 0, Pow2(DepthOf(n, isGlobal)))
    ensures AllOpen(n.c.h, DepthOf(n, isGlobal), root, recipient, [x])
    ensures Sub(x.value, delta) <= SignedSum([x]) && Sub(x.value, delta) < TWO_248
  {
    SingleIff(n.c, DepthOf(n, isGlobal), root, recipient, x, delta);
    assert [x][1..] == [];
  }

  // -------------------------------------------------------------------- whole runs

  /** A run: every action that does not revert takes effect, in order. */
  function Exec(n: Net, s: System, actions: seq<Action>): System
    requires ValidNet(n)
    decreases |actions|
  {
    if actions == [] then s
    else
      var r := Step(n, s, actions[0]);
      Exec(n, if r.Some? then r.value else s, actions[1..])
  }

  /** The first break a run reveals. */
  function ExecBreach(n: Net, s: System, actions: seq<Action>): Breach
    requires ValidNet(n)
    decreases |actions|
  {
    if actions == [] then NoBreach
    else
      var r := Step(n, s, actions[0]);
      if r.None? then ExecBreach(n, s, actions[1..])
      else if StepBreach(n, s, actions[0]) != NoBreach then StepBreach(n, s, actions[0])
      else ExecBreach(n, r.value, actions[1..])
  }

  lemma {:induction false} ExecKeeps(n: Net, s: System, actions: seq<Action>)
    requires ValidNet(n) && Inv(n, s)
    ensures var b := ExecBreach(n, s, actions);
            if b.NoBreach? then Inv(n, Exec(n, s, actions)) else Genuine(n.c, b)
    decreases |actions|
  {
    if actions == [] {
    } else {
      var r := Step(n, s, actions[0]);
      if r.None? {
        ExecKeeps(n, s, actions[1..]);
      } else {
        StepKeeps(n, s, actions[0]);
        if StepBreach(n, s, actions[0]).NoBreach? { ExecKeeps(n, r.value, actions[1..]); }
      }
    }
  }

  lemma InitialInv(n: Net, ids: set<nat>)
    requires ValidNet(n)
    ensures Inv(n, InitialSystem(n, ids))
  {
    EmptyNode(n.c.h, n.height, 0);
    assert Leaves(n.c, []) == [] && InitialChain(n).events[..0] == [];
    assert ProvedAt(n, InitialChain(n), 0);
  }

  ghost function OpenedBy(n: Net, claims: map<Place, Claim>, accounts: set<Account>): set<Place> {
    set p | p in claims && OwnerOf(n, claims[p]) in accounts
  }

  /** The amounts of a set of accounts are covered by the transfers those accounts opened. */
  lemma {:induction false} AccountsWithinClaims(n: Net, s: System, accounts: set<Account>)
    requires BooksOk(n, s)
    ensures SumOver(accounts, ValueIn(s.teleported))
         <= SumOver(OpenedBy(n, s.claims, accounts), Values(s.chains))
    decreases accounts
  {
    if accounts == {} {
    } else {
      var a :| a in accounts;
      var rest := accounts - {a};
      AccountsWithinClaims(n, s, rest);
      SumAdd(rest, a, ValueIn(s.teleported));
      assert rest + {a} == accounts;
      var mine, others := ClaimsOf(n, s.claims, a), OpenedBy(n, s.claims, rest);
      SumUnion(mine, others, Values(s.chains));
      assert mine + others == OpenedBy(n, s.claims, accounts);
    }
  }

  lemma InvCovers(n: Net, s: System)
    requires Inv(n, s)
    ensures s.minted <= SumOver(s.claims.Keys, Values(s.chains))
    ensures ClaimsOk(n, s.chains, s.claims)
    ensures forall a :: a in s.teleported ==> s.teleported[a] <= SumOver(ClaimsOf(n, s.claims, a), Values(s.chains))
  {
    assert LooksInside(SystemPart, 0);
    AccountsWithinClaims(n, s, s.teleported.Keys);
    SumSubset(OpenedBy(n, s.claims, s.teleported.Keys), s.claims.Keys, Values(s.chains));
  }

  /**
   Conservation over every run. From deployment, whatever sequence of transfers, reservations, root proofs,
   relays, broadcasts and teleports is executed on any number of chains, with messages delayed, repeated
   and reordered: the total ever minted by teleports is at most the total value of the opened transfers,
   each of which exists, was sent to a burn address whose secret was shown, and is counted once. The only
   alternative is that `ExecBreach` computes a genuine collision or zero preimage from the run.
   */
  lemma MintedNeverExceedsBurned(n: Net, ids: set<nat>, actions: seq<Action>)
    requires ValidNet(n)
    ensures var b := ExecBreach(n, InitialSystem(n, ids), actions);
            var s := Exec(n, InitialSystem(n, ids), actions);
            if b.NoBreach?
            then && s.minted <= SumOver(s.claims.Keys, Values(s.chains))
                 && ClaimsOk(n, s.chains, s.claims)
                 && (forall a :: a in s.teleported ==>
                       s.teleported[a] <= SumOver(ClaimsOf(n, s.claims, a), Values(s.chains)))
            else Genuine(n.c, b)
  {
    InitialInv(n, ids);
    ExecKeeps(n, InitialSystem(n, ids), actions);
    if ExecBreach(n, InitialSystem(n, ids), actions).NoBreach? {
      InvCovers(n, Exec(n, InitialSystem(n, ids), actions));
    }
  }

  /** The emergency pause on conflicting roots fires only with a break in hand. */
  lemma EmergencyNeedsBreach(n: Net, s: System, k: nat, z: RootState, steps: seq<RootInput>)
    requires ValidNet(n) && Inv(n, s) && k in s.chains && !s.chains[k].paused
    requires ProveStep(n, s.chains[k], z, steps).Some? && ProveStep(n, s.chains[k], z, steps).value.paused
    ensures Genuine(n.c, ProveBreach(n, s.chains[k], z, steps))
  {
    assert LooksInside(SystemPart, 0);
    assert ChainOk(n, s.chains[k]);
    ProveSound(n, s.chains[k], z, steps);
  }

  /** The deployed heights are admissible. */
  lemma DeploymentIsValid(c: Suite)
    ensures ValidNet(Net(c, 40, 6))
  {
    Pow2Product(4, 4, 8, 16, 16);
    Pow2Product(8, 8, 16, 0x100, 0x100);
    Pow2Product(16, 16, 32, 0x1_0000, 0x1_0000);
    Pow2Product(32, 8, 40, 0x1_0000_0000, 0x100);
  }
}
