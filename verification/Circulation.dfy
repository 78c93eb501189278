/**
 Circulation: on all chains together, the tokens held outside opened burn addresses never exceed what was deposited
 and not withdrawn, and what was ever taken out of an opened burn address.
 */
module Circulation {
  import opened Base
  import opened Field
  import opened Crypto
  import opened Burn
  import opened Contracts
  import opened Invariant
  import opened Openings
  import opened Conservation
  import opened Sums
  import WithdrawCircuit

  // --------------------------------------------------------------- token invariants

  /** Everything a log sends to an address. */
  function Received(events: seq<Transfer>, a: Fr): nat {
    if events == [] then 0
    else
      var last := events[|events| - 1];
      Received(events[..|events| - 1], a) + if last.to == a then last.value else 0
  }

  lemma ReceivedNext(events: seq<Transfer>, t: Transfer, a: Fr)
    ensures Received(events + [t], a) == Received(events, a) + if t.to == a then t.value else 0
  {
    assert (events + [t])[..|events|] == events;
  }

  /** Balances add up to the supply, and every account holds what it received less what it sent. */
  ghost predicate TokenOk(ch: Chain) {
    && Total(ch.token.balances) == ch.token.supply
    && 0 !in ch.token.balances
    && (forall a :: a != 0 ==> Balance(ch.token, a) + Sent(ch.token, a) == Received(ch.events, a))
  }

  lemma MovedTotal(k: Token, from: Fr, to: Fr, value: nat)
    requires Move(k, from, to, value).Some?
    ensures Total(Move(k, from, to, value).value.balances) == Total(k.balances)
  {
    DebitedTotal(k, from, value);
    CreditedTotal(Debited(k, from, value), to, value);
  }

  lemma DebitedTotal(k: Token, a: Fr, value: nat)
    requires value <= Balance(k, a)
    ensures Total(Debited(k, a, value).balances) + value == Total(k.balances)
  {
    TotalUpdate(k.balances, a, Balance(k, a) - value);
  }

  lemma CreditedTotal(k: Token, a: Fr, value: nat)
    ensures Total(Credited(k, a, value).balances) == Total(k.balances) + value
  {
    TotalUpdate(k.balances, a, Balance(k, a) + value);
  }

  lemma MoveKeeps(ch: Chain, from: Fr, t: Transfer)
    requires TokenOk(ch) && Move(ch.token, from, t.to, t.value).Some?
    ensures TokenOk(Append(ch, t, Move(ch.token, from, t.to, t.value).value))
  {
    var token := Move(ch.token, from, t.to, t.value).value;
    MovedTotal(ch.token, from, t.to, t.value);
    forall a | a != 0 ensures Balance(token, a) + Sent(token, a) == Received(ch.events + [t], a) {
    }
  }

  lemma CreateKeeps(ch: Chain, t: Transfer)
    requires TokenOk(ch) && Create(ch.token, t.to, t.value).Some?
    ensures TokenOk(Append(ch, t, Create(ch.token, t.to, t.value).value))
  {
    var token := Create(ch.token, t.to, t.value).value;
    CreditedTotal(ch.token, t.to, t.value);
    forall a | a != 0 ensures Balance(token, a) + Sent(token, a) == Received(ch.events + [t], a) {
      ReceivedNext(ch.events, t, a);
    }
  }

  lemma DestroyKeeps(ch: Chain, from: Fr, t: Transfer)
    requires TokenOk(ch) && t.to == 0 && Destroy(ch.token, from, t.value).Some?
    ensures TokenOk(Append(ch, t, Destroy(ch.token, from, t.value).value))
  {
    var token := Destroy(ch.token, from, t.value).value;
    DebitedTotal(ch.token, from, t.value);
    forall a | a != 0 ensures Balance(token, a) + Sent(token, a) == Received(ch.events + [t], a) {
    }
  }

  // --------------------------------------------------------------- the whole system

  function Supply(ch: Chain): nat { if ch.token.supply < 0 then 0 else ch.token.supply }

  function Supplies(chains: map<nat, Chain>): map<nat, nat> { map k | k in chains :: Supply(chains[k]) }

  /** All supplies together are what was deposited and minted, less what was withdrawn. */
  ghost predicate MoneyOk(s: System) {
    && (forall k :: k in s.chains ==> TokenOk(s.chains[k]))
    && Total(Supplies(s.chains)) + s.withdrawn == s.deposited + s.minted
  }

  lemma SuppliesReplaced(chains: map<nat, Chain>, k: nat, ch: Chain)
    requires k in chains
    ensures Total(Supplies(chains[k := ch])) + Supply(chains[k]) == Total(Supplies(chains)) + Supply(ch)
  {
    assert Supplies(chains[k := ch]) == Supplies(chains)[k := Supply(ch)];
    TotalUpdate(Supplies(chains), k, Supply(ch));
  }

  lemma ChainReplaced(s: System, k: nat, ch: Chain)
    requires MoneyOk(s) && k in s.chains && TokenOk(ch)
    ensures var chains := s.chains[k := ch];
            && (forall j :: j in chains ==> TokenOk(chains[j]))
            && Total(Supplies(chains)) + Supply(s.chains[k]) == Total(Supplies(s.chains)) + Supply(ch)
  {
    SuppliesReplaced(s.chains, k, ch);
  }

  /** Steps that touch neither tokens nor logs. */
  lemma StorageKeepsMoney(s: System, k: nat, ch: Chain)
    requires MoneyOk(s) && k in s.chains && ch.token == s.chains[k].token && ch.events == s.chains[k].events
    ensures MoneyOk(WithChain(s, k, ch))
  {
    ChainReplaced(s, k, ch);
  }

  lemma TransferKeepsMoney(s: System, k: nat, from: Fr, t: Transfer)
    requires MoneyOk(s) && k in s.chains && Move(s.chains[k].token, from, t.to, t.value).Some?
    ensures MoneyOk(WithChain(s, k, Append(s.chains[k], t, Move(s.chains[k].token, from, t.to, t.value).value)))
  {
    var token := Move(s.chains[k].token, from, t.to, t.value).value;
    MoveKeeps(s.chains[k], from, t);
    ChainReplaced(s, k, Append(s.chains[k], t, token));
    assert token.supply == s.chains[k].token.supply;
  }

  lemma DepositKeepsMoney(s: System, k: nat, t: Transfer)
    requires MoneyOk(s) && k in s.chains && Create(s.chains[k].token, t.to, t.value).Some?
    ensures var ch := Append(s.chains[k], t, Create(s.chains[k].token, t.to, t.value).value);
            MoneyOk(WithChain(s, k, ch).(deposited := s.deposited + t.value))
  {
    CreateKeeps(s.chains[k], t);
    ChainReplaced(s, k, Append(s.chains[k], t, Create(s.chains[k].token, t.to, t.value).value));
  }

  lemma WithdrawKeepsMoney(s: System, k: nat, from: Fr, value: Fr)
    requires MoneyOk(s) && k in s.chains && Destroy(s.chains[k].token, from, value).Some?
    ensures var ch := Append(s.chains[k], Transfer(0, value), Destroy(s.chains[k].token, from, value).value);
            MoneyOk(WithChain(s, k, ch).(withdrawn := s.withdrawn + value))
  {
    DestroyKeeps(s.chains[k], from, Transfer(0, value));
    ChainReplaced(s, k, Append(s.chains[k], Transfer(0, value), Destroy(s.chains[k].token, from, value).value));
  }

  lemma TeleportKeepsMoney(
    n: Net, s: System, k: nat, isGlobal: bool, hint: nat, gr: Recipient,
    root: Fr, recipient: Fr, xs: seq<WithdrawCircuit.WithdrawInput>, value: Fr)
    requires MoneyOk(s) && k in s.chains && TeleportStep(n, s, k, isGlobal, hint, gr, root, recipient, xs, value).Some?
    ensures MoneyOk(TeleportStep(n, s, k, isGlobal, hint, gr, root, recipient, xs, value).value)
  {
    var t := Transfer(gr.account % TWO_160, value - Teleported(s, (k, recipient)));
    var next := Append(s.chains[k], t, Create(s.chains[k].token, t.to, t.value).value);
    var s' := TeleportStep(n, s, k, isGlobal, hint, gr, root, recipient, xs, value).value;
    assert s'.chains == s.chains[k := next] && s'.minted == s.minted + t.value;
    assert s'.deposited == s.deposited && s'.withdrawn == s.withdrawn;
    CreateKeeps(s.chains[k], t);
    ChainReplaced(s, k, next);
  }

  lemma TokenCallKeepsMoney(n: Net, s: System, a: Action)
    requires ValidNet(n) && MoneyOk(s) && Step(n, s, a).Some? && IsTokenCall(a)
    ensures MoneyOk(Step(n, s, a).value)
  {
    match a
    case TokenTransfer(k, from, t) => TransferKeepsMoney(s, k, from, t);
    case Deposit(k, t) => DepositKeepsMoney(s, k, t);
    case Withdraw(k, from, value) => WithdrawKeepsMoney(s, k, from, value);
  }

  lemma TeleportCallKeepsMoney(n: Net, s: System, a: Action)
    requires ValidNet(n) && MoneyOk(s) && (a.Teleport? || a.SingleTeleport?)
    ensures Step(n, s, a).Some? ==> MoneyOk(Step(n, s, a).value)
  {
    if Step(n, s, a).Some? {
      match a
      case Teleport(k, isGlobal, hint, gr, z, inputs) =>
        TeleportKeepsMoney(n, s, k, isGlobal, hint, gr, z.root, z.recipient, inputs,
                           WithdrawCircuit.RunWithdraw(n.c, DepthOf(n, isGlobal), z, inputs).value.total);
      case SingleTeleport(k, isGlobal, hint, gr, root, recipient, x, delta) =>
        TeleportKeepsMoney(n, s, k, isGlobal, hint, gr, root, recipient, [x], Sub(x.value, delta));
    }
  }

  /** Every call and message keeps the money straight. */
  lemma StepKeepsMoney(n: Net, s: System, a: Action)
    requires ValidNet(n) && MoneyOk(s)
    ensures Step(n, s, a).Some? ==> MoneyOk(Step(n, s, a).value)
  {
    if Step(n, s, a).Some? {
      if IsTokenCall(a) {
        TokenCallKeepsMoney(n, s, a);
      } else if a.Teleport? || a.SingleTeleport? {
        TeleportCallKeepsMoney(n, s, a);
      } else {
        StorageStepKeepsMoney(n, s, a);
      }
    }
  }

  predicate TouchesStorageOnly(a: Action) {
    !IsTokenCall(a) && !a.Teleport? && !a.SingleTeleport?
  }

  lemma StorageStepKeepsMoney(n: Net, s: System, a: Action)
    requires ValidNet(n) && MoneyOk(s) && Step(n, s, a).Some? && TouchesStorageOnly(a)
    ensures MoneyOk(Step(n, s, a).value)
  {
    var s' := Step(n, s, a).value;
    match a
    case ReserveHashChain(k) => StorageKeepsMoney(s, k, s'.chains[k]);
    case ProveTransferRoot(k, z, steps) => StorageKeepsMoney(s, k, ProveStep(n, s.chains[k], z, steps).value);
    case SetPaused(k, p) => StorageKeepsMoney(s, k, Pause(s.chains[k], p));
    case ReceiveGlobalRoot(k, _) => GlobalRootKeepsMoney(n, s, a);
    case _ => HubStepKeepsMoney(n, s, a);
  }

  lemma GlobalRootKeepsMoney(n: Net, s: System, a: Action)
    requires ValidNet(n) && MoneyOk(s) && Step(n, s, a).Some? && a.ReceiveGlobalRoot?
    ensures MoneyOk(Step(n, s, a).value)
  {
    var s' := Step(n, s, a).value;
    if s' != s { StorageKeepsMoney(s, a.chain, s'.chains[a.chain]); }
  }

  lemma HubStepKeepsMoney(n: Net, s: System, a: Action)
    requires ValidNet(n) && MoneyOk(s) && Step(n, s, a).Some?
    requires a.RelayTransferRoot? || a.HubReceive? || a.RegisterToken? || a.Broadcast?
    ensures MoneyOk(Step(n, s, a).value)
  {
  }

  lemma {:induction false} ExecKeepsMoney(n: Net, s: System, actions: seq<Action>)
    requires ValidNet(n) && MoneyOk(s)
    ensures MoneyOk(Exec(n, s, actions))
    decreases |actions|
  {
    if actions == [] {
    } else {
      var r := Step(n, s, actions[0]);
      if r.Some? { StepKeepsMoney(n, s, actions[0]); }
      ExecKeepsMoney(n, if r.Some? then r.value else s, actions[1..]);
    }
  }

  lemma InitialMoney(n: Net, ids: set<nat>)
    ensures MoneyOk(InitialSystem(n, ids))
  {
    var chains := InitialSystem(n, ids).chains;
    assert Supplies(chains).Keys == ids;
    SumOfZeros(ids, ValueIn(Supplies(chains)));
  }

  // ------------------------------------------------------------- what lies at burn addresses

  function ReceivedIn(events: seq<Transfer>): Fr -> nat { a => Received(events, a) }

  /** Value of the transfers of a log whose positions lie in a set. */
  function ValueOf(events: seq<Transfer>, at: set<nat>): nat {
    if events == [] then 0
    else
      var i := |events| - 1;
      ValueOf(events[..i], at) + if i in at then events[i].value else 0
  }

  /** Addresses that receive all transfers at some positions receive at least their value. */
  lemma {:induction false} ReceivedCovers(events: seq<Transfer>, at: set<nat>, addresses: set<Fr>)
    requires forall i :: 0 <= i < |events| && i in at ==> events[i].to in addresses
    ensures ValueOf(events, at) <= SumOver(addresses, ReceivedIn(events))
    decreases |events|
  {
    if events == [] {
    } else {
      var i := |events| - 1;
      var front, t := events[..i], events[i];
      assert events == front + [t];
      ReceivedCovers(front, at, addresses);
      if t.to in addresses {
        var others := addresses - {t.to};
        forall a | a in others ensures ReceivedIn(front)(a) == ReceivedIn(events)(a) { ReceivedNext(front, t, a); }
        SumCongruent(others, ReceivedIn(front), ReceivedIn(events));
        SumAdd(others, t.to, ReceivedIn(front));
        SumAdd(others, t.to, ReceivedIn(events));
        ReceivedNext(front, t, t.to);
        assert others + {t.to} == addresses;
      } else {
        forall a | a in addresses ensures ReceivedIn(front)(a) == ReceivedIn(events)(a) { ReceivedNext(front, t, a); }
        SumCongruent(addresses, ReceivedIn(front), ReceivedIn(events));
      }
    }
  }

  /** The positions opened on a chain, and the addresses they were sent to. */
  ghost function OpenedAt(s: System, k: nat): set<nat> { set p | p in s.claims && p.0 == k :: p.1 }

  ghost function BurnAddresses(s: System, k: nat): set<Fr>
    requires k in s.chains
  {
    set i | i in OpenedAt(s, k) && i < |s.chains[k].events| :: s.chains[k].events[i].to
  }

  /** What is held on a chain outside its opened burn addresses. */
  ghost function CirculatingOn(s: System, k: nat): nat
    requires k in s.chains
  {
    SumOver(s.chains[k].token.balances.Keys - BurnAddresses(s, k), ValueIn(s.chains[k].token.balances))
  }

  /** What was ever taken out of the opened burn addresses of a chain. */
  ghost function TakenOn(s: System, k: nat): nat
    requires k in s.chains
  {
    SumOver(BurnAddresses(s, k), ValueIn(s.chains[k].token.sent))
  }

  /** No opened transfer went to the zero address. */
  ghost predicate NoZeroBurn(s: System) {
    forall p :: p in s.claims && Exists(s.chains, p) ==> s.chains[p.0].events[p.1].to != 0
  }

  /** An opened burn address holds what it received, less what was taken. */
  lemma BurnsHold(s: System, k: nat)
    requires MoneyOk(s) && k in s.chains && NoZeroBurn(s)
    ensures var ch := s.chains[k];
            SumOver(BurnAddresses(s, k), ValueIn(ch.token.balances)) + TakenOn(s, k)
            == SumOver(BurnAddresses(s, k), ReceivedIn(ch.events))
  {
    var ch, burns := s.chains[k], BurnAddresses(s, k);
    assert TokenOk(ch);
    forall a | a in burns
      ensures ValueIn(ch.token.balances)(a) + ValueIn(ch.token.sent)(a) == ReceivedIn(ch.events)(a)
    {
      var i :| i in OpenedAt(s, k) && i < |ch.events| && ch.events[i].to == a;
      assert (k, i) in s.claims && Exists(s.chains, (k, i));
      assert Balance(ch.token, a) + Sent(ch.token, a) == Received(ch.events, a);
    }
    SumPlus(burns, ValueIn(ch.token.balances), ValueIn(ch.token.sent), ReceivedIn(ch.events));
  }

  /** Everything held is held inside or outside some addresses. */
  lemma HeldSplit(m: map<Fr, nat>, a: set<Fr>)
    ensures SumOver(m.Keys - a, ValueIn(m)) + SumOver(a, ValueIn(m)) == Total(m)
  {
    HeldPart(m, a);
    SumUnion(m.Keys - a, m.Keys * a, ValueIn(m));
    assert (m.Keys - a) + (m.Keys * a) == m.Keys;
  }

  lemma OpenedIsReceived(s: System, k: nat)
    requires k in s.chains
    ensures ValueOf(s.chains[k].events, OpenedAt(s, k)) <= SumOver(BurnAddresses(s, k), ReceivedIn(s.chains[k].events))
  {
    var ch := s.chains[k];
    forall i | 0 <= i < |ch.events| && i in OpenedAt(s, k) ensures ch.events[i].to in BurnAddresses(s, k) { }
    ReceivedCovers(ch.events, OpenedAt(s, k), BurnAddresses(s, k));
  }

  /** On each chain the opened value lies at burn addresses or was taken from there, and the rest of the supply is
      what circulates. */
  lemma ChainCirculation(s: System, k: nat)
    requires MoneyOk(s) && k in s.chains && NoZeroBurn(s)
    ensures CirculatingOn(s, k) + ValueOf(s.chains[k].events, OpenedAt(s, k)) <= Supply(s.chains[k]) + TakenOn(s, k)
  {
    OpenedIsReceived(s, k);
    BurnsHold(s, k);
    HeldSplit(s.chains[k].token.balances, BurnAddresses(s, k));
    assert TokenOk(s.chains[k]);
  }

  /** Addresses without an entry hold nothing. */
  lemma {:induction false} HeldPart(m: map<Fr, nat>, a: set<Fr>)
    ensures SumOver(a, ValueIn(m)) == SumOver(m.Keys * a, ValueIn(m))
    decreases a
  {
    if a == {} {
      assert m.Keys * a == {};
    } else {
      var x :| x in a;
      HeldPart(m, a - {x});
      SumAdd(a - {x}, x, ValueIn(m));
      assert (a - {x}) + {x} == a;
      if x in m {
        SumAdd(m.Keys * (a - {x}), x, ValueIn(m));
        assert m.Keys * (a - {x}) + {x} == m.Keys * a;
      } else {
        assert m.Keys * (a - {x}) == m.Keys * a;
      }
    }
  }

  // ---------------------------------------------------------------------- all chains

  ghost function PlacesBelow(s: System, k: nat, m: nat): set<Place> { set p | p in s.claims && p.0 == k && p.1 < m }

  lemma {:induction false} PlacesAreOpened(s: System, k: nat, m: nat)
    requires k in s.chains && m <= |s.chains[k].events|
    ensures SumOver(PlacesBelow(s, k, m), Values(s.chains)) == ValueOf(s.chains[k].events[..m], OpenedAt(s, k))
    decreases m
  {
    if m == 0 {
      assert PlacesBelow(s, k, m) == {};
    } else {
      var i, events := m - 1, s.chains[k].events;
      PlacesAreOpened(s, k, i);
      assert events[..m][..i] == events[..i];
      if (k, i) in s.claims {
        SumAdd(PlacesBelow(s, k, i), (k, i), Values(s.chains));
        assert PlacesBelow(s, k, i) + {(k, i)} == PlacesBelow(s, k, m);
      } else {
        assert PlacesBelow(s, k, i) == PlacesBelow(s, k, m);
      }
    }
  }

  ghost function PlacesOn(s: System, ks: set<nat>): set<Place> { set p | p in s.claims && p.0 in ks }

  ghost function OpenedOn(s: System): nat -> nat {
    k => if k in s.chains then ValueOf(s.chains[k].events, OpenedAt(s, k)) else 0
  }

  /** The opened value of a set of chains is the sum over these chains. */
  lemma {:induction false} OpenedByChain(s: System, ks: set<nat>)
    requires ks <= s.chains.Keys && forall p :: p in s.claims ==> Exists(s.chains, p)
    ensures SumOver(PlacesOn(s, ks), Values(s.chains)) == SumOver(ks, OpenedOn(s))
    decreases ks
  {
    if ks == {} {
      assert PlacesOn(s, ks) == {};
    } else {
      var k :| k in ks;
      OpenedByChain(s, ks - {k});
      PlacesOfChain(s, ks, k);
      SumLast(ks, k, OpenedOn(s));
    }
  }

  lemma PlacesOfChain(s: System, ks: set<nat>, k: nat)
    requires k in ks && k in s.chains && forall p :: p in s.claims ==> Exists(s.chains, p)
    ensures SumOver(PlacesOn(s, ks), Values(s.chains))
         == SumOver(PlacesOn(s, ks - {k}), Values(s.chains)) + OpenedOn(s)(k)
  {
    var m := |s.chains[k].events|;
    PlacesAreOpened(s, k, m);
    assert s.chains[k].events[..m] == s.chains[k].events;
    SumUnion(PlacesOn(s, ks - {k}), PlacesBelow(s, k, m), Values(s.chains));
    assert PlacesOn(s, ks - {k}) + PlacesBelow(s, k, m) == PlacesOn(s, ks);
  }

  ghost function CirculatingIn(s: System): nat -> nat { k => if k in s.chains then CirculatingOn(s, k) else 0 }

  /** What is held outside opened burn addresses, on all chains. */
  ghost function Circulating(s: System): nat { SumOver(s.chains.Keys, CirculatingIn(s)) }

  ghost function TakenIn(s: System): nat -> nat { k => if k in s.chains then TakenOn(s, k) else 0 }

  /** The value ever taken out of opened burn addresses, on all chains. */
  ghost function Taken(s: System): nat { SumOver(s.chains.Keys, TakenIn(s)) }

  /** What circulates and what was opened on a chain is covered by its supply and what was taken. */
  ghost predicate Bounded(s: System, k: nat) {
    CirculatingIn(s)(k) + OpenedOn(s)(k) <= ValueIn(Supplies(s.chains))(k) + TakenIn(s)(k)
  }

  lemma ChainBound(s: System, k: nat)
    requires MoneyOk(s) && k in s.chains && NoZeroBurn(s)
    ensures Bounded(s, k)
  {
    ChainCirculation(s, k);
  }

  lemma {:induction false} SumBounded(s: System, ks: set<nat>, supplies: nat -> nat)
    requires supplies == ValueIn(Supplies(s.chains)) && forall k :: k in ks ==> Bounded(s, k)
    ensures SumOver(ks, CirculatingIn(s)) + SumOver(ks, OpenedOn(s)) <= SumOver(ks, supplies) + SumOver(ks, TakenIn(s))
    decreases ks
  {
    if ks == {} {
    } else {
      var k :| k in ks;
      SumBounded(s, ks - {k}, supplies);
      assert Bounded(s, k);
      SumLast(ks, k, CirculatingIn(s));
      SumLast(ks, k, OpenedOn(s));
      SumLast(ks, k, supplies);
      SumLast(ks, k, TakenIn(s));
    }
  }

  lemma SumLast(ks: set<nat>, k: nat, f: nat -> nat)
    requires k in ks
    ensures SumOver(ks, f) == SumOver(ks - {k}, f) + f(k)
  {
    SumAdd(ks - {k}, k, f);
    assert (ks - {k}) + {k} == ks;
  }

  lemma SuppliesCover(s: System)
    requires MoneyOk(s) && NoZeroBurn(s)
    ensures Circulating(s) + SumOver(s.chains.Keys, OpenedOn(s)) <= Total(Supplies(s.chains)) + Taken(s)
  {
    forall k | k in s.chains.Keys ensures Bounded(s, k) { ChainBound(s, k); }
    SumBounded(s, s.chains.Keys, ValueIn(Supplies(s.chains)));
    assert Supplies(s.chains).Keys == s.chains.Keys;
  }

  lemma CirculationCovered(n: Net, s: System)
    requires MoneyOk(s) && ClaimsOk(n, s.chains, s.claims) && NoZeroBurn(s)
    requires s.minted <= SumOver(s.claims.Keys, Values(s.chains))
    ensures Circulating(s) + s.withdrawn <= s.deposited + Taken(s)
  {
    SuppliesCover(s);
    OpenedInAll(n, s);
  }

  lemma OpenedInAll(n: Net, s: System)
    requires ClaimsOk(n, s.chains, s.claims)
    ensures SumOver(s.claims.Keys, Values(s.chains)) == SumOver(s.chains.Keys, OpenedOn(s))
  {
    OpenedByChain(s, s.chains.Keys);
    assert PlacesOn(s, s.chains.Keys) == s.claims.Keys;
  }

  /** The break behind an opened transfer to the zero address: withdrawals are logged as such transfers. */
  ghost function ZeroBurnBreach(n: Net, s: System): Breach {
    if NoZeroBurn(s) then NoBreach
    else
      var p :| p in s.claims && Exists(s.chains, p) && s.chains[p.0].events[p.1].to == 0;
      BurnPreimage(RecipientOf(n, s.claims[p]), s.claims[p].secret)
  }

  lemma ZeroBurnIsBreach(n: Net, s: System)
    requires ClaimsOk(n, s.chains, s.claims) && !NoZeroBurn(s)
    ensures Genuine(n.c, ZeroBurnBreach(n, s))
  {
    var p :| p in s.claims && Exists(s.chains, p) && s.chains[p.0].events[p.1].to == 0
             && ZeroBurnBreach(n, s) == BurnPreimage(RecipientOf(n, s.claims[p]), s.claims[p].secret);
    assert BurnedTo(n, s.chains, p, RecipientOf(n, s.claims[p]), s.claims[p].secret);
    WindowOf(n.c.h(RecipientOf(n, s.claims[p]), s.claims[p].secret));
  }

  /** The first break a run reveals, or the one behind an opened transfer to the zero address. */
  ghost function CirculationBreach(n: Net, ids: set<nat>, actions: seq<Action>): Breach
    requires ValidNet(n)
  {
    OrElse(ExecBreach(n, InitialSystem(n, ids), actions), ZeroBurnBreach(n, Exec(n, InitialSystem(n, ids), actions)))
  }

  /**
   Circulation over every run. From deployment, whatever is transferred, deposited, withdrawn, proved, relayed and
   teleported on any number of chains: what is held outside opened burn addresses, together with what was withdrawn,
   is at most what was deposited and what was ever taken out of an opened burn address. The only alternative is that
   `CirculationBreach` computes a genuine break from the run.
   */
  lemma CirculationNeverExceedsDeposits(n: Net, ids: set<nat>, actions: seq<Action>)
    requires ValidNet(n)
    ensures var s := Exec(n, InitialSystem(n, ids), actions);
            var b := CirculationBreach(n, ids, actions);
            if b.NoBreach? then Circulating(s) + s.withdrawn <= s.deposited + Taken(s) else Genuine(n.c, b)
  {
    var s := Exec(n, InitialSystem(n, ids), actions);
    MintedNeverExceedsBurned(n, ids, actions);
    InitialMoney(n, ids);
    ExecKeepsMoney(n, InitialSystem(n, ids), actions);
    if ExecBreach(n, InitialSystem(n, ids), actions).NoBreach? {
      if NoZeroBurn(s) {
        CirculationCovered(n, s);
      } else {
        ZeroBurnIsBreach(n, s);
      }
    }
  }

  /** No value was ever taken out of an opened burn address; transfers of nothing do not count. */
  ghost predicate BurnsStay(s: System) {
    forall p :: p in s.claims && Exists(s.chains, p) ==> Sent(s.chains[p.0].token, s.chains[p.0].events[p.1].to) == 0
  }

  lemma {:induction false} SumOfZeros<T(!new)>(x: set<T>, f: T -> nat)
    requires forall a :: a in x ==> f(a) == 0
    ensures SumOver(x, f) == 0
    decreases x
  {
    if x == {} {
    } else {
      var a :| a in x;
      SumOfZeros(x - {a}, f);
      SumAdd(x - {a}, a, f);
      assert (x - {a}) + {a} == x;
    }
  }

  lemma NothingTaken(s: System)
    requires BurnsStay(s)
    ensures Taken(s) == 0
  {
    forall k | k in s.chains.Keys ensures TakenIn(s)(k) == 0 {
      var ch := s.chains[k];
      forall a | a in BurnAddresses(s, k) ensures ValueIn(ch.token.sent)(a) == 0 {
        var i :| i in OpenedAt(s, k) && i < |ch.events| && ch.events[i].to == a;
        assert (k, i) in s.claims && Exists(s.chains, (k, i));
      }
      SumOfZeros(BurnAddresses(s, k), ValueIn(ch.token.sent));
    }
    SumOfZeros(s.chains.Keys, TakenIn(s));
  }

  /** As long as burn addresses stay untouched, what circulates never exceeds the deposits still in. */
  lemma UntouchedBurnsCirculation(n: Net, ids: set<nat>, actions: seq<Action>)
    requires ValidNet(n)
    ensures var s := Exec(n, InitialSystem(n, ids), actions);
            var b := CirculationBreach(n, ids, actions);
            if b.NoBreach? then BurnsStay(s) ==> Circulating(s) + s.withdrawn <= s.deposited else Genuine(n.c, b)
  {
    CirculationNeverExceedsDeposits(n, ids, actions);
    var s := Exec(n, InitialSystem(n, ids), actions);
    if BurnsStay(s) { NothingTaken(s); }
  }
}
