/**
 The on-chain side: per chain a zERC20 token with its Verifier, one Hub, and messages between them that
 may be delayed, repeated and reordered. A proof is accepted when the step relation it folds held at
 every step, so a proving action carries that run.
 */
module Contracts {
  import opened Field
  import opened Crypto
  import opened Merkle
  import opened Base
  import opened Burn
  import opened RootCircuit
  import opened WithdrawCircuit

  /** Hash functions and tree heights; the deployment uses heights 40 and 6. */
  datatype Net = Net(c: Suite, height: nat, aggHeight: nat)

  predicate ValidNet(n: Net) {
    && 1 <= n.height
    && n.height + n.aggHeight <= MAX_DEPTH
    && Pow2(n.height) < TWO_64
  }

  /** ERC-20 storage; `sent` is history, the value ever taken out of each account. */
  datatype Token = Token(balances: map<Fr, nat>, supply: int, sent: map<Fr, nat>)

  /** Token log, token storage and verifier storage of one chain; absent map entries read as zero. `pauses` is history,
      how often the verifier was paused. */
  datatype Chain = Chain(
    events: seq<Transfer>,
    token: Token,
    reserved: map<nat, Fr>,
    proved: map<nat, Fr>,
    latestProved: nat,
    globalRoots: map<nat, Fr>,
    paused: bool,
    pauses: nat)

  datatype Relayed = Relayed(chain: nat, index: nat, root: Fr)

  /** An `AggregationRootUpdated` event: the root with the snapshot it was computed from. */
  datatype Aggregation = Aggregation(root: Fr, snapshot: seq<Relayed>)

  datatype Hub = Hub(
    slots: seq<Relayed>,
    inbox: set<Relayed>,
    aggSeq: nat,
    aggregations: map<nat, Aggregation>)

  /** Who first opened a transfer, and with which secret. */
  datatype Claim = Claim(gr: Recipient, secret: Fr)

  /** A transfer named by chain and position in that chain's log. */
  type Place = (nat, nat)

  /** A mint account: the chain whose verifier mints, and the recipient hash. */
  type Account = (nat, Fr)

  /** The whole system. `minted` counts what teleports created, `deposited` and `withdrawn` what the minter role
      created and destroyed; `claims` is the history of openings. */
  datatype System = System(
    chains: map<nat, Chain>,
    hub: Hub,
    teleported: map<Account, nat>,
    minted: nat,
    deposited: nat,
    withdrawn: nat,
    claims: map<Place, Claim>)

  /** What a teleport proof is checked against: a proved root of the chain or an aggregation root. */
  datatype View = Local(chain: nat, index: nat) | Global(snapshot: seq<Relayed>)

  datatype Action =
    | TokenTransfer(chain: nat, from: Fr, transfer: Transfer)
    | Deposit(chain: nat, transfer: Transfer)
    | Withdraw(chain: nat, from: Fr, value: Fr)
    | ReserveHashChain(chain: nat)
    | ProveTransferRoot(chain: nat, z: RootState, steps: seq<RootInput>)
    | Teleport(chain: nat, isGlobal: bool, rootHint: nat, gr: Recipient, start: WithdrawState,
               inputs: seq<WithdrawInput>)
    | SingleTeleport(chain: nat, isGlobal: bool, rootHint: nat, gr: Recipient, root: Fr, recipient: Fr,
                     input: WithdrawInput, delta: Fr)
    | RelayTransferRoot(chain: nat)
    | HubReceive(message: Relayed)
    | RegisterToken(chain: nat)
    | Broadcast
    | ReceiveGlobalRoot(chain: nat, aggSeq: nat)
    | SetPaused(chain: nat, paused: bool)

  function Get(m: map<nat, Fr>, k: nat): Fr { if k in m then m[k] else 0 }

  function Teleported(s: System, a: Account): nat { if a in s.teleported then s.teleported[a] else 0 }

  function RootsOf(snapshot: seq<Relayed>): (r: seq<Fr>)
    ensures |r| == |snapshot|
    ensures forall i :: 0 <= i < |r| ==> r[i] == snapshot[i].root
  {
    seq(|snapshot|, i requires 0 <= i < |snapshot| => snapshot[i].root)
  }

  function InitialChain(n: Net): Chain {
    Chain([], Token(map[], 0, map[]), map[], map[0 := ZeroHash(n.c.h, n.height)], 0, map[], false, 0)
  }

  function InitialSystem(n: Net, ids: set<nat>): System {
    System(map k | k in ids :: InitialChain(n), Hub([], {}, 0, map[]), map[], 0, 0, 0, map[])
  }

  // ------------------------------------------------------------------- transitions

  function WithChain(s: System, k: nat, ch: Chain): System { s.(chains := s.chains[k := ch]) }

  const MAX_UINT256: int := TWO_64 * TWO_64 * TWO_64 * TWO_64 - 1

  function Balance(k: Token, a: Fr): nat { if a in k.balances then k.balances[a] else 0 }

  function Sent(k: Token, a: Fr): nat { if a in k.sent then k.sent[a] else 0 }

  function Credited(k: Token, a: Fr, value: nat): Token { k.(balances := k.balances[a := Balance(k, a) + value]) }

  function Debited(k: Token, a: Fr, value: nat): Token
    requires value <= Balance(k, a)
  {
    k.(balances := k.balances[a := Balance(k, a) - value], sent := k.sent[a := Sent(k, a) + value])
  }

  /** `_transfer`: refuses the zero address on both sides and an amount above the balance. */
  function Move(k: Token, from: Fr, to: Fr, value: nat): Option<Token> {
    if from == 0 || to == 0 || value > Balance(k, from) then None
    else Some(Credited(Debited(k, from, value), to, value))
  }

  /** `_mint`: refuses the zero address and a supply beyond 256 bits. */
  function Create(k: Token, to: Fr, value: nat): Option<Token> {
    if to == 0 || k.supply + value > MAX_UINT256 then None
    else Some(Credited(k, to, value).(supply := k.supply + value))
  }

  /** `_burn`: refuses the zero address and an amount above the balance. */
  function Destroy(k: Token, from: Fr, value: nat): Option<Token> {
    if from == 0 || value > Balance(k, from) then None
    else Some(Debited(k, from, value).(supply := k.supply - value))
  }

  /** The token commits every transfer, also mints and burns, to its log; a burn is logged with the zero address. */
  function Append(ch: Chain, t: Transfer, token: Token): Chain { ch.(events := ch.events + [t], token := token) }

  /** The log has room for one more transfer of this value. */
  predicate CanLog(ch: Chain, t: Transfer) { InRange(t) && |ch.events| + 1 < TWO_64 }

  function Pause(ch: Chain, paused: bool): Chain {
    ch.(paused := paused, pauses := if paused then ch.pauses + 1 else ch.pauses)
  }

  /** `proveTransferRoot`: a conflicting root for a known index pauses the contract. */
  function ProveStep(n: Net, ch: Chain, z: RootState, steps: seq<RootInput>): Option<Chain>
    requires ValidNet(n)
  {
    var run := RunRoot(n.c, n.height, z, steps);
    if ch.paused || run.None? then None
    else
      var e := run.value;
      var oldIndex, newIndex := z.index % TWO_64, e.index % TWO_64;
      if z.root == 0 || Get(ch.proved, oldIndex) != z.root then None
      else if Get(ch.reserved, newIndex) == 0 || Get(ch.reserved, newIndex) != e.chain then None
      else if Get(ch.proved, newIndex) != 0 && Get(ch.proved, newIndex) != e.root then Some(Pause(ch, true))
      else Some(ch.(proved := ch.proved[newIndex := e.root],
                    latestProved := if newIndex > ch.latestProved then newIndex else ch.latestProved))
  }

  /** The view a root hint selects. */
  function ViewOf(s: System, k: nat, isGlobal: bool, hint: nat): View {
    if isGlobal then Global(if hint in s.hub.aggregations then s.hub.aggregations[hint].snapshot else [])
    else Local(k, hint)
  }

  function HintedRoot(ch: Chain, isGlobal: bool, hint: nat): Fr {
    if isGlobal then Get(ch.globalRoots, hint) else Get(ch.proved, hint)
  }

  function DepthOf(n: Net, isGlobal: bool): nat { if isGlobal then n.height + n.aggHeight else n.height }

  /** The effect of a teleport: mint only the amount above what the account already received. */
  function Mint(s: System, a: Account, to: Fr, value: Fr, claims: map<Place, Claim>, token: Token): System
    requires a.0 in s.chains && Teleported(s, a) <= value
  {
    var diff := value - Teleported(s, a);
    s.(chains := s.chains[a.0 := Append(s.chains[a.0], Transfer(to, diff), token)],
       teleported := s.teleported[a := value],
       minted := s.minted + diff,
       claims := claims)
  }

  /** `_teleport`: checks root, recipient and chain, mints, and records the opened transfers. */
  function TeleportStep(
    n: Net, s: System, k: nat, isGlobal: bool, hint: nat, gr: Recipient,
    root: Fr, recipient: Fr, xs: seq<WithdrawInput>, value: Fr): Option<System>
    requires k in s.chains
  {
    var ch, a := s.chains[k], (k, recipient);
    var expected := HintedRoot(ch, isGlobal, hint);
    if ch.paused || expected == 0 || expected != root then None
    else if recipient != n.c.recipient(gr) || gr.chainId != k then None
    else if value <= Teleported(s, a) || |ch.events| + 1 >= TWO_64 then None
    else
      var to := gr.account % TWO_160;
      var token := Create(ch.token, to, value - Teleported(s, a));
      if token.None? then None
      else Some(Mint(s, a, to, value, AddClaims(n, s.claims, ViewOf(s, k, isGlobal, hint), gr, xs), token.value))
  }

  /** The place of the transfer that leaf `v` of a view stands for. */
  function PlaceOf(n: Net, view: View, v: nat): Place {
    match view
    case Local(k, _) => (k, v)
    case Global(snapshot) =>
      var a := Shr(v, n.height);
      (if a < |snapshot| then snapshot[a].chain else 0, Low(v, n.height))
  }

  function AddClaims(
    n: Net, claims: map<Place, Claim>, view: View, gr: Recipient, xs: seq<WithdrawInput>): map<Place, Claim>
  {
    if xs == [] then claims
    else
      var x := xs[0];
      var rest := AddClaims(n, claims, view, gr, xs[1..]);
      var p := PlaceOf(n, view, x.leafIndex);
      if x.isDummy || p in rest then rest else rest[p := Claim(gr, x.secret)]
  }

  /** One contract call or message delivery; `None` means it reverts or is not possible. */
  function Step(n: Net, s: System, a: Action): Option<System>
    requires ValidNet(n)
  {
    match a
    case TokenTransfer(k, from, t) =>
      if k !in s.chains || !CanLog(s.chains[k], t) then None
      else
        var token := Move(s.chains[k].token, from, t.to, t.value);
        if token.None? then None else Some(WithChain(s, k, Append(s.chains[k], t, token.value)))
    case Deposit(k, t) =>
      if k !in s.chains || !CanLog(s.chains[k], t) then None
      else
        var token := Create(s.chains[k].token, t.to, t.value);
        if token.None? then None
        else Some(WithChain(s, k, Append(s.chains[k], t, token.value)).(deposited := s.deposited + t.value))
    case Withdraw(k, from, value) =>
      if k !in s.chains || !CanLog(s.chains[k], Transfer(0, value)) then None
      else
        var token := Destroy(s.chains[k].token, from, value);
        if token.None? then None
        else
          var ch := Append(s.chains[k], Transfer(0, value), token.value);
          Some(WithChain(s, k, ch).(withdrawn := s.withdrawn + value))
    case ReserveHashChain(k) =>
      if k !in s.chains then None
      else
        var ch := s.chains[k];
        Some(WithChain(s, k, ch.(reserved := ch.reserved[|ch.events| % TWO_64 := ChainOf(n.c, 0, ch.events)])))
    case ProveTransferRoot(k, z, steps) =>
      if k !in s.chains then None
      else
        var r := ProveStep(n, s.chains[k], z, steps);
        if r.None? then None else Some(WithChain(s, k, r.value))
    case Teleport(k, isGlobal, hint, gr, z, inputs) =>
      var run := RunWithdraw(n.c, DepthOf(n, isGlobal), z, inputs);
      if k !in s.chains || z.last != 0 || z.total != 0 || run.None? then None
      else if run.value.root != z.root || run.value.recipient != z.recipient then None
      else TeleportStep(n, s, k, isGlobal, hint, gr, z.root, z.recipient, inputs, run.value.total)
    case SingleTeleport(k, isGlobal, hint, gr, root, recipient, x, delta) =>
      if k !in s.chains || x.isDummy || !SingleOk(n.c, DepthOf(n, isGlobal), root, recipient, x, delta) then None
      else TeleportStep(n, s, k, isGlobal, hint, gr, root, recipient, [x], Sub(x.value, delta))
    case RelayTransferRoot(k) =>
      if k !in s.chains || s.chains[k].paused then None
      else
        var index := s.chains[k].latestProved;
        var root := Get(s.chains[k].proved, index);
        if root == 0 then None else Some(s.(hub := s.hub.(inbox := s.hub.inbox + {Relayed(k, index, root)})))
    case HubReceive(m) =>
      if m !in s.hub.inbox then None
      else
        var i := SlotOf(s.hub.slots, m.chain);
        if i == |s.hub.slots| then None
        else if m.index <= s.hub.slots[i].index then Some(s)
        else Some(s.(hub := s.hub.(slots := s.hub.slots[i := m])))
    case RegisterToken(k) =>
      if k == 0 || k !in s.chains || SlotOf(s.hub.slots, k) < |s.hub.slots| then None
      else if |s.hub.slots| >= Pow2(n.aggHeight) then None
      else Some(s.(hub := s.hub.(slots := s.hub.slots + [Relayed(k, 0, 0)])))
    case Broadcast =>
      var root := Root(n.c.h, RootsOf(s.hub.slots), n.aggHeight);
      Some(s.(hub := s.hub.(aggSeq := s.hub.aggSeq + 1,
                            aggregations := s.hub.aggregations[s.hub.aggSeq + 1 := Aggregation(root, s.hub.slots)])))
    case ReceiveGlobalRoot(k, number) =>
      if k !in s.chains || number !in s.hub.aggregations then None
      else
        var ch := s.chains[k];
        if Get(ch.globalRoots, number) != 0 then Some(s)
        else Some(WithChain(s, k, ch.(globalRoots := ch.globalRoots[number := s.hub.aggregations[number].root])))
    case SetPaused(k, p) =>
      if k !in s.chains || s.chains[k].paused == p then None else Some(WithChain(s, k, Pause(s.chains[k], p)))
  }

  /** Hub position of a chain, or the number of slots when it is not registered. */
  function SlotOf(slots: seq<Relayed>, k: nat): (i: nat)
    ensures i <= |slots|
    ensures i < |slots| ==> slots[i].chain == k
    ensures forall j :: 0 <= j < i ==> slots[j].chain != k
  {
    if slots == [] then 0 else if slots[0].chain == k then 0 else 1 + SlotOf(slots[1..], k)
  }
}
