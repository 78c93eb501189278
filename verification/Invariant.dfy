/**
 What holds of the contracts in every state: stored chains, roots and slots are true of the token logs, and no account
 received more than it opened. The log only grows, and root proofs keep what is stored true or reveal a break.
 */
module Invariant {
  import opened Field
  import opened Crypto
  import opened Merkle
  import opened Base
  import opened Burn
  import opened RootCircuit
  import opened Contracts
  import opened Sums

  // --------------------------------------------------------------------- invariant

  /** `root` is the transfer root of the first `index` events of chain `k`. */
  ghost predicate RootFact(n: Net, chains: map<nat, Chain>, k: nat, index: nat, root: Fr) {
    && k in chains && index <= |chains[k].events|
    && root == Root(n.c.h, Leaves(n.c, chains[k].events[..index]), n.height)
  }

  /** The root stored for an index is the transfer root of that many events, and the tree holds them. */
  predicate ProvedAt(n: Net, ch: Chain, i: nat)
    requires i in ch.proved
  {
    && i <= |ch.events| && i <= Pow2(n.height)
    && ch.proved[i] == Root(n.c.h, Leaves(n.c, ch.events[..i]), n.height)
  }

  /** Reserved chains and proved roots are those of prefixes of the token log, also the newest proved one. */
  ghost predicate ChainOk(n: Net, ch: Chain) {
    && |ch.events| < TWO_64 && 0 in ch.proved && ch.latestProved in ch.proved
    && (forall k {:trigger LooksInside(ChainPart, k)} :: LooksInside(ChainPart, k) ==> ChainParts(n, ch))
  }

  ghost predicate ChainParts(n: Net, ch: Chain) {
    && (forall i :: 0 <= i < |ch.events| ==> InRange(ch.events[i]))
    && (forall i :: i in ch.reserved ==>
          i <= |ch.events| && ch.reserved[i] == ChainOf(n.c, 0, ch.events[..i]))
    && (forall i :: i in ch.proved ==> ProvedAt(n, ch, i))
  }

  /** A hub slot is empty or holds a transfer root of its chain. */
  ghost predicate SlotOk(n: Net, chains: map<nat, Chain>, r: Relayed) {
    if r.index == 0 then r.root == 0 else RootFact(n, chains, r.chain, r.index, r.root)
  }

  ghost predicate SlotsOk(n: Net, chains: map<nat, Chain>, slots: seq<Relayed>) {
    && |slots| <= Pow2(n.aggHeight)
    && (forall i :: 0 <= i < |slots| ==> SlotOk(n, chains, slots[i]))
    && (forall i, j :: 0 <= i < j < |slots| ==> slots[i].chain != slots[j].chain)
  }

  ghost predicate AggregationOk(n: Net, chains: map<nat, Chain>, g: Aggregation) {
    && g.root == Root(n.c.h, RootsOf(g.snapshot), n.aggHeight)
    && SlotsOk(n, chains, g.snapshot)
  }

  ghost predicate HubOk(n: Net, chains: map<nat, Chain>, hub: Hub) {
    && SlotsOk(n, chains, hub.slots)
    && (forall m :: m in hub.inbox ==> RootFact(n, chains, m.chain, m.index, m.root))
    && (forall q :: q in hub.aggregations ==> q <= hub.aggSeq && AggregationOk(n, chains, hub.aggregations[q]))
  }

  /** Global roots a chain stores are aggregation roots the hub computed under that number. */
  ghost predicate GlobalsOk(chains: map<nat, Chain>, hub: Hub) {
    forall k, q :: k in chains && q in chains[k].globalRoots && chains[k].globalRoots[q] != 0 ==>
      q in hub.aggregations && chains[k].globalRoots[q] == hub.aggregations[q].root
  }

  function RecipientOf(n: Net, claim: Claim): Fr { n.c.recipient(claim.gr) }

  function OwnerOf(n: Net, claim: Claim): Account { (claim.gr.chainId, RecipientOf(n, claim)) }

  predicate Exists(chains: map<nat, Chain>, p: Place) { p.0 in chains && p.1 < |chains[p.0].events| }

  /** Transfer `p` goes to the burn address of a recipient and secret with proof of work. */
  predicate BurnedTo(n: Net, chains: map<nat, Chain>, p: Place, recipient: Fr, secret: Fr) {
    && Exists(chains, p)
    && chains[p.0].events[p.1].to == BurnAddress(n.c.h, recipient, secret)
    && HasPow(n.c.h, recipient, secret)
  }

  ghost predicate ClaimsOk(n: Net, chains: map<nat, Chain>, claims: map<Place, Claim>) {
    forall p :: p in claims ==> BurnedTo(n, chains, p, RecipientOf(n, claims[p]), claims[p].secret)
  }

  function ValueAt(chains: map<nat, Chain>, p: Place): nat {
    if Exists(chains, p) then chains[p.0].events[p.1].value else 0
  }

  function Values(chains: map<nat, Chain>): Place -> nat { p => ValueAt(chains, p) }

  /** The transfers an account has opened. */
  ghost function ClaimsOf(n: Net, claims: map<Place, Claim>, a: Account): set<Place> {
    set p | p in claims && OwnerOf(n, claims[p]) == a
  }

  /** No account received more than the transfers it opened; `minted` is the sum of all accounts. */
  ghost predicate BooksOk(n: Net, s: System) {
    && (forall a :: a in s.teleported ==>
          s.teleported[a] <= SumOver(ClaimsOf(n, s.claims, a), Values(s.chains)))
    && s.minted == Total(s.teleported)
  }

  ghost predicate Inv(n: Net, s: System) {
    forall k {:trigger LooksInside(SystemPart, k)} :: LooksInside(SystemPart, k) ==> InvParts(n, s)
  }

  ghost predicate InvParts(n: Net, s: System) {
    && (forall k :: k in s.chains ==> ChainOk(n, s.chains[k]))
    && HubOk(n, s.chains, s.hub)
    && GlobalsOk(s.chains, s.hub)
    && ClaimsOk(n, s.chains, s.claims)
    && BooksOk(n, s)
  }

  lemma ProvedRoot(n: Net, ch: Chain, i: nat)
    requires ChainOk(n, ch) && i in ch.proved
    ensures ProvedAt(n, ch, i)
  {
    assert LooksInside(ChainPart, 0);
  }

  // ------------------------------------------------------- the log only ever grows

  ghost predicate Grown(a: map<nat, Chain>, b: map<nat, Chain>) {
    a.Keys == b.Keys && forall k :: k in a ==> a[k].events <= b[k].events
  }

  lemma RootFactGrows(n: Net, a: map<nat, Chain>, b: map<nat, Chain>, k: nat, index: nat, root: Fr)
    requires Grown(a, b) && RootFact(n, a, k, index, root)
    ensures RootFact(n, b, k, index, root)
  {
    assert b[k].events[..index] == a[k].events[..index];
  }

  lemma SlotsGrow(n: Net, a: map<nat, Chain>, b: map<nat, Chain>, slots: seq<Relayed>)
    requires Grown(a, b) && SlotsOk(n, a, slots)
    ensures SlotsOk(n, b, slots)
  {
    forall i | 0 <= i < |slots|
      ensures SlotOk(n, b, slots[i])
    {
      assert SlotOk(n, a, slots[i]);
      if slots[i].index != 0 { RootFactGrows(n, a, b, slots[i].chain, slots[i].index, slots[i].root); }
    }
  }

  lemma HubGrows(n: Net, a: map<nat, Chain>, b: map<nat, Chain>, hub: Hub)
    requires Grown(a, b) && HubOk(n, a, hub)
    ensures HubOk(n, b, hub)
  {
    SlotsGrow(n, a, b, hub.slots);
    forall m | m in hub.inbox
      ensures RootFact(n, b, m.chain, m.index, m.root)
    {
      RootFactGrows(n, a, b, m.chain, m.index, m.root);
    }
    forall q | q in hub.aggregations
      ensures AggregationOk(n, b, hub.aggregations[q])
    {
      SlotsGrow(n, a, b, hub.aggregations[q].snapshot);
    }
  }

  lemma ClaimsGrow(n: Net, a: map<nat, Chain>, b: map<nat, Chain>, claims: map<Place, Claim>)
    requires Grown(a, b) && ClaimsOk(n, a, claims)
    ensures ClaimsOk(n, b, claims)
    ensures forall p :: p in claims ==> ValueAt(a, p) == ValueAt(b, p)
  {
    forall p | p in claims
      ensures BurnedTo(n, b, p, RecipientOf(n, claims[p]), claims[p].secret) && ValueAt(a, p) == ValueAt(b, p)
    {
      assert BurnedTo(n, a, p, RecipientOf(n, claims[p]), claims[p].secret);
      assert a[p.0].events[p.1] == b[p.0].events[p.1];
    }
  }

  /** Other storage of the verifier says nothing about its proved roots. */
  lemma StorageIsOk(n: Net, ch: Chain, next: Chain)
    requires ChainOk(n, ch) && next.events == ch.events
    requires next.proved == ch.proved && next.latestProved == ch.latestProved
    requires forall i :: i in next.reserved ==>
               || (i in ch.reserved && next.reserved[i] == ch.reserved[i])
               || (i <= |ch.events| && next.reserved[i] == ChainOf(n.c, 0, ch.events[..i]))
    ensures ChainOk(n, next)
  {
    assert LooksInside(ChainPart, 0);
    forall i | i in next.proved ensures ProvedAt(n, next, i) { assert ProvedAt(n, ch, i); }
  }

  lemma ChainAppends(n: Net, ch: Chain, t: Transfer, token: Token)
    requires ChainOk(n, ch) && CanLog(ch, t)
    ensures ChainOk(n, Append(ch, t, token))
  {
    assert LooksInside(ChainPart, 0);
    var next := Append(ch, t, token);
    assert forall i: nat | i <= |ch.events| :: next.events[..i] == ch.events[..i];
    forall i | i in next.proved ensures ProvedAt(n, next, i) { assert ProvedAt(n, ch, i); }
  }

  /** Steps that touch only the chains keep everything as long as logs grow. */
  lemma ChainsGrow(n: Net, s: System, b: map<nat, Chain>)
    requires Inv(n, s) && Grown(s.chains, b)
    requires forall k :: k in b ==> ChainOk(n, b[k])
    requires GlobalsOk(b, s.hub)
    ensures Inv(n, s.(chains := b))
  {
    assert LooksInside(SystemPart, 0);
    HubGrows(n, s.chains, b, s.hub);
    ClaimsGrow(n, s.chains, b, s.claims);
    forall a | a in s.teleported
      ensures s.teleported[a] <= SumOver(ClaimsOf(n, s.claims, a), Values(b))
    {
      SumCongruent(ClaimsOf(n, s.claims, a), Values(s.chains), Values(b));
    }
  }

  // ------------------------------------------------------------------ proving roots

  /** Break found when an accepted root proof does not record the token's own transfers. */
  function ProveBreach(n: Net, ch: Chain, z: RootState, steps: seq<RootInput>): Breach
    requires ValidNet(n)
  {
    var run := RunRoot(n.c, n.height, z, steps);
    if run.None? || steps == [] || z.index > |ch.events| then NoBreach
    else
      var before := ch.events[..z.index];
      var inPath := RootRunBreach(n.c, Leaves(n.c, before), steps);
      if inPath != NoBreach then inPath
      else if run.value.index > |ch.events| || |TransfersOf(steps)| > run.value.index then NoBreach
      else ChainBreach(n.c, z.chain, TransfersOf(steps), 0, ch.events[..run.value.index])
  }

  /** A run with at least one step starts at an index the tree has, far below `2^64`, so the
      contract's truncation to 64 bits loses nothing. */
  lemma IndexFits(n: Net, z: RootState, steps: seq<RootInput>)
    requires ValidNet(n) && steps != [] && RunRoot(n.c, n.height, z, steps).Some?
    ensures z.index < Pow2(n.height)
  {
    assert RootStepOk(n.c, n.height, z, steps[0]);
    BitLengthIff(z.index, n.height);
  }

  lemma SmallRemainder(x: nat)
    requires x < TWO_64
    ensures x % TWO_64 == x
  {
  }

  /** Transfers whose chain ends in the chain of a log prefix are the end of that prefix, or there is a break. */
  lemma ChainPrefix(n: Net, ch: Chain, from: nat, added: seq<Transfer>, p: Fr, to: nat)
    requires from + |added| == to <= |ch.events|
    requires ChainOf(n.c, p, added) == ChainOf(n.c, 0, ch.events[..to])
    ensures var b := ChainBreach(n.c, p, added, 0, ch.events[..to]);
            if b.NoBreach? then ch.events[..to] == ch.events[..from] + added else Genuine(n.c, b)
  {
    ChainBinding(n.c, p, added, 0, ch.events[..to]);
  }

  /** An accepted run from a prefix of the log to the chain of a prefix records that prefix. */
  lemma RunRecordsLog(n: Net, ch: Chain, z: RootState, steps: seq<RootInput>)
    requires ValidNet(n) && |ch.events| < TWO_64 && steps != [] && z.index <= |ch.events|
    requires RunRoot(n.c, n.height, z, steps).Some?
    requires z.root == Root(n.c.h, Leaves(n.c, ch.events[..z.index]), n.height)
    requires var e := RunRoot(n.c, n.height, z, steps).value;
             RootRunBreach(n.c, Leaves(n.c, ch.events[..z.index]), steps).NoBreach?
             ==> e.index <= |ch.events| && e.chain == ChainOf(n.c, 0, ch.events[..e.index])
    ensures var b := ProveBreach(n, ch, z, steps);
            var e := RunRoot(n.c, n.height, z, steps).value;
            if b.NoBreach?
            then e.index <= |ch.events| && e.root == Root(n.c.h, Leaves(n.c, ch.events[..e.index]), n.height)
            else Genuine(n.c, b)
  {
    var e, before, added := RunRoot(n.c, n.height, z, steps).value, ch.events[..z.index], TransfersOf(steps);
    RootRunSound(n.c, n.height, before, z, steps);
    if RootRunBreach(n.c, Leaves(n.c, before), steps).NoBreach? {
      ChainPrefix(n, ch, z.index, added, z.chain, e.index);
    }
  }

  lemma EndIndexFits(n: Net, ch: Chain, z: RootState, steps: seq<RootInput>)
    requires ValidNet(n) && steps != [] && z.index <= |ch.events|
    requires RunRoot(n.c, n.height, z, steps).Some?
    requires z.root == Root(n.c.h, Leaves(n.c, ch.events[..z.index]), n.height)
    ensures RootRunBreach(n.c, Leaves(n.c, ch.events[..z.index]), steps).NoBreach?
            ==> RunRoot(n.c, n.height, z, steps).value.index <= Pow2(n.height) < TWO_64
  {
    RootRunSound(n.c, n.height, ch.events[..z.index], z, steps);
    IndexFits(n, z, steps);
  }

  /** A root proof the contract accepts stores the root of the token's own log prefix and raises no
      conflict, or `ProveBreach` is genuine: the unchecked old hash chain gives no freedom. */
  lemma ProveSound(n: Net, ch: Chain, z: RootState, steps: seq<RootInput>)
    requires ValidNet(n) && ChainOk(n, ch)
    requires ProveStep(n, ch, z, steps).Some?
    ensures var b := ProveBreach(n, ch, z, steps);
            var ch' := ProveStep(n, ch, z, steps).value;
            if b.NoBreach? then ChainOk(n, ch') && !ch'.paused else Genuine(n.c, b)
  {
    assert LooksInside(ChainPart, 0);
    ProvedIndex(n, ch, z, steps);
    var e, i := RunRoot(n.c, n.height, z, steps).value, RunRoot(n.c, n.height, z, steps).value.index % TWO_64;
    var ch' := ProveStep(n, ch, z, steps).value;
    if ProveBreach(n, ch, z, steps).NoBreach? {
      if i in ch.proved { assert ProvedAt(n, ch, i); }
      assert ch' == ch.(proved := ch.proved[i := e.root], latestProved := Max(ch.latestProved, i));
      forall j | j in ch'.proved ensures ProvedAt(n, ch', j) {
        if j in ch.proved { assert ProvedAt(n, ch, j); }
      }
    }
  }

  /** The index an accepted proof names is within the tree and its root is that of the log, or there is a break. */
  lemma ProvedIndex(n: Net, ch: Chain, z: RootState, steps: seq<RootInput>)
    requires ValidNet(n) && ChainOk(n, ch) && ProveStep(n, ch, z, steps).Some?
    ensures var b := ProveBreach(n, ch, z, steps);
            var e := RunRoot(n.c, n.height, z, steps).value;
            var i := e.index % TWO_64;
            if b.NoBreach?
            then && i <= |ch.events| && i <= Pow2(n.height)
                 && e.root == Root(n.c.h, Leaves(n.c, ch.events[..i]), n.height)
            else Genuine(n.c, b)
  {
    assert LooksInside(ChainPart, 0);
    assert ProvedAt(n, ch, z.index % TWO_64);
    if steps != [] {
      IndexFits(n, z, steps);
      SmallRemainder(z.index);
      EndIndexFits(n, ch, z, steps);
      var e := RunRoot(n.c, n.height, z, steps).value;
      if RootRunBreach(n.c, Leaves(n.c, ch.events[..z.index]), steps).NoBreach? {
        SmallRemainder(e.index);
        assert e.index in ch.reserved;
      }
      RunRecordsLog(n, ch, z, steps);
    }
  }
}
