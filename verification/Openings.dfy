/**
 Teleports: what an accepted withdraw run opens, who first opened it, and why minting the difference keeps every account
 covered by the transfers it opened.
 */
module Openings {
  import opened Field
  import opened Crypto
  import opened Merkle
  import opened Base
  import opened Burn
  import opened RootCircuit
  import opened WithdrawCircuit
  import opened Contracts
  import opened Sums
  import opened Invariant

  // -------------------------------------------------------------- opening transfers

  /** The pair whose hash is the end of a non-empty path. */
  function TopPair(h: Hash, x: Fr, v: nat, s: seq<Fr>): (Fr, Fr)
    requires s != []
    decreases |s|
  {
    var p := Ordered(x, v, s[0]);
    if |s| == 1 then p else TopPair(h, h(p.0, p.1), v / 2, s[1..])
  }

  lemma {:induction false} TopPairHashes(h: Hash, x: Fr, v: nat, s: seq<Fr>)
    requires s != []
    ensures var p := TopPair(h, x, v, s); h(p.0, p.1) == Fold(h, x, v, s)
    decreases |s|
  {
    var p := Ordered(x, v, s[0]);
    if |s| > 1 { TopPairHashes(h, h(p.0, p.1), v / 2, s[1..]); }
  }

  /** The view is one of the roots the contracts store. */
  ghost predicate ViewOk(n: Net, chains: map<nat, Chain>, view: View, root: Fr) {
    match view
    case Local(k, index) => RootFact(n, chains, k, index, root)
    case Global(snapshot) =>
      root == Root(n.c.h, RootsOf(snapshot), n.aggHeight) && SlotsOk(n, chains, snapshot)
  }

  function DepthOfView(n: Net, view: View): nat { if view.Local? then n.height else n.height + n.aggHeight }

  function EventsOf(chains: map<nat, Chain>, k: nat, index: nat): seq<Transfer> {
    if k in chains && index <= |chains[k].events| then chains[k].events[..index] else []
  }

  /** The local half of an opening under an aggregation root. */
  function LocalPart(n: Net, x: WithdrawInput): WithdrawInput
    requires |x.siblings| >= n.height
  {
    LowAsFr(x.leafIndex, n.height);
    x.(leafIndex := Low(x.leafIndex, n.height), siblings := x.siblings[..n.height])
  }

  lemma LowAsFr(x: Fr, m: nat)
    ensures Low(x, m) <= x
  {
    ShrLow(x, m);
    assert Pow2(m) * Shr(x, m) >= 0;
  }

  function OpenBreach(n: Net, chains: map<nat, Chain>, view: View, recipient: Fr, x: WithdrawInput): Breach {
    match view
    case Local(k, index) => OpeningBreach(n.c, EventsOf(chains, k, index), recipient, x)
    case Global(snapshot) =>
      if |x.siblings| < n.height || n.height == 0 then NoBreach
      else
        var leaf := n.c.h(BurnAddress(n.c.h, recipient, x.secret), x.value);
        var low, high := x.siblings[..n.height], x.siblings[n.height..];
        var a := Shr(x.leafIndex, n.height);
        var mid := Fold(n.c.h, leaf, x.leafIndex, low);
        var inAggregation := PathBreach(n.c.h, RootsOf(snapshot), 0, a, mid, high);
        if inAggregation != NoBreach then inAggregation
        else if a >= |snapshot| || snapshot[a].index == 0 then
          var p := TopPair(n.c.h, leaf, x.leafIndex, low);
          ZeroPreimage(p.0, p.1)
        else
          OpeningBreach(n.c, EventsOf(chains, snapshot[a].chain, snapshot[a].index), recipient, LocalPart(n, x))
  }

  /** Leaf `w` lies in a registered slot, and slots name distinct chains. */
  predicate DistinctView(n: Net, view: View, w: nat) {
    view.Global? ==>
      && Shr(w, n.height) < |view.snapshot|
      && forall i, j :: 0 <= i < j < |view.snapshot| ==> view.snapshot[i].chain != view.snapshot[j].chain
  }

  /** Step `x` names an existing transfer of its value to the burn address of its secret. */
  predicate Shown(n: Net, chains: map<nat, Chain>, view: View, recipient: Fr, x: WithdrawInput) {
    var p := PlaceOf(n, view, x.leafIndex);
    && DistinctView(n, view, x.leafIndex)
    && BurnedTo(n, chains, p, recipient, x.secret)
    && ValueAt(chains, p) == x.value
  }

  /** An accepted opening shows a transfer of its value to the burn address of its secret. */
  lemma OpenSound(n: Net, chains: map<nat, Chain>, view: View, root: Fr, recipient: Fr, x: WithdrawInput)
    requires ValidNet(n) && ViewOk(n, chains, view, root)
    requires |x.siblings| == DepthOfView(n, view) && x.leafIndex < Pow2(DepthOfView(n, view))
    requires Opens(n.c.h, root, recipient, x)
    ensures var b := OpenBreach(n, chains, view, recipient, x);
            if b.NoBreach? then Shown(n, chains, view, recipient, x) else Genuine(n.c, b)
  {
    match view
    case Local(k, index) =>
      OpeningSound(n.c, n.height, EventsOf(chains, k, index), recipient, x);
    case Global(snapshot) =>
      GlobalOpenSound(n, chains, snapshot, root, recipient, x);
  }

  /** The aggregation half of a path: it ends in the slot's transfer root. */
  lemma AggregationHalf(n: Net, snapshot: seq<Relayed>, leaf: Fr, v: nat, siblings: seq<Fr>)
    requires ValidNet(n) && |siblings| == n.height + n.aggHeight && v < Pow2(n.height + n.aggHeight)
    requires Fold(n.c.h, leaf, v, siblings) == Root(n.c.h, RootsOf(snapshot), n.aggHeight)
    ensures var a := Shr(v, n.height);
            var mid := Fold(n.c.h, leaf, v, siblings[..n.height]);
            var b := PathBreach(n.c.h, RootsOf(snapshot), 0, a, mid, siblings[n.height..]);
            if b.NoBreach? then mid == LeafAt(RootsOf(snapshot), a) else Genuine(n.c, b)
  {
    var low, high := siblings[..n.height], siblings[n.height..];
    assert siblings == low + high;
    FoldConcat(n.c.h, leaf, v, low, high);
    ShrAdd(v, n.height, n.aggHeight);
    ShrZeroIff(v, n.height + n.aggHeight);
    PathBinding(n.c, RootsOf(snapshot), 0, Shr(v, n.height), Fold(n.c.h, leaf, v, low), high);
  }

  lemma GlobalOpenSound(
    n: Net, chains: map<nat, Chain>, snapshot: seq<Relayed>, root: Fr, recipient: Fr, x: WithdrawInput)
    requires ValidNet(n) && ViewOk(n, chains, Global(snapshot), root)
    requires |x.siblings| == n.height + n.aggHeight && x.leafIndex < Pow2(n.height + n.aggHeight)
    requires Opens(n.c.h, root, recipient, x)
    ensures var b := OpenBreach(n, chains, Global(snapshot), recipient, x);
            if b.NoBreach? then Shown(n, chains, Global(snapshot), recipient, x) else Genuine(n.c, b)
  {
    var leaf := n.c.h(BurnAddress(n.c.h, recipient, x.secret), x.value);
    var low, a := x.siblings[..n.height], Shr(x.leafIndex, n.height);
    AggregationHalf(n, snapshot, leaf, x.leafIndex, x.siblings);
    TopPairHashes(n.c.h, leaf, x.leafIndex, low);
    if PathBreach(n.c.h, RootsOf(snapshot), 0, a, Fold(n.c.h, leaf, x.leafIndex, low), x.siblings[n.height..]).NoBreach?
       && a < |snapshot| && snapshot[a].index != 0
    {
      assert SlotOk(n, chains, snapshot[a]);
      FoldLowBits(n.c.h, leaf, x.leafIndex, low);
      OpeningSound(n.c, n.height, EventsOf(chains, snapshot[a].chain, snapshot[a].index), recipient, LocalPart(n, x));
    }
  }

  // ------------------------------------------------------------------------ places

  /** Different leaves of a view are different transfers. */
  lemma PlacesDiffer(n: Net, view: View, v: nat, w: nat)
    requires v < w
    requires view.Global? ==> Shr(w, n.height) < |view.snapshot|
    requires view.Global? ==>
               forall i, j :: 0 <= i < j < |view.snapshot| ==> view.snapshot[i].chain != view.snapshot[j].chain
    ensures PlaceOf(n, view, v) != PlaceOf(n, view, w)
  {
    if view.Global? {
      ShrLow(v, n.height);
      ShrLow(w, n.height);
      ShrMono(v, w, n.height);
    }
  }

  // --------------------------------------------------------------------- teleports

  /** Break found when an opened transfer was opened before for another account. */
  function ClaimBreach(n: Net, claims: map<Place, Claim>, p: Place, gr: Recipient, secret: Fr): Breach {
    if p !in claims || OwnerOf(n, claims[p]) == OwnerOf(n, Claim(gr, secret)) then NoBreach
    else
      var r0, r1 := RecipientOf(n, claims[p]), n.c.recipient(gr);
      if r0 != r1 then BurnCollision(r0, claims[p].secret, r1, secret) else RecipientCollision(claims[p].gr, gr)
  }

  lemma ClaimSound(n: Net, chains: map<nat, Chain>, claims: map<Place, Claim>, p: Place, gr: Recipient, secret: Fr)
    requires ClaimsOk(n, chains, claims) && BurnedTo(n, chains, p, n.c.recipient(gr), secret)
    ensures var b := ClaimBreach(n, claims, p, gr, secret);
            if b.NoBreach? then p in claims ==> OwnerOf(n, claims[p]) == OwnerOf(n, Claim(gr, secret))
            else Genuine(n.c, b)
  {
    if p in claims {
      assert BurnedTo(n, chains, p, RecipientOf(n, claims[p]), claims[p].secret);
      SameAddressSameWindow(n.c.h, RecipientOf(n, claims[p]), claims[p].secret, n.c.recipient(gr), secret);
    }
  }

  /** Break found in one step of a teleport. */
  function StepOpensBreach(n: Net, s: System, view: View, gr: Recipient, x: WithdrawInput): Breach {
    if x.isDummy then NoBreach
    else OrElse(OpenBreach(n, s.chains, view, n.c.recipient(gr), x),
                ClaimBreach(n, s.claims, PlaceOf(n, view, x.leafIndex), gr, x.secret))
  }

  lemma StepOpens(n: Net, s: System, view: View, root: Fr, gr: Recipient, x: WithdrawInput)
    requires ValidNet(n) && ClaimsOk(n, s.chains, s.claims) && ViewOk(n, s.chains, view, root) && !x.isDummy
    requires |x.siblings| == DepthOfView(n, view) && x.leafIndex < Pow2(DepthOfView(n, view))
    requires Opens(n.c.h, root, n.c.recipient(gr), x)
    ensures var b := StepOpensBreach(n, s, view, gr, x);
            if b.NoBreach?
            then && Shown(n, s.chains, view, n.c.recipient(gr), x)
                 && ClaimBreach(n, s.claims, PlaceOf(n, view, x.leafIndex), gr, x.secret).NoBreach?
            else Genuine(n.c, b)
  {
    OpenSound(n, s.chains, view, root, n.c.recipient(gr), x);
    if OpenBreach(n, s.chains, view, n.c.recipient(gr), x).NoBreach? {
      ClaimSound(n, s.chains, s.claims, PlaceOf(n, view, x.leafIndex), gr, x.secret);
    }
  }

  /** Break found while recording the openings of one teleport. */
  function OpensBreach(n: Net, s: System, view: View, gr: Recipient, xs: seq<WithdrawInput>): Breach {
    if xs == [] then NoBreach
    else OrElse(StepOpensBreach(n, s, view, gr, xs[0]), OpensBreach(n, s, view, gr, xs[1..]))
  }

  /** The places of the real steps. */
  function PlacesOf(n: Net, view: View, xs: seq<WithdrawInput>): set<Place> {
    if xs == [] then {}
    else (if xs[0].isDummy then {} else {PlaceOf(n, view, xs[0].leafIndex)}) + PlacesOf(n, view, xs[1..])
  }

  /** Recording keeps old claims, adds exactly the given places, and these belong to the account. */
  ghost predicate Recorded(n: Net, s: System, a: Account, places: set<Place>, claims: map<Place, Claim>) {
    && claims.Keys == s.claims.Keys + places
    && (forall p :: p in s.claims ==> claims[p] == s.claims[p])
    && (forall p :: p in places ==> OwnerOf(n, claims[p]) == a)
    && ClaimsOk(n, s.chains, claims)
  }

  lemma RecordPlace(
    n: Net, s: System, gr: Recipient, places: set<Place>, claims: map<Place, Claim>, p: Place, secret: Fr)
    requires Recorded(n, s, (gr.chainId, n.c.recipient(gr)), places, claims)
    requires BurnedTo(n, s.chains, p, n.c.recipient(gr), secret)
    requires ClaimBreach(n, s.claims, p, gr, secret).NoBreach?
    ensures Recorded(n, s, (gr.chainId, n.c.recipient(gr)), places + {p},
                     if p in claims then claims else claims[p := Claim(gr, secret)])
  {
    if p in claims {
      assert claims.Keys == s.claims.Keys + (places + {p});
    } else {
      var claims' := claims[p := Claim(gr, secret)];
      assert claims'.Keys == s.claims.Keys + (places + {p});
      forall q | q in claims'
        ensures BurnedTo(n, s.chains, q, RecipientOf(n, claims'[q]), claims'[q].secret)
      {
        if q != p { assert BurnedTo(n, s.chains, q, RecipientOf(n, claims[q]), claims[q].secret); }
      }
    }
  }

  ghost predicate AllShown(n: Net, chains: map<nat, Chain>, view: View, recipient: Fr, xs: seq<WithdrawInput>) {
    forall i :: 0 <= i < |xs| && !xs[i].isDummy ==> Shown(n, chains, view, recipient, xs[i])
  }

  lemma PlacesCons(n: Net, view: View, xs: seq<WithdrawInput>)
    requires xs != []
    ensures PlacesOf(n, view, xs)
         == if xs[0].isDummy then PlacesOf(n, view, xs[1..])
            else PlacesOf(n, view, xs[1..]) + {PlaceOf(n, view, xs[0].leafIndex)}
  {
  }

  /** Everything a teleport opens is shown and recorded for its account, or there is a break. */
  lemma {:induction false} RecordSound(
    n: Net, s: System, view: View, root: Fr, gr: Recipient, xs: seq<WithdrawInput>, last: nat)
    requires ValidNet(n) && ClaimsOk(n, s.chains, s.claims) && ViewOk(n, s.chains, view, root)
    requires Increasing(xs, last, Pow2(DepthOfView(n, view)))
    requires AllOpen(n.c.h, DepthOfView(n, view), root, n.c.recipient(gr), xs)
    ensures var b := OpensBreach(n, s, view, gr, xs);
            if b.NoBreach?
            then && Recorded(n, s, (gr.chainId, n.c.recipient(gr)), PlacesOf(n, view, xs),
                             AddClaims(n, s.claims, view, gr, xs))
                 && AllShown(n, s.chains, view, n.c.recipient(gr), xs)
            else Genuine(n.c, b)
    decreases |xs|
  {
    if xs == [] {
    } else {
      var x, rest := xs[0], xs[1..];
      assert xs == [x] + rest;
      AllOpenCons(n.c.h, DepthOfView(n, view), root, n.c.recipient(gr), x, rest);
      RecordSound(n, s, view, root, gr, rest, x.leafIndex + 1);
      if !x.isDummy { StepOpens(n, s, view, root, gr, x); }
      if OpensBreach(n, s, view, gr, xs).NoBreach? {
        if !x.isDummy {
          var p := PlaceOf(n, view, x.leafIndex);
          RecordPlace(n, s, gr, PlacesOf(n, view, rest), AddClaims(n, s.claims, view, gr, rest), p, x.secret);
        }
        PlacesCons(n, view, xs);
      }
    }
  }

  // ----------------------------------------------------------------- value opened

  lemma {:induction false} LaterPlace(n: Net, view: View, xs: seq<WithdrawInput>, v: nat, limit: nat)
    requires Increasing(xs, v + 1, limit)
    requires forall i :: 0 <= i < |xs| && !xs[i].isDummy ==> DistinctView(n, view, xs[i].leafIndex)
    ensures PlaceOf(n, view, v) !in PlacesOf(n, view, xs)
    decreases |xs|
  {
    if xs == [] {
    } else {
      if !xs[0].isDummy {
        assert DistinctView(n, view, xs[0].leafIndex);
        PlacesDiffer(n, view, v, xs[0].leafIndex);
      }
      var rest := xs[1..];
      assert forall i :: 0 <= i < |rest| ==> rest[i] == xs[i + 1];
      LaterPlace(n, view, rest, v, limit);
    }
  }

  /** The integer sum of a run is at most the value of the distinct transfers it opens. */
  lemma {:induction false} SumIsOpened(
    n: Net, chains: map<nat, Chain>, view: View, xs: seq<WithdrawInput>, last: nat, limit: nat)
    requires Increasing(xs, last, limit)
    requires forall i :: 0 <= i < |xs| && !xs[i].isDummy ==>
               DistinctView(n, view, xs[i].leafIndex)
               && ValueAt(chains, PlaceOf(n, view, xs[i].leafIndex)) == xs[i].value
    ensures SignedSum(xs) <= SumOver(PlacesOf(n, view, xs), Values(chains))
    decreases |xs|
  {
    if xs == [] {
    } else {
      var x, rest := xs[0], xs[1..];
      assert forall i :: 0 <= i < |rest| ==> rest[i] == xs[i + 1];
      SumIsOpened(n, chains, view, rest, x.leafIndex + 1, limit);
      var p := PlaceOf(n, view, x.leafIndex);
      if !x.isDummy {
        assert ValueAt(chains, p) == x.value;
        LaterPlace(n, view, rest, x.leafIndex, limit);
        SumAdd(PlacesOf(n, view, rest), p, Values(chains));
        assert PlacesOf(n, view, xs) == PlacesOf(n, view, rest) + {p};
      } else {
        assert PlacesOf(n, view, xs) == PlacesOf(n, view, rest);
      }
    }
  }

  // ------------------------------------------------------------------------- books

  /** After recording, an account covers its amount: the one paid by the new openings, the others as before. */
  lemma AccountCovered(
    n: Net, s: System, a: Account, places: set<Place>, claims: map<Place, Claim>, chains: map<nat, Chain>, value: nat,
    b: Account)
    requires ClaimsOk(n, s.chains, s.claims) && Grown(s.chains, chains)
    requires Recorded(n, s, a, places, claims) && value <= SumOver(places, Values(s.chains))
    requires b != a ==> b in s.teleported && s.teleported[b] <= SumOver(ClaimsOf(n, s.claims, b), Values(s.chains))
    ensures (if b == a then value else s.teleported[b]) <= SumOver(ClaimsOf(n, claims, b), Values(chains))
  {
    ClaimsGrow(n, s.chains, chains, claims);
    SumCongruent(ClaimsOf(n, claims, b), Values(s.chains), Values(chains));
    if b == a {
      SumSubset(places, ClaimsOf(n, claims, a), Values(s.chains));
    } else {
      assert ClaimsOf(n, claims, b) == ClaimsOf(n, s.claims, b);
    }
  }

  lemma AccountsCovered(
    n: Net, s: System, a: Account, places: set<Place>, claims: map<Place, Claim>, chains: map<nat, Chain>, value: nat)
    requires ClaimsOk(n, s.chains, s.claims) && BooksOk(n, s) && Grown(s.chains, chains)
    requires Recorded(n, s, a, places, claims) && value <= SumOver(places, Values(s.chains))
    ensures forall b :: b in s.teleported[a := value] ==>
              s.teleported[a := value][b] <= SumOver(ClaimsOf(n, claims, b), Values(chains))
  {
    forall b | b in s.teleported[a := value]
      ensures s.teleported[a := value][b] <= SumOver(ClaimsOf(n, claims, b), Values(chains))
    {
      AccountCovered(n, s, a, places, claims, chains, value, b);
    }
  }

  lemma HintIsView(n: Net, s: System, k: nat, isGlobal: bool, hint: nat)
    requires Inv(n, s) && k in s.chains && HintedRoot(s.chains[k], isGlobal, hint) != 0
    ensures ViewOk(n, s.chains, ViewOf(s, k, isGlobal, hint), HintedRoot(s.chains[k], isGlobal, hint))
    ensures ClaimsOk(n, s.chains, s.claims)
  {
    assert LooksInside(SystemPart, 0);
    if !isGlobal { ProvedRoot(n, s.chains[k], hint); }
  }

  /** What an accepted run opens is recorded for its account and covers its total, or there is a break. */
  lemma OpeningsRecorded(
    n: Net, s: System, k: nat, isGlobal: bool, hint: nat, gr: Recipient, xs: seq<WithdrawInput>, value: nat)
    requires ValidNet(n) && Inv(n, s) && k in s.chains && HintedRoot(s.chains[k], isGlobal, hint) != 0
    requires Increasing(xs, 0, Pow2(DepthOf(n, isGlobal)))
    requires AllOpen(n.c.h, DepthOf(n, isGlobal), HintedRoot(s.chains[k], isGlobal, hint), n.c.recipient(gr), xs)
    requires value <= SignedSum(xs)
    ensures var view := ViewOf(s, k, isGlobal, hint);
            var b := OpensBreach(n, s, view, gr, xs);
            if b.NoBreach?
            then && Recorded(n, s, (gr.chainId, n.c.recipient(gr)), PlacesOf(n, view, xs),
                             AddClaims(n, s.claims, view, gr, xs))
                 && value <= SumOver(PlacesOf(n, view, xs), Values(s.chains))
            else Genuine(n.c, b)
  {
    var view := ViewOf(s, k, isGlobal, hint);
    HintIsView(n, s, k, isGlobal, hint);
    RecordSound(n, s, view, HintedRoot(s.chains[k], isGlobal, hint), gr, xs, 0);
    if OpensBreach(n, s, view, gr, xs).NoBreach? {
      SumIsOpened(n, s.chains, view, xs, 0, Pow2(DepthOf(n, isGlobal)));
    }
  }

  /** An accepted teleport keeps the invariant, or `OpensBreach` is genuine. */
  lemma TeleportKeeps(
    n: Net, s: System, k: nat, isGlobal: bool, hint: nat, gr: Recipient,
    root: Fr, recipient: Fr, xs: seq<WithdrawInput>, value: Fr)
    requires ValidNet(n) && Inv(n, s) && k in s.chains
    requires TeleportStep(n, s, k, isGlobal, hint, gr, root, recipient, xs, value).Some?
    requires Increasing(xs, 0, Pow2(DepthOf(n, isGlobal)))
    requires AllOpen(n.c.h, DepthOf(n, isGlobal), root, recipient, xs)
    requires value <= SignedSum(xs) && value < TWO_248
    ensures var b := OpensBreach(n, s, ViewOf(s, k, isGlobal, hint), gr, xs);
            if b.NoBreach?
            then Inv(n, TeleportStep(n, s, k, isGlobal, hint, gr, root, recipient, xs, value).value)
            else Genuine(n.c, b)
  {
    var view := ViewOf(s, k, isGlobal, hint);
    OpeningsRecorded(n, s, k, isGlobal, hint, gr, xs, value);
    if OpensBreach(n, s, view, gr, xs).NoBreach? {
      MintKeeps(n, s, (k, recipient), PlacesOf(n, view, xs), AddClaims(n, s.claims, view, gr, xs),
                gr.account % TWO_160, value,
                Create(s.chains[k].token, gr.account % TWO_160, value - Teleported(s, (k, recipient))).value);
    }
  }

  lemma Replaced(n: Net, s: System, s': System)
    requires Inv(n, s) && s'.chains == s.chains && s'.hub == s.hub
    requires ClaimsOk(n, s'.chains, s'.claims) && BooksOk(n, s')
    ensures Inv(n, s')
  {
    assert LooksInside(SystemPart, 0);
  }

  lemma BooksMint(
    n: Net, s: System, a: Account, places: set<Place>, claims: map<Place, Claim>, to: Fr, value: Fr, token: Token)
    requires ClaimsOk(n, s.chains, s.claims) && BooksOk(n, s) && a.0 in s.chains
    requires Teleported(s, a) < value <= SumOver(places, Values(s.chains))
    requires Recorded(n, s, a, places, claims)
    ensures BooksOk(n, Mint(s, a, to, value, claims, token))
  {
    AccountsCovered(n, s, a, places, claims, Mint(s, a, to, value, claims, token).chains, value);
    TotalUpdate(s.teleported, a, value);
  }

  lemma MintLog(n: Net, s: System, a: Account, claims: map<Place, Claim>, to: Fr, value: Fr, token: Token)
    requires Inv(n, s) && a.0 in s.chains && |s.chains[a.0].events| + 1 < TWO_64
    requires to < TWO_160 && value < TWO_248
    requires Teleported(s, a) < value
    ensures Inv(n, s.(chains := Mint(s, a, to, value, claims, token).chains))
    ensures Grown(s.chains, Mint(s, a, to, value, claims, token).chains)
  {
    var t := Transfer(to, value - Teleported(s, a));
    GrowByOne(n, s, a.0, t, token);
    assert s.(chains := Mint(s, a, to, value, claims, token).chains)
        == WithChain(s, a.0, Append(s.chains[a.0], t, token));
  }

  /** Minting the covered difference and recording the openings keeps the invariant. */
  lemma MintKeeps(
    n: Net, s: System, a: Account, places: set<Place>, claims: map<Place, Claim>, to: Fr, value: Fr, token: Token)
    requires Inv(n, s) && a.0 in s.chains && |s.chains[a.0].events| + 1 < TWO_64
    requires to < TWO_160 && value < TWO_248
    requires Teleported(s, a) < value <= SumOver(places, Values(s.chains))
    requires Recorded(n, s, a, places, claims)
    ensures Inv(n, Mint(s, a, to, value, claims, token))
  {
    var s' := Mint(s, a, to, value, claims, token);
    MintLog(n, s, a, claims, to, value, token);
    ClaimsGrow(n, s.chains, s'.chains, claims);
    assert ClaimsOk(n, s.chains, s.claims) && BooksOk(n, s) by { assert LooksInside(SystemPart, 0); }
    BooksMint(n, s, a, places, claims, to, value, token);
    Replaced(n, s.(chains := s'.chains), s');
  }

  predicate IsTokenCall(a: Action) { a.TokenTransfer? || a.Deposit? || a.Withdraw? }

  /** Plain transfers, deposits and withdrawals only lengthen a log. */
  lemma TokenKeeps(n: Net, s: System, a: Action)
    requires ValidNet(n) && Inv(n, s) && Step(n, s, a).Some? && IsTokenCall(a)
    ensures Inv(n, Step(n, s, a).value)
  {
    var s', k := Step(n, s, a).value, a.chain;
    var t := if a.Withdraw? then Transfer(0, a.value) else a.transfer;
    GrowByOne(n, s, k, t, s'.chains[k].token);
  }

  lemma GrowByOne(n: Net, s: System, k: nat, t: Transfer, token: Token)
    requires Inv(n, s) && k in s.chains && CanLog(s.chains[k], t)
    ensures Grown(s.chains, s.chains[k := Append(s.chains[k], t, token)])
    ensures Inv(n, WithChain(s, k, Append(s.chains[k], t, token)))
  {
    assert LooksInside(SystemPart, 0);
    ChainAppends(n, s.chains[k], t, token);
    ChainsGrow(n, s, s.chains[k := Append(s.chains[k], t, token)]);
  }
}
