/** The chain the root prover works against: its verifier contract and everybody else who uses it. */
module ProverChain {
  import opened Base
  import opened Field
  import opened Crypto
  import opened Merkle
  import opened RootCircuit
  import opened ProverTables
  import Contracts
  import Invariant

  // ------------------------------------------------------------------- the chain

  /** What may happen to a chain over time: nothing recorded is lost, the proved index never falls, and the verifier
      stops working only by a pause. */
  predicate Follows(a: Contracts.Chain, b: Contracts.Chain) {
    && a.events <= b.events && a.latestProved <= b.latestProved
    && a.reserved.Keys <= b.reserved.Keys && a.proved.Keys <= b.proved.Keys
    && a.pauses <= b.pauses && (a.pauses == b.pauses && !a.paused ==> !b.paused)
  }

  /** The same, for loops that only pass it on. */
  ghost predicate Since(a: Contracts.Chain, b: Contracts.Chain) {
    forall k {:trigger LooksInside(TimePart, k)} :: LooksInside(TimePart, k) ==> Follows(a, b)
  }

  lemma SinceThrough(a: Contracts.Chain, b: Contracts.Chain, c: Contracts.Chain)
    requires Since(a, b) && Since(b, c)
    ensures Since(a, c)
  {
  }

  /** Any proof the contract accepts, from whomever, keeps the chain as it must be and loses nothing, or yields a
      genuine break. */
  lemma ProveFollows(n: Contracts.Net, ch: Contracts.Chain, z: RootState, steps: seq<RootInput>)
    requires Contracts.ValidNet(n) && Invariant.ChainOk(n, ch) && Contracts.ProveStep(n, ch, z, steps).Some?
    ensures var b := Invariant.ProveBreach(n, ch, z, steps);
            var next := Contracts.ProveStep(n, ch, z, steps).value;
            if b.NoBreach? then Invariant.ChainOk(n, next) && Follows(ch, next) else Genuine(n.c, b)
  {
    Invariant.ProveSound(n, ch, z, steps);
  }

  /** The chain as the job sees it. `log` is everything that will ever happen on the token. */
  class Verifier {
    const net: Contracts.Net
    const log: seq<Transfer>
    var ch: Contracts.Chain

    ghost predicate Valid()
      reads this
    {
      Contracts.ValidNet(net) && Invariant.ChainOk(net, ch) && ch.events <= log
    }

    /** A freshly deployed token and verifier. */
    constructor (net: Contracts.Net, log: seq<Transfer>)
      requires Contracts.ValidNet(net)
      ensures Valid() && this.net == net && this.log == log
    {
      this.net, this.log, ch := net, log, Contracts.InitialChain(net);
      new;
      EmptyNode(net.c.h, net.height, 0);
      assert Leaves(net.c, []) == [] && ch.events[..0] == [];
      assert Invariant.ProvedAt(net, ch, 0);
    }

    /** Any number of calls by anybody else: token calls and teleports that extend the log, reservations, root proofs,
        pauses and global roots. Root proofs are those that break no hash function. */
    method Others()
      requires Valid()
      modifies this`ch
      ensures Valid() && Follows(old(ch), ch)
    {
      var calls: nat := *;
      while calls > 0
        invariant Valid() && Follows(old(ch), ch)
      {
        OtherCall();
        calls := calls - 1;
      }
    }

    method OtherCall()
      requires Valid()
      modifies this`ch
      ensures Valid() && Follows(old(ch), ch)
    {
      if
      case true =>
        var t: Transfer, token: Contracts.Token := *, *;
        if Contracts.CanLog(ch, t) && ch.events + [t] <= log {
          Invariant.ChainAppends(net, ch, t, token);
          ch := Contracts.Append(ch, t, token);
        }
      case true =>
        var _, _ := Reserve();
      case true =>
        var z: RootState, steps: seq<RootInput> := *, *;
        var r := Contracts.ProveStep(net, ch, z, steps);
        if r.Some? && Invariant.ProveBreach(net, ch, z, steps).NoBreach? {
          ProveFollows(net, ch, z, steps);
          ch := r.value;
        }
      case true =>
        var paused: bool, roots: map<nat, Fr> := *, *;
        Invariant.StorageIsOk(net, ch, Contracts.Pause(ch, paused).(globalRoots := roots));
        ch := Contracts.Pause(ch, paused).(globalRoots := roots);
    }

    /** `reserveHashChain`. */
    method Reserve() returns (index: nat, chain: Fr)
      requires Valid()
      modifies this`ch
      ensures Valid() && Follows(old(ch), ch)
      ensures index in ch.reserved && index == |ch.events| && chain == ChainOf(net.c, 0, log[..index])
    {
      index, chain := |ch.events|, ChainOf(net.c, 0, ch.events);
      assert ch.events[..index] == ch.events == log[..index];
      Invariant.StorageIsOk(net, ch, ch.(reserved := ch.reserved[index := chain]));
      ch := ch.(reserved := ch.reserved[index := chain]);
    }

    /** `proveTransferRoot` with the folded proof of an honest run: it is accepted unless the contract is paused
        or one of the two values it reserves zero for is zero. */
    method Submit(
      start: RootState, inputs: seq<RootInput>, ghost base: nat, ghost target: nat, ghost e: RootState)
      returns (ok: bool)
      requires Valid() && base <= target <= |log| && target <= Pow2(net.height)
      requires base in ch.proved && target in ch.reserved
      requires target < P && start == StateOf(net.c, net.height, log[..base])
      requires Runs(net, start, inputs, e) && e == StateOf(net.c, net.height, log[..target])
      modifies this
      ensures Valid() && Follows(old(ch), ch)
      ensures ok <==> !old(ch.paused) && start.root != 0 && ChainOf(net.c, 0, log[..target]) != 0
      ensures ok ==> !ch.paused && target in ch.proved && ch.latestProved >= target
    {
      HonestProof(net, ch, log, start, inputs, base, target, e);
      var r := Contracts.ProveStep(net, ch, start, inputs);
      if r.None? { return false; }
      ch := r.value;
      return true;
    }
  }

  lemma HonestProof(
    n: Contracts.Net, ch: Contracts.Chain, log: seq<Transfer>, start: RootState, inputs: seq<RootInput>,
    base: nat, target: nat, e: RootState)
    requires Contracts.ValidNet(n) && Invariant.ChainOk(n, ch) && ch.events <= log
    requires base <= target <= |log| && target <= Pow2(n.height) && base in ch.proved && target in ch.reserved
    requires target < P && start == StateOf(n.c, n.height, log[..base])
    requires Runs(n, start, inputs, e) && e == StateOf(n.c, n.height, log[..target])
    ensures var r := Contracts.ProveStep(n, ch, start, inputs);
            && (r.Some? <==> !ch.paused && start.root != 0 && ChainOf(n.c, 0, log[..target]) != 0)
            && (r.Some? ==> Invariant.ChainOk(n, r.value) && Follows(ch, r.value) && r.value.events == ch.events
                            && !r.value.paused && target in r.value.proved && r.value.latestProved >= target)
  {
    assert LooksInside(ProofPart, 0) && LooksInside(ChainPart, 0);
    assert Invariant.ProvedAt(n, ch, base) && target in ch.reserved;
    assert ch.events[..base] == log[..base] && ch.events[..target] == log[..target];
    Invariant.SmallRemainder(base);
    Invariant.SmallRemainder(target);
    var r := Contracts.ProveStep(n, ch, start, inputs);
    if r.Some? {
      if target in ch.proved { assert Invariant.ProvedAt(n, ch, target); }
      forall i | i in r.value.proved ensures Invariant.ProvedAt(n, r.value, i) {
        if i in ch.proved { assert Invariant.ProvedAt(n, ch, i); }
      }
    }
  }
}
