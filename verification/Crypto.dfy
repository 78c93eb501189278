/** The hash functions of the system, as parameters, and what it means to break one of them. */
module Crypto {
  import opened Field

  /** Poseidon on two field elements: leaves, inner nodes and burn addresses all use it. */
  type Hash = (Fr, Fr) -> Fr

  /** SHA-256 over previous chain, address and value, cut to its low 248 bits. */
  type ChainHash = (Fr, Fr, Fr) -> U248

  /** The general recipient: target chain, account and tweak. */
  datatype Recipient = Recipient(chainId: nat, account: nat, tweak: nat)

  /** SHA-256 over a general recipient with the top byte replaced by the version. */
  type RecipientHash = Recipient -> Fr

  datatype Suite = Suite(h: Hash, chain: ChainHash, recipient: RecipientHash)

  /** A transfer as the token contract commits it: destination and value. */
  datatype Transfer = Transfer(to: Fr, value: Fr)

  /** The ranges the token contract guarantees: 160-bit destination, 248-bit value. */
  predicate InRange(t: Transfer) { t.to < TWO_160 && t.value < TWO_248 }

  /** Leaf of a transfer in the transfer tree. */
  function Leaf(c: Suite, t: Transfer): Fr { c.h(t.to, t.value) }

  function Leaves(c: Suite, ts: seq<Transfer>): (s: seq<Fr>)
    ensures |s| == |ts|
    ensures forall i :: 0 <= i < |ts| ==> s[i] == Leaf(c, ts[i])
  {
    seq(|ts|, i requires 0 <= i < |ts| => Leaf(c, ts[i]))
  }

  /** The hash chain after `ts`, started at `p`. */
  function ChainOf(c: Suite, p: Fr, ts: seq<Transfer>): Fr {
    if ts == [] then p
    else
      var last := ts[|ts| - 1];
      c.chain(ChainOf(c, p, ts[..|ts| - 1]), last.to, last.value)
  }

  /** `2^POW_DIFFICULTY` for a difficulty of twelve bits. */
  const TWO_12: int := 0x1000

  /** The part of a Poseidon hash that a burn address and its proof of work fix: its low 172 bits. */
  function BurnWindow(x: Fr): nat { x % (TWO_160 * TWO_12) }

  /**
   A concrete break of one of the hash functions. On a finite field collisions always exist, so
   soundness is never stated as "or a collision exists": it names a function that computes
   the colliding inputs from the run at hand.
   */
  datatype Breach =
    | NoBreach
    | Collision(l1: Fr, r1: Fr, l2: Fr, r2: Fr)
    | ZeroPreimage(l: Fr, r: Fr)
    | ChainCollision(p1: Fr, a1: Fr, v1: Fr, p2: Fr, a2: Fr, v2: Fr)
    | BurnCollision(b1: Fr, s1: Fr, b2: Fr, s2: Fr)
    | BurnPreimage(b: Fr, s: Fr)
    | RecipientCollision(g1: Recipient, g2: Recipient)

  /** The claimed break really is one: different inputs, equal outputs (or output zero). */
  predicate Genuine(c: Suite, b: Breach) {
    match b
    case NoBreach => false
    case Collision(l1, r1, l2, r2) => (l1, r1) != (l2, r2) && c.h(l1, r1) == c.h(l2, r2)
    case ZeroPreimage(l, r) => c.h(l, r) == 0
    case ChainCollision(p1, a1, v1, p2, a2, v2) =>
      (p1, a1, v1) != (p2, a2, v2) && c.chain(p1, a1, v1) == c.chain(p2, a2, v2)
    case BurnCollision(b1, s1, b2, s2) =>
      (b1, s1) != (b2, s2) && BurnWindow(c.h(b1, s1)) == BurnWindow(c.h(b2, s2))
    case BurnPreimage(b, s) => BurnWindow(c.h(b, s)) == 0
    case RecipientCollision(g1, g2) => g1 != g2 && c.recipient(g1) == c.recipient(g2)
  }

  /** The first of two breaches that is one. */
  function OrElse(a: Breach, b: Breach): Breach {
    if a.NoBreach? then b else a
  }

  lemma {:induction false} ChainOfConcat(c: Suite, p: Fr, s: seq<Transfer>, t: seq<Transfer>)
    ensures ChainOf(c, p, s + t) == ChainOf(c, ChainOf(c, p, s), t)
  {
    if t == [] {
      assert s + t == s;
    } else {
      ChainOfConcat(c, p, s, t[..|t| - 1]);
      assert (s + t)[..|s + t| - 1] == s + t[..|t| - 1];
    }
  }

  lemma ChainSnoc(c: Suite, p: Fr, ts: seq<Transfer>, t: Transfer)
    ensures ChainOf(c, p, ts + [t]) == c.chain(ChainOf(c, p, ts), t.to, t.value)
  {
    assert (ts + [t])[..|ts|] == ts;
  }

  lemma ChainBelow(c: Suite, p: Fr, ts: seq<Transfer>)
    requires p < TWO_248
    ensures ChainOf(c, p, ts) < TWO_248
  {
  }

  /** Compares two chains backwards and returns the first link where their inputs differ. */
  function ChainBreach(c: Suite, p: Fr, s: seq<Transfer>, q: Fr, t: seq<Transfer>): Breach
    requires |s| <= |t|
  {
    if s == [] then NoBreach
    else
      var s', x := s[..|s| - 1], s[|s| - 1];
      var t', y := t[..|t| - 1], t[|t| - 1];
      var a, b := ChainOf(c, p, s'), ChainOf(c, q, t');
      if (a, x) != (b, y) then ChainCollision(a, x.to, x.value, b, y.to, y.value)
      else ChainBreach(c, p, s', q, t')
  }

  /** Equal chains have equal tails, and the shorter one starts where the longer one then stood. */
  lemma {:induction false} ChainBinding(c: Suite, p: Fr, s: seq<Transfer>, q: Fr, t: seq<Transfer>)
    requires |s| <= |t|
    requires ChainOf(c, p, s) == ChainOf(c, q, t)
    ensures var b := ChainBreach(c, p, s, q, t);
            var k := |t| - |s|;
            if b.NoBreach? then s == t[k..] && p == ChainOf(c, q, t[..k]) else Genuine(c, b)
  {
    var k := |t| - |s|;
    if s == [] {
      assert t[..k] == t;
    } else {
      var s', t' := s[..|s| - 1], t[..|t| - 1];
      if ChainOf(c, p, s') == ChainOf(c, q, t') && s[|s| - 1] == t[|t| - 1] {
        ChainBinding(c, p, s', q, t');
        if ChainBreach(c, p, s', q, t').NoBreach? {
          assert t'[..k] == t[..k];
          assert s == s' + [s[|s| - 1]];
          assert t[k..] == t'[k..] + [t[|t| - 1]];
        }
      }
    }
  }
}
