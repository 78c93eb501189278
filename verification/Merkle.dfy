/** Binary Merkle trees over a leaf list padded with zeros: the reference every other part is held to. */
module Merkle {
  import opened Field
  import opened Crypto

  /** Leaf `v` of a list; every position past the end holds zero. */
  function LeafAt(leaves: seq<Fr>, v: nat): Fr {
    if v < |leaves| then leaves[v] else 0
  }

  /** Hash of the subtree of height `k` whose leaves are `v * 2^k` to `(v + 1) * 2^k`. */
  function Node(h: Hash, leaves: seq<Fr>, k: nat, v: nat): Fr
    decreases k
  {
    if k == 0 then LeafAt(leaves, v)
    else h(Node(h, leaves, k - 1, 2 * v), Node(h, leaves, k - 1, 2 * v + 1))
  }

  /** Root of the tree of the given height. */
  function Root(h: Hash, leaves: seq<Fr>, height: nat): Fr {
    Node(h, leaves, height, 0)
  }

  /** Hash of an empty subtree of height `k`. */
  function ZeroHash(h: Hash, k: nat): Fr {
    if k == 0 then 0 else h(ZeroHash(h, k - 1), ZeroHash(h, k - 1))
  }

  function SiblingOf(v: nat): nat { if v % 2 == 1 then v - 1 else v + 1 }

  /** The pair hashed at a step of a path: the running value goes left or right by parity. */
  function Ordered(x: Fr, v: nat, sibling: Fr): (Fr, Fr) {
    if v % 2 == 1 then (sibling, x) else (x, sibling)
  }

  /** Hashes `x`, sitting at position `v`, up along `siblings`. */
  function Fold(h: Hash, x: Fr, v: nat, siblings: seq<Fr>): Fr
    decreases |siblings|
  {
    if siblings == [] then x
    else
      var p := Ordered(x, v, siblings[0]);
      Fold(h, h(p.0, p.1), v / 2, siblings[1..])
  }

  /** The `m` siblings met on the way up from height `k`, position `v`. */
  function Siblings(h: Hash, leaves: seq<Fr>, k: nat, v: nat, m: nat): (s: seq<Fr>)
    ensures |s| == m
    decreases m
  {
    if m == 0 then []
    else [Node(h, leaves, k, SiblingOf(v))] + Siblings(h, leaves, k + 1, v / 2, m - 1)
  }

  // ------------------------------------------------------ what a subtree depends on

  lemma {:induction false} NodeAgrees(h: Hash, a: seq<Fr>, b: seq<Fr>, k: nat, v: nat)
    requires forall i: nat | Shr(i, k) == v :: LeafAt(a, i) == LeafAt(b, i)
    ensures Node(h, a, k, v) == Node(h, b, k, v)
    decreases k
  {
    if k == 0 {
      assert Shr(v, 0) == v;
    } else {
      forall i: nat | Shr(i, k - 1) == 2 * v || Shr(i, k - 1) == 2 * v + 1
        ensures LeafAt(a, i) == LeafAt(b, i)
      {
        ShrAdd(i, k - 1, 1);
        assert Shr(Shr(i, k - 1), 1) == Shr(i, k - 1) / 2;
      }
      NodeAgrees(h, a, b, k - 1, 2 * v);
      NodeAgrees(h, a, b, k - 1, 2 * v + 1);
    }
  }

  /** Appending a leaf changes only the subtrees that contain its position. */
  lemma AppendElsewhere(h: Hash, leaves: seq<Fr>, x: Fr, k: nat, v: nat)
    requires v != Shr(|leaves|, k)
    ensures Node(h, leaves + [x], k, v) == Node(h, leaves, k, v)
  {
    NodeAgrees(h, leaves + [x], leaves, k, v);
  }

  lemma {:induction false} EmptyNode(h: Hash, k: nat, v: nat)
    ensures Node(h, [], k, v) == ZeroHash(h, k)
    decreases k
  {
    if k == 0 {
    } else {
      EmptyNode(h, k - 1, 2 * v);
      EmptyNode(h, k - 1, 2 * v + 1);
    }
  }

  lemma {:induction false} ShrMono(i: nat, j: nat, k: nat)
    requires i <= j
    ensures Shr(i, k) <= Shr(j, k)
  {
    if k == 0 {
    } else {
      ShrMono(i / 2, j / 2, k - 1);
    }
  }

  /** A subtree that starts at or past the end of the list is empty. */
  lemma NodePastEnd(h: Hash, leaves: seq<Fr>, k: nat, v: nat)
    requires |leaves| == 0 || Shr(|leaves| - 1, k) < v
    ensures Node(h, leaves, k, v) == ZeroHash(h, k)
  {
    forall i: nat | Shr(i, k) == v
      ensures LeafAt(leaves, i) == LeafAt([], i)
    {
      if i < |leaves| { ShrMono(i, |leaves| - 1, k); }
    }
    NodeAgrees(h, leaves, [], k, v);
    EmptyNode(h, k, v);
  }

  // ---------------------------------------------------------------------- folding

  /** Completeness: folding a node along its true siblings gives the ancestor. */
  lemma {:induction false} FoldSiblings(h: Hash, leaves: seq<Fr>, k: nat, v: nat, m: nat)
    ensures Fold(h, Node(h, leaves, k, v), v, Siblings(h, leaves, k, v, m)) == Node(h, leaves, k + m, Shr(v, m))
    decreases m
  {
    if m == 0 {
    } else {
      var rest := Siblings(h, leaves, k + 1, v / 2, m - 1);
      FoldSiblings(h, leaves, k + 1, v / 2, m - 1);
      FoldOnce(h, leaves, k, v, rest);
      assert Siblings(h, leaves, k, v, m) == [Node(h, leaves, k, SiblingOf(v))] + rest;
      assert (k + 1) + (m - 1) == k + m && Shr(v, m) == Shr(v / 2, m - 1);
    }
  }

  /** The first step of a path goes from a node to its parent. */
  lemma FoldOnce(h: Hash, leaves: seq<Fr>, k: nat, v: nat, rest: seq<Fr>)
    ensures Fold(h, Node(h, leaves, k, v), v, [Node(h, leaves, k, SiblingOf(v))] + rest)
         == Fold(h, Node(h, leaves, k + 1, v / 2), v / 2, rest)
  {
    var p := Ordered(Node(h, leaves, k, v), v, Node(h, leaves, k, SiblingOf(v)));
    assert p == (Node(h, leaves, k, 2 * (v / 2)), Node(h, leaves, k, 2 * (v / 2) + 1));
    assert ([Node(h, leaves, k, SiblingOf(v))] + rest)[1..] == rest;
  }

  /** The siblings of a path never contain the path's own leaf, so a new leaf there keeps them. */
  lemma {:induction false} SiblingsKeptByAppend(h: Hash, leaves: seq<Fr>, x: Fr, k: nat, v: nat, m: nat)
    requires v == Shr(|leaves|, k)
    ensures Siblings(h, leaves + [x], k, v, m) == Siblings(h, leaves, k, v, m)
    decreases m
  {
    if m == 0 {
    } else {
      AppendElsewhere(h, leaves, x, k, SiblingOf(v));
      ShrAdd(|leaves|, k, 1);
      assert Shr(Shr(|leaves|, k), 1) == v / 2;
      SiblingsKeptByAppend(h, leaves, x, k + 1, v / 2, m - 1);
    }
  }

  /** One path serves both trees: the zero leaf gives the old ancestor, the new leaf the new one. */
  lemma FoldAppend(h: Hash, leaves: seq<Fr>, x: Fr, m: nat)
    ensures var s := Siblings(h, leaves, 0, |leaves|, m);
            && Fold(h, 0, |leaves|, s) == Node(h, leaves, m, Shr(|leaves|, m))
            && Fold(h, x, |leaves|, s) == Node(h, leaves + [x], m, Shr(|leaves|, m))
  {
    FoldSiblings(h, leaves, 0, |leaves|, m);
    SiblingsKeptByAppend(h, leaves, x, 0, |leaves|, m);
    FoldSiblings(h, leaves + [x], 0, |leaves|, m);
  }

  /** Path composition: a path through two stacked trees is the two paths one after the other. */
  lemma {:induction false} FoldConcat(h: Hash, x: Fr, v: nat, s: seq<Fr>, t: seq<Fr>)
    ensures Fold(h, x, v, s + t) == Fold(h, Fold(h, x, v, s), Shr(v, |s|), t)
    decreases |s|
  {
    if s == [] {
      assert s + t == t;
    } else {
      var p := Ordered(x, v, s[0]);
      FoldConcat(h, h(p.0, p.1), v / 2, s[1..], t);
      assert (s + t)[1..] == s[1..] + t;
    }
  }

  /** Folding along `m` siblings looks only at the low `m` bits of the position. */
  lemma {:induction false} FoldLowBits(h: Hash, x: Fr, v: nat, s: seq<Fr>)
    ensures Fold(h, x, v, s) == Fold(h, x, Low(v, |s|), s)
    decreases |s|
  {
    if s == [] {
    } else {
      var p := Ordered(x, v, s[0]);
      assert Low(v, |s|) % 2 == v % 2 && Low(v, |s|) / 2 == Low(v / 2, |s| - 1);
      FoldLowBits(h, h(p.0, p.1), v / 2, s[1..]);
    }
  }

  // ---------------------------------------------------------------- path binding

  /** Walks a path beside the true tree and returns the first pair, from the top, where they part. */
  function PathBreach(h: Hash, leaves: seq<Fr>, k: nat, v: nat, x: Fr, siblings: seq<Fr>): Breach
    decreases |siblings|
  {
    if siblings == [] then NoBreach
    else
      var p := Ordered(x, v, siblings[0]);
      var q := (Node(h, leaves, k, 2 * (v / 2)), Node(h, leaves, k, 2 * (v / 2) + 1));
      var above := PathBreach(h, leaves, k + 1, v / 2, h(p.0, p.1), siblings[1..]);
      if above != NoBreach then above
      else if p != q then Collision(p.0, p.1, q.0, q.1)
      else NoBreach
  }

  /** Soundness: a path that reaches the true ancestor starts at the true node and uses the true
      siblings, or `PathBreach` is a collision. */
  lemma {:induction false} PathBinding(c: Suite, leaves: seq<Fr>, k: nat, v: nat, x: Fr, siblings: seq<Fr>)
    requires Fold(c.h, x, v, siblings) == Node(c.h, leaves, k + |siblings|, Shr(v, |siblings|))
    ensures var b := PathBreach(c.h, leaves, k, v, x, siblings);
            if b.NoBreach?
            then x == Node(c.h, leaves, k, v) && siblings == Siblings(c.h, leaves, k, v, |siblings|)
            else Genuine(c, b)
    decreases |siblings|
  {
    if siblings == [] {
    } else {
      var rest, p := siblings[1..], Ordered(x, v, siblings[0]);
      assert Shr(v / 2, |rest|) == Shr(v, |siblings|) && (k + 1) + |rest| == k + |siblings|;
      PathBinding(c, leaves, k + 1, v / 2, c.h(p.0, p.1), rest);
      PathCons(c, leaves, k, v, x, siblings, PathBreach(c.h, leaves, k + 1, v / 2, c.h(p.0, p.1), rest));
    }
  }

  /** One more step at the bottom of a bound path. */
  lemma PathCons(c: Suite, leaves: seq<Fr>, k: nat, v: nat, x: Fr, siblings: seq<Fr>, above: Breach)
    requires siblings != []
    requires var p := Ordered(x, v, siblings[0]);
             && above == PathBreach(c.h, leaves, k + 1, v / 2, c.h(p.0, p.1), siblings[1..])
             && if above.NoBreach?
                then && c.h(p.0, p.1) == Node(c.h, leaves, k + 1, v / 2)
                     && siblings[1..] == Siblings(c.h, leaves, k + 1, v / 2, |siblings| - 1)
                else Genuine(c, above)
    ensures var b := PathBreach(c.h, leaves, k, v, x, siblings);
            if b.NoBreach?
            then x == Node(c.h, leaves, k, v) && siblings == Siblings(c.h, leaves, k, v, |siblings|)
            else Genuine(c, b)
  {
    if above.NoBreach? {
      PathStep(c, leaves, k, v, x, siblings[0]);
      assert siblings == [siblings[0]] + siblings[1..];
    }
  }

  lemma PathStep(c: Suite, leaves: seq<Fr>, k: nat, v: nat, x: Fr, s: Fr)
    requires var p := Ordered(x, v, s); c.h(p.0, p.1) == Node(c.h, leaves, k + 1, v / 2)
    ensures var p := Ordered(x, v, s);
            var q := (Node(c.h, leaves, k, 2 * (v / 2)), Node(c.h, leaves, k, 2 * (v / 2) + 1));
            if p == q then x == Node(c.h, leaves, k, v) && s == Node(c.h, leaves, k, SiblingOf(v))
            else Genuine(c, Collision(p.0, p.1, q.0, q.1))
  {
  }
}
