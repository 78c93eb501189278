/** When two subtrees have one hash: their blocks of leaves are the same, or a collision is in hand. */
module Blocks {
  import opened Field
  import opened Crypto
  import opened Merkle

  /** Leaf `i` of block `v` of `a` is leaf `i` of block `w` of `b`. */
  predicate SameLeaf(a: seq<Fr>, v: nat, b: seq<Fr>, w: nat, k: nat, i: nat) {
    LeafAt(a, Pow2(k) * v + i) == LeafAt(b, Pow2(k) * w + i)
  }

  /** Block `v` of `a` and block `w` of `b`, both of `2^k` leaves, hold the same leaves. */
  ghost predicate SameBlock(a: seq<Fr>, v: nat, b: seq<Fr>, w: nat, k: nat) {
    forall i: nat :: i < Pow2(k) ==> SameLeaf(a, v, b, w, k, i)
  }

  lemma HalfIndex(k: nat, v: nat, i: nat)
    requires k >= 1
    ensures Pow2(k - 1) * (2 * v) + i == Pow2(k) * v + i
    ensures Pow2(k - 1) * (2 * v + 1) + i == Pow2(k) * v + (Pow2(k - 1) + i)
  {
    assert Pow2(k) == 2 * Pow2(k - 1);
  }

  /** A block is its two halves. */
  lemma SameHalves(a: seq<Fr>, v: nat, b: seq<Fr>, w: nat, k: nat)
    requires k >= 1
    ensures SameBlock(a, v, b, w, k)
       <==> SameBlock(a, 2 * v, b, 2 * w, k - 1) && SameBlock(a, 2 * v + 1, b, 2 * w + 1, k - 1)
  {
    var half := Pow2(k - 1);
    if SameBlock(a, v, b, w, k) {
      var l, r, l', r', j := 2 * v, 2 * v + 1, 2 * w, 2 * w + 1, k - 1;
      forall i: nat | i < half ensures SameLeaf(a, l, b, l', j, i) && SameLeaf(a, r, b, r', j, i) {
        HalfIndex(k, v, i);
        HalfIndex(k, w, i);
        assert SameLeaf(a, v, b, w, k, i) && SameLeaf(a, v, b, w, k, half + i);
      }
    }
    if SameBlock(a, 2 * v, b, 2 * w, k - 1) && SameBlock(a, 2 * v + 1, b, 2 * w + 1, k - 1) {
      forall i: nat | i < Pow2(k) ensures SameLeaf(a, v, b, w, k, i) {
        if i < half {
          HalfIndex(k, v, i);
          HalfIndex(k, w, i);
          assert SameLeaf(a, 2 * v, b, 2 * w, k - 1, i);
        } else {
          HalfIndex(k, v, i - half);
          HalfIndex(k, w, i - half);
          assert SameLeaf(a, 2 * v + 1, b, 2 * w + 1, k - 1, i - half);
        }
      }
    }
  }

  /** Compares two subtrees from the top and returns the first pair of children that differs under equal hashes. */
  function BlockBreach(h: Hash, a: seq<Fr>, v: nat, b: seq<Fr>, w: nat, k: nat): Breach
    decreases k
  {
    if k == 0 then NoBreach
    else
      var p := (Node(h, a, k - 1, 2 * v), Node(h, a, k - 1, 2 * v + 1));
      var q := (Node(h, b, k - 1, 2 * w), Node(h, b, k - 1, 2 * w + 1));
      if p != q then Collision(p.0, p.1, q.0, q.1)
      else OrElse(BlockBreach(h, a, 2 * v, b, 2 * w, k - 1), BlockBreach(h, a, 2 * v + 1, b, 2 * w + 1, k - 1))
  }

  lemma LeafBlock(a: seq<Fr>, v: nat, b: seq<Fr>, w: nat, k: nat)
    requires k == 0
    ensures SameBlock(a, v, b, w, k) <==> LeafAt(a, v) == LeafAt(b, w)
  {
    assert Pow2(k) == 1;
    assert SameLeaf(a, v, b, w, k, 0) <==> LeafAt(a, v) == LeafAt(b, w);
  }

  /** Equal leaves give equal hashes. */
  lemma {:induction false} SameBlockSameNode(h: Hash, a: seq<Fr>, v: nat, b: seq<Fr>, w: nat, k: nat)
    requires SameBlock(a, v, b, w, k)
    ensures Node(h, a, k, v) == Node(h, b, k, w)
    decreases k
  {
    if k == 0 {
      LeafBlock(a, v, b, w, k);
    } else {
      SameHalves(a, v, b, w, k);
      SameBlockSameNode(h, a, 2 * v, b, 2 * w, k - 1);
      SameBlockSameNode(h, a, 2 * v + 1, b, 2 * w + 1, k - 1);
    }
  }

  /** Equal hashes come from equal leaves, or `BlockBreach` is a collision. */
  lemma {:induction false} BlockBinding(c: Suite, a: seq<Fr>, v: nat, b: seq<Fr>, w: nat, k: nat)
    requires Node(c.h, a, k, v) == Node(c.h, b, k, w)
    ensures var x := BlockBreach(c.h, a, v, b, w, k);
            if x.NoBreach? then SameBlock(a, v, b, w, k) else Genuine(c, x)
    decreases k
  {
    if k == 0 {
      LeafBlock(a, v, b, w, k);
    } else if Node(c.h, a, k - 1, 2 * v) == Node(c.h, b, k - 1, 2 * w)
              && Node(c.h, a, k - 1, 2 * v + 1) == Node(c.h, b, k - 1, 2 * w + 1) {
      BlockBinding(c, a, 2 * v, b, 2 * w, k - 1);
      BlockBinding(c, a, 2 * v + 1, b, 2 * w + 1, k - 1);
      SameHalves(a, v, b, w, k);
    }
  }

  /** Two subtrees have one hash exactly when they have the same leaves, or there is a collision. */
  lemma NodesEqualIff(c: Suite, a: seq<Fr>, v: nat, b: seq<Fr>, w: nat, k: nat)
    ensures SameBlock(a, v, b, w, k) ==> Node(c.h, a, k, v) == Node(c.h, b, k, w)
    ensures Node(c.h, a, k, v) == Node(c.h, b, k, w) && !SameBlock(a, v, b, w, k) ==>
              Genuine(c, BlockBreach(c.h, a, v, b, w, k))
  {
    if SameBlock(a, v, b, w, k) { SameBlockSameNode(c.h, a, v, b, w, k); }
    if Node(c.h, a, k, v) == Node(c.h, b, k, w) { BlockBinding(c, a, v, b, w, k); }
  }

  /** A block that ends at or before both cuts reads the same in both prefixes of a list. */
  lemma CutBlock(leaves: seq<Fr>, v: nat, m: nat, n: nat, k: nat)
    requires m <= n <= |leaves| && Pow2(k) * (v + 1) <= m
    ensures SameBlock(leaves[..n], v, leaves[..m], v, k)
  {
    forall i: nat | i < Pow2(k) ensures SameLeaf(leaves[..n], v, leaves[..m], v, k, i) {
      assert Pow2(k) * (v + 1) == Pow2(k) * v + Pow2(k);
    }
  }

  /** A block with the first missing position of the shorter prefix differs there, unless the leaf itself is zero. */
  lemma CutInside(leaves: seq<Fr>, v: nat, m: nat, n: nat, k: nat)
    requires m < n <= |leaves| && Shr(m, k) == v && SameBlock(leaves[..n], v, leaves[..m], v, k)
    ensures leaves[m] == 0
  {
    ShrLow(m, k);
    assert SameLeaf(leaves[..n], v, leaves[..m], v, k, Low(m, k));
  }
}
