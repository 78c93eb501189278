/** The Hub's in-place computation of the aggregation root. */
module AggregationRoot {
  import opened Field
  import opened Crypto
  import opened Merkle

  method GenerateZeroHashes(h: Hash, height: nat) returns (zeros: seq<Fr>)
    ensures |zeros| == height + 1
    ensures forall k :: 0 <= k <= height ==> zeros[k] == ZeroHash(h, k)
  {
    zeros := [0];
    var i := 1;
    while i <= height
      invariant 1 <= i <= height + 1 && |zeros| == i
      invariant forall k :: 0 <= k < i ==> zeros[k] == ZeroHash(h, k)
    {
      zeros := zeros + [h(zeros[i - 1], zeros[i - 1])];
      i := i + 1;
    }
  }

  /** Past the last leaf a whole level is empty. */
  lemma LevelEnds(h: Hash, leaves: seq<Fr>, d: nat, count: nat)
    requires leaves != [] && Shr(|leaves| - 1, d) + 1 == count
    ensures forall i: nat | i >= count :: Node(h, leaves, d, i) == ZeroHash(h, d)
  {
    forall i: nat | i >= count
      ensures Node(h, leaves, d, i) == ZeroHash(h, d)
    {
      NodePastEnd(h, leaves, d, i);
    }
  }

  /** One level in place: pair `i` is written only after pairs up to `i` were read. */
  method HashLevel(h: Hash, a: array<Fr>, count: nat, zeros: seq<Fr>, ghost leaves: seq<Fr>, depth: nat)
    requires leaves != [] && 1 < count <= a.Length && count == Shr(|leaves| - 1, depth) + 1
    requires depth < |zeros| && zeros[depth] == ZeroHash(h, depth)
    requires forall i :: 0 <= i < count ==> a[i] == Node(h, leaves, depth, i)
    modifies a
    ensures forall i :: 0 <= i < (count + 1) / 2 ==> a[i] == Node(h, leaves, depth + 1, i)
  {
    var next := (count + 1) / 2;
    LevelEnds(h, leaves, depth, count);
    var i := 0;
    while i < next
      invariant 0 <= i <= next
      invariant forall j :: 0 <= j < i ==> a[j] == Node(h, leaves, depth + 1, j)
      invariant forall j :: 2 * i <= j < count ==> a[j] == Node(h, leaves, depth, j)
    {
      var left := a[2 * i];
      var right := if 2 * i + 1 < count then a[2 * i + 1] else zeros[depth];
      a[i] := h(left, right);
      i := i + 1;
    }
  }

  /** The in-place fold over the active leaves, padded upwards, is the root of the full tree. */
  method ComputeAggregationRoot(h: Hash, a: array<Fr>, zeros: seq<Fr>, height: nat) returns (root: Fr)
    requires a.Length <= Pow2(height)
    requires |zeros| == height + 1 && forall k :: 0 <= k <= height ==> zeros[k] == ZeroHash(h, k)
    modifies a
    ensures root == Root(h, old(a[..]), height)
  {
    ghost var leaves := a[..];
    var count := a.Length;
    if count == 0 {
      assert leaves == [];
      EmptyNode(h, height, 0);
      return zeros[height];
    }
    var depth := 0;
    ShrZeroIff(count - 1, height);
    while count > 1
      invariant 1 <= count <= a.Length && depth <= height
      invariant count == Shr(|leaves| - 1, depth) + 1
      invariant forall i :: 0 <= i < count ==> a[i] == Node(h, leaves, depth, i)
      decreases count
    {
      LevelBelowTop(|leaves| - 1, depth, height);
      HashLevel(h, a, count, zeros, leaves, depth);
      ShrAdd(|leaves| - 1, depth, 1);
      assert Shr(Shr(|leaves| - 1, depth), 1) == (count - 1) / 2;
      count := (count + 1) / 2;
      depth := depth + 1;
    }
    root := a[0];
    var d := depth;
    while d < height
      invariant depth <= d <= height && Shr(|leaves| - 1, d) == 0
      invariant root == Node(h, leaves, d, 0)
    {
      NodePastEnd(h, leaves, d, 1);
      root := h(root, zeros[d]);
      ShrAdd(|leaves| - 1, d, 1);
      assert Shr(0, 1) == 0;
      d := d + 1;
    }
  }

  /** A level with more than one node lies below the top. */
  lemma LevelBelowTop(last: nat, depth: nat, height: nat)
    requires depth <= height && Shr(last, height) == 0 && Shr(last, depth) > 0
    ensures depth < height
  {
  }
}
