/** Burn addresses: the native computation, the circuit gadget and the proof-of-work search. */
module Burn {
  import opened Base
  import opened Field
  import opened Crypto

  const ADDRESS_BITS: nat := 160
  const POW_DIFFICULTY: nat := 12

  /** The bits above the address window that the proof of work forces to zero. */
  function PowBits(x: Fr, total: nat): seq<bool>
    requires ADDRESS_BITS + POW_DIFFICULTY <= total
  {
    BitsLe(x, total)[ADDRESS_BITS..ADDRESS_BITS + POW_DIFFICULTY]
  }

  /** Native: `None` when any of the window bits is set, else the masked hash. */
  function ComputeBurnAddress(h: Hash, recipient: Fr, secret: Fr): Option<Fr> {
    MaskedHash(h(recipient, secret), 256)
  }

  function MaskedHash(hash: Fr, total: nat): Option<Fr>
    requires ADDRESS_BITS + POW_DIFFICULTY <= total
  {
    if !NoneSet(PowBits(hash, total)) then None else Some(hash % TWO_160)
  }

  /** A gadget's outcome: whether its constraints hold, and the value it returns. */
  datatype GadgetResult = GadgetResult(satisfied: bool, value: Fr)

  /** Circuit: each window bit times the enabling flag must be zero; the low bits are re-packed. */
  function BurnAddressVar(h: Hash, recipient: Fr, secret: Fr, constrained: bool): GadgetResult {
    PackedHash(h(recipient, secret), constrained, FIELD_BITS)
  }

  function PackedHash(hash: Fr, constrained: bool, total: nat): GadgetResult
    requires ADDRESS_BITS + POW_DIFFICULTY <= total
  {
    GadgetResult(Gated(PowBits(hash, total), constrained), FromBitsLe(BitsLe(hash, total)[..ADDRESS_BITS]) % P)
  }

  function BitFp(b: bool): Fr { if b then 1 else 0 }

  /** The product of each bit with the enabling flag is zero. */
  predicate Gated(window: seq<bool>, constrained: bool) {
    forall i :: 0 <= i < |window| ==> Mul(BitFp(window[i]), BitFp(constrained)) == 0
  }

  lemma GatedIff(window: seq<bool>, constrained: bool)
    ensures Gated(window, constrained) <==> !constrained || NoneSet(window)
  {
    forall i | 0 <= i < |window|
      ensures Mul(BitFp(window[i]), BitFp(constrained)) == 0 <==> !window[i] || !constrained
    {
    }
  }

  /** The low 160 bits of a hash. */
  function AddressOf(hash: Fr): Fr { hash % TWO_160 }

  /** The twelve bits above them are zero. */
  predicate PowOf(hash: Fr) { hash / TWO_160 % TWO_12 == 0 }

  /** The burn address of a secret, read off the hash directly. */
  function BurnAddress(h: Hash, recipient: Fr, secret: Fr): Fr {
    AddressOf(h(recipient, secret))
  }

  /** The proof of work: twelve zero bits above the address. */
  predicate HasPow(h: Hash, recipient: Fr, secret: Fr) {
    PowOf(h(recipient, secret))
  }

  lemma WindowBits(x: nat, a: nat, d: nat, total: nat)
    requires a + d <= total
    ensures BitsLe(x, total)[a..a + d] == BitsLe(Shr(x, a), d)
  {
    var s, y := BitsLe(x, total), BitsLe(Shr(x, a), total - a);
    BitsSplit(x, a, total - a);
    assert s[a..] == y;
    BitsSplit(Shr(x, a), d, total - (a + d));
    assert y[..d] == BitsLe(Shr(x, a), d);
    assert s[a..a + d] == s[a..][..d];
  }

  lemma WindowClear(x: nat, a: nat, d: nat, total: nat)
    requires a + d <= total
    ensures NoneSet(BitsLe(x, total)[a..a + d]) <==> Low(Shr(x, a), d) == 0
  {
    WindowBits(x, a, d, total);
    NoneSetIff(Shr(x, a), d);
  }

  lemma WindowRemainder(x: nat, a: nat, d: nat)
    ensures Low(Shr(x, a), d) == x / Pow2(a) % Pow2(d)
  {
    LowIsRemainder(x, a);
    LowIsRemainder(Shr(x, a), d);
  }

  lemma PowBitsClear(x: Fr, total: nat)
    requires ADDRESS_BITS + POW_DIFFICULTY <= total
    ensures NoneSet(PowBits(x, total)) <==> PowOf(x)
  {
    Pow2Bounds();
    assert Pow2(POW_DIFFICULTY) == TWO_12;
    WindowClear(x, ADDRESS_BITS, POW_DIFFICULTY, total);
    WindowRemainder(x, ADDRESS_BITS, POW_DIFFICULTY);
  }

  lemma LowBitsPacked(x: Fr, total: nat)
    requires ADDRESS_BITS <= total
    ensures FromBitsLe(BitsLe(x, total)[..ADDRESS_BITS]) == AddressOf(x)
  {
    BitsSplit(x, ADDRESS_BITS, total - ADDRESS_BITS);
    assert BitsLe(x, total)[..ADDRESS_BITS] == BitsLe(x, ADDRESS_BITS);
    BitsRoundTrip(x, ADDRESS_BITS);
    LowIsRemainder(x, ADDRESS_BITS);
    Pow2Bounds();
  }

  lemma HashMeaning(hash: Fr, constrained: bool, total: nat)
    requires ADDRESS_BITS + POW_DIFFICULTY <= total
    ensures var pow := PowOf(hash);
            var address := AddressOf(hash);
            && PackedHash(hash, constrained, total) == GadgetResult(!constrained || pow, address)
            && MaskedHash(hash, total) == (if pow then Some(address) else None)
  {
    PowBitsClear(hash, total);
    LowBitsPacked(hash, total);
    GatedIff(PowBits(hash, total), constrained);
    assert TWO_160 < P;
  }

  /** Native computation and gadget accept the same secrets and return the same address. */
  lemma NativeMatchesCircuit(h: Hash, recipient: Fr, secret: Fr, constrained: bool)
    ensures var g := BurnAddressVar(h, recipient, secret, constrained);
            && g.value == BurnAddress(h, recipient, secret)
            && (g.satisfied <==> !constrained || HasPow(h, recipient, secret))
            && ComputeBurnAddress(h, recipient, secret)
               == (if HasPow(h, recipient, secret) then Some(g.value) else None)
  {
    HashMeaning(h(recipient, secret), constrained, FIELD_BITS);
    HashMeaning(h(recipient, secret), constrained, 256);
  }

  lemma WindowOf(x: Fr)
    requires PowOf(x)
    ensures BurnWindow(x) == AddressOf(x)
  {
    var q, r := x / TWO_160, x % TWO_160;
    var k := q / TWO_12;
    assert q == TWO_12 * k;
    assert x == (TWO_160 * TWO_12) * k + r;
    DivModUnique(x, TWO_160 * TWO_12, k, r);
  }

  /** Two secrets with proof of work and the same address agree on the whole 172-bit window. */
  lemma SameAddressSameWindow(h: Hash, r1: Fr, s1: Fr, r2: Fr, s2: Fr)
    requires HasPow(h, r1, s1) && HasPow(h, r2, s2)
    requires BurnAddress(h, r1, s1) == BurnAddress(h, r2, s2)
    ensures BurnWindow(h(r1, s1)) == BurnWindow(h(r2, s2))
  {
    WindowOf(h(r1, s1));
    WindowOf(h(r2, s2));
  }

  // ------------------------------------------------------------ proof of work

  function SecretFromNonce(seed: Fr, nonce: nat): Fr { Add(seed, nonce % P) }

  /** The base secret plus the nonce, in the field, has proof of work. */
  predicate NonceWorks(h: Hash, recipient: Fr, seed: Fr, nonce: nat) { HasPow(h, recipient, (seed + nonce) % P) }

  /** The search returns the least working nonce, and gives up only when no `u64` works. */
  method FindPowNonce(h: Hash, recipient: Fr, seed: Fr) returns (r: Option<nat>)
    ensures r.Some? ==> r.value < TWO_64 && NonceWorks(h, recipient, seed, r.value)
    ensures forall n: nat :: n < (if r.Some? then r.value else TWO_64) ==> !NonceWorks(h, recipient, seed, n)
  {
    var nonce := 0;
    while nonce < TWO_64
      invariant 0 <= nonce <= TWO_64
      invariant forall n: nat :: n < nonce ==> !NonceWorks(h, recipient, seed, n)
    {
      var candidate := SecretFromNonce(seed, nonce);
      NativeMatchesCircuit(h, recipient, candidate, true);
      if ComputeBurnAddress(h, recipient, candidate).Some? {
        return Some(nonce);
      }
      nonce := nonce + 1;
    }
    return None;
  }
}
