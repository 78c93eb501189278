/** The BN254 scalar field, powers of two and the bit gadgets of the circuits. */
module Field {

  /** Order of the BN254 scalar field. */
  const P: int := 0x30644e72e131a029b85045b68181585d2833e84879b9709143e1f593f0000001

  const TWO_64: int := 0x1_0000_0000_0000_0000

  const TWO_160: int := 0x1_0000000000000000000000000000000000000000
  const TWO_248: int := 0x1_00000000000000000000000000000000000000000000000000000000000000

  /** Number of bits a field element is decomposed into. */
  const FIELD_BITS: nat := 254

  /** Largest tree depth for which the index gadgets stay below the field order. */
  const MAX_DEPTH: nat := 250

  type Fr = x: int | 0 <= x < P witness 0
  type U248 = x: int | 0 <= x < TWO_248 witness 0

  function Add(a: Fr, b: Fr): Fr { (a + b) % P }

  function Sub(a: Fr, b: Fr): Fr { (a - b) % P }

  function Mul(a: Fr, b: Fr): Fr { (a * b) % P }

  function Pow2(n: nat): (p: nat)
    ensures p > 0
  {
    if n == 0 then 1 else 2 * Pow2(n - 1)
  }

  lemma {:induction false} Pow2Add(a: nat, b: nat)
    ensures Pow2(a + b) == Pow2(a) * Pow2(b)
  {
    if a == 0 {
    } else {
      Pow2Add(a - 1, b);
      assert 2 * Pow2(a - 1) * Pow2(b) == 2 * (Pow2(a - 1) * Pow2(b));
    }
  }

  lemma {:induction false} Pow2Mono(a: nat, b: nat)
    requires a <= b
    ensures Pow2(a) <= Pow2(b)
  {
    if a < b { Pow2Mono(a, b - 1); }
  }

  lemma Pow2Product(a: nat, b: nat, n: nat, v: nat, w: nat)
    requires n == a + b && Pow2(a) == v && Pow2(b) == w
    ensures Pow2(n) == v * w
  {
    Pow2Add(a, b);
  }

  /** The literals used as bounds are the powers of two they stand for. */
  lemma Pow2Bounds()
    ensures Pow2(160) == TWO_160
    ensures Pow2(248) == TWO_248
    ensures 2 * Pow2(252) < P < Pow2(254)
  {
    Pow2Product(4, 4, 8, 16, 16);
    Pow2Product(8, 8, 16, 0x100, 0x100);
    Pow2Product(16, 16, 32, 0x1_0000, 0x1_0000);
    Pow2Product(32, 32, 64, 0x1_0000_0000, 0x1_0000_0000);
    Pow2Product(64, 64, 128, 0x1_0000_0000_0000_0000, 0x1_0000_0000_0000_0000);
    Pow2Product(128, 32, 160, 0x1_0000_0000_0000_0000_0000_0000_0000_0000, 0x1_0000_0000);
    Pow2Product(160, 64, 224, TWO_160, 0x1_0000_0000_0000_0000);
    Pow2Product(224, 16, 240, TWO_160 * 0x1_0000_0000_0000_0000, 0x1_0000);
    Pow2Product(240, 8, 248, TWO_160 * 0x1_0000_0000_0000_0000_0000, 0x100);
    Pow2Product(248, 4, 252, TWO_248, 16);
    Pow2Product(252, 2, 254, 16 * TWO_248, 4);
  }

  lemma DepthBelowField(n: nat)
    requires n <= MAX_DEPTH + 2
    ensures 2 * Pow2(n) < P
  {
    Pow2Bounds();
    Pow2Mono(n, 252);
  }

  // ------------------------------------------------------------- shifting

  /** `x >> n`, one bit at a time. */
  function Shr(x: nat, n: nat): nat
    decreases n, x
  {
    if n == 0 then x else Shr(x / 2, n - 1)
  }

  /** The low `n` bits of `x`. */
  function Low(x: nat, n: nat): (r: nat)
    ensures r < Pow2(n)
    decreases n, x
  {
    if n == 0 then 0 else x % 2 + 2 * Low(x / 2, n - 1)
  }

  lemma {:induction false} ShrAdd(x: nat, m: nat, n: nat)
    ensures Shr(x, m + n) == Shr(Shr(x, m), n)
  {
    if m == 0 {
    } else {
      ShrAdd(x / 2, m - 1, n);
    }
  }

  lemma {:induction false} ShrZeroIff(x: nat, n: nat)
    ensures Shr(x, n) == 0 <==> x < Pow2(n)
  {
    if n == 0 {
    } else {
      ShrZeroIff(x / 2, n - 1);
    }
  }

  lemma {:induction false} ShrBelow(x: nat, n: nat, m: nat)
    requires x < Pow2(n + m)
    ensures Shr(x, n) < Pow2(m)
  {
    if n == 0 {
    } else {
      ShrBelow(x / 2, n - 1, m);
    }
  }

  lemma {:induction false} LowOfSmall(x: nat, n: nat)
    requires x < Pow2(n)
    ensures Low(x, n) == x
  {
    if n == 0 {
    } else {
      LowOfSmall(x / 2, n - 1);
    }
  }

  /** A number is its high part shifted back plus its low part. */
  lemma {:induction false} ShrLow(x: nat, n: nat)
    ensures x == Pow2(n) * Shr(x, n) + Low(x, n)
  {
    if n == 0 {
    } else {
      ShrLow(x / 2, n - 1);
      DoubledProduct(Pow2(n - 1), Shr(x / 2, n - 1));
    }
  }

  lemma DoubledProduct(a: nat, b: nat)
    ensures 2 * a * b == 2 * (a * b)
  {
  }

  /** The two parts are the only such pair, so they are quotient and remainder. */
  lemma ShrLowUnique(x: nat, n: nat, q: nat, r: nat)
    requires r < Pow2(n) && x == Pow2(n) * q + r
    ensures Shr(x, n) == q && Low(x, n) == r
  {
    ShrLow(x, n);
    QuotientUnique(Pow2(n), Shr(x, n), Low(x, n), q, r);
  }

  lemma QuotientUnique(d: nat, q: nat, r: nat, q': nat, r': nat)
    requires r < d && r' < d && d * q + r == d * q' + r'
    ensures q == q' && r == r'
  {
    assert q > q' ==> d * q >= d * (q' + 1) == d * q' + d;
    assert q' > q ==> d * q' >= d * (q + 1) == d * q + d;
  }

  lemma DivModUnique(x: nat, d: nat, q: nat, r: nat)
    requires r < d && x == d * q + r
    ensures x / d == q && x % d == r
  {
    QuotientUnique(d, x / d, x % d, q, r);
  }

  lemma LowIsRemainder(x: nat, n: nat)
    ensures Low(x, n) == x % Pow2(n) && Shr(x, n) == x / Pow2(n)
  {
    ShrLow(x, n);
    DivModUnique(x, Pow2(n), Shr(x, n), Low(x, n));
  }

  // ----------------------------------------------------------------- bits

  /** The low `n` bits of `x`, least significant first. */
  function BitsLe(x: nat, n: nat): (b: seq<bool>)
    ensures |b| == n
    decreases n, x
  {
    if n == 0 then [] else [x % 2 == 1] + BitsLe(x / 2, n - 1)
  }

  function FromBitsLe(b: seq<bool>): nat {
    if b == [] then 0 else (if b[0] then 1 else 0) + 2 * FromBitsLe(b[1..])
  }

  lemma {:induction false} BitsRoundTrip(x: nat, n: nat)
    ensures FromBitsLe(BitsLe(x, n)) == Low(x, n)
  {
    if n == 0 {
    } else {
      BitsRoundTrip(x / 2, n - 1);
      assert BitsLe(x, n)[1..] == BitsLe(x / 2, n - 1);
    }
  }

  lemma {:induction false} BitsSplit(x: nat, m: nat, n: nat)
    ensures BitsLe(x, m + n) == BitsLe(x, m) + BitsLe(Shr(x, m), n)
  {
    if m == 0 {
    } else {
      BitsSplit(x / 2, m - 1, n);
    }
  }

  predicate NoneSet(b: seq<bool>) {
    forall i :: 0 <= i < |b| ==> !b[i]
  }

  lemma {:induction false} NoneSetIff(x: nat, n: nat)
    ensures NoneSet(BitsLe(x, n)) <==> Low(x, n) == 0
  {
    if n == 0 {
    } else {
      NoneSetIff(x / 2, n - 1);
      var b, c := BitsLe(x, n), BitsLe(x / 2, n - 1);
      assert b[0] == (x % 2 == 1) && forall i :: 0 <= i < n - 1 ==> c[i] == b[i + 1];
      assert NoneSet(b) <==> !b[0] && NoneSet(c) by {
        assert NoneSet(c) && !b[0] ==> forall i :: 1 <= i < n ==> b[i] == c[i - 1];
      }
    }
  }

  // -------------------------------------------------------------- gadgets

  /** Bits `n` to `total` of the decomposition are all zero. */
  predicate HighBitsClear(x: nat, n: nat, total: nat)
    requires n <= total
  {
    NoneSet(BitsLe(x, total)[n..])
  }

  lemma HighBitsClearIff(x: nat, n: nat, total: nat)
    requires n <= total && x < Pow2(total)
    ensures HighBitsClear(x, n, total) <==> x < Pow2(n)
  {
    BitsSplit(x, n, total - n);
    assert BitsLe(x, total)[n..] == BitsLe(Shr(x, n), total - n);
    NoneSetIff(Shr(x, n), total - n);
    ShrBelow(x, n, total - n);
    LowOfSmall(Shr(x, n), total - n);
    ShrZeroIff(x, n);
  }

  /** `enforce_bit_length`: every bit of the canonical decomposition from `n` on is zero. */
  predicate BitLength(x: Fr, n: nat)
    requires n <= FIELD_BITS
  {
    HighBitsClear(x, n, FIELD_BITS)
  }

  lemma BitLengthIff(x: Fr, n: nat)
    requires n <= FIELD_BITS
    ensures BitLength(x, n) <==> x < Pow2(n)
  {
    Pow2Bounds();
    HighBitsClearIff(x, n, FIELD_BITS);
  }

  lemma Fits248(x: Fr)
    ensures BitLength(x, 248) <==> x < TWO_248
  {
    Pow2Bounds();
    BitLengthIff(x, 248);
  }

  lemma Fits160(x: Fr)
    ensures BitLength(x, 160) <==> x < TWO_160
  {
    Pow2Bounds();
    BitLengthIff(x, 160);
  }

  /** Bit `n` of a decomposition into `total` bits. */
  predicate BitAt(x: nat, n: nat, total: nat)
    requires n < total
  {
    BitsLe(x, total)[n]
  }

  lemma BitAtIs(x: nat, n: nat, total: nat)
    requires n < total
    ensures BitAt(x, n, total) <==> Shr(x, n) % 2 == 1
  {
    BitsSplit(x, n, total - n);
  }

  /** `enforce_strict_less_than`: the overflow bit of `left + 2^n - right` must be clear. */
  predicate StrictLessThan(left: Fr, right: Fr, n: nat)
    requires n <= MAX_DEPTH + 2
  {
    DepthBelowField(n);
    && BitLength(left, n)
    && BitLength(right, n)
    && !BitAt(Sub(Add(left, Pow2(n)), right), n, FIELD_BITS)
  }

  lemma AddSubNoWrap(left: Fr, offset: Fr, right: Fr)
    requires left + offset < P && right <= left + offset
    ensures Sub(Add(left, offset), right) == left + offset - right
  {
  }

  lemma OverflowBit(left: nat, right: nat, n: nat, total: nat)
    requires left < Pow2(n) && right < Pow2(n) && n < total
    ensures BitAt(left + Pow2(n) - right, n, total) <==> right <= left
  {
    var adjusted := left + Pow2(n) - right;
    BitAtIs(adjusted, n, total);
    if left < right {
      ShrLowUnique(adjusted, n, 0, adjusted);
    } else {
      ShrLowUnique(adjusted, n, 1, left - right);
    }
  }

  lemma ComparedBit(left: Fr, right: Fr, n: nat)
    requires n <= MAX_DEPTH + 2 && left < Pow2(n) && right < Pow2(n) < P
    ensures BitAt(Sub(Add(left, Pow2(n)), right), n, FIELD_BITS) <==> right <= left
  {
    DepthBelowField(n);
    AddSubNoWrap(left, Pow2(n), right);
    OverflowBit(left, right, n, FIELD_BITS);
  }

  /** The gadget compares its operands as integers and admits nothing out of range. */
  lemma StrictLessThanIff(left: Fr, right: Fr, n: nat)
    requires n <= MAX_DEPTH + 2
    ensures StrictLessThan(left, right, n) <==> left < right < Pow2(n)
  {
    DepthBelowField(n);
    BitLengthIff(left, n);
    BitLengthIff(right, n);
    if left < Pow2(n) && right < Pow2(n) { ComparedBit(left, right, n); }
  }
}
