/** Big-endian byte strings and the conversions between them and field elements. */
module Bytes {
  import opened Field

  type Byte = x: int | 0 <= x < 256 witness 0

  function Pow256(n: nat): (p: nat)
    ensures p >= 1
  {
    if n == 0 then 1 else 256 * Pow256(n - 1)
  }

  /** The low `n` bytes of `x`, most significant first. */
  function ToBytes(x: nat, n: nat): (b: seq<Byte>)
    ensures |b| == n
    decreases n, x
  {
    if n == 0 then [] else ToBytes(x / 256, n - 1) + [x % 256]
  }

  function FromBytes(b: seq<Byte>): nat {
    if b == [] then 0 else 256 * FromBytes(b[..|b| - 1]) + b[|b| - 1]
  }

  lemma {:induction false} FromBytesBelow(b: seq<Byte>)
    ensures FromBytes(b) < Pow256(|b|)
  {
    if b == [] {
    } else {
      FromBytesBelow(b[..|b| - 1]);
    }
  }

  /** Reading back what was written gives the value cut to the length. */
  lemma {:induction false} WrittenValue(x: nat, n: nat)
    requires x < Pow256(n)
    ensures FromBytes(ToBytes(x, n)) == x
    decreases n
  {
    if n == 0 {
    } else {
      WrittenValue(x / 256, n - 1);
      assert ToBytes(x, n)[..n - 1] == ToBytes(x / 256, n - 1);
    }
  }

  /** Writing what was read gives the same bytes. */
  lemma {:induction false} ReadBytes(b: seq<Byte>)
    ensures ToBytes(FromBytes(b), |b|) == b
  {
    if b == [] {
    } else {
      ReadBytes(b[..|b| - 1]);
      LastByte(FromBytes(b[..|b| - 1]), b[|b| - 1]);
    }
  }

  lemma LastByte(q: nat, r: Byte)
    ensures (256 * q + r) / 256 == q && (256 * q + r) % 256 == r
  {
  }

  /** Big-endian: byte `i` of `n` is digit `n - 1 - i` to the base 256. */
  lemma {:induction false} ByteAt(x: nat, n: nat, i: nat)
    requires i < n
    ensures ToBytes(x, n)[i] == x / Pow256(n - 1 - i) % 256
    decreases n
  {
    if i == n - 1 {
      assert Pow256(0) == 1;
    } else {
      ByteAt(x / 256, n - 1, i);
      TwoDigits(x, Pow256(n - 2 - i));
      assert ToBytes(x, n)[i] == ToBytes(x / 256, n - 1)[i];
    }
  }

  /** Division by `256 * p` goes through division by 256. */
  lemma TwoDigits(x: nat, p: nat)
    requires p >= 1
    ensures x / (256 * p) == x / 256 / p && x % (256 * p) == 256 * (x / 256 % p) + x % 256
  {
    var q, k := x / 256, x / 256 / p;
    assert q == p * k + q % p;
    assert x == (256 * p) * k + (256 * (q % p) + x % 256);
    assert 256 * (q % p) <= 256 * (p - 1);
    DivModUnique(x, 256 * p, k, 256 * (q % p) + x % 256);
  }

  /** The last `m` bytes are the low ones. */
  lemma {:induction false} LowBytes(x: nat, m: nat, n: nat)
    requires m <= n
    ensures ToBytes(x, n)[n - m..] == ToBytes(x, m)
    decreases m
  {
    if m == 0 {
    } else {
      LowBytes(x / 256, m - 1, n - 1);
    }
  }

  /** Writing depends on the low bytes only. */
  lemma {:induction false} CutValue(x: nat, n: nat)
    ensures FromBytes(ToBytes(x, n)) == x % Pow256(n)
    decreases n
  {
    if n == 0 {
      assert x % 1 == 0;
    } else {
      CutValue(x / 256, n - 1);
      assert ToBytes(x, n)[..n - 1] == ToBytes(x / 256, n - 1);
      TwoDigits(x, Pow256(n - 1));
    }
  }

  // ------------------------------------------------------------- conversions of the repository

  const WORD: nat := 32
  const ADDRESS: nat := 20

  type Word = b: seq<Byte> | |b| == 32 witness seq(32, i => 0)
  type Address = b: seq<Byte> | |b| == 20 witness seq(20, i => 0)

  lemma {:induction false} Pow256Split(a: nat, b: nat)
    ensures Pow256(a + b) == Pow256(a) * Pow256(b)
    decreases a
  {
    if a == 0 {
    } else {
      Pow256Split(a - 1, b);
    }
  }

  /** Twenty bytes hold an address, and the field fits in thirty-two. */
  lemma WordSizes(n: nat)
    requires n == 4
    ensures Pow256(5 * n) == TWO_160 && Pow256(8 * n) > P
  {
    var q := Pow256(n);
    assert q == 256 * Pow256(n - 1) == 256 * (256 * Pow256(n - 2)) == 0x1_0000_0000;
    Pow256Split(n, n);
    Pow256Split(2 * n, 2 * n);
    Pow256Split(4 * n, n);
    Pow256Split(4 * n, 4 * n);
  }

  /** `b256_to_fr`: the word as a number, reduced by the field order. */
  function WordToFr(w: Word): Fr { FromBytes(w) % P }

  /** `fr_to_b256`: the canonical representative. */
  function FrToWord(x: Fr): Word { ToBytes(x, WORD) }

  /** `fr_to_address`: bytes 12 to 32 of the word. */
  function FrToAddress(x: Fr): Address { ToBytes(x, WORD)[12..32] }

  /** `address_to_fr`. */
  function AddressToFr(a: Address): Fr { FromBytes(a) % P }

  lemma FrThroughWord(x: Fr)
    ensures WordToFr(FrToWord(x)) == x
  {
    WordSizes(4);
    WrittenValue(x, WORD);
  }

  /** A word survives the field exactly when it is below the field order. */
  lemma WordThroughFrIff(w: Word)
    ensures FrToWord(WordToFr(w)) == w <==> FromBytes(w) < P
  {
    WordSizes(4);
    Canonical(w, WordToFr(w), WORD);
  }

  lemma Canonical(w: seq<Byte>, x: Fr, n: nat)
    requires |w| == n && x == FromBytes(w) % P && Pow256(n) > P
    ensures ToBytes(x, n) == w <==> FromBytes(w) < P
  {
    WrittenValue(x, n);
    ReadBytes(w);
    SmallIsCanonical(FromBytes(w));
  }

  lemma SmallIsCanonical(v: nat)
    ensures v < P ==> v % P == v
    ensures v % P < P
  {
  }

  lemma AddressThroughFr(a: Address)
    ensures AddressToFr(a) == FromBytes(a) < TWO_160 && FrToAddress(AddressToFr(a)) == a
  {
    AddressFits(a, ADDRESS);
    SmallIsCanonical(FromBytes(a));
    AddressBytes(FromBytes(a));
    ReadBytes(a);
  }

  lemma AddressFits(a: seq<Byte>, n: nat)
    requires |a| == n == 20
    ensures FromBytes(a) < TWO_160
  {
    WordSizes(4);
    FromBytesBelow(a);
  }

  lemma AddressBytes(x: Fr)
    ensures FrToAddress(x) == ToBytes(x, ADDRESS)
  {
    LowBytes(x, ADDRESS, WORD);
    assert FrToAddress(x) == ToBytes(x, WORD)[WORD - ADDRESS..];
  }

  /** The address of a field element keeps its low 160 bits. */
  lemma FrThroughAddress(x: Fr)
    ensures AddressToFr(FrToAddress(x)) == x % TWO_160
  {
    WordSizes(4);
    AddressBytes(x);
    CutValue(x, ADDRESS);
    SmallIsCanonical(x % TWO_160);
  }
}
