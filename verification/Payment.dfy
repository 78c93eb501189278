/** Burn addresses as the client stores and sends them: words, addresses and their serialisation. */
module Payment {
  import opened Base
  import opened Field
  import opened Crypto
  import opened Burn
  import opened Bytes

  type ChainId = x: int | 0 <= x < TWO_64 witness 0

  /** The general recipient with its parts as words. */
  datatype GeneralRecipient = GeneralRecipient(chainId: ChainId, address: Word, tweak: Word)

  datatype FullBurnAddress = FullBurnAddress(gr: GeneralRecipient, secret: Word)

  /** An address as a word: twelve zero bytes in front. */
  function IntoWord(a: Address): Word { seq(12, i => 0) + a }

  /** `to_fr`: the recipient hash of the parts. */
  function RecipientFr(c: Suite, gr: GeneralRecipient): Fr {
    c.recipient(Recipient(gr.chainId, FromBytes(gr.address), FromBytes(gr.tweak)))
  }

  /** `FullBurnAddress::new`: refuses a secret without proof of work. */
  function New(c: Suite, chainId: ChainId, address: Address, secret: Word, tweak: Word): Option<FullBurnAddress> {
    var gr := GeneralRecipient(chainId, IntoWord(address), tweak);
    if ComputeBurnAddress(c.h, RecipientFr(c, gr), WordToFr(secret)).None? then None
    else Some(FullBurnAddress(gr, secret))
  }

  /** `burn_address`. */
  function AddressOfBurn(c: Suite, f: FullBurnAddress): Option<Address> {
    var r := ComputeBurnAddress(c.h, RecipientFr(c, f.gr), WordToFr(f.secret));
    if r.None? then None else Some(FrToAddress(r.value))
  }

  /** The recipient hash is taken of the chain id, the address as a number and the tweak as a number. */
  lemma RecipientParts(c: Suite, chainId: ChainId, address: Address, tweak: Word)
    ensures RecipientFr(c, GeneralRecipient(chainId, IntoWord(address), tweak))
         == c.recipient(Recipient(chainId, FromBytes(address), FromBytes(tweak)))
  {
    LeadingZeros(12, address);
  }

  lemma {:induction false} LeadingZeros(n: nat, b: seq<Byte>)
    ensures FromBytes(seq(n, i => 0) + b) == FromBytes(b)
    decreases |b|, n
  {
    var zeros: seq<Byte> := seq(n, i => 0);
    if b != [] {
      assert (zeros + b)[..n + |b| - 1] == zeros + b[..|b| - 1];
      LeadingZeros(n, b[..|b| - 1]);
    } else if n != 0 {
      assert (zeros + b)[..n - 1] == seq(n - 1, i => 0) + b;
      LeadingZeros(n - 1, b);
    } else {
      assert zeros + b == [];
    }
  }

  /** `pow_adjusted_secret`: searches from a base secret and stores the found secret as a word. */
  method PowAdjustedSecret(
    c: Suite, base: Word, tweak: Word, chainId: ChainId, address: Address)
    returns (r: Option<Word>)
    ensures r.Some? ==> Derived(c, base, tweak, chainId, address, r.value)
    ensures r.None? ==> NoSecret(c, base, tweak, chainId, address)
  {
    RecipientParts(c, chainId, address, tweak);
    var recipient := RecipientFr(c, GeneralRecipient(chainId, IntoWord(address), tweak));
    var seed := WordToFr(base);
    var nonce := FindPowNonce(c.h, recipient, seed);
    if nonce.None? { return None; }
    var secret := SecretFromNonce(seed, nonce.value);
    FoundIsDerived(c, base, tweak, chainId, address, recipient, nonce.value, secret);
    return Some(FrToWord(secret));
  }

  lemma FoundIsDerived(
    c: Suite, base: Word, tweak: Word, chainId: ChainId, address: Address, recipient: Fr, nonce: nat, secret: Fr)
    requires recipient == c.recipient(Recipient(chainId, FromBytes(address), FromBytes(tweak)))
    requires IsLeastNonce(c, recipient, WordToFr(base), nonce, secret)
    ensures Derived(c, base, tweak, chainId, address, FrToWord(secret))
  {
    DerivedSecretAccepted(c, tweak, chainId, address, secret);
  }

  /** The secret is accepted for the recipient it was derived for, its address is the one the constrained circuit
      computes, and it comes from the least working nonce. */
  ghost predicate Derived(c: Suite, base: Word, tweak: Word, chainId: ChainId, address: Address, secret: Word) {
    var recipient := c.recipient(Recipient(chainId, FromBytes(address), FromBytes(tweak)));
    && AcceptedAt(c, recipient, secret, New(c, chainId, address, secret, tweak))
    && exists nonce: nat :: IsLeastNonce(c, recipient, WordToFr(base), nonce, WordToFr(secret))
  }

  /** No 64-bit nonce gives a secret with proof of work. */
  ghost predicate NoSecret(c: Suite, base: Word, tweak: Word, chainId: ChainId, address: Address) {
    var recipient := c.recipient(Recipient(chainId, FromBytes(address), FromBytes(tweak)));
    forall nonce: nat :: nonce < TWO_64 ==> !NonceWorks(c.h, recipient, WordToFr(base), nonce)
  }

  predicate AcceptedAt(c: Suite, recipient: Fr, secret: Word, r: Option<FullBurnAddress>) {
    && r.Some? && r.value.secret == secret && AddressOfBurn(c, r.value).Some?
    && BurnAddressVar(c.h, recipient, WordToFr(secret), true).satisfied
    && BurnAddressVar(c.h, recipient, WordToFr(secret), true).value == AddressToFr(AddressOfBurn(c, r.value).value)
  }

  ghost predicate IsLeastNonce(c: Suite, recipient: Fr, seed: Fr, nonce: nat, secret: Fr) {
    && nonce < TWO_64 && secret == (seed + nonce) % P && HasPow(c.h, recipient, secret)
    && forall m: nat :: m < nonce ==> !NonceWorks(c.h, recipient, seed, m)
  }

  /** A secret with proof of work survives its storage as 32 bytes, is accepted for the recipient it was found for,
      and its 20-byte address is the value the constrained circuit computes. */
  lemma DerivedSecretAccepted(c: Suite, tweak: Word, chainId: ChainId, address: Address, secret: Fr)
    requires HasPow(c.h, c.recipient(Recipient(chainId, FromBytes(address), FromBytes(tweak))), secret)
    ensures var recipient := c.recipient(Recipient(chainId, FromBytes(address), FromBytes(tweak)));
            && WordToFr(FrToWord(secret)) == secret
            && AcceptedAt(c, recipient, FrToWord(secret), New(c, chainId, address, FrToWord(secret), tweak))
  {
    RecipientParts(c, chainId, address, tweak);
    var recipient := RecipientFr(c, GeneralRecipient(chainId, IntoWord(address), tweak));
    FrThroughWord(secret);
    NativeMatchesCircuit(c.h, recipient, secret, true);
    FrThroughAddress(BurnAddress(c.h, recipient, secret));
    AddressIsSmall(c.h(recipient, secret));
  }

  lemma AddressIsSmall(hash: Fr)
    ensures AddressOf(hash) % TWO_160 == AddressOf(hash)
  {
  }

  // ------------------------------------------------------------------------- serialisation

  const VERSION: Byte := 1

  datatype DecodeResult = Decoded(value: FullBurnAddress) | BadLength(length: nat) | BadVersion(version: Byte)

  /** `to_bytes`: version, chain id, address, tweak, secret. */
  function Serialize(f: FullBurnAddress): (b: seq<Byte>)
    ensures |b| == 105
  {
    [VERSION] + ToBytes(f.gr.chainId, 8) + f.gr.address + f.gr.tweak + f.secret
  }

  /** `from_bytes`: checks length and version only. */
  function Deserialize(b: seq<Byte>): DecodeResult {
    if |b| != 105 then BadLength(|b|)
    else if b[0] != VERSION then BadVersion(b[0])
    else
      Bits64(b[1..9], 8);
      Decoded(FullBurnAddress(GeneralRecipient(FromBytes(b[1..9]), b[9..41], b[41..73]), b[73..105]))
  }

  lemma Bits64(b: seq<Byte>, n: nat)
    requires |b| == n == 8
    ensures FromBytes(b) < TWO_64
  {
    FromBytesBelow(b);
  }

  /** What was written reads back as it was. */
  lemma SerializedReadsBack(f: FullBurnAddress)
    ensures Deserialize(Serialize(f)) == Decoded(f)
  {
    var b := Serialize(f);
    assert b[1..9] == ToBytes(f.gr.chainId, 8);
    assert b[9..41] == f.gr.address && b[41..73] == f.gr.tweak && b[73..105] == f.secret;
    WrittenValue(f.gr.chainId, 8);
  }

  /** A byte string decodes exactly when it has the length and the version, and then it is what would be written. */
  lemma DecodesIff(b: seq<Byte>)
    ensures Deserialize(b).Decoded? <==> |b| == 105 && b[0] == VERSION
    ensures Deserialize(b).Decoded? ==> Serialize(Deserialize(b).value) == b
    ensures |b| != 105 ==> Deserialize(b) == BadLength(|b|)
    ensures |b| == 105 && b[0] != VERSION ==> Deserialize(b) == BadVersion(b[0])
  {
    if |b| == 105 && b[0] == VERSION {
      ReadBytes(b[1..9]);
      assert b == b[..1] + b[1..9] + b[9..41] + b[41..73] + b[73..105];
    }
  }

  /** The record byte by byte: version 1, the chain id big-endian, then address, tweak and secret. */
  predicate Layout(f: FullBurnAddress, b: seq<Byte>) {
    && |b| == 105 && b[0] == 1
    && BigEndian(f.gr.chainId, b[1..9])
    && b[9..41] == f.gr.address && b[41..73] == f.gr.tweak && b[73..105] == f.secret
  }

  /** Eight bytes, the most significant first. */
  predicate BigEndian(x: nat, b: seq<Byte>) {
    |b| == 8 && forall i :: 0 <= i < 8 ==> b[i] == x / Pow256(7 - i) % 256
  }

  lemma BigEndianIff(x: nat, b: seq<Byte>, n: nat)
    requires n == 8
    ensures ToBytes(x, n) == b <==> BigEndian(x, b)
  {
    forall i: nat | i < n ensures ToBytes(x, n)[i] == x / Pow256(7 - i) % 256 { ByteAt(x, n, i); }
  }

  /** Writing produces this layout, and reading accepts nothing else for the same record. */
  lemma LayoutIff(f: FullBurnAddress, b: seq<Byte>)
    ensures Serialize(f) == b <==> Layout(f, b)
    ensures Deserialize(b) == Decoded(f) <==> Layout(f, b)
  {
    SerializedReadsBack(f);
    DecodesIff(b);
    if |b| == 105 { BigEndianIff(f.gr.chainId, b[1..9], 8); }
  }

  /** Decoding makes no check of its own: what it returns could have been built by `New` exactly when the address word
      starts with twelve zero bytes and the secret has proof of work. */
  lemma DecodedIsBuildableIff(c: Suite, f: FullBurnAddress)
    ensures (exists a: Address :: New(c, f.gr.chainId, a, f.secret, f.gr.tweak) == Some(f))
       <==> (forall i :: 0 <= i < 12 ==> f.gr.address[i] == 0) && HasPow(c.h, RecipientFr(c, f.gr), WordToFr(f.secret))
  {
    forall a: Address | New(c, f.gr.chainId, a, f.secret, f.gr.tweak) == Some(f)
      ensures forall i :: 0 <= i < 12 ==> f.gr.address[i] == 0
      ensures HasPow(c.h, RecipientFr(c, f.gr), WordToFr(f.secret))
    {
      NewIff(c, f, a);
    }
    if (forall i :: 0 <= i < 12 ==> f.gr.address[i] == 0) && HasPow(c.h, RecipientFr(c, f.gr), WordToFr(f.secret)) {
      var a: Address := f.gr.address[12..];
      assert IntoWord(a) == f.gr.address;
      NewIff(c, f, a);
    }
  }

  lemma NewIff(c: Suite, f: FullBurnAddress, a: Address)
    ensures New(c, f.gr.chainId, a, f.secret, f.gr.tweak) == Some(f)
       <==> f.gr.address == IntoWord(a) && HasPow(c.h, RecipientFr(c, f.gr), WordToFr(f.secret))
  {
    var gr := GeneralRecipient(f.gr.chainId, IntoWord(a), f.gr.tweak);
    NativeMatchesCircuit(c.h, RecipientFr(c, gr), WordToFr(f.secret), true);
  }
}
