/** Signing, recovering and the EIP-155 replay-protection laws. */
module Signing {
  import opened Bytes
  import opened Cryptography
  import opened Rlp
  import opened RlpStreams
  import opened Transactions
  import opened TransactionCodec

  const UNSIGNED_SENDER: H160 := seq(20, _ => 0xff)

  /** `with_signature`; `None` when packing `v` overflows. */
  function WithSignature(c: Crypto, t: Transaction, sig: Signature, chain: Option<U64>): Option<UnverifiedTransaction> {
    match AddChainReplayProtection(sig.v, chain)
    case None => None
    case Some(v) => Some(Hashed(c, UnverifiedTransaction(t, v, sig.r, sig.s, Zeros(32))))
  }

  /** `SignedTransaction::new`. */
  function NewSigned(c: Crypto, t: UnverifiedTransaction): Result<SignedTransaction, KeyError> {
    if t.IsUnsigned() then Err(InvalidSignature)
    else
      match t.RecoverPublic(c)
      case Err(e) => Err(e)
      case Ok(key) => Ok(SignedTransaction(t, c.AddressOf(key), Some(key)))
  }

  /** `Transaction::sign`; `None` stands for either of its panics. */
  function Sign(c: Crypto, t: Transaction, secret: Secret, chain: Option<U64>): Option<SignedTransaction> {
    match WithSignature(c, t, c.sign(secret, MessageHash(c, t, chain)), chain)
    case None => None
    case Some(u) =>
      match NewSigned(c, u)
      case Err(_) => None
      case Ok(signed) => Some(signed)
  }

  // ---------------------------------------------------- contract addresses

  function ContractItem(sender: H160, nonce: U256): Item {
    List([Data(sender), Uint(nonce)])
  }

  lemma ContractFits(sender: H160, nonce: U256)
    ensures Fits(ContractItem(sender, nonce))
  {
    UintFits(nonce);
    SmallItems([Data(sender), Uint(nonce)]);
  }

  function ContractPreimage(sender: H160, nonce: U256): seq<Byte> {
    ContractFits(sender, nonce);
    Encode(ContractItem(sender, nonce))
  }

  function ContractAddress(c: Crypto, t: SignedTransaction): Option<H160> {
    match t.transaction.unsigned.action
    case Call(_) => None
    case Create => Some(LowH160(c.keccak(ContractPreimage(t.sender, t.transaction.unsigned.nonce))))
  }

  method ComputeContractAddress(c: Crypto, t: SignedTransaction) returns (r: Option<H160>)
    ensures r == ContractAddress(c, t)
    ensures r == None <==> t.transaction.unsigned.action.Call?
  {
    if t.transaction.unsigned.action.Call? {
      return None;
    }
    var nonce := t.transaction.unsigned.nonce;
    ContractFits(t.sender, nonce);
    EncodeOne(ContractItem(t.sender, nonce));
    UintFits(nonce);
    assert [] + [Data(t.sender)] + [Uint(nonce)] == ContractItem(t.sender, nonce).items;
    var s := new RlpStream.NewList(2);
    s.AppendData(t.sender);
    s.AppendUint(nonce);
    var bytes := s.Out();
    r := Some(LowH160(c.keccak(bytes)));
  }

  /** A created contract's address depends on exactly the sender and the nonce. */
  lemma ContractPreimageInjective(a: H160, m: U256, b: H160, n: U256)
    requires ContractPreimage(a, m) == ContractPreimage(b, n)
    ensures a == b && m == n
  {
    ContractFits(a, m);
    ContractFits(b, n);
    EncodeInjective(ContractItem(a, m), ContractItem(b, n));
    var fa, fb := ContractItem(a, m).items, ContractItem(b, n).items;
    assert fa[0] == fb[0] && fa[1] == fb[1];
    ToBERoundTrip(m);
    ToBERoundTrip(n);
  }

  /** What a receipt says about addresses: a call has a receiver and creates
      nothing; a creation has no receiver and its contract sits at the low twenty
      bytes of the hash of the encoded pair of sender and nonce. */
  lemma AddressesExactly(c: Crypto, t: SignedTransaction)
    ensures var u := t.transaction.unsigned; var pair := List([Data(t.sender), Data(ToBE(u.nonce))]);
      && Fits(pair)
      && match u.action
         case Call(to) => t.transaction.Receiver() == Some(to) && ContractAddress(c, t) == None
         case Create =>
           && t.transaction.Receiver() == None
           && ContractAddress(c, t) == Some(c.keccak(Encode(pair))[12..])
  {
    ContractFits(t.sender, t.transaction.unsigned.nonce);
  }

  // ------------------------------------------------- localized transactions

  /** A transaction of the chain, whose recovered sender is cached in place. */
  class LocalizedTransaction {
    const signed: UnverifiedTransaction
    var cachedSender: Option<H160>

    /** The cache, once filled, holds the recovered sender. */
    predicate Valid(c: Crypto)
      reads this
    {
      cachedSender.Some? ==>
        signed.RecoverPublic(c).Ok? && cachedSender.value == c.AddressOf(signed.RecoverPublic(c).value)
    }

    constructor (signed: UnverifiedTransaction)
      ensures this.signed == signed && cachedSender == None
    {
      this.signed := signed;
      cachedSender := None;
    }

    /** Panics in the source when a non-empty signature does not recover. */
    method Sender(c: Crypto) returns (sender: H160)
      requires Valid(c)
      requires cachedSender.Some? || signed.IsUnsigned() || signed.RecoverPublic(c).Ok?
      modifies `cachedSender
      ensures Valid(c)
      ensures signed.IsUnsigned() && old(cachedSender).None? ==>
        (forall i :: 0 <= i < 20 ==> sender[i] == 0xff) && cachedSender == None
      ensures !signed.IsUnsigned() ==>
        NewSigned(c, signed).Ok? && sender == NewSigned(c, signed).value.sender && cachedSender == Some(sender)
    {
      match cachedSender {
        case Some(s) => return s;
        case None =>
      }
      if signed.IsUnsigned() {
        return UNSIGNED_SENDER;
      }
      sender := c.AddressOf(signed.RecoverPublic(c).value);
      cachedSender := Some(sender);
    }
  }

  // ------------------------------------------------ replay-protection laws

  /** Unpacking what was packed gives back the recovery id and the chain id
      exactly for ids 0 and 1, and for the one stray value 4 on no chain. */
  lemma PackThenUnpack(u: UnverifiedTransaction, id: Byte, chain: Option<U64>)
    requires !u.IsUnsigned() && AddChainReplayProtection(id, chain) == Some(u.v)
    ensures u.StandardV() == id && u.ChainId() == chain <==> id < 2 || (id == 4 && chain == None)
  {
  }

  /** Packing what was unpacked gives back `v` exactly for 27, 28 and all values
      from 35 on, and for 31, where the invalid marker 4 happens to add up. */
  lemma UnpackThenPack(u: UnverifiedTransaction)
    requires !u.IsUnsigned()
    ensures AddChainReplayProtection(u.StandardV(), u.ChainId()) == Some(u.v)
      <==> u.v == 27 || u.v == 28 || u.v == 31 || u.v >= 35
  {
  }

  /** The largest chain id that both recovery ids can be packed with. */
  lemma ChainIdBound(n: U64)
    ensures AddChainReplayProtection(0, Some(n)).Some? && AddChainReplayProtection(1, Some(n)).Some?
      <==> n <= 0x8000_0000_0000_0000 - 19
  {
  }

  /** A signature made for a chain is accepted for that chain only, one made
      without a chain id for every chain; when the low-s test is asked for, it
      has to pass as well. */
  lemma AcceptedChains(
      c: Crypto, t: Transaction, sig: Signature, chain: Option<U64>, checkLowS: bool, wanted: Option<U64>)
    requires sig.v < 2 && (sig.r != 0 || sig.s != 0)
    requires WithSignature(c, t, sig, chain).Some?
    ensures WithSignature(c, t, sig, chain).value.VerifyBasic(c, checkLowS, wanted).Ok?
      <==> (chain == None || chain == wanted) && (checkLowS ==> c.isLowS(sig))
  {
    var u := WithSignature(c, t, sig, chain).value;
    PackThenUnpack(u, sig.v, chain);
    assert u.Sig() == sig;
  }

  /** The empty signature is refused by both verifications. Only `verify_basic`
      has an error of its own for it: `SignedTransaction::new` gives the same
      error to a signature whose recovery fails with it. */
  lemma EmptySignatureRefused(c: Crypto, u: UnverifiedTransaction, checkLowS: bool, wanted: Option<U64>)
    ensures u.IsUnsigned() <==> u.VerifyBasic(c, checkLowS, wanted) == Err(Unsigned)
    ensures u.IsUnsigned() ==> NewSigned(c, u) == Err(InvalidSignature)
    ensures NewSigned(c, u) == Err(InvalidSignature) && !u.IsUnsigned() ==> u.RecoverPublic(c) == Err(InvalidSignature)
  {
  }

  // ---------------------------------------------------- preimage separation

  /** The fields an item sequence was written from are determined by it. */
  lemma SealedItemInjective(a: UnverifiedTransaction, b: UnverifiedTransaction)
    requires SealedItem(a) == SealedItem(b)
    ensures a.(hash := b.hash) == b
  {
    var items := SealedItem(a).items;
    FieldsInverse(items, a.(hash := b.hash));
    FieldsInverse(items, b);
  }

  /** The unsigned form for a chain is the sealed form of the empty signature. */
  function NullSigned(t: Transaction, n: U64): UnverifiedTransaction {
    UnverifiedTransaction(t, n, 0, 0, Zeros(32))
  }

  /** Signing preimages determine the transaction and the optional chain id;
      the six-item and the nine-item forms never meet. */
  lemma PreimageInjective(s: Transaction, m: Option<U64>, t: Transaction, n: Option<U64>)
    requires Preimage(s, m) == Preimage(t, n)
    ensures s == t && m == n
  {
    UnsignedFits(s, m);
    UnsignedFits(t, n);
    EncodeInjective(UnsignedItem(s, m), UnsignedItem(t, n));
    var a, b := UnsignedItem(s, m).items, UnsignedItem(t, n).items;
    assert |a| == |b|;
    if m.Some? {
      SealedItemInjective(NullSigned(s, m.value), NullSigned(t, n.value));
    } else {
      var tail := [Uint(0), Uint(0), Uint(0)];
      assert CoreFields(s) + tail == CoreFields(t) + tail;
      SealedItemInjective(NullSigned(s, 0), NullSigned(t, 0));
    }
  }

  /** The bytes signed for a chain are a wire form only of the transaction with
      that chain id as `v` and an empty signature, so what is signed never
      doubles as a transaction that carries a signature. */
  lemma PreimageMeetsWire(t: Transaction, chain: Option<U64>, u: UnverifiedTransaction)
    ensures Preimage(t, chain) == Wire(u)
      <==> u.unsigned == t && chain == Some(u.v) && u.r == 0 && u.s == 0
    ensures Preimage(t, chain) == Wire(u) ==> u.IsUnsigned() && u.ChainId() == chain
  {
    UnsignedFits(t, chain);
    SealedFits(u);
    if Preimage(t, chain) == Wire(u) {
      EncodeInjective(UnsignedItem(t, chain), SealedItem(u));
      assert |UnsignedItem(t, chain).items| == 9;
      SealedItemInjective(NullSigned(t, chain.value), u);
    }
  }

  // ----------------------------------------------------- sign, send, recover

  /** Signing, sending over the wire, decoding and verifying gives back the
      signed transaction unchanged, with the signer's address as its sender. */
  lemma SignSendRecover(c: Crypto, t: Transaction, secret: Secret, chain: Option<U64>)
    requires c.Signs(secret, c.keccak(Preimage(t, chain)))
    requires chain.Some? ==> chain.value <= 0x8000_0000_0000_0000 - 19
    ensures Sign(c, t, secret, chain).Some?
    ensures var signed := Sign(c, t, secret, chain).value;
      var sig, key := c.sign(secret, c.keccak(Preimage(t, chain))), c.publicOf(secret);
      && signed.transaction.unsigned == t
      && signed.transaction.ChainId() == chain
      && signed.transaction.v == sig.v + (match chain case Some(n) => 35 + 2 * n case None => 27)
      && signed.transaction.r == sig.r && signed.transaction.s == sig.s
      && signed.public == Some(key) && signed.sender == c.keccak(key)[12..]
      && Decode(c, Wire(signed.transaction)) == Ok(signed.transaction)
      && NewSigned(c, Decode(c, Wire(signed.transaction)).value) == Ok(signed)
  {
    var sig := c.sign(secret, MessageHash(c, t, chain));
    var u := WithSignature(c, t, sig, chain).value;
    PackThenUnpack(u, sig.v, chain);
    assert u.Sig() == sig;
    WireRoundTrip(c, u);
    assert Wire(u) == Wire(UnverifiedTransaction(t, u.v, sig.r, sig.s, Zeros(32)));
  }
}
