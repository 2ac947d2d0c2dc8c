/** Transactions, their RLP forms, EIP-155 replay protection and signing. */
module Transactions {
  import opened Bytes
  import opened Cryptography
  import opened Rlp
  import opened RlpStreams

  datatype Action = Create | Call(to: H160)

  datatype Transaction = Transaction(
    nonce: U256, gasPrice: U256, gas: U256, action: Action, value: U256, data: Octets)

  datatype UnverifiedTransaction = UnverifiedTransaction(
    unsigned: Transaction, v: U64, r: U256, s: U256, hash: H256)
  {
    predicate IsUnsigned() {
      r == 0 && s == 0
    }

    function Receiver(): Option<H160> {
      match unsigned.action
      case Create => None
      case Call(to) => Some(to)
    }

    function StandardV(): Byte {
      CheckReplayProtection(v)
    }

    function ChainId(): Option<U64> {
      if IsUnsigned() then Some(v)
      else if v >= 35 then Some((v - 35) / 2)
      else None
    }

    function Sig(): Signature {
      Signature(r, s, StandardV())
    }

    function RecoverPublic(c: Crypto): Result<Public, KeyError> {
      c.recover(Sig(), MessageHash(c, unsigned, ChainId()))
    }

    function VerifyBasic(c: Crypto, checkLowS: bool, chain: Option<U64>): Result<(), VerifyError> {
      if IsUnsigned() then Err(Unsigned)
      else if checkLowS && !c.isLowS(Sig()) then Err(HighS)
      else
        match (ChainId(), chain)
        case (None, _) => Ok(())
        case (Some(n), Some(m)) => if n == m then Ok(()) else Err(InvalidChainId)
        case (Some(_), None) => Err(InvalidChainId)
    }
  }

  datatype VerifyError = Unsigned | HighS | InvalidChainId

  datatype SignedTransaction = SignedTransaction(
    transaction: UnverifiedTransaction, sender: H160, public: Option<Public>)

  datatype DecoderError =
    | RlpIsTooBig | RlpIsTooShort | RlpInvalidIndirection | RlpIncorrectListLen
    | RlpExpectedToBeList | RlpExpectedToBeData | RlpMalformed

  // ---------------------------------------------------- replay protection

  /** `v + 35 + 2n`, or `v + 27` without a chain id. `None` stands for the
      arithmetic overflow check of the source's `u64` sum. */
  function AddChainReplayProtection(v: U64, chain: Option<U64>): Option<U64> {
    var sum := v + match chain { case Some(n) => 35 + n * 2 case None => 27 };
    if sum < U64_LIMIT then Some(sum) else None
  }

  function CheckReplayProtection(v: U64): Byte {
    if v == 27 then 0
    else if v == 28 then 1
    else if v >= 35 then (v - 1) % 2
    else 4
  }

  // ----------------------------------------------------------- RLP shapes

  function Uint(n: nat): Item {
    Data(ToBE(n))
  }

  function ActionItem(a: Action): Item {
    match a
    case Create => Data([])
    case Call(to) => Data(to)
  }

  function CoreFields(t: Transaction): seq<Item> {
    [Uint(t.nonce), Uint(t.gasPrice), Uint(t.gas), ActionItem(t.action), Uint(t.value), Data(t.data)]
  }

  function UnsignedItem(t: Transaction, chain: Option<U64>): Item {
    match chain
    case None => List(CoreFields(t))
    case Some(n) => List(CoreFields(t) + [Uint(n), Uint(0), Uint(0)])
  }

  function SealedItem(t: UnverifiedTransaction): Item {
    List(CoreFields(t.unsigned) + [Uint(t.v), Uint(t.r), Uint(t.s)])
  }

  lemma UintFits(n: U256)
    ensures |ToBE(n)| <= 32 && Fits(Uint(n)) && Size(Uint(n)) <= 33
  {
    ToBEWidths(n);
  }

  /** The item is the string of `n`'s bytes, most significant first, none of them
      a leading zero. */
  predicate Reads(it: Item, n: nat) {
    it.Data? && Minimal(it.bytes) && FromBE(it.bytes) == n
  }

  lemma ReadsUint(it: Item, n: nat)
    ensures Reads(it, n) <==> it == Uint(n)
  {
    ToBERoundTrip(n);
    if Reads(it, n) { FromBERoundTrip(it.bytes); }
  }

  lemma CoreFits(t: Transaction)
    ensures FitsAll(CoreFields(t)) && SizeAll(CoreFields(t)) < U64_LIMIT - 100
  {
    UintFits(t.nonce);
    UintFits(t.gasPrice);
    UintFits(t.gas);
    UintFits(t.value);
    ToBEWidths(|t.data|);
    var small := CoreFields(t)[..5];
    SmallItems(small);
    AppendItem(small, Data(t.data));
    assert CoreFields(t) == small + [Data(t.data)];
  }

  /** Three more integers still leave the list within the eight-byte length. */
  lemma NineFits(t: Transaction, a: U256, b: U256, d: U256)
    ensures Fits(List(CoreFields(t) + [Uint(a), Uint(b), Uint(d)]))
  {
    CoreFits(t);
    UintFits(a);
    UintFits(b);
    UintFits(d);
    AppendThree(CoreFields(t), Uint(a), Uint(b), Uint(d));
  }

  lemma AppendThree(f: seq<Item>, x: Item, y: Item, z: Item)
    ensures FitsAll(f + [x, y, z]) <==> FitsAll(f) && Fits(x) && Fits(y) && Fits(z)
    ensures SizeAll(f + [x, y, z]) == SizeAll(f) + Size(x) + Size(y) + Size(z)
  {
    AppendItem(f, x);
    AppendItem(f + [x], y);
    AppendItem(f + [x] + [y], z);
    assert f + [x, y, z] == f + [x] + [y] + [z];
  }

  lemma UnsignedFits(t: Transaction, chain: Option<U64>)
    ensures Fits(UnsignedItem(t, chain))
  {
    CoreFits(t);
    if chain.Some? { NineFits(t, chain.value, 0, 0); }
  }

  lemma SealedFits(t: UnverifiedTransaction)
    ensures Fits(SealedItem(t))
  {
    NineFits(t.unsigned, t.v, t.r, t.s);
  }

  /** The bytes that are signed. */
  function Preimage(t: Transaction, chain: Option<U64>): seq<Byte> {
    UnsignedFits(t, chain);
    Encode(UnsignedItem(t, chain))
  }

  /** The bytes that go over the wire. */
  function Wire(t: UnverifiedTransaction): seq<Byte> {
    SealedFits(t);
    Encode(SealedItem(t))
  }

  function MessageHash(c: Crypto, t: Transaction, chain: Option<U64>): H256 {
    c.keccak(Preimage(t, chain))
  }

  // -------------------------------------------------------------- writers

  method AppendAction(a: Action, s: RlpStream)
    requires s.Valid() && CanPush(s.view, ActionItem(a))
    modifies s
    ensures s.Valid() && s.view == Push(old(s.view), ActionItem(a))
  {
    match a {
      case Create => s.AppendData([]);
      case Call(to) => s.AppendData(to);
    }
  }

  /** The six fields that both list forms start with. */
  method AppendCore(t: Transaction, s: RlpStream)
    requires s.Valid() && CanPushAll(s.view, CoreFields(t))
    modifies s
    ensures s.Valid() && s.view == PushAll(old(s.view), CoreFields(t))
  {
    SixPushes(s.view, CoreFields(t));
    s.AppendUint(t.nonce);
    s.AppendUint(t.gasPrice);
    s.AppendUint(t.gas);
    AppendAction(t.action, s);
    s.AppendUint(t.value);
    s.AppendData(t.data);
  }

  method AppendThreeUints(a: nat, b: nat, d: nat, s: RlpStream)
    requires s.Valid() && CanPushAll(s.view, [Uint(a), Uint(b), Uint(d)])
    modifies s
    ensures s.Valid() && s.view == PushAll(old(s.view), [Uint(a), Uint(b), Uint(d)])
  {
    ThreePushes(s.view, [Uint(a), Uint(b), Uint(d)]);
    s.AppendUint(a);
    s.AppendUint(b);
    s.AppendUint(d);
  }

  /** On any stream, writing an unsigned transaction appends exactly one item. */
  method AppendUnsigned(t: Transaction, s: RlpStream, chain: Option<U64>)
    requires s.Valid() && CanPush(s.view, UnsignedItem(t, chain))
    modifies s
    ensures s.Valid() && s.view == Push(old(s.view), UnsignedItem(t, chain))
  {
    ghost var tail := if chain.None? then [] else [Uint(chain.value), Uint(0), Uint(0)];
    assert UnsignedItem(t, chain) == List(CoreFields(t) + tail);
    ListOfTwoParts(s.view, CoreFields(t), tail);
    s.BeginList(if chain.None? then 6 else 9);
    AppendCore(t, s);
    if chain.Some? {
      AppendThreeUints(chain.value, 0, 0, s);
    }
  }

  method AppendSealed(t: UnverifiedTransaction, s: RlpStream)
    requires s.Valid() && CanPush(s.view, SealedItem(t))
    modifies s
    ensures s.Valid() && s.view == Push(old(s.view), SealedItem(t))
  {
    ListOfTwoParts(s.view, CoreFields(t.unsigned), [Uint(t.v), Uint(t.r), Uint(t.s)]);
    s.BeginList(9);
    AppendCore(t.unsigned, s);
    AppendThreeUints(t.v, t.r, t.s, s);
  }

  /** `Transaction::hash`, through the stream. */
  method Hash(c: Crypto, t: Transaction, chain: Option<U64>) returns (h: H256)
    ensures h == c.keccak(Preimage(t, chain)) == MessageHash(c, t, chain)
  {
    UnsignedFits(t, chain);
    EncodeOne(UnsignedItem(t, chain));
    var s := new RlpStream();
    AppendUnsigned(t, s, chain);
    var bytes := s.Out();
    h := c.keccak(bytes);
  }

  /** `compute_hash`, through the stream: the memo becomes the hash of the wire bytes. */
  method ComputeHash(c: Crypto, t: UnverifiedTransaction) returns (r: UnverifiedTransaction)
    ensures r == t.(hash := c.keccak(Wire(t))) == Hashed(c, t)
  {
    SealedFits(t);
    EncodeOne(SealedItem(t));
    var s := new RlpStream();
    AppendSealed(t, s);
    var bytes := s.Out();
    r := t.(hash := c.keccak(bytes));
  }

  function Hashed(c: Crypto, t: UnverifiedTransaction): UnverifiedTransaction {
    t.(hash := c.keccak(Wire(t)))
  }
}
