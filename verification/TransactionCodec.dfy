/**
 The transaction decoder, and the laws that tie it to the writers: a wire form
 decodes to the transaction it was written from, and nothing else decodes to it.
 */
module TransactionCodec {
  import opened Bytes
  import opened Cryptography
  import opened Rlp
  import opened Transactions

  type Decoded<T> = Result<T, DecoderError>

  /** Integers of at most `width` bytes, without leading zeros. */
  function DecodeUint(it: Item, width: nat): (r: Decoded<nat>)
    ensures r.Ok? ==> r.value < Pow256(width)
  {
    match it
    case List(_) => Err(RlpExpectedToBeData)
    case Data(bs) =>
      if !Minimal(bs) then Err(RlpInvalidIndirection)
      else if |bs| > width then Err(RlpIsTooBig)
      else
        FromBERoundTrip(bs);
        ToBELength(FromBE(bs), width);
        Ok(FromBE(bs))
  }

  function DecodeU64(it: Item): (r: Decoded<U64>) {
    Pow256Widths();
    DecodeUint(it, 8)
  }

  function DecodeU256(it: Item): (r: Decoded<U256>) {
    Pow256Widths();
    DecodeUint(it, 32)
  }

  function DecodeH160(it: Item): Decoded<H160> {
    match it
    case List(_) => Err(RlpExpectedToBeData)
    case Data(bs) =>
      if |bs| < 20 then Err(RlpIsTooShort)
      else if |bs| > 20 then Err(RlpIsTooBig)
      else Ok(bs)
  }

  /** A byte vector; none can be as long as 2^63. */
  function DecodeOctets(it: Item): Decoded<Octets> {
    match it
    case List(_) => Err(RlpExpectedToBeData)
    case Data(bs) => if |bs| >= 0x8000_0000_0000_0000 then Err(RlpIsTooBig) else Ok(bs)
  }

  /** `Rlp::is_empty`: the empty string or the empty list. */
  predicate IsEmpty(it: Item) {
    it == Data([]) || it == List([])
  }

  function DecodeAction(it: Item): Decoded<Action> {
    if IsEmpty(it) then
      if it.Data? then Ok(Create) else Err(RlpExpectedToBeData)
    else
      var to :- DecodeH160(it);
      Ok(Call(to))
  }

  /** `UnverifiedTransaction::decode` on an input that is one strict RLP item. */
  function Decode(c: Crypto, raw: seq<Byte>): Decoded<UnverifiedTransaction> {
    match ParseExactly(raw)
    case None => Err(RlpMalformed)
    case Some(Data(_)) => Err(RlpExpectedToBeList)
    case Some(List(items)) =>
      if |items| != 9 then Err(RlpIncorrectListLen) else DecodeFields(items, c.keccak(raw))
  }

  function DecodeUnsigned(items: seq<Item>): Decoded<Transaction>
    requires |items| == 9
  {
    var nonce :- DecodeU256(items[0]);
    var gasPrice :- DecodeU256(items[1]);
    var gas :- DecodeU256(items[2]);
    var action :- DecodeAction(items[3]);
    var value :- DecodeU256(items[4]);
    var data :- DecodeOctets(items[5]);
    Ok(Transaction(nonce, gasPrice, gas, action, value, data))
  }

  function DecodeFields(items: seq<Item>, hash: H256): Decoded<UnverifiedTransaction>
    requires |items| == 9
  {
    var unsigned :- DecodeUnsigned(items);
    var v :- DecodeU64(items[6]);
    var r :- DecodeU256(items[7]);
    var s :- DecodeU256(items[8]);
    Ok(UnverifiedTransaction(unsigned, v, r, s, hash))
  }

  // ------------------------------------------------------- field inverses

  lemma UintInverse(it: Item, width: nat, n: nat)
    ensures DecodeUint(it, width) == Ok(n) <==> it == Uint(n) && n < Pow256(width)
  {
    ToBERoundTrip(n);
    ToBELength(n, width);
    if it.Data? && Minimal(it.bytes) { FromBERoundTrip(it.bytes); }
  }

  lemma U64Inverse(it: Item, n: U64)
    ensures DecodeU64(it) == Ok(n) <==> it == Uint(n)
  {
    Pow256Widths();
    UintInverse(it, 8, n);
  }

  lemma U256Inverse(it: Item, n: U256)
    ensures DecodeU256(it) == Ok(n) <==> it == Uint(n)
  {
    Pow256Widths();
    UintInverse(it, 32, n);
  }

  /** The action decoder inverts the action writer: the empty string is contract
      creation, the empty list is refused, and twenty bytes are a call. */
  lemma ActionInverse(it: Item, a: Action)
    ensures DecodeAction(it) == Ok(a) <==> it == ActionItem(a)
    ensures DecodeAction(List([])) == Err(RlpExpectedToBeData)
  {
  }

  lemma UnsignedByPart(items: seq<Item>, t: Transaction)
    requires |items| == 9
    ensures DecodeUnsigned(items) == Ok(t) <==>
      && DecodeU256(items[0]) == Ok(t.nonce) && DecodeU256(items[1]) == Ok(t.gasPrice)
      && DecodeU256(items[2]) == Ok(t.gas) && DecodeAction(items[3]) == Ok(t.action)
      && DecodeU256(items[4]) == Ok(t.value) && DecodeOctets(items[5]) == Ok(t.data)
  {
  }

  lemma UnsignedInverse(items: seq<Item>, t: Transaction)
    requires |items| == 9
    ensures DecodeUnsigned(items) == Ok(t) <==> items[..6] == CoreFields(t)
  {
    UnsignedByPart(items, t);
    U256Inverse(items[0], t.nonce);
    U256Inverse(items[1], t.gasPrice);
    U256Inverse(items[2], t.gas);
    ActionInverse(items[3], t.action);
    U256Inverse(items[4], t.value);
    var f := CoreFields(t);
    assert items[..6] == f <==> forall i :: 0 <= i < 6 ==> items[i] == f[i];
    assert f[5] == Data(t.data);
  }

  lemma FieldsByPart(items: seq<Item>, t: UnverifiedTransaction)
    requires |items| == 9
    ensures DecodeFields(items, t.hash) == Ok(t) <==>
      && DecodeUnsigned(items) == Ok(t.unsigned) && DecodeU64(items[6]) == Ok(t.v)
      && DecodeU256(items[7]) == Ok(t.r) && DecodeU256(items[8]) == Ok(t.s)
  {
  }

  lemma FieldsInverse(items: seq<Item>, t: UnverifiedTransaction)
    requires |items| == 9
    ensures DecodeFields(items, t.hash) == Ok(t) <==> items == SealedItem(t).items
  {
    FieldsByPart(items, t);
    UnsignedInverse(items, t.unsigned);
    U64Inverse(items[6], t.v);
    U256Inverse(items[7], t.r);
    U256Inverse(items[8], t.s);
    var tail := [items[6], items[7], items[8]];
    assert items == items[..6] + tail;
    assert items == SealedItem(t).items <==> items[..6] == CoreFields(t.unsigned) && tail == [Uint(t.v), Uint(t.r), Uint(t.s)];
  }

  // ------------------------------------------------------------- theorems

  /** The two one-byte empty forms: 0x80 reads as contract creation, 0xc0 is an
      empty list and is refused. */
  lemma EmptyForms()
    ensures ParseExactly([0x80]) == Some(ActionItem(Create))
    ensures ParseExactly([0xc0]) == Some(List([])) && DecodeAction(List([])) == Err(RlpExpectedToBeData)
  {
    assert [0x80] == Encode(Data([])) && [0xc0] == Encode(List([]));
    ExactInverse([0x80], Data([]));
    ExactInverse([0xc0], List([]));
  }

  /** Every transaction survives the wire: same action, all integers, data,
      `v`, `r` and `s`, and the hash of the received bytes is the hash
      that `compute_hash` memoises. */
  lemma WireRoundTrip(c: Crypto, t: UnverifiedTransaction)
    ensures Decode(c, Wire(t)) == Ok(t.(hash := c.keccak(Wire(t))))
  {
    SealedFits(t);
    ExactInverse(Wire(t), SealedItem(t));
    FieldsInverse(SealedItem(t).items, Hashed(c, t));
  }

  /** An accepted input is exactly the wire form of what it decodes to. */
  lemma DecodeIsCanonical(c: Crypto, raw: seq<Byte>)
    requires Decode(c, raw).Ok?
    ensures raw == Wire(Decode(c, raw).value)
    ensures Decode(c, raw).value == Hashed(c, Decode(c, raw).value)
  {
    var t := Decode(c, raw).value;
    var it := ParseExactly(raw).value;
    ExactInverse(raw, it);
    FieldsInverse(it.items, t);
  }

  /** Two accepted inputs that decode to the same fields are the same bytes. */
  lemma DecodeInjective(c: Crypto, a: seq<Byte>, b: seq<Byte>)
    requires Decode(c, a).Ok? && Decode(c, b).Ok?
    requires Decode(c, a).value.(hash := Zeros(32)) == Decode(c, b).value.(hash := Zeros(32))
    ensures a == b
  {
    DecodeIsCanonical(c, a);
    DecodeIsCanonical(c, b);
  }

  // ------------------------------------------------- the layout of the bytes

  /** The first six items of either list form, position by position. */
  predicate CoreLayout(items: seq<Item>, t: Transaction)
    requires |items| >= 6
  {
    && Reads(items[0], t.nonce) && Reads(items[1], t.gasPrice) && Reads(items[2], t.gas)
    && items[3] == (match t.action case Create => Data([]) case Call(to) => Data(to))
    && Reads(items[4], t.value) && items[5] == Data(t.data)
  }

  lemma CoreReads(t: Transaction, tail: seq<Item>)
    ensures CoreLayout(CoreFields(t) + tail, t)
  {
    var items := CoreFields(t) + tail;
    ReadsUint(items[0], t.nonce);
    ReadsUint(items[1], t.gasPrice);
    ReadsUint(items[2], t.gas);
    ReadsUint(items[4], t.value);
  }

  /** What is on the wire at each of the nine positions. */
  lemma WireLayout(u: UnverifiedTransaction)
    ensures var parsed := ParseExactly(Wire(u));
      && parsed.Some? && parsed.value.List? && |parsed.value.items| == 9
      && CoreLayout(parsed.value.items, u.unsigned)
      && Reads(parsed.value.items[6], u.v) && Reads(parsed.value.items[7], u.r) && Reads(parsed.value.items[8], u.s)
  {
    SealedFits(u);
    ExactInverse(Wire(u), SealedItem(u));
    CoreReads(u.unsigned, [Uint(u.v), Uint(u.r), Uint(u.s)]);
    ReadsUint(Uint(u.v), u.v);
    ReadsUint(Uint(u.r), u.r);
    ReadsUint(Uint(u.s), u.s);
  }

  /** What is signed at each position: six items without a chain id, and nine,
      the last two of them zero, with one. */
  lemma PreimageLayout(t: Transaction, chain: Option<U64>)
    ensures var parsed := ParseExactly(Preimage(t, chain));
      && parsed.Some? && parsed.value.List?
      && |parsed.value.items| == (if chain.None? then 6 else 9)
      && CoreLayout(parsed.value.items, t)
      && (chain.Some? ==>
            && Reads(parsed.value.items[6], chain.value)
            && Reads(parsed.value.items[7], 0) && Reads(parsed.value.items[8], 0))
  {
    UnsignedFits(t, chain);
    ExactInverse(Preimage(t, chain), UnsignedItem(t, chain));
    if chain.None? {
      CoreReads(t, []);
      assert CoreFields(t) + [] == CoreFields(t);
    } else {
      CoreReads(t, [Uint(chain.value), Uint(0), Uint(0)]);
      ReadsUint(Uint(chain.value), chain.value);
      ReadsUint(Uint(0), 0);
    }
  }

  /** The bytes signed without a chain id are the one string that reads as a list
      of six items which, before any three others, decode to the transaction. */
  lemma PlainPreimageExactly(t: Transaction, raw: seq<Byte>, tail: seq<Item>)
    requires |tail| == 3
    ensures raw == Preimage(t, None) <==>
      var parsed := ParseExactly(raw);
      && parsed.Some? && parsed.value.List? && |parsed.value.items| == 6
      && DecodeUnsigned(parsed.value.items + tail) == Ok(t)
  {
    UnsignedFits(t, None);
    ExactInverse(raw, List(CoreFields(t)));
    UnsignedInverse(CoreFields(t) + tail, t);
    assert (CoreFields(t) + tail)[..6] == CoreFields(t);
    var parsed := ParseExactly(raw);
    if parsed.Some? && parsed.value.List? && |parsed.value.items| == 6 {
      UnsignedInverse(parsed.value.items + tail, t);
      assert (parsed.value.items + tail)[..6] == parsed.value.items;
    }
  }
}
