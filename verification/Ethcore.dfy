/** Blocks, headers and accounts, with their RLP forms and memoised hashes. */
module Ethcore {
  import opened Bytes
  import opened Cryptography
  import opened Rlp
  import opened RlpStreams
  import opened Transactions

  /** The thirteen encoded fields of a header. */
  datatype HeaderFields = HeaderFields(
    parentHash: H256, timestamp: U64, number: U64, author: H160, transactionsRoot: H256,
    unclesHash: H256, extraData: Octets, stateRoot: H256, receiptsRoot: H256, logBloom: Bloom,
    gasUsed: U256, gasLimit: U256, difficulty: U256)

  /** A header at rest: the fields and the memoised hash. */
  datatype HeaderRecord = HeaderRecord(fields: HeaderFields, memo: Option<H256>) {
    /** `Header::hash`: the memo when there is one. */
    function Hash(c: Crypto): H256 {
      match memo
      case Some(h) => h
      case None => c.keccak(HeaderBytes(fields))
    }

    /** The memo is the hash of the current fields. */
    predicate Coherent(c: Crypto) {
      memo == Some(c.keccak(HeaderBytes(fields)))
    }
  }

  /** A finished header: its memo is computed from its fields. */
  function Sealed(c: Crypto, f: HeaderFields): (r: HeaderRecord)
    ensures r.Coherent(c)
  {
    HeaderRecord(f, Some(c.keccak(HeaderBytes(f))))
  }

  datatype Block = Block(header: HeaderRecord, transactions: seq<SignedTransaction>, uncles: seq<HeaderRecord>)

  datatype MemAccount = MemAccount(nonce: U256, balance: U256, storage: map<H256, H256>, code: Octets)

  const EMPTY_ACCOUNT := MemAccount(0, 0, map[], [])

  // ------------------------------------------------------ transaction roots

  function RootItem(hashes: seq<H256>): Item {
    List(seq(|hashes|, i requires 0 <= i < |hashes| => Data(hashes[i])))
  }

  /** The stream's own byte vector bounds how many hashes it can hold. */
  predicate RootSized(n: nat) {
    33 * n < 0x8000_0000_0000_0000
  }

  lemma RootFits(hashes: seq<H256>)
    requires RootSized(|hashes|)
    ensures Fits(RootItem(hashes))
  {
    SmallItems(RootItem(hashes).items);
  }

  function RootPreimage(hashes: seq<H256>): seq<Byte>
    requires RootSized(|hashes|)
  {
    RootFits(hashes);
    Encode(RootItem(hashes))
  }

  function Hashes(txs: seq<SignedTransaction>): (r: seq<H256>)
    ensures |r| == |txs|
  {
    seq(|txs|, i requires 0 <= i < |txs| => txs[i].transaction.hash)
  }

  function TransactionRoot(c: Crypto, txs: seq<SignedTransaction>): H256
    requires RootSized(|txs|)
  {
    c.keccak(RootPreimage(Hashes(txs)))
  }

  method ComputeTransactionRoot(c: Crypto, txs: seq<SignedTransaction>) returns (root: H256)
    requires RootSized(|txs|)
    ensures root == TransactionRoot(c, txs)
  {
    ghost var items := RootItem(Hashes(txs)).items;
    RootFits(Hashes(txs));
    EachFits(items);
    EncodeOne(List(items));
    var s := new RlpStream();
    s.BeginList(|txs|);
    for i := 0 to |txs|
      invariant s.Valid() && fresh(s)
      invariant s.view == if i < |txs| then Open(EMPTY, |txs|, items[..i]) else Root([List(items)])
    {
      assert items[..i] + [items[i]] == items[..i + 1] && items[..|txs|] == items;
      assert Fits(items[i]);
      s.AppendData(txs[i].transaction.hash);
    }
    var bytes := s.Out();
    root := c.keccak(bytes);
  }

  /** Equal root preimages come from equal sequences of transaction hashes. */
  lemma RootPreimageInjective(a: seq<H256>, b: seq<H256>)
    requires RootSized(|a|) && RootSized(|b|)
    requires RootPreimage(a) == RootPreimage(b)
    ensures a == b
  {
    RootFits(a);
    RootFits(b);
    EncodeInjective(RootItem(a), RootItem(b));
    forall i | 0 <= i < |a|
      ensures |a| == |b| && a[i] == b[i]
    {
      assert RootItem(a).items[i] == RootItem(b).items[i];
    }
  }

  /** A root is the hash of bytes that read as the list of the transactions'
      hashes, in order. */
  lemma RootLayout(c: Crypto, txs: seq<SignedTransaction>)
    requires RootSized(|txs|)
    ensures var bytes := RootPreimage(Hashes(txs)); var parsed := ParseExactly(bytes);
      && TransactionRoot(c, txs) == c.keccak(bytes)
      && parsed.Some? && parsed.value.List? && |parsed.value.items| == |txs|
      && forall i :: 0 <= i < |txs| ==> parsed.value.items[i] == Data(txs[i].transaction.hash)
  {
    RootFits(Hashes(txs));
    ExactInverse(RootPreimage(Hashes(txs)), RootItem(Hashes(txs)));
  }

  // --------------------------------------------------------------- headers

  function HeaderList(f: HeaderFields): seq<Item> {
    [Data(f.parentHash), Data(f.unclesHash), Data(f.author), Data(f.stateRoot), Data(f.transactionsRoot),
     Data(f.receiptsRoot), Data(f.logBloom), Uint(f.difficulty), Uint(f.number), Uint(f.gasLimit),
     Uint(f.gasUsed), Uint(f.timestamp), Data(f.extraData)]
  }

  /** The length of a header's payload, field by field. */
  function PayloadSize(f: HeaderFields): nat {
    5 * 33 + 21 + 259 + Size(Uint(f.difficulty)) + Size(Uint(f.number)) + Size(Uint(f.gasLimit))
    + Size(Uint(f.gasUsed)) + Size(Uint(f.timestamp)) + Size(Data(f.extraData))
  }

  lemma HashSize(h: H256)
    ensures Fits(Data(h)) && Size(Data(h)) == 33
  {
  }

  lemma AddressAndBloomSizes(a: H160, b: Bloom)
    ensures Fits(Data(a)) && Size(Data(a)) == 21
    ensures Fits(Data(b)) && Size(Data(b)) == 259
  {
    ToBEWidths(256);
    assert |ToBE(256)| == 2;
  }

  lemma HeaderFits(f: HeaderFields)
    ensures Fits(List(HeaderList(f)))
    ensures SizeAll(HeaderList(f)) == PayloadSize(f)
  {
    var l := HeaderList(f);
    FrontSize(f, l[..6]);
    BackSize(f, l[6..12]);
    assert l == l[..6] + (l[6..12] + [Data(f.extraData)]);
    SizeInParts(l[..6], l[6..12], Data(f.extraData));
    ToBEWidths(|f.extraData|);
  }

  lemma SizeInParts(a: seq<Item>, b: seq<Item>, last: Item)
    ensures FitsAll(a + (b + [last])) <==> FitsAll(a) && FitsAll(b) && Fits(last)
    ensures SizeAll(a + (b + [last])) == SizeAll(a) + SizeAll(b) + Size(last)
  {
    ConcatItems(a, b + [last]);
    AppendItem(b, last);
  }

  lemma FrontSize(f: HeaderFields, l: seq<Item>)
    requires l == HeaderList(f)[..6]
    ensures FitsAll(l) && SizeAll(l) == 5 * 33 + 21
  {
    HashSize(f.parentHash);
    HashSize(f.unclesHash);
    HashSize(f.stateRoot);
    HashSize(f.transactionsRoot);
    HashSize(f.receiptsRoot);
    AddressAndBloomSizes(f.author, f.logBloom);
    SixItems(l);
  }

  lemma BackSize(f: HeaderFields, l: seq<Item>)
    requires l == HeaderList(f)[6..12]
    ensures FitsAll(l)
    ensures SizeAll(l) == 259 + Size(Uint(f.difficulty)) + Size(Uint(f.number)) + Size(Uint(f.gasLimit))
                              + Size(Uint(f.gasUsed)) + Size(Uint(f.timestamp))
    ensures SizeAll(l) <= 259 + 5 * 33
  {
    AddressAndBloomSizes(f.author, f.logBloom);
    UintFits(f.difficulty);
    UintFits(f.number);
    UintFits(f.gasLimit);
    UintFits(f.gasUsed);
    UintFits(f.timestamp);
    SixItems(l);
  }

  lemma SixItems(l: seq<Item>)
    requires |l| == 6
    ensures FitsAll(l) <==> forall i :: 0 <= i < 6 ==> Fits(l[i])
    ensures SizeAll(l) == Size(l[0]) + Size(l[1]) + Size(l[2]) + Size(l[3]) + Size(l[4]) + Size(l[5])
  {
    ThreeItems(l[..3]);
    ThreeItems(l[3..]);
    ConcatItems(l[..3], l[3..]);
    assert l == l[..3] + l[3..];
  }

  lemma ThreeItems(l: seq<Item>)
    requires |l| == 3
    ensures FitsAll(l) <==> Fits(l[0]) && Fits(l[1]) && Fits(l[2])
    ensures SizeAll(l) == Size(l[0]) + Size(l[1]) + Size(l[2])
  {
    var tail := l[1..];
    assert tail[1..] == [l[2]];
    EncodeOne(l[2]);
    assert FitsAll(tail) <==> Fits(tail[0]) && FitsAll([l[2]]);
    assert SizeAll([l[2]]) == Size(l[2]) + SizeAll([l[2]][1..]);
  }

  lemma {:induction false} ConcatItems(a: seq<Item>, b: seq<Item>)
    ensures FitsAll(a + b) <==> FitsAll(a) && FitsAll(b)
    ensures SizeAll(a + b) == SizeAll(a) + SizeAll(b)
  {
    if a == [] {
      assert a + b == b;
    } else {
      ConcatItems(a[1..], b);
      assert (a + b)[1..] == a[1..] + b;
    }
  }

  function HeaderBytes(f: HeaderFields): (r: seq<Byte>)
    ensures |r| == PrefixSize(PayloadSize(f)) + PayloadSize(f)
  {
    HeaderFits(f);
    Encode(List(HeaderList(f)))
  }

  /** Two headers with the same encoding agree on all thirteen fields. */
  lemma HeaderInjective(f: HeaderFields, g: HeaderFields)
    requires HeaderBytes(f) == HeaderBytes(g)
    ensures f == g
  {
    HeaderFits(f);
    HeaderFits(g);
    EncodeInjective(List(HeaderList(f)), List(HeaderList(g)));
    var a, b := HeaderList(f), HeaderList(g);
    assert forall i :: 0 <= i < 13 ==> a[i] == b[i];
    UintEqual(f.difficulty, g.difficulty, a[7], b[7]);
    UintEqual(f.number, g.number, a[8], b[8]);
    UintEqual(f.gasLimit, g.gasLimit, a[9], b[9]);
    UintEqual(f.gasUsed, g.gasUsed, a[10], b[10]);
    UintEqual(f.timestamp, g.timestamp, a[11], b[11]);
    assert a[0] == b[0] && a[1] == b[1] && a[2] == b[2] && a[3] == b[3] && a[4] == b[4];
    assert a[5] == b[5] && a[6] == b[6] && a[12] == b[12];
  }

  /** What a header's bytes read as at each of the thirteen positions. */
  lemma HeaderLayout(f: HeaderFields)
    ensures var parsed := ParseExactly(HeaderBytes(f));
      && parsed.Some? && parsed.value.List? && |parsed.value.items| == 13
      && FixedLayout(parsed.value.items, f)
      && Reads(parsed.value.items[7], f.difficulty) && Reads(parsed.value.items[8], f.number)
      && Reads(parsed.value.items[9], f.gasLimit) && Reads(parsed.value.items[10], f.gasUsed)
      && Reads(parsed.value.items[11], f.timestamp)
  {
    HeaderFits(f);
    ExactInverse(HeaderBytes(f), List(HeaderList(f)));
    var items := HeaderList(f);
    ReadsUint(items[7], f.difficulty);
    ReadsUint(items[8], f.number);
    ReadsUint(items[9], f.gasLimit);
    ReadsUint(items[10], f.gasUsed);
    ReadsUint(items[11], f.timestamp);
  }

  /** The positions that hold hashes, the author, the bloom and the extra data. */
  predicate FixedLayout(items: seq<Item>, f: HeaderFields)
    requires |items| == 13
  {
    && items[0] == Data(f.parentHash) && items[1] == Data(f.unclesHash) && items[2] == Data(f.author)
    && items[3] == Data(f.stateRoot) && items[4] == Data(f.transactionsRoot) && items[5] == Data(f.receiptsRoot)
    && items[6] == Data(f.logBloom) && items[12] == Data(f.extraData)
  }

  lemma UintEqual(m: nat, n: nat, a: Item, b: Item)
    requires a == Uint(m) && b == Uint(n) && a == b
    ensures m == n
  {
    ToBERoundTrip(m);
    ToBERoundTrip(n);
  }

  lemma ThirteenPushes(v: View, l: seq<Item>)
    requires |l| == 13 && CanPush(v, List(l))
    ensures var v6 := PushAll(Open(v, 13, []), l[..6]); var v12 := PushAll(v6, l[6..12]);
      && CanPushAll(Open(v, 13, []), l[..6]) && CanPushAll(v6, l[6..12]) && CanPush(v12, l[12])
      && Push(v12, l[12]) == Push(v, List(l))
  {
    ListOfPushes(v, [], l);
    assert [] + l == l && l == l[..6] + (l[6..12] + [l[12]]);
    PushInParts(Open(v, 13, []), l[..6], l[6..12], l[12]);
  }

  lemma PushInParts(v: View, a: seq<Item>, b: seq<Item>, last: Item)
    requires CanPushAll(v, a + (b + [last]))
    ensures var v' := PushAll(PushAll(v, a), b);
      && CanPushAll(v, a) && CanPushAll(PushAll(v, a), b) && CanPush(v', last)
      && PushAll(v, a + (b + [last])) == Push(v', last)
  {
    PushAllConcat(v, a, b + [last]);
    PushAllConcat(PushAll(v, a), b, [last]);
    var v' := PushAll(PushAll(v, a), b);
    assert PushAll(v', [last]) == PushAll(Push(v', last), [last][1..]);
  }

  /** `Header::default()`; the two constants are hashes of empty RLP values. */
  function DefaultFields(c: Crypto): HeaderFields {
    var nullRlp := c.keccak(EncodeData([]));
    var emptyListRlp := c.keccak([LIST_OFFSET]);
    HeaderFields(Zeros(32), 0, 0, Zeros(20), nullRlp, emptyListRlp, [], nullRlp, nullRlp, Zeros(256), 0, 0, 0)
  }

  /** A header while it is being filled in; once sealed it is only read. */
  class Header {
    var parentHash: H256
    var timestamp: U64
    var number: U64
    var author: H160
    var transactionsRoot: H256
    var unclesHash: H256
    var extraData: Octets
    var stateRoot: H256
    var receiptsRoot: H256
    var logBloom: Bloom
    var gasUsed: U256
    var gasLimit: U256
    var difficulty: U256
    var memo: Option<H256>

    function Fields(): HeaderFields
      reads this
    {
      HeaderFields(parentHash, timestamp, number, author, transactionsRoot, unclesHash, extraData,
                   stateRoot, receiptsRoot, logBloom, gasUsed, gasLimit, difficulty)
    }

    function Record(): HeaderRecord
      reads this
    {
      HeaderRecord(Fields(), memo)
    }

    /** `Header::default()`. */
    constructor (c: Crypto)
      ensures Record() == HeaderRecord(DefaultFields(c), None)
    {
      var d := DefaultFields(c);
      parentHash, timestamp, number, author := d.parentHash, d.timestamp, d.number, d.author;
      transactionsRoot, unclesHash, extraData := d.transactionsRoot, d.unclesHash, d.extraData;
      stateRoot, receiptsRoot, logBloom := d.stateRoot, d.receiptsRoot, d.logBloom;
      gasUsed, gasLimit, difficulty := d.gasUsed, d.gasLimit, d.difficulty;
      memo := None;
    }

    /** On any stream, writing a header appends exactly one item. */
    method StreamRlp(s: RlpStream)
      requires s.Valid() && CanPush(s.view, List(HeaderList(Fields())))
      modifies s
      ensures s.Valid() && s.view == Push(old(s.view), List(HeaderList(Fields())))
    {
      ThirteenPushes(s.view, HeaderList(Fields()));
      s.BeginList(13);
      FirstSix(s);
      SecondSix(s);
      s.AppendData(extraData);
    }

    method FirstSix(s: RlpStream)
      requires s.Valid() && CanPushAll(s.view, HeaderList(Fields())[..6])
      modifies s
      ensures s.Valid() && s.view == PushAll(old(s.view), HeaderList(Fields())[..6])
    {
      ghost var l := HeaderList(Fields())[..6];
      assert l == [Data(parentHash), Data(unclesHash), Data(author), Data(stateRoot),
                   Data(transactionsRoot), Data(receiptsRoot)];
      SixPushes(s.view, l);
      s.AppendData(parentHash);
      s.AppendData(unclesHash);
      s.AppendData(author);
      s.AppendData(stateRoot);
      s.AppendData(transactionsRoot);
      s.AppendData(receiptsRoot);
    }

    method SecondSix(s: RlpStream)
      requires s.Valid() && CanPushAll(s.view, HeaderList(Fields())[6..12])
      modifies s
      ensures s.Valid() && s.view == PushAll(old(s.view), HeaderList(Fields())[6..12])
    {
      ghost var l := HeaderList(Fields())[6..12];
      SixPushes(s.view, l);
      s.AppendData(logBloom);
      s.AppendUint(difficulty);
      s.AppendUint(number);
      s.AppendUint(gasLimit);
      s.AppendUint(gasUsed);
      s.AppendUint(timestamp);
    }

    method Rlp() returns (bytes: seq<Byte>)
      ensures bytes == HeaderBytes(Fields())
    {
      HeaderFits(Fields());
      EncodeOne(List(HeaderList(Fields())));
      var s := new RlpStream();
      StreamRlp(s);
      bytes := s.Out();
    }

    method Hash(c: Crypto) returns (h: H256)
      ensures h == Record().Hash(c)
    {
      match memo {
        case Some(m) => h := m;
        case None =>
          var bytes := Rlp();
          h := c.keccak(bytes);
      }
    }

    /** Memoises the hash; a memo that is already there is kept, not refreshed. */
    method ComputeHash(c: Crypto) returns (h: H256)
      modifies `memo
      ensures h == old(Record().Hash(c)) && memo == Some(h)
      ensures old(memo) == None ==> Record() == Sealed(c, old(Fields()))
    {
      h := Hash(c);
      memo := Some(h);
    }
  }
}
