/** The hex form of byte strings in JSON, and the block summary's size. */
module RpcTypes {
  import opened Bytes
  import opened Cryptography
  import opened Rlp
  import opened Transactions
  import opened Ethcore
  import opened BlockSelector
  import opened ChainDb
  import opened DbInvariant

  // ------------------------------------------------------------- hex bytes

  datatype HexError = InvalidHex | InvalidFormat

  function DigitChar(d: nat): char
    requires d < 16
  {
    if d < 10 then ('0' as int + d) as char else ('a' as int + d - 10) as char
  }

  function HexEncode(bs: seq<Byte>): string {
    if bs == [] then "" else [DigitChar(bs[0] / 16), DigitChar(bs[0] % 16)] + HexEncode(bs[1..])
  }

  function HexDecode(s: string): Option<seq<Byte>>
    requires |s| % 2 == 0
  {
    if s == "" then Some([])
    else
      match (HexDigit(s[0]), HexDigit(s[1]), HexDecode(s[2..]))
      case (Some(hi), Some(lo), Some(rest)) =>
        Some([hi * 16 + lo] + rest)
      case _ => None
  }

  /** `Bytes::serialize`. */
  function Serialize(bs: seq<Byte>): string {
    "0x" + HexEncode(bs)
  }

  /** `BytesVisitor::visit_str`. A string with a character outside ASCII is
      refused under either reading of its length, in bytes or in characters. */
  function Deserialize(s: string): Result<seq<Byte>, HexError> {
    if HasPrefix(s) && |s| % 2 == 0 then
      match HexDecode(s[2..])
      case None => Err(InvalidHex)
      case Some(bs) => Ok(bs)
    else Err(InvalidFormat)
  }

  function LowerChar(ch: char): char {
    if 'A' <= ch <= 'Z' then (ch as int + 32) as char else ch
  }

  function Lower(s: string): (r: string)
    ensures |r| == |s|
  {
    seq(|s|, i requires 0 <= i < |s| => LowerChar(s[i]))
  }

  /** A character is some digit's, in either case, exactly when its lower-case
      form is the one the encoder writes for that digit. */
  lemma DigitInverse(ch: char, d: nat)
    requires d < 16
    ensures HexDigit(ch) == Some(d) <==> LowerChar(ch) == DigitChar(d)
    ensures DigitChar(d) == "0123456789abcdef"[d]
  {
  }

  lemma DecodeStep(s: string, bs: seq<Byte>)
    requires |s| % 2 == 0 && s != "" && bs != []
    ensures HexDecode(s) == Some(bs) <==>
      && HexDigit(s[0]) == Some(bs[0] / 16) && HexDigit(s[1]) == Some(bs[0] % 16)
      && HexDecode(s[2..]) == Some(bs[1..])
  {
    assert bs == [bs[0]] + bs[1..];
  }

  lemma EncodeStep(s: string, bs: seq<Byte>)
    requires |s| % 2 == 0 && s != "" && bs != []
    ensures Lower(s) == HexEncode(bs) <==>
      && LowerChar(s[0]) == DigitChar(bs[0] / 16) && LowerChar(s[1]) == DigitChar(bs[0] % 16)
      && Lower(s[2..]) == HexEncode(bs[1..])
  {
    assert Lower(s) == [LowerChar(s[0]), LowerChar(s[1])] + Lower(s[2..]);
    assert Lower(s)[2..] == Lower(s[2..]) && HexEncode(bs)[2..] == HexEncode(bs[1..]);
    assert Lower(s)[0] == LowerChar(s[0]) && Lower(s)[1] == LowerChar(s[1]);
  }

  lemma {:induction false} HexInverse(s: string, bs: seq<Byte>)
    requires |s| % 2 == 0
    ensures HexDecode(s) == Some(bs) <==> Lower(s) == HexEncode(bs)
    decreases |s|
  {
    if s == "" {
    } else if bs == [] {
      assert Lower(s) != "";
    } else {
      HexInverse(s[2..], bs[1..]);
      DigitInverse(s[0], bs[0] / 16);
      DigitInverse(s[1], bs[0] % 16);
      DecodeStep(s, bs);
      EncodeStep(s, bs);
    }
  }

  lemma {:induction false} HexEncodeIsLower(bs: seq<Byte>)
    ensures Lower(HexEncode(bs)) == HexEncode(bs) && |HexEncode(bs)| == 2 * |bs|
  {
    if bs != [] {
      HexEncodeIsLower(bs[1..]);
      assert HexEncode(bs)[2..] == HexEncode(bs[1..]);
      assert Lower(HexEncode(bs)) == [DigitChar(bs[0] / 16), DigitChar(bs[0] % 16)] + Lower(HexEncode(bs[1..]));
    }
  }

  /** Reading what was written gives the bytes back. */
  lemma SerializeRoundTrip(bs: seq<Byte>)
    ensures Deserialize(Serialize(bs)) == Ok(bs)
  {
    HexEncodeIsLower(bs);
    HexInverse(HexEncode(bs), bs);
    Prefixed(HexEncode(bs));
  }

  /** A string reads as some bytes exactly when it starts with a lower-case
      prefix and its lower-case form is what those bytes are written as. */
  lemma DeserializeExactly(s: string, bs: seq<Byte>)
    ensures Deserialize(s) == Ok(bs) <==> HasPrefix(s) && Lower(s) == Serialize(bs)
  {
    HexEncodeIsLower(bs);
    if HasPrefix(s) {
      assert Lower(s) == "0x" + Lower(s[2..]) by {
        assert s[0] == s[..2][0] && s[1] == s[..2][1];
      }
      assert Lower(s)[2..] == Lower(s[2..]) && Serialize(bs)[2..] == HexEncode(bs);
      if |s| % 2 == 0 { HexInverse(s[2..], bs); }
    }
  }

  /** Two more digits are one more byte. */
  lemma {:induction false} HexDecodeAppend(s: string, hi: char, lo: char)
    requires |s| % 2 == 0
    ensures HexDecode(s + [hi, lo]) == match (HexDecode(s), HexDigit(hi), HexDigit(lo))
      case (Some(bytes), Some(x), Some(y)) => Some(bytes + [x * 16 + y])
      case _ => None
    decreases |s|
  {
    if s == "" {
      assert s + [hi, lo] == [hi, lo] && [hi, lo][2..] == "";
      if HexDigit(hi).Some? && HexDigit(lo).Some? {
        var byte := HexDigit(hi).value * 16 + HexDigit(lo).value;
        assert [byte] + [] == [] + [byte];
      }
    } else {
      HexDecodeAppend(s[2..], hi, lo);
      var longer := s + [hi, lo];
      assert longer[2..] == s[2..] + [hi, lo] && longer[0] == s[0] && longer[1] == s[1];
      match (HexDigit(s[0]), HexDigit(s[1]), HexDecode(s[2..]), HexDigit(hi), HexDigit(lo)) {
        case (Some(u), Some(v), Some(rest), Some(x), Some(y)) =>
          assert [u * 16 + v] + (rest + [x * 16 + y]) == [u * 16 + v] + rest + [x * 16 + y];
        case _ =>
      }
    }
  }

  /** A selector's digits and the hex form of bytes are the same notation: an even
      number of digits stands for the number that its bytes stand for. */
  lemma {:induction false} HexValueOfBytes(s: string)
    requires |s| % 2 == 0
    ensures AllHex(s) <==> HexDecode(s).Some?
    ensures AllHex(s) ==> HexValue(s) == FromBE(HexDecode(s).value)
    decreases |s|
  {
    if s != "" {
      var n := |s|;
      var init := s[..n - 2];
      HexValueOfBytes(init);
      HexDecodeAppend(init, s[n - 2], s[n - 1]);
      assert s == init + [s[n - 2], s[n - 1]] && s[..n - 1][..n - 2] == init;
      assert AllHex(s) <==> AllHex(init) && HexDigit(s[n - 2]).Some? && HexDigit(s[n - 1]).Some?;
      if AllHex(s) {
        var bytes := HexDecode(s).value;
        assert bytes[..|bytes| - 1] == HexDecode(init).value;
      }
    }
  }

  // ------------------------------------------------------------ block size

  datatype RpcBlock = RpcBlock(
    hash: H256, parentHash: H256, unclesHash: H256, author: H160, miner: H160, stateRoot: H256,
    transactionsRoot: H256, receiptsRoot: H256, number: U256, gasUsed: U256, gasLimit: U256,
    extraData: Octets, logsBloom: Bloom, timestamp: U256, difficulty: U256, size: nat)

  /** `RpcBlock::from(&Header)`. */
  function Summary(c: Crypto, h: HeaderRecord): RpcBlock {
    var f := h.fields;
    RpcBlock(h.Hash(c), f.parentHash, f.unclesHash, f.author, f.author, f.stateRoot, f.transactionsRoot,
             f.receiptsRoot, f.number, f.gasUsed, f.gasLimit, f.extraData, f.logBloom, f.timestamp,
             f.difficulty, |HeaderBytes(f)|)
  }

  lemma UintSizes(n: U256)
    ensures 1 <= Size(Uint(n)) <= 33
    ensures n < U64_LIMIT ==> Size(Uint(n)) <= 9
  {
    UintFits(n);
    ToBEWidths(n);
  }

  /** Without extra data the reported size is between 454 and 566 bytes, and it is
      three bytes of prefix plus the sum of the encoded fields. */
  lemma SummarySize(c: Crypto, h: HeaderRecord)
    requires h.fields.extraData == []
    ensures 454 <= Summary(c, h).size <= 566
    ensures Summary(c, h).size == 449 + Size(Uint(h.fields.difficulty)) + Size(Uint(h.fields.number))
      + Size(Uint(h.fields.gasLimit)) + Size(Uint(h.fields.gasUsed)) + Size(Uint(h.fields.timestamp))
  {
    var f := h.fields;
    UintSizes(f.difficulty);
    UintSizes(f.number);
    UintSizes(f.gasLimit);
    UintSizes(f.gasUsed);
    UintSizes(f.timestamp);
    ToBEWidths(PayloadSize(f));
  }

  /** Both bounds are reached. */
  lemma SummarySizeTight(c: Crypto, f: HeaderFields, big: U256, wide: U64)
    requires f.extraData == [] && big == U256_LIMIT - 1 && wide == U64_LIMIT - 1
    ensures |HeaderBytes(f.(difficulty := 0, number := 0, gasLimit := 0, gasUsed := 0, timestamp := 0))| == 454
    ensures |HeaderBytes(f.(difficulty := big, number := wide, gasLimit := big, gasUsed := big, timestamp := wide))| == 566
  {
    var low := f.(difficulty := 0, number := 0, gasLimit := 0, gasUsed := 0, timestamp := 0);
    var high := f.(difficulty := big, number := wide, gasLimit := big, gasUsed := big, timestamp := wide);
    SummarySize(c, HeaderRecord(low, None));
    SummarySize(c, HeaderRecord(high, None));
    WidestUints(big, wide);
    assert Size(Uint(0)) == 1;
  }

  lemma WidestUints(big: U256, wide: U64)
    requires big == U256_LIMIT - 1 && wide == U64_LIMIT - 1
    ensures Size(Uint(big)) == 33 && Size(Uint(wide)) == 9
  {
    Pow256Widths();
    Pow256PlusTwo(30);
    Pow256PlusTwo(6);
    assert Pow256(32) == 256 * Pow256(31) && Pow256(8) == 256 * Pow256(7);
    ToBELength(big, 31);
    ToBELength(big, 32);
    ToBELength(wide, 7);
    ToBELength(wide, 8);
  }

  /** What is reported about block `k` of any chain that a node builds: its own
      hash and number, its parent's hash, a state root that reads back to its
      number, and a size that depends on the number and the timestamp only. */
  lemma SummaryOfBlock(c: Crypto, db: Db, k: nat)
    requires Structural(c, db) && k < |db.blocks|
    ensures var f, r := db.blocks[k].header.fields, Summary(c, db.blocks[k].header);
      && r.hash == BlockHash(c, db.blocks, k) == c.keccak(HeaderBytes(f))
      && r.number == k && r.timestamp == f.timestamp && r.transactionsRoot == f.transactionsRoot
      && r.parentHash == (if k == 0 then Zeros(32) else BlockHash(c, db.blocks, k - 1))
      && r.stateRoot == r.receiptsRoot
      && (if k == 0 then r.stateRoot == c.keccak([0x80]) else FromBE(r.stateRoot) == k)
      && r.author == r.miner == Zeros(20) && r.unclesHash == c.keccak([0xc0]) && r.logsBloom == Zeros(256)
      && r.gasUsed == r.gasLimit == r.difficulty == 0 && r.extraData == []
      && r.size == 452 + Size(Uint(k)) + Size(Uint(f.timestamp)) <= 470
  {
    var h := db.blocks[k].header;
    assert GoodBlock(c, db.blocks, k);
    EmptyListHash(c);
    SummarySize(c, h);
    UintSizes(k);
    UintSizes(h.fields.timestamp);
    assert Size(Uint(0)) == 1;
    if k > 0 {
      ParentOf(c, db, k);
      StateRootOf(c, db, k);
    }
  }
}
