/**
 Recursive length prefix encoding: Appendix B of the Ethereum Yellow Paper.
 `Encode` is the recursive definition, `Size` its length computed without
 building any bytes, and `ParseItem` the strict decoder, which refuses every
 form that `Encode` would not have produced.
 */
module Rlp {
  import opened Bytes

  datatype Item = Data(bytes: seq<Byte>) | List(items: seq<Item>)

  const STRING_OFFSET: Byte := 0x80
  const LIST_OFFSET: Byte := 0xc0

  // ---------------------------------------------------------------- sizes

  function PrefixSize(len: nat): nat {
    if len < 56 then 1 else 1 + |ToBE(len)|
  }

  predicate IsSingleByte(bs: seq<Byte>) {
    |bs| == 1 && bs[0] < STRING_OFFSET
  }

  function Size(it: Item): nat {
    match it
    case Data(bs) => if IsSingleByte(bs) then 1 else PrefixSize(|bs|) + |bs|
    case List(items) => PrefixSize(SizeAll(items)) + SizeAll(items)
  }

  function SizeAll(items: seq<Item>): nat {
    if items == [] then 0 else Size(items[0]) + SizeAll(items[1..])
  }

  /** Whether every payload is short enough for an eight-byte length field. */
  predicate Fits(it: Item) {
    match it
    case Data(bs) => |bs| < U64_LIMIT
    case List(items) => SizeAll(items) < U64_LIMIT && FitsAll(items)
  }

  predicate FitsAll(items: seq<Item>) {
    items == [] || (Fits(items[0]) && FitsAll(items[1..]))
  }

  // ------------------------------------------------------------- encoding

  function Prefix(offset: Byte, len: nat): (r: seq<Byte>)
    requires offset <= LIST_OFFSET && len < U64_LIMIT
    ensures |r| == PrefixSize(len)
  {
    ToBEWidths(len);
    if len < 56 then [offset + len] else [offset + 55 + |ToBE(len)|] + ToBE(len)
  }

  function EncodeData(bs: seq<Byte>): (r: seq<Byte>)
    requires |bs| < U64_LIMIT
    ensures |r| == Size(Data(bs))
  {
    if IsSingleByte(bs) then bs else Prefix(STRING_OFFSET, |bs|) + bs
  }

  function Encode(it: Item): (r: seq<Byte>)
    requires Fits(it)
    ensures |r| == Size(it)
  {
    match it
    case Data(bs) => EncodeData(bs)
    case List(items) => Prefix(LIST_OFFSET, SizeAll(items)) + EncodeAll(items)
  }

  function EncodeAll(items: seq<Item>): (r: seq<Byte>)
    requires FitsAll(items)
    ensures |r| == SizeAll(items)
  {
    if items == [] then [] else Encode(items[0]) + EncodeAll(items[1..])
  }

  // ------------------------------------------------------ strict decoding

  datatype Parse = Parsed(item: Item, rest: seq<Byte>) | Malformed

  datatype Head = Head(size: nat, len: nat) | BadHead

  /** Reads a length prefix written with `offset`, refusing a leading zero in
      the length, a long form for a short payload and a payload that runs past
      the end of the input. */
  function ParseHead(bs: seq<Byte>, offset: Byte): (h: Head)
    requires bs != [] && offset <= bs[0] < offset + 64
    ensures h.Head? ==> 1 <= h.size && h.size + h.len <= |bs|
  {
    var b := bs[0] - offset;
    if b < 56 then
      if |bs| < 1 + b then BadHead else Head(1, b)
    else
      var k := b - 55;
      if |bs| < 1 + k || bs[1] == 0 then BadHead
      else
        var len := FromBE(bs[1..1 + k]);
        if len < 56 || |bs| < 1 + k + len then BadHead else Head(1 + k, len)
  }

  function ParseItem(bs: seq<Byte>): (p: Parse)
    ensures p.Parsed? ==> |p.rest| < |bs|
    decreases |bs|, 0
  {
    if bs == [] then Malformed
    else if bs[0] < STRING_OFFSET then Parsed(Data([bs[0]]), bs[1..])
    else if bs[0] < LIST_OFFSET then
      match ParseHead(bs, STRING_OFFSET)
      case BadHead => Malformed
      case Head(size, len) =>
        var payload := bs[size..size + len];
        if IsSingleByte(payload) then Malformed else Parsed(Data(payload), bs[size + len..])
    else
      match ParseHead(bs, LIST_OFFSET)
      case BadHead => Malformed
      case Head(size, len) =>
        match ParseAll(bs[size..size + len])
        case None => Malformed
        case Some(items) => Parsed(List(items), bs[size + len..])
  }

  function ParseAll(bs: seq<Byte>): Option<seq<Item>>
    decreases |bs|, 1
  {
    if bs == [] then Some([])
    else
      match ParseItem(bs)
      case Malformed => None
      case Parsed(it, rest) =>
        match ParseAll(rest)
        case None => None
        case Some(items) => Some([it] + items)
  }

  /** The input as exactly one item, with nothing after it. */
  function ParseExactly(bs: seq<Byte>): Option<Item> {
    match ParseItem(bs)
    case Malformed => None
    case Parsed(it, rest) => if rest == [] then Some(it) else None
  }

  // ------------------------------------------------------------- theorems

  lemma ParseHeadOfPrefix(offset: Byte, len: nat, tail: seq<Byte>)
    requires offset <= LIST_OFFSET && len < U64_LIMIT && len <= |tail|
    ensures var bs := Prefix(offset, len) + tail;
      offset <= bs[0] < offset + 64 && ParseHead(bs, offset) == Head(PrefixSize(len), len)
  {
    ToBEWidths(len);
    ToBERoundTrip(len);
    if len >= 56 {
      var bs := Prefix(offset, len) + tail;
      assert bs[1..1 + |ToBE(len)|] == ToBE(len);
      assert bs[1] == ToBE(len)[0];
    }
  }

  /** The prefix for a payload long enough to need a length field of its own. */
  lemma LongPrefix(offset: Byte, len: nat, field: seq<Byte>)
    requires offset <= LIST_OFFSET && len >= 56 && field == ToBE(len) && |field| <= 8
    ensures len < U64_LIMIT && Prefix(offset, len) == [offset + 55 + |field|] + field
  {
    ToBEWidths(len);
  }

  lemma PrefixOfParsedHead(bs: seq<Byte>, offset: Byte)
    requires bs != [] && offset <= LIST_OFFSET && offset <= bs[0] < offset + 64
    requires ParseHead(bs, offset).Head?
    ensures var h := ParseHead(bs, offset);
      h.len < U64_LIMIT && bs[..h.size] == Prefix(offset, h.len)
  {
    var h := ParseHead(bs, offset);
    if h.size == 1 {
      assert bs[..1] == [bs[0]];
    } else {
      FromBERoundTrip(bs[1..h.size]);
      LongPrefix(offset, h.len, bs[1..h.size]);
      HeadAndTail(bs, h.size);
    }
  }

  lemma HeadAndTail(bs: seq<Byte>, n: nat)
    requires 1 <= n <= |bs|
    ensures bs[..n] == [bs[0]] + bs[1..n]
  {
  }

  /** A concatenation of three parts can be cut into them again. */
  lemma ThreeParts(a: seq<Byte>, b: seq<Byte>, tail: seq<Byte>)
    ensures var bs := a + b + tail;
      bs == a + (b + tail) && bs[|a|..|a| + |b|] == b && bs[|a| + |b|..] == tail
  {
  }

  /** Decoding an encoding gives the item back and stops exactly at its end. */
  lemma {:induction false} ParseOfEncode(it: Item, tail: seq<Byte>)
    requires Fits(it)
    ensures ParseItem(Encode(it) + tail) == Parsed(it, tail)
    decreases it, 1
  {
    match it
    case Data(b) =>
      ParseOfData(b, tail);
    case List(items) =>
      ParseAllOfEncodeAll(items);
      ParseOfList(items, tail);
  }

  lemma ParseOfData(b: seq<Byte>, tail: seq<Byte>)
    requires |b| < U64_LIMIT
    ensures ParseItem(EncodeData(b) + tail) == Parsed(Data(b), tail)
  {
    if !IsSingleByte(b) {
      ParseHeadOfPrefix(STRING_OFFSET, |b|, b + tail);
      ThreeParts(Prefix(STRING_OFFSET, |b|), b, tail);
      StringPrefixRange(|b|);
    }
  }

  lemma ParseOfList(items: seq<Item>, tail: seq<Byte>)
    requires Fits(List(items)) && ParseAll(EncodeAll(items)) == Some(items)
    ensures ParseItem(Encode(List(items)) + tail) == Parsed(List(items), tail)
  {
    var body := EncodeAll(items);
    ParseHeadOfPrefix(LIST_OFFSET, |body|, body + tail);
    ThreeParts(Prefix(LIST_OFFSET, |body|), body, tail);
  }

  lemma StringPrefixRange(len: nat)
    requires len < U64_LIMIT
    ensures Prefix(STRING_OFFSET, len)[0] < LIST_OFFSET
  {
    ToBEWidths(len);
  }

  lemma ParseAllStep(bs: seq<Byte>, it: Item, rest: seq<Byte>)
    requires ParseItem(bs) == Parsed(it, rest) && ParseAll(rest).Some?
    ensures ParseAll(bs) == Some([it] + ParseAll(rest).value)
  {
  }

  lemma {:induction false} ParseAllOfEncodeAll(items: seq<Item>)
    requires FitsAll(items)
    ensures ParseAll(EncodeAll(items)) == Some(items)
    decreases items, 0
  {
    if items != [] {
      var rest := EncodeAll(items[1..]);
      ParseOfEncode(items[0], rest);
      ParseAllOfEncodeAll(items[1..]);
      ParseAllStep(Encode(items[0]) + rest, items[0], rest);
      assert [items[0]] + items[1..] == items;
    }
  }

  /** Whatever the strict decoder accepts is the encoding of what it returns. */
  lemma {:induction false} EncodeOfParse(bs: seq<Byte>)
    requires ParseItem(bs).Parsed?
    ensures Fits(ParseItem(bs).item)
    ensures bs == Encode(ParseItem(bs).item) + ParseItem(bs).rest
    decreases |bs|, 0
  {
    var p := ParseItem(bs);
    if bs[0] >= STRING_OFFSET {
      var offset := if bs[0] < LIST_OFFSET then STRING_OFFSET else LIST_OFFSET;
      PrefixOfParsedHead(bs, offset);
      var h := ParseHead(bs, offset);
      var payload := bs[h.size..h.size + h.len];
      assert bs == bs[..h.size] + payload + bs[h.size + h.len..];
      if bs[0] >= LIST_OFFSET {
        EncodeAllOfParseAll(payload);
      }
    }
  }

  lemma {:induction false} EncodeAllOfParseAll(bs: seq<Byte>)
    requires ParseAll(bs).Some?
    ensures FitsAll(ParseAll(bs).value) && EncodeAll(ParseAll(bs).value) == bs
    decreases |bs|, 1
  {
    if bs != [] {
      EncodeOfParse(bs);
      EncodeAllOfParseAll(ParseItem(bs).rest);
    }
  }

  /** No encoding is a proper prefix of another, so encodings can be told apart
      even with arbitrary bytes after them; in particular `Encode` is injective. */
  lemma PrefixFree(a: Item, b: Item, tailA: seq<Byte>, tailB: seq<Byte>)
    requires Fits(a) && Fits(b) && Encode(a) + tailA == Encode(b) + tailB
    ensures a == b && tailA == tailB
  {
    ParseOfEncode(a, tailA);
    ParseOfEncode(b, tailB);
  }

  lemma EncodeInjective(a: Item, b: Item)
    requires Fits(a) && Fits(b) && Encode(a) == Encode(b)
    ensures a == b
  {
    PrefixFree(a, b, [], []);
  }

  /** Strict single-item decoding and encoding are inverse to each other. */
  lemma ExactInverse(bs: seq<Byte>, it: Item)
    ensures ParseExactly(bs) == Some(it) <==> Fits(it) && bs == Encode(it)
  {
    if ParseExactly(bs) == Some(it) {
      EncodeOfParse(bs);
    }
    if Fits(it) && bs == Encode(it) {
      ParseOfEncode(it, []);
      assert Encode(it) + [] == bs;
    }
  }

  /** The bytes an item stands for, without its prefix. */
  function Payload(it: Item): seq<Byte>
    requires Fits(it)
  {
    match it
    case Data(bs) => bs
    case List(items) => EncodeAll(items)
  }

  /** The format itself. An encoding ends in its payload; what comes before is
      nothing for a byte below 0x80, one byte that holds the length for fewer
      than 56 bytes, and otherwise a byte that holds the length of the length
      followed by the length as a number without a leading zero. */
  lemma EncodingLayout(it: Item)
    requires Fits(it)
    ensures var e, payload := Encode(it), Payload(it); var n := |e| - |payload|;
      && 0 <= n <= 9 && e[n..] == payload
      && (n == 0 <==> it.Data? && |payload| == 1 && payload[0] < 0x80)
      && (n == 1 ==> |payload| < 56 && e[0] == (if it.Data? then 0x80 else 0xc0) + |payload|)
      && (n > 1 ==> |payload| >= 56 && e[0] == (if it.Data? then 0xb7 else 0xf7) + n - 1
                      && e[1] != 0 && FromBE(e[1..n]) == |payload|)
  {
    var payload := Payload(it);
    if !(it.Data? && IsSingleByte(payload)) {
      var offset := if it.Data? then STRING_OFFSET else LIST_OFFSET;
      PrefixLayout(offset, |payload|);
      Behind(Prefix(offset, |payload|), payload);
    }
  }

  lemma PrefixLayout(offset: Byte, len: nat)
    requires offset <= LIST_OFFSET && len < U64_LIMIT
    ensures var p := Prefix(offset, len);
      && 1 <= |p| <= 9
      && (|p| == 1 ==> len < 56 && p[0] == offset + len)
      && (|p| > 1 ==> len >= 56 && p[0] == offset + 54 + |p| && p[1] != 0 && FromBE(p[1..]) == len)
  {
    ToBEWidths(len);
    ToBERoundTrip(len);
    if len >= 56 {
      assert Prefix(offset, len)[1..] == ToBE(len) != [];
    }
  }

  lemma Behind(p: seq<Byte>, payload: seq<Byte>)
    requires p != []
    ensures (p + payload)[|p|..] == payload && (p + payload)[1..|p|] == p[1..]
  {
  }

  // ---------------------------------------------------- appending to lists

  lemma AppendItem(items: seq<Item>, it: Item)
    ensures FitsAll(items + [it]) <==> FitsAll(items) && Fits(it)
    ensures SizeAll(items + [it]) == SizeAll(items) + Size(it)
    ensures FitsAll(items) && Fits(it) ==> EncodeAll(items + [it]) == EncodeAll(items) + Encode(it)
  {
    AppendSizes(items, it);
    if FitsAll(items) && Fits(it) { AppendBytes(items, it); }
  }

  lemma {:induction false} AppendSizes(items: seq<Item>, it: Item)
    ensures FitsAll(items + [it]) <==> FitsAll(items) && Fits(it)
    ensures SizeAll(items + [it]) == SizeAll(items) + Size(it)
  {
    if items == [] {
      assert [it][1..] == [];
    } else {
      AppendSizes(items[1..], it);
      assert (items + [it])[1..] == items[1..] + [it];
    }
  }

  lemma {:induction false} AppendBytes(items: seq<Item>, it: Item)
    requires FitsAll(items) && Fits(it) && FitsAll(items + [it])
    ensures EncodeAll(items + [it]) == EncodeAll(items) + Encode(it)
  {
    if items == [] {
      assert [] + [it] == [it] && [it][1..] == [];
    } else {
      var longer := items + [it];
      assert longer[0] == items[0] && longer[1..] == items[1..] + [it];
      AppendBytes(items[1..], it);
      assert EncodeAll(longer) == Encode(longer[0]) + EncodeAll(longer[1..]);
    }
  }

  lemma {:induction false} EachFits(items: seq<Item>)
    requires FitsAll(items)
    ensures forall i :: 0 <= i < |items| ==> Fits(items[i])
  {
    if items != [] {
      EachFits(items[1..]);
      assert forall i :: 0 < i < |items| ==> items[i] == items[1..][i - 1];
    }
  }

  /** Items as wide as a 32-byte hash or narrower. */
  lemma {:induction false} SmallItems(items: seq<Item>)
    requires forall i :: 0 <= i < |items| ==> Fits(items[i]) && Size(items[i]) <= 33
    ensures FitsAll(items) && SizeAll(items) <= 33 * |items|
  {
    if items != [] {
      SmallItems(items[1..]);
    }
  }
}
