/** The block selector of the RPC interface, as read from a JSON string or object. */
module BlockSelector {
  import opened Bytes

  datatype BlockNumber = Hash(hash: H256, requireCanonical: bool) | Num(n: U64) | Latest | Earliest | Pending

  datatype Json = Str(text: string) | Bool(value: bool) | Other

  datatype Entry = Entry(key: string, value: Json)

  datatype SelectorError = IllTyped | InvalidNumber | MissingPrefix | UnknownKey | InvalidInput

  type Selected = Result<BlockNumber, SelectorError>

  // ---------------------------------------------------------- hex numbers

  function HexDigit(ch: char): (d: Option<nat>)
    ensures d.Some? ==> d.value < 16
  {
    if '0' <= ch <= '9' then Some(ch as int - '0' as int)
    else if 'a' <= ch <= 'f' then Some(ch as int - 'a' as int + 10)
    else if 'A' <= ch <= 'F' then Some(ch as int - 'A' as int + 10)
    else None
  }

  predicate AllHex(s: string) {
    forall i :: 0 <= i < |s| ==> HexDigit(s[i]).Some?
  }

  /** The number written by hex digits, without any bound. */
  function HexValue(s: string): nat
    requires AllHex(s)
  {
    if s == "" then 0 else 16 * HexValue(s[..|s| - 1]) + HexDigit(s[|s| - 1]).value
  }

  /** Unsigned parsing in the standard library takes one leading plus sign. */
  function Digits(s: string): string {
    if s != "" && s[0] == '+' then s[1..] else s
  }

  /** What `u64::from_str_radix(s, 16)` accepts, and as which number. */
  function HexU64(s: string): Option<U64> {
    var d := Digits(s);
    if d == "" || !AllHex(d) || HexValue(d) >= U64_LIMIT then None else Some(HexValue(d))
  }

  lemma {:induction false} HexPrefixBelow(s: string, i: nat)
    requires i <= |s| && AllHex(s)
    ensures AllHex(s[..i]) && HexValue(s[..i]) <= HexValue(s)
    decreases |s|
  {
    if i < |s| {
      HexPrefixBelow(s[..|s| - 1], i);
      assert s[..|s| - 1][..i] == s[..i];
    } else {
      assert s[..i] == s;
    }
  }

  /** Digit by digit with checked arithmetic, as the library does it. */
  method ParseHexU64(s: string) returns (r: Option<U64>)
    ensures r == HexU64(s)
  {
    var d := Digits(s);
    if d == "" {
      return None;
    }
    var v: U64 := 0;
    for i := 0 to |d|
      invariant AllHex(d[..i]) && v == HexValue(d[..i])
    {
      assert d[..i + 1][..i] == d[..i];
      if HexDigit(d[i]).None? {
        return None;
      }
      var next := v * 16 + HexDigit(d[i]).value;
      if next >= U64_LIMIT {
        if AllHex(d) {
          HexPrefixBelow(d, i + 1);
        }
        return None;
      }
      v := next;
    }
    assert d[..|d|] == d;
    r := Some(v);
  }

  /** Leading zeros, however many, do not change the number. */
  lemma {:induction false} LeadingZeros(k: nat, s: string)
    requires AllHex(s)
    ensures AllHex(seq(k, _ => '0') + s) && HexValue(seq(k, _ => '0') + s) == HexValue(s)
    decreases k + |s|
  {
    var z := seq(k, _ => '0');
    if s != "" {
      LeadingZeros(k, s[..|s| - 1]);
      assert (z + s)[..k + |s| - 1] == z + s[..|s| - 1];
    } else if k > 0 {
      LeadingZeros(k - 1, "");
      assert (z + s)[..k - 1] == seq(k - 1, _ => '0') + "";
    }
  }

  predicate IsHex(d: string, n: nat) {
    d != "" && AllHex(d) && HexValue(d) == n
  }

  /** A number is read exactly from its hex digits, with or without one plus sign. */
  lemma HexU64Exactly(s: string, n: U64)
    ensures HexU64(s) == Some(n) <==> IsHex(s, n) || (s != "" && s[0] == '+' && IsHex(s[1..], n))
  {
    assert HexDigit('+').None?;
  }

  // --------------------------------------------------------------- strings

  predicate HasPrefix(s: string) {
    |s| >= 2 && s[..2] == "0x"
  }

  function NumberOf(s: string): Selected {
    if !HasPrefix(s) then Err(MissingPrefix)
    else
      match HexU64(s[2..])
      case None => Err(InvalidNumber)
      case Some(n) => Ok(Num(n))
  }

  function VisitStr(s: string): Selected {
    if s == "latest" then Ok(Latest)
    else if s == "earliest" then Ok(Earliest)
    else if s == "pending" then Ok(Pending)
    else NumberOf(s)
  }

  /** Which strings select what: three keywords, and a prefix followed by a number. */
  lemma VisitStrExactly(s: string, n: U64)
    ensures VisitStr(s) == Ok(Latest) <==> s == "latest"
    ensures VisitStr(s) == Ok(Earliest) <==> s == "earliest"
    ensures VisitStr(s) == Ok(Pending) <==> s == "pending"
    ensures VisitStr(s) == Ok(Num(n)) <==>
      |s| > 2 && s[0] == '0' && s[1] == 'x' && (IsHex(s[2..], n) || (s[2] == '+' && IsHex(s[3..], n)))
    ensures VisitStr(s).Ok? ==> !VisitStr(s).value.Hash?
    ensures VisitStr(s) == Err(MissingPrefix) <==>
      s !in ["latest", "earliest", "pending"] && !(|s| >= 2 && s[0] == '0' && s[1] == 'x')
  {
    assert |s| >= 2 ==> (s[..2] == "0x" <==> s[0] == '0' && s[1] == 'x');
    assert "latest"[0] == 'l' && "earliest"[0] == 'e' && "pending"[0] == 'p';
    if HasPrefix(s) {
      HexU64Exactly(s[2..], n);
      assert |s| > 2 ==> s[2..][1..] == s[3..] && s[2..][0] == s[2];
    }
  }

  /** A prefixed number with any leading zeros selects its value exactly when
      that is below 2^64. */
  lemma PaddedNumber(k: nat, d: string)
    requires AllHex(d) && d != ""
    ensures VisitStr("0x" + (seq(k, _ => '0') + d))
         == if HexValue(d) < U64_LIMIT then Ok(Num(HexValue(d))) else Err(InvalidNumber)
  {
    LeadingZeros(k, d);
    PrefixedNumber(seq(k, _ => '0') + d);
  }

  lemma Prefixed(d: string)
    ensures HasPrefix("0x" + d) && ("0x" + d)[2..] == d
  {
    assert ("0x" + d)[..2] == "0x";
  }

  lemma PrefixedNumber(d: string)
    requires AllHex(d) && d != ""
    ensures VisitStr("0x" + d) == if HexValue(d) < U64_LIMIT then Ok(Num(HexValue(d))) else Err(InvalidNumber)
  {
    Prefixed(d);
    assert HexDigit(d[0]).Some?;
    assert ("0x" + d)[0] == '0' && "latest"[0] == 'l' && "earliest"[0] == 'e' && "pending"[0] == 'p';
  }

  // --------------------------------------------------------------- objects

  type HashParser = string -> Option<H256>

  function HashOf(parse: HashParser, v: Json): Option<H256> {
    match v
    case Str(text) => parse(text)
    case _ => None
  }

  /** An entry that ends the reading of the object: the block number, an unknown
      key, or a value of the wrong type. */
  predicate Decisive(parse: HashParser, e: Entry) {
    if e.key == "blockHash" then HashOf(parse, e.value).None?
    else if e.key == "requireCanonical" then !e.value.Bool?
    else true
  }

  function Verdict(e: Entry): Selected {
    if e.key == "blockNumber" then
      match e.value
      case Str(text) => NumberOf(text)
      case _ => Err(IllTyped)
    else if e.key == "blockHash" || e.key == "requireCanonical" then Err(IllTyped)
    else Err(UnknownKey)
  }

  function FirstDecisive(parse: HashParser, es: seq<Entry>): Option<Entry> {
    if es == [] then None
    else if Decisive(parse, es[0]) then Some(es[0])
    else FirstDecisive(parse, es[1..])
  }

  function LastOf(es: seq<Entry>, key: string): Option<Json> {
    if es == [] then None
    else if es[|es| - 1].key == key then Some(es[|es| - 1].value)
    else LastOf(es[..|es| - 1], key)
  }

  function Canonical(v: Option<Json>): bool {
    v.Some? && v.value.Bool? && v.value.value
  }

  /** The selection an object stands for. */
  function Selection(parse: HashParser, es: seq<Entry>): Selected {
    match FirstDecisive(parse, es)
    case Some(e) => Verdict(e)
    case None =>
      match LastOf(es, "blockHash")
      case None => Err(InvalidInput)
      case Some(v) =>
        match HashOf(parse, v)
        case None => Err(IllTyped)
        case Some(hash) => Ok(Hash(hash, Canonical(LastOf(es, "requireCanonical"))))
  }

  lemma {:induction false} FirstDecisiveAt(parse: HashParser, es: seq<Entry>, i: nat)
    requires i < |es| && Decisive(parse, es[i])
    requires forall j :: 0 <= j < i ==> !Decisive(parse, es[j])
    ensures FirstDecisive(parse, es) == Some(es[i])
  {
    if i > 0 {
      FirstDecisiveAt(parse, es[1..], i - 1);
    }
  }

  lemma {:induction false} NoneDecisive(parse: HashParser, es: seq<Entry>)
    ensures FirstDecisive(parse, es) == None <==> forall j :: 0 <= j < |es| ==> !Decisive(parse, es[j])
  {
    if es != [] {
      NoneDecisive(parse, es[1..]);
      assert forall j :: 0 < j < |es| ==> es[j] == es[1..][j - 1];
    }
  }

  lemma {:induction false} LastOfParsed(parse: HashParser, es: seq<Entry>)
    requires forall j :: 0 <= j < |es| ==> !Decisive(parse, es[j])
    ensures LastOf(es, "blockHash").Some? ==> HashOf(parse, LastOf(es, "blockHash").value).Some?
  {
    if es != [] {
      LastOfParsed(parse, es[..|es| - 1]);
    }
  }

  /** The visitor's loop over the object's entries. */
  method VisitMap(parse: HashParser, es: seq<Entry>) returns (r: Selected)
    ensures r == Selection(parse, es)
  {
    var requireCanonical := false;
    var blockNumber: Option<U64> := None;
    var blockHash: Option<H256> := None;
    var i := 0;
    while i < |es|
      invariant 0 <= i <= |es|
      invariant forall j :: 0 <= j < i ==> !Decisive(parse, es[j])
      invariant requireCanonical == Canonical(LastOf(es[..i], "requireCanonical"))
      invariant blockHash == match LastOf(es[..i], "blockHash") { case None => None case Some(v) => HashOf(parse, v) }
    {
      var e := es[i];
      assert es[..i + 1][..i] == es[..i];
      if Decisive(parse, e) {
        FirstDecisiveAt(parse, es, i);
      }
      if e.key == "blockNumber" {
        if !e.value.Str? {
          return Err(IllTyped);
        }
        if !HasPrefix(e.value.text) {
          return Err(MissingPrefix);
        }
        blockNumber := ParseHexU64(e.value.text[2..]);
        if blockNumber.None? {
          return Err(InvalidNumber);
        }
        return Ok(Num(blockNumber.value));
      } else if e.key == "blockHash" {
        blockHash := HashOf(parse, e.value);
        if blockHash.None? {
          return Err(IllTyped);
        }
      } else if e.key == "requireCanonical" {
        if !e.value.Bool? {
          return Err(IllTyped);
        }
        requireCanonical := e.value.value;
      } else {
        return Err(UnknownKey);
      }
      i := i + 1;
    }
    assert es[..|es|] == es;
    NoneDecisive(parse, es);
    LastOfParsed(parse, es);
    match blockHash {
      case None => r := Err(InvalidInput);
      case Some(hash) => r := Ok(Hash(hash, requireCanonical));
    }
  }

  /** Nothing after the first decisive entry matters. */
  lemma DecisiveEntryDecides(parse: HashParser, es: seq<Entry>, i: nat, rest: seq<Entry>)
    requires i < |es| && Decisive(parse, es[i])
    requires forall j :: 0 <= j < i ==> !Decisive(parse, es[j])
    ensures Selection(parse, es) == Verdict(es[i]) == Selection(parse, es[..i + 1] + rest)
  {
    FirstDecisiveAt(parse, es, i);
    FirstDecisiveAt(parse, es[..i + 1] + rest, i);
  }

  predicate IsLast(es: seq<Entry>, key: string, i: int) {
    0 <= i < |es| && es[i].key == key && forall j :: i < j < |es| ==> es[j].key != key
  }

  lemma {:induction false} LastOfExactly(es: seq<Entry>, key: string)
    ensures LastOf(es, key) == None <==> forall i :: 0 <= i < |es| ==> es[i].key != key
    ensures forall i :: IsLast(es, key, i) ==> LastOf(es, key) == Some(es[i].value)
    ensures LastOf(es, key).Some? ==> exists i :: IsLast(es, key, i)
  {
    if es != [] {
      var init := es[..|es| - 1];
      LastOfExactly(init, key);
      if es[|es| - 1].key == key {
        assert IsLast(es, key, |es| - 1);
      } else {
        assert forall i :: IsLast(es, key, i) <==> IsLast(init, key, i);
      }
    }
  }

  predicate IsFirstDecisive(parse: HashParser, es: seq<Entry>, i: int) {
    0 <= i < |es| && Decisive(parse, es[i]) && forall j :: 0 <= j < i ==> !Decisive(parse, es[j])
  }

  lemma {:induction false} DecisiveIndex(parse: HashParser, es: seq<Entry>)
    ensures FirstDecisive(parse, es).Some? ==> exists i :: IsFirstDecisive(parse, es, i)
  {
    if es != [] && FirstDecisive(parse, es).Some? {
      if Decisive(parse, es[0]) {
        assert IsFirstDecisive(parse, es, 0);
      } else {
        DecisiveIndex(parse, es[1..]);
        var i :| IsFirstDecisive(parse, es[1..], i);
        assert forall j :: 0 < j < |es| ==> es[j] == es[1..][j - 1];
        assert IsFirstDecisive(parse, es, i + 1);
      }
    }
  }

  /** An object selects a number exactly when its first decisive entry is a block
      number that reads as it. */
  lemma NumberSelected(parse: HashParser, es: seq<Entry>, n: U64)
    ensures Selection(parse, es) == Ok(Num(n)) <==>
      exists i :: IsFirstDecisive(parse, es, i) && es[i].key == "blockNumber"
                  && es[i].value.Str? && NumberOf(es[i].value.text) == Ok(Num(n))
  {
    DecisiveIndex(parse, es);
    forall i | IsFirstDecisive(parse, es, i)
      ensures FirstDecisive(parse, es) == Some(es[i])
    {
      FirstDecisiveAt(parse, es, i);
    }
  }

  /** An object is refused for an unknown key exactly when its first decisive
      entry has one, and for want of input exactly when nothing in it is decisive
      and no entry gives a hash. */
  lemma ObjectRefused(parse: HashParser, es: seq<Entry>)
    ensures Selection(parse, es) == Err(UnknownKey) <==>
      exists i :: IsFirstDecisive(parse, es, i) && es[i].key !in ["blockNumber", "blockHash", "requireCanonical"]
    ensures Selection(parse, es) == Err(InvalidInput) <==>
      forall i :: 0 <= i < |es| ==> !Decisive(parse, es[i]) && es[i].key != "blockHash"
  {
    DecisiveIndex(parse, es);
    NoneDecisive(parse, es);
    LastOfExactly(es, "blockHash");
    forall i | IsFirstDecisive(parse, es, i)
      ensures FirstDecisive(parse, es) == Some(es[i])
    {
      FirstDecisiveAt(parse, es, i);
    }
  }

  /** An object selects a hash exactly when every entry is a well-typed hash or
      flag, the last hash is it, and the flag given with it is that of the last
      flag entry, or false when there is none. */
  lemma HashSelected(parse: HashParser, es: seq<Entry>, hash: H256, flag: bool)
    ensures Selection(parse, es) == Ok(Hash(hash, flag)) <==>
      && (forall i :: 0 <= i < |es| ==> !Decisive(parse, es[i]))
      && (exists i :: IsLast(es, "blockHash", i) && HashOf(parse, es[i].value) == Some(hash))
      && (flag <==> exists i :: IsLast(es, "requireCanonical", i) && es[i].value == Bool(true))
  {
    NoneDecisive(parse, es);
    LastOfExactly(es, "blockHash");
    LastOfExactly(es, "requireCanonical");
  }

  function ForKey(es: seq<Entry>, key: string): seq<Entry> {
    if es == [] then []
    else ForKey(es[..|es| - 1], key) + if es[|es| - 1].key == key then [es[|es| - 1]] else []
  }

  lemma {:induction false} LastOfForKey(es: seq<Entry>, key: string)
    ensures LastOf(ForKey(es, key), key) == LastOf(es, key)
  {
    if es != [] {
      LastOfForKey(es[..|es| - 1], key);
      if es[|es| - 1].key != key {
        assert ForKey(es, key) == ForKey(es[..|es| - 1], key);
      }
    }
  }

  /** Without a decisive entry only the last hash and the last canonical flag
      count, however the two keys are interleaved. */
  lemma InterleavingOfKeysIrrelevant(parse: HashParser, a: seq<Entry>, b: seq<Entry>)
    requires FirstDecisive(parse, a) == None && FirstDecisive(parse, b) == None
    requires ForKey(a, "blockHash") == ForKey(b, "blockHash")
    requires ForKey(a, "requireCanonical") == ForKey(b, "requireCanonical")
    ensures Selection(parse, a) == Selection(parse, b)
  {
    LastOfForKey(a, "blockHash");
    LastOfForKey(b, "blockHash");
    LastOfForKey(a, "requireCanonical");
    LastOfForKey(b, "requireCanonical");
  }
}
