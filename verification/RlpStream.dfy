/**
 The streaming writer of the `rlp` crate that every encoder of the node appends
 to. A list is opened with the number of items it will hold, a placeholder byte
 is written, and when the last item has been appended the real length prefix is
 spliced in front of the payload; the finished list then counts as one item of
 the list around it.

 The ghost `view` records what has been written as a stack of item lists.
 `Push` says what appending one item does to that stack, and the class proves
 that the bytes in `buffer` are always the encoding of the view.
 */
module RlpStreams {
  import opened Bytes
  import opened Rlp

  /** What has been written: the finished items of the stream itself, or an open
      list for `max` items that holds `items` so far, inside an outer view. */
  datatype View = Root(done: seq<Item>) | Open(outer: View, max: nat, items: seq<Item>)

  datatype ListInfo = ListInfo(position: nat, current: nat, max: nat)

  const EMPTY := Root([])

  /** Appending one item, closing every list that it completes. */
  function Push(v: View, it: Item): View {
    match v
    case Root(done) => Root(done + [it])
    case Open(outer, max, items) =>
      if |items| + 1 == max then Push(outer, List(items + [it]))
      else Open(outer, max, items + [it])
  }

  function Begin(v: View, n: nat): View {
    if n == 0 then Push(v, List([])) else Open(v, n, [])
  }

  /** Whether the item, and every list it completes, has an encoding. */
  predicate CanPush(v: View, it: Item) {
    && Fits(it)
    && (v.Open? && |v.items| + 1 == v.max ==> CanPush(v.outer, List(v.items + [it])))
  }

  predicate WellFormed(v: View) {
    match v
    case Root(done) => FitsAll(done)
    case Open(outer, max, items) => FitsAll(items) && |items| < max && WellFormed(outer)
  }

  /** The bytes of a view: finished items, then each open list as a placeholder
      byte followed by the items it already holds. */
  function Flat(v: View): seq<Byte>
    requires WellFormed(v)
  {
    match v
    case Root(done) => EncodeAll(done)
    case Open(outer, _, items) => Flat(outer) + [0] + EncodeAll(items)
  }

  function Infos(v: View): (r: seq<ListInfo>)
    requires WellFormed(v)
    ensures r == [] <==> v.Root?
  {
    match v
    case Root(_) => []
    case Open(outer, max, items) => Infos(outer) + [ListInfo(|Flat(outer)| + 1, |items|, max)]
  }

  /** Appending several items one after the other. */
  function PushAll(v: View, items: seq<Item>): View
    decreases |items|
  {
    if items == [] then v else PushAll(Push(v, items[0]), items[1..])
  }

  predicate CanPushAll(v: View, items: seq<Item>)
    decreases |items|
  {
    items == [] || (CanPush(v, items[0]) && CanPushAll(Push(v, items[0]), items[1..]))
  }

  /** Appending `n` items to a list opened for `n` is one append of the finished
      list to whatever was being written: the law every list writer relies on. */
  lemma {:induction false} ListOfPushes(v: View, done: seq<Item>, rest: seq<Item>)
    requires rest != []
    ensures PushAll(Open(v, |done| + |rest|, done), rest) == Push(v, List(done + rest))
    ensures CanPush(v, List(done + rest)) ==> CanPushAll(Open(v, |done| + |rest|, done), rest)
    decreases |rest|
  {
    if CanPush(v, List(done + rest)) {
      EachFits(done + rest);
      assert (done + rest)[|done|] == rest[0];
    }
    if |rest| == 1 {
      assert rest == [rest[0]];
    } else {
      ListOfPushes(v, done + [rest[0]], rest[1..]);
      assert done + [rest[0]] + rest[1..] == done + rest;
    }
  }

  lemma {:induction false} PushAllConcat(v: View, a: seq<Item>, b: seq<Item>)
    ensures PushAll(v, a + b) == PushAll(PushAll(v, a), b)
    ensures CanPushAll(v, a + b) <==> CanPushAll(v, a) && CanPushAll(PushAll(v, a), b)
    decreases |a|
  {
    if a == [] {
      assert a + b == b;
    } else {
      PushAllConcat(Push(v, a[0]), a[1..], b);
      assert (a + b)[1..] == a[1..] + b;
    }
  }

  /** The same law for a list whose items are written in two parts. */
  lemma ListOfTwoParts(v: View, a: seq<Item>, b: seq<Item>)
    requires a + b != [] && CanPush(v, List(a + b))
    ensures var v0 := Open(v, |a + b|, []);
      && CanPushAll(v0, a) && CanPushAll(PushAll(v0, a), b)
      && PushAll(PushAll(v0, a), b) == Push(v, List(a + b))
  {
    assert [] + (a + b) == a + b;
    ListOfPushes(v, [], a + b);
    PushAllConcat(Open(v, |a + b|, []), a, b);
  }

  lemma ThreePushes(v: View, f: seq<Item>)
    requires |f| == 3 && CanPushAll(v, f)
    ensures var v1 := Push(v, f[0]); var v2 := Push(v1, f[1]);
      && CanPush(v, f[0]) && CanPush(v1, f[1]) && CanPush(v2, f[2])
      && PushAll(v, f) == Push(v2, f[2])
  {
    var v1 := Push(v, f[0]);
    var v2 := Push(v1, f[1]);
    assert CanPushAll(v1, f[1..]) && PushAll(v, f) == PushAll(v1, f[1..]);
    assert f[1..][1..] == [f[2]];
    assert CanPushAll(v2, [f[2]]) && PushAll(v1, f[1..]) == PushAll(v2, [f[2]]);
    assert PushAll(v2, [f[2]]) == PushAll(Push(v2, f[2]), []);
  }

  lemma SixPushes(v: View, f: seq<Item>)
    requires |f| == 6 && CanPushAll(v, f)
    ensures var v1 := Push(v, f[0]); var v2 := Push(v1, f[1]); var v3 := Push(v2, f[2]);
      var v4 := Push(v3, f[3]); var v5 := Push(v4, f[4]);
      && CanPush(v, f[0]) && CanPush(v1, f[1]) && CanPush(v2, f[2])
      && CanPush(v3, f[3]) && CanPush(v4, f[4]) && CanPush(v5, f[5])
      && PushAll(v, f) == Push(v5, f[5])
  {
    assert f == f[..3] + f[3..];
    PushAllConcat(v, f[..3], f[3..]);
    ThreePushes(v, f[..3]);
    ThreePushes(PushAll(v, f[..3]), f[3..]);
  }

  /** A fresh stream that has been given one item holds its encoding. */
  lemma EncodeOne(it: Item)
    ensures FitsAll([it]) <==> Fits(it)
    ensures Fits(it) ==> EncodeAll([it]) == Encode(it)
  {
    AppendItem([], it);
    assert [] + [it] == [it];
  }

  /** The innermost list, with the bytes of one more item after its own. */
  lemma TopOfView(v: View, it: Item)
    requires v.Open? && WellFormed(v) && Fits(it)
    ensures FitsAll(v.items + [it])
    ensures Flat(v) + Encode(it) == Flat(v.outer) + [0] + EncodeAll(v.items + [it])
    ensures Infos(v)[..|Infos(v)| - 1] == Infos(v.outer)
  {
    AppendItem(v.items, it);
  }

  /** Putting a short list's prefix where the placeholder byte is. */
  lemma ClosedShort(before: seq<Byte>, body: seq<Byte>)
    requires |body| < 56
    ensures (before + [0] + body)[|before| := LIST_OFFSET + |body|] == before + (Prefix(LIST_OFFSET, |body|) + body)
  {
  }

  /** Splicing a long list's prefix in where the placeholder byte is. */
  lemma ClosedLong(before: seq<Byte>, body: seq<Byte>, field: seq<Byte>)
    requires 56 <= |body| < U64_LIMIT && field == ToBE(|body|)
    ensures var buffer := before + [0] + body; var n := |before|;
      && |field| <= 8
      && buffer[..n] + [LIST_OFFSET + 55 + |field|] + field + buffer[n + 1..]
         == before + (Prefix(LIST_OFFSET, |body|) + body)
  {
    ToBEWidths(|body|);
    SplicedIn(before, [LIST_OFFSET + 55 + |field|], field, body);
  }

  lemma SplicedIn(before: seq<Byte>, first: seq<Byte>, field: seq<Byte>, body: seq<Byte>)
    ensures var buffer := before + [0] + body;
      buffer[..|before|] + first + field + buffer[|before| + 1..] == before + (first + field + body)
  {
    var buffer := before + [0] + body;
    assert buffer[..|before|] == before && buffer[|before| + 1..] == body;
  }

  class RlpStream {
    var buffer: seq<Byte>
    var unfinished: seq<ListInfo>
    ghost var view: View

    ghost predicate Valid()
      reads this
    {
      WellFormed(view) && buffer == Flat(view) && unfinished == Infos(view)
    }

    constructor ()
      ensures Valid() && view == EMPTY
    {
      buffer, unfinished := [], [];
      view := EMPTY;
    }

    /** `RlpStream::new_list(n)`. */
    constructor NewList(n: nat)
      ensures Valid() && view == Begin(EMPTY, n)
    {
      buffer, unfinished := [], [];
      view := EMPTY;
      new;
      BeginList(n);
    }

    method BeginList(n: nat)
      requires Valid()
      requires n == 0 ==> CanPush(view, List([]))
      modifies this
      ensures Valid() && view == Begin(old(view), n)
    {
      if n == 0 {
        buffer := buffer + [LIST_OFFSET];
        NoteAppended(List([]));
      } else {
        buffer := buffer + [0];
        unfinished := unfinished + [ListInfo(|buffer|, 0, n)];
        view := Open(view, n, []);
      }
    }

    /** Appends a byte string: addresses, hashes, blooms and raw data. */
    method AppendData(bs: seq<Byte>)
      requires Valid() && CanPush(view, Data(bs))
      modifies this
      ensures Valid() && view == Push(old(view), Data(bs))
    {
      buffer := buffer + EncodeData(bs);
      NoteAppended(Data(bs));
    }

    /** Appends an integer as its minimal big-endian byte string. */
    method AppendUint(n: nat)
      requires Valid() && CanPush(view, Data(ToBE(n)))
      modifies this
      ensures Valid() && view == Push(old(view), Data(ToBE(n)))
    {
      AppendData(ToBE(n));
    }

    /** Counts the item whose bytes were just written, and closes the innermost
        list when that was its last one. */
    method NoteAppended(ghost it: Item)
      requires WellFormed(view) && CanPush(view, it)
      requires buffer == Flat(view) + Encode(it) && unfinished == Infos(view)
      modifies this
      ensures Valid() && view == Push(old(view), it)
      decreases |unfinished|
    {
      if unfinished == [] {
        AppendItem(view.done, it);
        view := Root(view.done + [it]);
      } else {
        ghost var items := view.items;
        TopOfView(view, it);
        var top := unfinished[|unfinished| - 1];
        top := top.(current := top.current + 1);
        if top.current == top.max {
          unfinished := unfinished[..|unfinished| - 1];
          CloseList(top.position, Flat(view.outer), items + [it]);
          view := view.outer;
          NoteAppended(List(items + [it]));
        } else {
          unfinished := unfinished[..|unfinished| - 1] + [top];
          view := Open(view.outer, view.max, items + [it]);
        }
      }
    }

    /** Replaces the placeholder byte before `position` by the list prefix for
        everything written since. */
    method CloseList(position: nat, ghost before: seq<Byte>, ghost items: seq<Item>)
      requires Fits(List(items)) && position == |before| + 1
      requires buffer == before + [0] + EncodeAll(items)
      modifies `buffer
      ensures buffer == before + Encode(List(items))
    {
      var len := |buffer| - position;
      if len < 56 {
        ClosedShort(before, EncodeAll(items));
        buffer := buffer[position - 1 := LIST_OFFSET + len];
      } else {
        var field := ToBE(len);
        ClosedLong(before, EncodeAll(items), field);
        buffer := buffer[..position - 1] + [LIST_OFFSET + 55 + |field|] + field + buffer[position..];
      }
    }

    /** The finished bytes; the crate panics here while a list is still open. */
    method Out() returns (bytes: seq<Byte>)
      requires Valid() && unfinished == []
      ensures FitsAll(view.done) && bytes == EncodeAll(view.done)
    {
      bytes := buffer;
    }
  }
}
