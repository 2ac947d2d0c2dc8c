/** Machine widths, fixed-size hashes and minimal big-endian integers. */
module Bytes {

  type Byte = n: int | 0 <= n < 256

  const U64_LIMIT := 0x1_0000_0000_0000_0000
  const U256_LIMIT := 0x1_0000_0000_0000_0000_0000_0000_0000_0000_0000_0000_0000_0000_0000_0000_0000_0000

  type U64 = n: int | 0 <= n < U64_LIMIT
  type U256 = n: int | 0 <= n < U256_LIMIT

  /** The contents of a `Vec<u8>`, whose length never reaches 2^63. */
  type Octets = s: seq<Byte> | |s| < 0x8000_0000_0000_0000

  type H160 = s: seq<Byte> | |s| == 20 witness Zeros(20)
  type H256 = s: seq<Byte> | |s| == 32 witness Zeros(32)
  type H512 = s: seq<Byte> | |s| == 64 witness Zeros(64)
  type Bloom = s: seq<Byte> | |s| == 256 witness Zeros(256)

  function Zeros(n: nat): (s: seq<Byte>)
    ensures |s| == n && forall i :: 0 <= i < n ==> s[i] == 0
  {
    seq(n, _ => 0)
  }

  datatype Option<+T> = None | Some(value: T) {
    function GetOr(default: T): T {
      match this
      case Some(v) => v
      case None => default
    }
  }

  /** A failure-compatible result; `E` names the source's error type. */
  datatype Result<+T, +E> = Ok(value: T) | Err(error: E) {
    predicate IsFailure() { Err? }

    function PropagateFailure<U>(): Result<U, E>
      requires Err?
    {
      Err(error)
    }

    function Extract(): T
      requires Ok?
    {
      value
    }
  }

  function Pow256(n: nat): (p: nat)
    ensures p > 0
  {
    if n == 0 then 1 else 256 * Pow256(n - 1)
  }

  /** The number a big-endian byte string stands for. */
  function FromBE(bs: seq<Byte>): nat {
    if bs == [] then 0 else 256 * FromBE(bs[..|bs| - 1]) + bs[|bs| - 1]
  }

  /** The shortest big-endian byte string for `n`; zero is the empty string. */
  function ToBE(n: nat): seq<Byte> {
    if n == 0 then [] else ToBE(n / 256) + [n % 256]
  }

  predicate Minimal(bs: seq<Byte>) {
    bs != [] ==> bs[0] != 0
  }

  lemma {:induction false} ToBERoundTrip(n: nat)
    ensures FromBE(ToBE(n)) == n && Minimal(ToBE(n))
  {
    if n != 0 {
      ToBERoundTrip(n / 256);
      assert ToBE(n)[..|ToBE(n)| - 1] == ToBE(n / 256);
    }
  }

  lemma {:induction false} FromBERoundTrip(bs: seq<Byte>)
    requires Minimal(bs)
    ensures ToBE(FromBE(bs)) == bs
  {
    if bs != [] {
      var init := bs[..|bs| - 1];
      FromBERoundTrip(init);
      assert init != [] ==> FromBE(init) > 0 by {
        assert init != [] ==> ToBE(FromBE(init)) != [];
      }
      assert FromBE(bs) / 256 == FromBE(init) && FromBE(bs) % 256 == bs[|bs| - 1];
    }
  }

  /** A number takes at most `k` bytes exactly when it is below 256^k. */
  lemma {:induction false} ToBELength(n: nat, k: nat)
    ensures |ToBE(n)| <= k <==> n < Pow256(k)
  {
    if n != 0 && k != 0 { ToBELength(n / 256, k - 1); }
  }

  lemma Pow256PlusTwo(n: nat)
    ensures Pow256(n + 2) == 65536 * Pow256(n)
  {
    assert Pow256(n + 2) == 256 * Pow256(n + 1);
  }

  lemma Pow256PlusEight(n: nat)
    ensures Pow256(n + 8) == U64_LIMIT * Pow256(n)
  {
    Pow256PlusTwo(n);
    Pow256PlusTwo(n + 2);
    Pow256PlusTwo(n + 4);
    Pow256PlusTwo(n + 6);
  }

  lemma Pow256Widths()
    ensures Pow256(1) == 256 && Pow256(2) == 65536
    ensures Pow256(8) == U64_LIMIT && Pow256(32) == U256_LIMIT
  {
    Pow256PlusTwo(0);
    Pow256PlusEight(0);
    Pow256PlusEight(8);
    Pow256PlusEight(16);
    Pow256PlusEight(24);
  }

  /** The widths the source's integer types allow, as byte counts. */
  lemma ToBEWidths(n: nat)
    ensures |ToBE(n)| <= 1 <==> n < 256
    ensures |ToBE(n)| <= 2 <==> n < 65536
    ensures |ToBE(n)| <= 8 <==> n < U64_LIMIT
    ensures |ToBE(n)| <= 32 <==> n < U256_LIMIT
  {
    ToBELength(n, 1);
    ToBELength(n, 2);
    ToBELength(n, 8);
    ToBELength(n, 32);
    Pow256Widths();
  }

  /** Fixed-width big-endian, as `H256::from_low_u64_be` and friends lay out. */
  function PadTo(bs: seq<Byte>, width: nat): (r: seq<Byte>)
    requires |bs| <= width
    ensures |r| == width
  {
    Zeros(width - |bs|) + bs
  }

  lemma {:induction false} PadKeepsValue(bs: seq<Byte>, width: nat)
    requires |bs| <= width
    ensures FromBE(PadTo(bs, width)) == FromBE(bs)
    decreases width
  {
    var p := PadTo(bs, width);
    if bs == [] {
      if width > 0 {
        assert p[..width - 1] == PadTo([], width - 1);
        PadKeepsValue([], width - 1);
      }
    } else {
      assert p[..width - 1] == PadTo(bs[..|bs| - 1], width - 1);
      PadKeepsValue(bs[..|bs| - 1], width - 1);
    }
  }
}
