/**
 What a block hash commits to. Under no hash collision among the bytes that two
 chains actually hashed, chains with the same head hash are the same chain, down
 to every transaction, and their replayed states are the same.
 */
module Commitment {
  import opened Bytes
  import opened Cryptography
  import opened Transactions
  import opened TransactionCodec
  import opened Signing
  import opened Ethcore
  import opened ChainDb
  import opened DbInvariant
  import opened DbRuns
  import opened RpcNode

  /** A transaction as verification produces it: its hash is that of its wire
      bytes and its sender is recovered from its signature. */
  predicate Authentic(c: Crypto, tx: SignedTransaction) {
    tx.transaction == Hashed(c, tx.transaction) && NewSigned(c, tx.transaction) == Ok(tx)
  }

  predicate AllAuthentic(c: Crypto, blocks: seq<Block>) {
    forall k :: 0 <= k < |blocks| ==> forall tx :: tx in blocks[k].transactions ==> Authentic(c, tx)
  }

  ghost predicate GoodChain(c: Crypto, blocks: seq<Block>) {
    forall k :: 0 <= k < |blocks| ==> GoodBlock(c, blocks, k)
  }

  /** The byte strings that are hashed to make one block. */
  ghost function BlockBytes(b: Block): set<seq<Byte>> {
    {HeaderBytes(b.header.fields)}
    + (if RootSized(|b.transactions|) then {RootPreimage(Hashes(b.transactions))} else {})
    + (set tx | tx in b.transactions :: Wire(tx.transaction))
  }

  /** Every byte string that is hashed to make these blocks. */
  ghost function HashedBytes(blocks: seq<Block>): set<seq<Byte>> {
    set b, p | b in blocks && p in BlockBytes(b) :: p
  }

  lemma GoodFacts(c: Crypto, blocks: seq<Block>, k: nat)
    requires k < |blocks| && GoodBlock(c, blocks, k)
    ensures var b := blocks[k];
      && b.header == Sealed(c, b.header.fields) && b.uncles == [] && b.header.fields.number == k
      && (k == 0 ==> b.transactions == [])
      && (k > 0 ==>
            && |b.transactions| == 1
            && b.header.fields.parentHash == BlockHash(c, blocks, k - 1)
            && b.header.fields.transactionsRoot == TransactionRoot(c, b.transactions))
  {
  }

  /** Two authentic transactions with the same wire form are the same transaction. */
  lemma TransactionOfWire(c: Crypto, s: SignedTransaction, t: SignedTransaction)
    requires Authentic(c, s) && Authentic(c, t) && Wire(s.transaction) == Wire(t.transaction)
    ensures s == t
  {
    WireRoundTrip(c, s.transaction);
    WireRoundTrip(c, t.transaction);
  }

  /** Different bytes, hashed for one block and for the other, with the same hash. */
  ghost predicate Collides(c: Crypto, p: seq<Byte>, q: seq<Byte>, x: Block, y: Block) {
    p in BlockBytes(x) && q in BlockBytes(y) && p != q && c.keccak(p) == c.keccak(q)
  }

  lemma TransactionsOrCollision(c: Crypto, x: Block, y: Block) returns (p: seq<Byte>, q: seq<Byte>)
    requires |x.transactions| == |y.transactions| == 1
    requires Authentic(c, x.transactions[0]) && Authentic(c, y.transactions[0])
    requires TransactionRoot(c, x.transactions) == TransactionRoot(c, y.transactions)
    ensures x.transactions == y.transactions || Collides(c, p, q, x, y)
  {
    p, q := RootPreimage(Hashes(x.transactions)), RootPreimage(Hashes(y.transactions));
    if p == q {
      RootPreimageInjective(Hashes(x.transactions), Hashes(y.transactions));
      var s, t := x.transactions[0], y.transactions[0];
      assert Hashes(x.transactions)[0] == Hashes(y.transactions)[0];
      assert s in x.transactions && t in y.transactions;
      p, q := Wire(s.transaction), Wire(t.transaction);
      if p == q {
        TransactionOfWire(c, s, t);
        assert x.transactions == [s] && y.transactions == [t];
      }
    }
  }

  lemma HeadersOrCollision(c: Crypto, x: Block, y: Block) returns (p: seq<Byte>, q: seq<Byte>)
    requires x.header == Sealed(c, x.header.fields) && y.header == Sealed(c, y.header.fields)
    requires x.header.Hash(c) == y.header.Hash(c)
    ensures x.header == y.header || Collides(c, p, q, x, y)
  {
    p, q := HeaderBytes(x.header.fields), HeaderBytes(y.header.fields);
    if p == q { HeaderInjective(x.header.fields, y.header.fields); }
  }

  /** A chain as a node builds it. */
  ghost predicate Proper(c: Crypto, blocks: seq<Block>) {
    blocks != [] && GoodChain(c, blocks) && AllAuthentic(c, blocks)
  }

  function HeadHash(c: Crypto, blocks: seq<Block>): H256
    requires blocks != []
  {
    BlockHash(c, blocks, |blocks| - 1)
  }

  /** Blocks of two proper chains with the same hash are the same block at the
      same position, or collide. */
  lemma BlocksOrCollision(c: Crypto, a: seq<Block>, i: nat, b: seq<Block>, j: nat)
    returns (p: seq<Byte>, q: seq<Byte>)
    requires Proper(c, a) && Proper(c, b) && i < |a| && j < |b|
    requires BlockHash(c, a, i) == BlockHash(c, b, j)
    ensures (i == j && a[i] == b[j]) || Collides(c, p, q, a[i], b[j])
  {
    GoodFacts(c, a, i);
    GoodFacts(c, b, j);
    p, q := HeadersOrCollision(c, a[i], b[j]);
    if a[i].header == b[j].header && i > 0 {
      var s, t := a[i].transactions[0], b[j].transactions[0];
      assert s in a[i].transactions && t in b[j].transactions;
      p, q := TransactionsOrCollision(c, a[i], b[j]);
    }
  }

  /** The last `d` blocks of the two chains are the same. */
  predicate SameEnd(a: seq<Block>, b: seq<Block>, d: nat)
    requires d <= |a| && d <= |b|
  {
    a[|a| - d..] == b[|b| - d..]
  }

  lemma OneLonger(a: seq<Block>, b: seq<Block>, d: nat)
    requires d < |a| && d < |b| && SameEnd(a, b, d) && a[|a| - 1 - d] == b[|b| - 1 - d]
    ensures SameEnd(a, b, d + 1)
  {
    assert a[|a| - (d + 1)..] == [a[|a| - 1 - d]] + a[|a| - d..];
    assert b[|b| - (d + 1)..] == [b[|b| - 1 - d]] + b[|b| - d..];
  }

  /** The longest common suffix of two chains. */
  lemma CommonSuffix(a: seq<Block>, b: seq<Block>) returns (d: nat)
    ensures d <= |a| && d <= |b| && SameEnd(a, b, d)
    ensures d < |a| && d < |b| ==> a[|a| - 1 - d] != b[|b| - 1 - d]
  {
    d := 0;
    while d < |a| && d < |b| && a[|a| - 1 - d] == b[|b| - 1 - d]
      invariant d <= |a| && d <= |b| && SameEnd(a, b, d)
    {
      OneLonger(a, b, d);
      d := d + 1;
    }
  }

  /** Parent hashes carry equality of hashes down along a common suffix. */
  lemma HashesAtDepth(c: Crypto, a: seq<Block>, b: seq<Block>, d: nat)
    requires Proper(c, a) && Proper(c, b) && HeadHash(c, a) == HeadHash(c, b)
    requires d < |a| && d < |b| && SameEnd(a, b, d)
    ensures BlockHash(c, a, |a| - 1 - d) == BlockHash(c, b, |b| - 1 - d)
  {
    if d > 0 {
      assert a[|a| - d] == a[|a| - d..][0] == b[|b| - d];
      GoodFacts(c, a, |a| - d);
      GoodFacts(c, b, |b| - d);
    }
  }

  lemma SuffixIsAll(c: Crypto, a: seq<Block>, b: seq<Block>, d: nat)
    requires Proper(c, a) && Proper(c, b)
    requires d <= |a| && d <= |b| && (d == |a| || d == |b|) && SameEnd(a, b, d)
    ensures a == b
  {
    assert a[|a| - d] == a[|a| - d..][0] == b[|b| - d];
    GoodFacts(c, a, |a| - d);
    GoodFacts(c, b, |b| - d);
    assert a == a[|a| - d..] && b == b[|b| - d..];
  }

  /** Two chains with the same head hash are the same chain, or a collision can be
      pointed out between the bytes hashed for the blocks at some depth `d`. */
  lemma SameChainOrCollision(c: Crypto, a: seq<Block>, b: seq<Block>)
    returns (d: nat, p: seq<Byte>, q: seq<Byte>)
    requires Proper(c, a) && Proper(c, b) && HeadHash(c, a) == HeadHash(c, b)
    ensures a == b || (d < |a| && d < |b| && Collides(c, p, q, a[|a| - 1 - d], b[|b| - 1 - d]))
  {
    d := CommonSuffix(a, b);
    if d < |a| && d < |b| {
      HashesAtDepth(c, a, b, d);
      p, q := BlocksOrCollision(c, a, |a| - 1 - d, b, |b| - 1 - d);
    } else {
      SuffixIsAll(c, a, b, d);
      p, q := [], [];
    }
  }

  /** The head hash determines the whole chain. */
  lemma HeadDeterminesChain(c: Crypto, a: seq<Block>, b: seq<Block>)
    requires Proper(c, a) && Proper(c, b) && HeadHash(c, a) == HeadHash(c, b)
    requires c.CollisionFree(HashedBytes(a) + HashedBytes(b))
    ensures a == b
  {
    var d, p, q := SameChainOrCollision(c, a, b);
    assert d < |a| && d < |b| ==> a[|a| - 1 - d] in a && b[|b| - 1 - d] in b;
  }

  /** And with it every account snapshot of a node that only submits and calls. */
  lemma HeadDeterminesState(w: World, d: Db, e: Db)
    requires Proper(w.crypto, d.blocks) && Replays(w, d)
    requires Proper(w.crypto, e.blocks) && Replays(w, e)
    requires w.crypto.CollisionFree(HashedBytes(d.blocks) + HashedBytes(e.blocks))
    requires HeadHash(w.crypto, d.blocks) == HeadHash(w.crypto, e.blocks)
    ensures d.blocks == e.blocks && d.accounts == e.accounts
  {
    HeadDeterminesChain(w.crypto, d.blocks, e.blocks);
  }

  lemma VerifiedIsAuthentic(c: Crypto, raw: seq<Byte>)
    requires Decode(c, raw).Ok? && NewSigned(c, Decode(c, raw).value).Ok?
    ensures Authentic(c, NewSigned(c, Decode(c, raw).value).value)
  {
    DecodeIsCanonical(c, raw);
  }

  /** Whatever bytes are sent, a node's chain holds authentic transactions only:
      bytes that are not exactly one strict item are refused by this decoder. */
  lemma SendKeepsAuthentic(w: World, db: Db, raw: seq<Byte>, time: U64)
    requires db.blocks != [] && db.accounts != [] && AllAuthentic(w.crypto, db.blocks)
    ensures AllAuthentic(w.crypto, SendRaw(w, db, raw, time).0.blocks)
  {
    var decoded := Decode(w.crypto, raw);
    if decoded.Ok? && NewSigned(w.crypto, decoded.value).Ok? {
      VerifiedIsAuthentic(w.crypto, raw);
      SubmitKeepsAuthentic(w, db, NewSigned(w.crypto, decoded.value).value, time);
    }
  }

  lemma SubmitKeepsAuthentic(w: World, db: Db, tx: SignedTransaction, time: U64)
    requires db.blocks != [] && db.accounts != [] && AllAuthentic(w.crypto, db.blocks) && Authentic(w.crypto, tx)
    ensures AllAuthentic(w.crypto, Submit(w, db, tx, time).0.blocks)
  {
    if Submit(w, db, tx, time).1 == Accepted {
      AcceptedShape(w, db, tx, time);
      assert NextBlock(w.crypto, db.Last(), [tx], time).transactions == [tx];
    }
  }

  /** So in every reachable state of a node, estimates included, the chain is
      proper, sends being one strict item or refused. */
  lemma {:induction false} NodeStaysProper(w: World, node: Node, events: seq<Event>)
    requires Structural(w.crypto, node.db) && Proper(w.crypto, node.db.blocks)
    ensures Structural(w.crypto, RunNode(w, node, events).db)
    ensures Proper(w.crypto, RunNode(w, node, events).db.blocks)
    decreases |events|
  {
    if events != [] {
      NextKeepsStructural(w, node, events[0]);
      NextKeepsAuthentic(w, node, events[0]);
      NodeStaysProper(w, Next(w, node, events[0]).0, events[1..]);
    }
  }

  lemma NextKeepsAuthentic(w: World, node: Node, e: Event)
    requires node.db.blocks != [] && node.db.accounts != [] && AllAuthentic(w.crypto, node.db.blocks)
    ensures AllAuthentic(w.crypto, Next(w, node, e).0.db.blocks)
  {
    if e.Send? { SendKeepsAuthentic(w, node.db, e.raw, e.time); }
  }

  // ------------------------------------------------------ two whole nodes

  predicate StartsEstimate(e: Event) {
    e.Begin? && e.req.EstimateGas?
  }

  predicate NoEstimates(events: seq<Event>) {
    forall i :: 0 <= i < |events| ==> !StartsEstimate(events[i])
  }

  /** The database of a node started at `time` and run on `events`. */
  function RunFresh(w: World, time: U64, events: seq<Event>): (db: Db)
    ensures db.blocks != []
  {
    RunNode(w, FreshNode(w.crypto, time), events).db
  }

  ghost predicate NoneEstimating(node: Node) {
    forall t :: t in node.waiting ==> !node.waiting[t].req.EstimateGas?
  }

  lemma NextKeepsReplays(w: World, node: Node, e: Event)
    requires Structural(w.crypto, node.db) && Replays(w, node.db)
    requires NoneEstimating(node) && !StartsEstimate(e)
    ensures Replays(w, Next(w, node, e).0.db) && NoneEstimating(Next(w, node, e).0)
  {
    if e.Send? { SendKeepsReplays(w, node.db, e.raw, e.time); }
  }

  lemma SendKeepsReplays(w: World, db: Db, raw: seq<Byte>, time: U64)
    requires db.blocks != [] && db.accounts != [] && Replays(w, db)
    ensures Replays(w, SendRaw(w, db, raw, time).0)
  {
    var decoded := Decode(w.crypto, raw);
    if decoded.Ok? && NewSigned(w.crypto, decoded.value).Ok? {
      SubmitKeepsReplays(w, db, NewSigned(w.crypto, decoded.value).value, time);
    }
  }

  lemma {:induction false} NodeReplays(w: World, node: Node, events: seq<Event>)
    requires Structural(w.crypto, node.db) && Replays(w, node.db) && NoneEstimating(node)
    requires NoEstimates(events)
    ensures Replays(w, RunNode(w, node, events).db)
    decreases |events|
  {
    if events != [] {
      NextKeepsStructural(w, node, events[0]);
      NextKeepsReplays(w, node, events[0]);
      NodeReplays(w, Next(w, node, events[0]).0, events[1..]);
    }
  }

  lemma FreshRun(w: World, time: U64, events: seq<Event>)
    requires NoEstimates(events)
    ensures Proper(w.crypto, RunFresh(w, time, events).blocks) && Replays(w, RunFresh(w, time, events))
  {
    GenesisStructural(w.crypto, time);
    GenesisReplays(w, time);
    NodeStaysProper(w, FreshNode(w.crypto, time), events);
    NodeReplays(w, FreshNode(w.crypto, time), events);
  }

  /** Two nodes that never estimate gas, started at any times and run on any
      events by any threads, have the same chain and the same state in every
      snapshot as soon as their head hashes agree, short of a hash collision.
      What is sent counts as accepted only if it is exactly one strict item. */
  lemma NodesWithSameHeadAgree(w: World, s: U64, es: seq<Event>, t: U64, fs: seq<Event>)
    requires NoEstimates(es) && NoEstimates(fs)
    ensures var d, e := RunFresh(w, s, es), RunFresh(w, t, fs);
      HeadHash(w.crypto, d.blocks) == HeadHash(w.crypto, e.blocks)
        && w.crypto.CollisionFree(HashedBytes(d.blocks) + HashedBytes(e.blocks))
      ==> d.blocks == e.blocks && d.accounts == e.accounts
  {
    FreshRun(w, s, es);
    FreshRun(w, t, fs);
    var d, e := RunFresh(w, s, es), RunFresh(w, t, fs);
    if HeadHash(w.crypto, d.blocks) == HeadHash(w.crypto, e.blocks)
      && w.crypto.CollisionFree(HashedBytes(d.blocks) + HashedBytes(e.blocks)) {
      HeadDeterminesState(w, d, e);
    }
  }
}
