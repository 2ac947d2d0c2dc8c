/**
 What every operation of the chain database keeps. `Structural` ties blocks,
 snapshots, hash index and transaction infos together and needs nothing of the
 hash function; the laws that do need distinct header hashes say so exactly.
 */
module DbInvariant {
  import opened Bytes
  import opened Cryptography
  import opened Rlp
  import opened Transactions
  import opened Signing
  import opened Ethcore
  import opened Backend
  import opened ChainDb

  function BlockHash(c: Crypto, blocks: seq<Block>, k: nat): H256
    requires k < |blocks|
  {
    blocks[k].header.Hash(c)
  }

  predicate Holds(b: Block, h: H256) {
    exists tx :: tx in b.transactions && tx.transaction.hash == h
  }

  /** The highest block that holds a transaction with this hash. */
  function LastHolding(blocks: seq<Block>, h: H256): (r: Option<nat>)
    ensures r.Some? ==> r.value < |blocks|
  {
    if blocks == [] then None
    else if Holds(blocks[|blocks| - 1], h) then Some(|blocks| - 1)
    else LastHolding(blocks[..|blocks| - 1], h)
  }

  lemma {:induction false} LastHoldingIsHighest(blocks: seq<Block>, h: H256)
    ensures LastHolding(blocks, h).None? <==> forall k :: 0 <= k < |blocks| ==> !Holds(blocks[k], h)
    ensures forall k :: LastHolding(blocks, h) == Some(k) ==>
      Holds(blocks[k], h) && forall j :: k < j < |blocks| ==> !Holds(blocks[j], h)
  {
    if blocks != [] && !Holds(blocks[|blocks| - 1], h) {
      var init := blocks[..|blocks| - 1];
      LastHoldingIsHighest(init, h);
      assert forall k :: 0 <= k < |init| ==> blocks[k] == init[k];
    }
  }

  /** Block `k` is the genesis block, or the block built on block `k - 1` around
      exactly one transaction. */
  predicate GoodBlock(c: Crypto, blocks: seq<Block>, k: nat)
    requires k < |blocks|
  {
    var b := blocks[k];
    && b.header.fields.number == k
    && b.header.Coherent(c)
    && if k == 0 then b == GenesisBlock(c, b.header.fields.timestamp)
       else && |b.transactions| == 1
            && HasSuccessor(blocks[k - 1])
            && b == NextBlock(c, blocks[k - 1], b.transactions, b.header.fields.timestamp)
  }

  /** The info kept for a transaction is about block `k` and the one before it. */
  predicate InfoAgrees(c: Crypto, info: TransactionInfo, blocks: seq<Block>, k: nat)
    requires k < |blocks|
  {
    && k > 0
    && |blocks[k].transactions| == 1
    && info.transaction == Some(blocks[k].transactions[0])
    && info.blockHash == BlockHash(c, blocks, k)
    && info.parentHash == BlockHash(c, blocks, k - 1)
    && info.postState == blocks[k - 1].header.fields.stateRoot
    && info.index == 0
  }

  ghost predicate ChainOk(c: Crypto, db: Db) {
    && |db.blocks| == |db.accounts| > 0
    && forall k :: 0 <= k < |db.blocks| ==> GoodBlock(c, db.blocks, k)
  }

  /** Every block's hash is indexed, and an indexed hash leads to the highest
      block that has it. */
  ghost predicate IndexOk(c: Crypto, db: Db) {
    && (forall k :: 0 <= k < |db.blocks| ==> BlockHash(c, db.blocks, k) in db.hashIndex)
    && (forall h :: h in db.hashIndex ==>
          && db.hashIndex[h] < |db.blocks|
          && BlockHash(c, db.blocks, db.hashIndex[h]) == h
          && forall j :: db.hashIndex[h] < j < |db.blocks| ==> BlockHash(c, db.blocks, j) != h)
  }

  ghost predicate InfosOk(c: Crypto, db: Db) {
    forall h ::
      && (h in db.infos <==> LastHolding(db.blocks, h).Some?)
      && (h in db.infos ==> InfoAgrees(c, db.infos[h], db.blocks, LastHolding(db.blocks, h).value))
  }

  ghost predicate Structural(c: Crypto, db: Db) {
    ChainOk(c, db) && IndexOk(c, db) && InfosOk(c, db)
  }

  // ----------------------------------------------------------- every step

  lemma GenesisStructural(c: Crypto, time: U64)
    ensures Structural(c, Genesis(c, time))
  {
    var db := Genesis(c, time);
    assert db.blocks[..0] == [];
  }

  lemma AppendedChain(c: Crypto, blocks: seq<Block>, b: Block, k: nat)
    requires k < |blocks| && GoodBlock(c, blocks, k)
    ensures GoodBlock(c, blocks + [b], k)
  {
    assert (blocks + [b])[k] == blocks[k];
    assert k > 0 ==> (blocks + [b])[k - 1] == blocks[k - 1];
  }

  lemma NumberOfLast(c: Crypto, db: Db)
    requires ChainOk(c, db)
    ensures db.Last().header.fields.number == |db.blocks| - 1
  {
    assert GoodBlock(c, db.blocks, |db.blocks| - 1);
  }

  lemma NextBlockGood(c: Crypto, blocks: seq<Block>, tx: SignedTransaction, time: U64)
    requires blocks != [] && HasSuccessor(blocks[|blocks| - 1])
    requires blocks[|blocks| - 1].header.fields.number == |blocks| - 1
    ensures var b := NextBlock(c, blocks[|blocks| - 1], [tx], time);
      GoodBlock(c, blocks + [b], |blocks|)
  {
  }

  /** The four structures after an accepted submission, written once. */
  lemma AcceptedShape(w: World, db: Db, tx: SignedTransaction, time: U64)
    requires db.blocks != [] && db.accounts != [] && Submit(w, db, tx, time).1 == Accepted
    ensures HasSuccessor(db.Last())
    ensures var b := NextBlock(w.crypto, db.Last(), [tx], time);
      var m := db.accounts[|db.accounts| - 1];
      var db' := Submit(w, db, tx, time).0;
      && db'.blocks == db.blocks + [b]
      && db'.accounts == db.accounts + [Executed(w.evm, m, ContextOf(tx, b), TransactOf(tx)).0]
      && db'.hashIndex == db.hashIndex[b.header.Hash(w.crypto) := b.header.fields.number]
      && db'.infos == db.infos[tx.transaction.hash := InfoFor(w, m, tx, db.Last(), b)]
      && OutcomeOf(w, m, tx, b).reason == Succeed
  {
  }

  /** A submission is accepted exactly when there is a next block number and the
      transaction, run as the next block's only one on the last snapshot, succeeds;
      it overflows exactly when there is none. */
  lemma AcceptedExactly(w: World, db: Db, tx: SignedTransaction, time: U64)
    requires db.blocks != [] && db.accounts != []
    ensures var best, r, u := db.Last(), Submit(w, db, tx, time).1, tx.transaction.unsigned;
      && (r == Overflowed <==> best.header.fields.number + 1 >= U64_LIMIT)
      && (r == Accepted <==>
            && best.header.fields.number + 1 < U64_LIMIT
            && w.evm.transact(
                 db.accounts[|db.accounts| - 1],
                 Context(u.gasPrice, tx.sender, NextBlock(w.crypto, best, [tx], time)),
                 Transact(tx.sender, u.value, match u.action { case Create => None case Call(to) => Some(to) }, u.data)
               ).reason == Succeed)
  {
  }

  /** What an accepted submission leaves behind: the new snapshot is the last one
      with the writes of the transaction's own execution in the new block, and
      its output and logs are what is remembered. */
  lemma AcceptedEffect(w: World, db: Db, tx: SignedTransaction, time: U64)
    requires db.blocks != [] && db.accounts != [] && Submit(w, db, tx, time).1 == Accepted
    ensures var db', u, m := Submit(w, db, tx, time).0, tx.transaction.unsigned, db.accounts[|db.accounts| - 1];
      var o := w.evm.transact(
        m, Context(u.gasPrice, tx.sender, db'.Last()),
        Transact(tx.sender, u.value, match u.action { case Create => None case Call(to) => Some(to) }, u.data));
      && o.reason == Succeed
      && db'.accounts == db.accounts + [ApplyAll(m, o.applies, false)]
      && tx.transaction.hash in db'.infos
      && db'.infos[tx.transaction.hash].transaction == Some(tx)
      && db'.infos[tx.transaction.hash].result == (if u.action.Create? then None else Some(o.output))
      && db'.infos[tx.transaction.hash].logs == o.logs
  {
    AcceptedShape(w, db, tx, time);
  }

  /** The header fields that no operation of the node sets. */
  predicate UnsetFields(c: Crypto, f: HeaderFields) {
    && f.author == Zeros(20) && f.logBloom == Zeros(256) && f.extraData == []
    && f.unclesHash == c.keccak([0xc0])
    && f.gasUsed == f.gasLimit == f.difficulty == 0
  }

  /** Every field of an accepted block's header. */
  lemma AcceptedHeader(w: World, db: Db, tx: SignedTransaction, time: U64)
    requires db.blocks != [] && db.accounts != [] && Submit(w, db, tx, time).1 == Accepted
    ensures Fits(List([Data(tx.transaction.hash)]))
    ensures var b := Submit(w, db, tx, time).0.Last(); var f := b.header.fields;
      && b.transactions == [tx] && b.uncles == []
      && b.header.memo == Some(w.crypto.keccak(HeaderBytes(f)))
      && f.parentHash == db.Last().header.Hash(w.crypto)
      && f.number == db.Last().header.fields.number + 1
      && f.timestamp == time
      && FromBE(f.stateRoot) == f.number && f.receiptsRoot == f.stateRoot
      && f.transactionsRoot == w.crypto.keccak(Encode(List([Data(tx.transaction.hash)])))
      && UnsetFields(w.crypto, f)
  {
    AcceptedShape(w, db, tx, time);
    var n := db.Last().header.fields.number + 1;
    ToBEWidths(n);
    ToBERoundTrip(n);
    PadKeepsValue(ToBE(n), 32);
    RootFits(Hashes([tx]));
    assert RootItem(Hashes([tx])) == List([Data(tx.transaction.hash)]);
    EmptyListHash(w.crypto);
  }

  /** The two hashes of empty values that a default header holds. */
  lemma EmptyListHash(c: Crypto)
    ensures DefaultFields(c).unclesHash == c.keccak([0xc0])
    ensures DefaultFields(c).stateRoot == DefaultFields(c).transactionsRoot == DefaultFields(c).receiptsRoot
         == c.keccak([0x80])
  {
    assert EncodeData([]) == [0x80];
  }

  /** Everything a fresh database holds. */
  lemma GenesisExactly(c: Crypto, time: U64)
    ensures var db := Genesis(c, time);
      && |db.blocks| == 1 && db.accounts == [map[]] && db.infos == map[]
      && var b := db.blocks[0]; var f := b.header.fields;
      && db.hashIndex == map[c.keccak(HeaderBytes(f)) := 0]
      && b.transactions == [] && b.uncles == [] && b.header.memo == Some(c.keccak(HeaderBytes(f)))
      && f.number == 0 && f.timestamp == time && f.parentHash == Zeros(32)
      && f.stateRoot == f.transactionsRoot == f.receiptsRoot == c.keccak([0x80])
      && UnsetFields(c, f)
  {
    EmptyListHash(c);
  }

  lemma SubmitKeepsChain(w: World, db: Db, tx: SignedTransaction, time: U64)
    requires ChainOk(w.crypto, db)
    ensures ChainOk(w.crypto, Submit(w, db, tx, time).0)
  {
    if Submit(w, db, tx, time).1 == Accepted {
      AcceptedShape(w, db, tx, time);
      var b := NextBlock(w.crypto, db.Last(), [tx], time);
      NumberOfLast(w.crypto, db);
      NextBlockGood(w.crypto, db.blocks, tx, time);
      forall k | 0 <= k < |db.blocks|
        ensures GoodBlock(w.crypto, db.blocks + [b], k)
      {
        AppendedChain(w.crypto, db.blocks, b, k);
      }
    }
  }

  lemma IndexAppend(c: Crypto, db: Db, b: Block, db': Db)
    requires IndexOk(c, db) && b.header.fields.number == |db.blocks|
    requires db'.blocks == db.blocks + [b]
    requires db'.hashIndex == db.hashIndex[b.header.Hash(c) := b.header.fields.number]
    ensures IndexOk(c, db')
  {
    var hash := b.header.Hash(c);
    assert BlockHash(c, db'.blocks, |db.blocks|) == hash;
    assert forall k :: 0 <= k < |db.blocks| ==> BlockHash(c, db'.blocks, k) == BlockHash(c, db.blocks, k);
    forall h | h in db'.hashIndex
      ensures db'.hashIndex[h] < |db'.blocks| && BlockHash(c, db'.blocks, db'.hashIndex[h]) == h
      ensures forall j :: db'.hashIndex[h] < j < |db'.blocks| ==> BlockHash(c, db'.blocks, j) != h
    {
      if h != hash { assert h in db.hashIndex; }
    }
  }

  lemma InfosAppend(c: Crypto, db: Db, b: Block, tx: SignedTransaction, info: TransactionInfo, db': Db)
    requires InfosOk(c, db) && b.transactions == [tx]
    requires db'.blocks == db.blocks + [b]
    requires db'.infos == db.infos[tx.transaction.hash := info]
    requires InfoAgrees(c, info, db'.blocks, |db.blocks|)
    ensures InfosOk(c, db')
  {
    forall h: H256
      ensures h in db'.infos <==> LastHolding(db'.blocks, h).Some?
      ensures h in db'.infos ==> InfoAgrees(c, db'.infos[h], db'.blocks, LastHolding(db'.blocks, h).value)
    {
      assert db'.blocks[..|db.blocks|] == db.blocks;
      assert b.transactions[0] == tx;
      assert Holds(b, h) <==> h == tx.transaction.hash;
    }
  }

  lemma SubmitKeepsStructural(w: World, db: Db, tx: SignedTransaction, time: U64)
    requires Structural(w.crypto, db)
    ensures Structural(w.crypto, Submit(w, db, tx, time).0)
  {
    if Submit(w, db, tx, time).1 == Accepted {
      AcceptedShape(w, db, tx, time);
      SubmitKeepsChain(w, db, tx, time);
      NumberOfLast(w.crypto, db);
      var db' := Submit(w, db, tx, time).0;
      var b := NextBlock(w.crypto, db.Last(), [tx], time);
      IndexAppend(w.crypto, db, b, db');
      var info := InfoFor(w, db.accounts[|db.accounts| - 1], tx, db.Last(), b);
      InfosAppend(w.crypto, db, b, tx, info, db');
    }
  }

  /** The invariant speaks of how many snapshots there are, not of what they hold. */
  lemma StructuralOfBlocks(c: Crypto, db: Db, db': Db)
    requires Structural(c, db) && db'.(accounts := db.accounts) == db && |db'.accounts| == |db.accounts|
    ensures Structural(c, db')
  {
    assert ChainOk(c, db') && IndexOk(c, db') && InfosOk(c, db');
  }

  /** Estimating gas touches no block, no index entry, no info and no snapshot
      but the one it was asked about. */
  lemma EstimateKeepsStructural(w: World, db: Db, n: nat, tx: Transact)
    requires Structural(w.crypto, db)
    ensures var db' := Estimate(w, db, n, tx).0;
      && Structural(w.crypto, db')
      && db'.(accounts := db.accounts) == db
      && forall k :: 0 <= k < |db.accounts| && k != n ==> db'.accounts[k] == db.accounts[k]
  {
    StructuralOfBlocks(w.crypto, db, Estimate(w, db, n, tx).0);
  }

  /** What an estimate answers and writes, or that it panics without a snapshot. */
  lemma EstimateExactly(w: World, db: Db, n: nat, tx: Transact)
    requires db.blocks != []
    ensures var (db', r) := Estimate(w, db, n, tx);
      if n >= |db.accounts| then r == None && db' == db
      else
        var m := db.accounts[n];
        var o := w.evm.transact(m, Context(0, tx.sender, db.Last()), tx);
        && r == Some((o.reason, if tx.to == None then [] else o.output, o.gas))
        && db'.accounts == db.accounts[n := if o.reason == Succeed then ApplyAll(m, o.applies, false) else m]
  {
  }

  /** A submission extends all four structures together and keeps every earlier
      block and snapshot, or changes nothing at all. */
  lemma SubmissionIsAtomic(w: World, db: Db, tx: SignedTransaction, time: U64)
    requires Structural(w.crypto, db)
    ensures var (db', r) := Submit(w, db, tx, time);
      if r == Accepted then
        && |db'.blocks| == |db'.accounts| == |db.blocks| + 1
        && db'.blocks[..|db.blocks|] == db.blocks && db'.accounts[..|db.accounts|] == db.accounts
        && db'.Last().transactions == [tx]
        && db'.Last().header.fields.parentHash == db.Last().header.Hash(w.crypto)
        && db'.hashIndex.Keys == db.hashIndex.Keys + {db'.Last().header.Hash(w.crypto)}
        && db'.hashIndex[db'.Last().header.Hash(w.crypto)] == |db.blocks|
        && db'.infos.Keys == db.infos.Keys + {tx.transaction.hash}
        && forall h :: h in db.infos && h != tx.transaction.hash ==> db'.infos[h] == db.infos[h]
      else db' == db
  {
    if Submit(w, db, tx, time).1 == Accepted {
      AcceptedShape(w, db, tx, time);
      NumberOfLast(w.crypto, db);
    }
  }

  // --------------------------------------------------------- the hash index

  /** The index is the inverse of the map from positions to block hashes. */
  ghost predicate IndexIsInverse(c: Crypto, db: Db) {
    forall h, k :: (h in db.hashIndex && db.hashIndex[h] == k) <==>
                   (0 <= k < |db.blocks| && BlockHash(c, db.blocks, k) == h)
  }

  function HeaderPreimages(db: Db): set<seq<Byte>> {
    set b | b in db.blocks :: HeaderBytes(b.header.fields)
  }

  lemma HashOfGood(c: Crypto, db: Db, k: nat)
    requires ChainOk(c, db) && k < |db.blocks|
    ensures BlockHash(c, db.blocks, k) == c.keccak(HeaderBytes(db.blocks[k].header.fields))
    ensures HeaderBytes(db.blocks[k].header.fields) in HeaderPreimages(db)
  {
    assert GoodBlock(c, db.blocks, k);
    assert db.blocks[k] in db.blocks;
  }

  /** Different positions have different header encodings, because the number
      can be read back from the bytes. */
  lemma PreimagesDiffer(c: Crypto, db: Db, j: nat, k: nat)
    requires ChainOk(c, db) && j < |db.blocks| && k < |db.blocks|
    requires HeaderBytes(db.blocks[j].header.fields) == HeaderBytes(db.blocks[k].header.fields)
    ensures j == k
  {
    HeaderInjective(db.blocks[j].header.fields, db.blocks[k].header.fields);
    assert GoodBlock(c, db.blocks, j) && GoodBlock(c, db.blocks, k);
  }

  /** The hash index is exactly the inverse of position-to-hash if and only if
      no two of the chain's header encodings collide under the hash function. */
  lemma IndexInverseExactly(c: Crypto, db: Db)
    requires Structural(c, db)
    ensures IndexIsInverse(c, db) <==> c.CollisionFree(HeaderPreimages(db))
  {
    if c.CollisionFree(HeaderPreimages(db)) { IndexInverseIf(c, db); }
    if IndexIsInverse(c, db) { IndexInverseOnlyIf(c, db); }
  }

  lemma IndexInverseIf(c: Crypto, db: Db)
    requires Structural(c, db) && c.CollisionFree(HeaderPreimages(db))
    ensures IndexIsInverse(c, db)
  {
    forall k | 0 <= k < |db.blocks|
      ensures db.hashIndex[BlockHash(c, db.blocks, k)] == k
    {
      HashesDiffer(c, db, db.hashIndex[BlockHash(c, db.blocks, k)], k);
    }
  }

  lemma IndexInverseOnlyIf(c: Crypto, db: Db)
    requires Structural(c, db) && IndexIsInverse(c, db)
    ensures c.CollisionFree(HeaderPreimages(db))
  {
    forall x, y | x in HeaderPreimages(db) && y in HeaderPreimages(db) && c.keccak(x) == c.keccak(y)
      ensures x == y
    {
      var i := PositionOf(db, x);
      var j := PositionOf(db, y);
      HashOfGood(c, db, i);
      HashOfGood(c, db, j);
      assert db.hashIndex[BlockHash(c, db.blocks, i)] == i;
      assert db.hashIndex[BlockHash(c, db.blocks, j)] == j;
    }
  }

  lemma PositionOf(db: Db, x: seq<Byte>) returns (i: nat)
    requires x in HeaderPreimages(db)
    ensures i < |db.blocks| && HeaderBytes(db.blocks[i].header.fields) == x
  {
    var b :| b in db.blocks && HeaderBytes(b.header.fields) == x;
    i :| 0 <= i < |db.blocks| && db.blocks[i] == b;
  }

  lemma HashesDiffer(c: Crypto, db: Db, j: nat, k: nat)
    requires ChainOk(c, db) && c.CollisionFree(HeaderPreimages(db))
    requires j < |db.blocks| && k < |db.blocks| && BlockHash(c, db.blocks, j) == BlockHash(c, db.blocks, k)
    ensures j == k
  {
    HashOfGood(c, db, j);
    HashOfGood(c, db, k);
    PreimagesDiffer(c, db, j, k);
  }

  // ---------------------------------------------------------- chain linkage

  /** Follows `steps` parent hashes through the index; `None` when one is not there. */
  function Walk(db: Db, h: H256, steps: nat): Option<H256>
    decreases steps
  {
    if steps == 0 then Some(h)
    else if h !in db.hashIndex || db.hashIndex[h] >= |db.blocks| then None
    else Walk(db, db.blocks[db.hashIndex[h]].header.fields.parentHash, steps - 1)
  }

  lemma ParentOf(c: Crypto, db: Db, k: nat)
    requires ChainOk(c, db) && 0 < k < |db.blocks|
    ensures db.blocks[k].header.fields.parentHash == BlockHash(c, db.blocks, k - 1)
  {
    assert GoodBlock(c, db.blocks, k);
  }

  /** From block `k`, `j` parent links lead to block `k - j` and are never lost
      on the way. */
  lemma {:induction false} WalkBack(c: Crypto, db: Db, k: nat, j: nat)
    requires Structural(c, db) && IndexIsInverse(c, db) && j <= k < |db.blocks|
    ensures Walk(db, BlockHash(c, db.blocks, k), j) == Some(BlockHash(c, db.blocks, k - j))
    decreases j
  {
    if j > 0 {
      assert db.hashIndex[BlockHash(c, db.blocks, k)] == k;
      ParentOf(c, db, k);
      WalkBack(c, db, k - 1, j - 1);
    }
  }

  /** Following parent hashes from block `k` reaches genesis after exactly `k`
      steps and at no earlier one. */
  lemma WalkReachesGenesis(c: Crypto, db: Db, k: nat, j: nat)
    requires Structural(c, db) && c.CollisionFree(HeaderPreimages(db)) && j <= k < |db.blocks|
    ensures Walk(db, BlockHash(c, db.blocks, k), j) == Some(BlockHash(c, db.blocks, 0)) <==> j == k
  {
    IndexInverseIf(c, db);
    WalkBack(c, db, k, j);
    assert db.hashIndex[BlockHash(c, db.blocks, k - j)] == k - j;
    assert db.hashIndex[BlockHash(c, db.blocks, 0)] == 0;
  }

  // --------------------------------------------------------------- receipts

  /** Looking a receipt up never panics, and finds one exactly when some block
      holds a transaction with that hash. */
  lemma ReceiptFound(c: Crypto, db: Db, h: H256)
    requires Structural(c, db)
    ensures Receipt(c, db, h) != Panicked
    ensures Receipt(c, db, h).Found? <==> exists k :: 0 <= k < |db.blocks| && Holds(db.blocks[k], h)
  {
    LastHoldingIsHighest(db.blocks, h);
    assert h in db.infos <==> LastHolding(db.blocks, h).Some?;
  }

  predicate IsHighestHolding(db: Db, h: H256, k: nat) {
    && k < |db.blocks|
    && Holds(db.blocks[k], h)
    && forall j :: k < j < |db.blocks| ==> !Holds(db.blocks[j], h)
  }

  lemma IndexedNumber(c: Crypto, db: Db, k: nat)
    requires IndexOk(c, db) && k < |db.blocks|
    ensures BlockHash(c, db.blocks, k) in db.hashIndex
    ensures db.hashIndex[BlockHash(c, db.blocks, k)] == k <==>
            forall j :: k < j < |db.blocks| ==> BlockHash(c, db.blocks, j) != BlockHash(c, db.blocks, k)
  {
  }

  /** What is kept for a transaction is about the highest block that holds it:
      that block's hash, and the hash and state root of the one before it. */
  lemma HighestInfo(c: Crypto, db: Db, h: H256, k: nat)
    requires InfosOk(c, db) && IsHighestHolding(db, h, k)
    ensures h in db.infos && InfoAgrees(c, db.infos[h], db.blocks, k)
    ensures db.blocks[k].transactions[0].transaction.hash == h
  {
    LastHoldingIsHighest(db.blocks, h);
    var l := LastHolding(db.blocks, h).value;
    assert l == k;
  }

  /** The receipt is about the highest block that holds the transaction, also
      after it has been submitted again. The number it reports is that block's
      exactly when no later block has the same hash. */
  lemma ReceiptAgrees(c: Crypto, db: Db, h: H256, k: nat)
    requires Structural(c, db) && IsHighestHolding(db, h, k)
    ensures |db.blocks[k].transactions| == 1 && Receipt(c, db, h).Found?
    ensures var tx := db.blocks[k].transactions[0]; var r := Receipt(c, db, h).receipt;
      && tx.transaction.hash == h == r.transactionHash
      && r.transactionIndex == 0
      && r.blockHash == BlockHash(c, db.blocks, k)
      && r.from == tx.sender && r.to == tx.transaction.Receiver()
      && r.contractAddress == ContractAddress(c, tx)
      && (r.blockNumber == k <==>
            forall j :: k < j < |db.blocks| ==> BlockHash(c, db.blocks, j) != BlockHash(c, db.blocks, k))
      && (r.blockNumber == k ==> r.stateRoot == Some(db.blocks[k].header.fields.stateRoot))
  {
    HighestInfo(c, db, h, k);
    IndexedNumber(c, db, k);
  }

  /** The addresses on a receipt. A call's receipt names its receiver and no
      contract; a creation's names no receiver and the contract made from the
      sender and the nonce of that very transaction. */
  lemma ReceiptAddresses(c: Crypto, db: Db, h: H256, k: nat)
    requires Structural(c, db) && IsHighestHolding(db, h, k)
    ensures |db.blocks[k].transactions| == 1 && Receipt(c, db, h).Found?
    ensures var tx := db.blocks[k].transactions[0]; var r := Receipt(c, db, h).receipt;
      var u := tx.transaction.unsigned; var pair := List([Data(tx.sender), Data(ToBE(u.nonce))]);
      && Fits(pair)
      && match u.action
         case Call(to) => r.to == Some(to) && r.contractAddress == None
         case Create => r.to == None && r.contractAddress == Some(c.keccak(Encode(pair))[12..])
  {
    ReceiptAgrees(c, db, h, k);
    AddressesExactly(c, db.blocks[k].transactions[0]);
  }

  /** Without header collisions the number and the state root are the block's. */
  lemma ReceiptNumber(c: Crypto, db: Db, h: H256, k: nat)
    requires Structural(c, db) && c.CollisionFree(HeaderPreimages(db)) && IsHighestHolding(db, h, k)
    ensures Receipt(c, db, h).Found?
    ensures var r := Receipt(c, db, h).receipt;
      r.blockNumber == k && r.stateRoot == Some(LowU64Hash(k)) && r.blockHash == BlockHash(c, db.blocks, k)
  {
    ReceiptAgrees(c, db, h, k);
    IndexInverseIf(c, db);
    StateRootOf(c, db, k);
    assert db.hashIndex[BlockHash(c, db.blocks, k)] == k;
  }

  /** The state root of a built block is its number, padded to 32 bytes, so it
      tells the block apart from every other built block. */
  lemma StateRootOf(c: Crypto, db: Db, k: nat)
    requires ChainOk(c, db) && k < |db.blocks| && |db.blocks[k].transactions| == 1
    ensures k < U64_LIMIT && db.blocks[k].header.fields.stateRoot == LowU64Hash(k)
    ensures FromBE(db.blocks[k].header.fields.stateRoot) == k
  {
    assert GoodBlock(c, db.blocks, k);
    ToBEWidths(k);
    ToBERoundTrip(k);
    PadKeepsValue(ToBE(k), 32);
  }
}
