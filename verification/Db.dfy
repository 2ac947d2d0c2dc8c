/**
 The chain database. `Db` is its state as a value and each operation has a
 function on that value; the class `HashMapEthDB` carries out the operations
 step by step on its four fields and is proved against those functions.
 */
module ChainDb {
  import opened Bytes
  import opened Cryptography
  import opened Transactions
  import opened Signing
  import opened Ethcore
  import opened Backend

  /** The foreign parts the database runs on. */
  datatype World = World(crypto: Crypto, evm: Evm)

  datatype TransactionInfo = TransactionInfo(
    transaction: Option<SignedTransaction>, postState: H256, result: Option<Octets>,
    logs: seq<Log>, blockHash: H256, parentHash: H256, index: nat)

  const DEFAULT_INFO := TransactionInfo(None, Zeros(32), None, [], Zeros(32), Zeros(32), 0)

  /** `accounts[k]` is the full account snapshot after block `k`. */
  datatype Db = Db(
    blocks: seq<Block>, accounts: seq<Accounts>, hashIndex: map<H256, U64>, infos: map<H256, TransactionInfo>)
  {
    function Last(): Block
      requires blocks != []
    {
      blocks[|blocks| - 1]
    }
  }

  /** `Overflowed` stands for the overflow panic on the block number. */
  datatype Submission = Accepted | Rejected | Overflowed

  // --------------------------------------------------------------- blocks

  function LowU64Hash(n: U64): H256 {
    ToBEWidths(n);
    PadTo(ToBE(n), 32)
  }

  function GenesisBlock(c: Crypto, time: U64): Block {
    Block(Sealed(c, DefaultFields(c).(timestamp := time)), [], [])
  }

  predicate HasSuccessor(best: Block) {
    best.header.fields.number + 1 < U64_LIMIT
  }

  /** The fields set before the transactions are known. */
  function NumberedFields(c: Crypto, best: Block, time: U64): HeaderFields
    requires HasSuccessor(best)
  {
    var n := best.header.fields.number + 1;
    DefaultFields(c).(
      parentHash := best.header.Hash(c),
      number := n,
      stateRoot := LowU64Hash(n),
      receiptsRoot := LowU64Hash(n),
      timestamp := time)
  }

  function NextFields(c: Crypto, best: Block, txs: seq<SignedTransaction>, time: U64): HeaderFields
    requires HasSuccessor(best) && RootSized(|txs|)
  {
    NumberedFields(c, best, time).(transactionsRoot := TransactionRoot(c, txs))
  }

  function NextBlock(c: Crypto, best: Block, txs: seq<SignedTransaction>, time: U64): Block
    requires HasSuccessor(best) && RootSized(|txs|)
  {
    Block(Sealed(c, NextFields(c, best, txs, time)), txs, [])
  }

  // ----------------------------------------------------------- operations

  function Genesis(c: Crypto, time: U64): Db {
    var g := GenesisBlock(c, time);
    Db([g], [map[]], map[g.header.Hash(c) := 0], map[])
  }

  function ContextOf(tx: SignedTransaction, b: Block): Context {
    Context(tx.transaction.unsigned.gasPrice, tx.sender, b)
  }

  function TransactOf(tx: SignedTransaction): Transact {
    var t := tx.transaction.unsigned;
    Transact(tx.sender, t.value, tx.transaction.Receiver(), t.data)
  }

  function OutcomeOf(w: World, m: Accounts, tx: SignedTransaction, b: Block): Outcome {
    w.evm.transact(m, ContextOf(tx, b), TransactOf(tx))
  }

  /** What is remembered about a transaction that was executed in block `b` on
      top of block `parent`. */
  function InfoFor(w: World, m: Accounts, tx: SignedTransaction, parent: Block, b: Block): TransactionInfo {
    var o := OutcomeOf(w, m, tx, b);
    TransactionInfo(
      Some(tx), parent.header.fields.stateRoot,
      if tx.transaction.Receiver().Some? then Some(o.output) else None,
      Executed(w.evm, m, ContextOf(tx, b), TransactOf(tx)).1,
      b.header.Hash(w.crypto), parent.header.Hash(w.crypto), 0)
  }

  function Submit(w: World, db: Db, tx: SignedTransaction, time: U64): (r: (Db, Submission))
    requires db.blocks != [] && db.accounts != []
    ensures r.0.blocks != [] && r.0.accounts != []
  {
    if !HasSuccessor(db.Last()) then (db, Overflowed)
    else
      var b := NextBlock(w.crypto, db.Last(), [tx], time);
      var m := db.accounts[|db.accounts| - 1];
      if OutcomeOf(w, m, tx, b).reason != Succeed then (db, Rejected)
      else
        (Db(db.blocks + [b],
            db.accounts + [Executed(w.evm, m, ContextOf(tx, b), TransactOf(tx)).0],
            db.hashIndex[b.header.Hash(w.crypto) := b.header.fields.number],
            db.infos[tx.transaction.hash := InfoFor(w, m, tx, db.Last(), b)]), Accepted)
  }

  /** Gas estimation runs on snapshot `n` in place; `None` is the panic of its
      unwrapped lookup. */
  function Estimate(w: World, db: Db, n: nat, tx: Transact): (Db, Option<(ExitReason, Octets, U64)>)
    requires db.blocks != []
  {
    if n >= |db.accounts| then (db, None)
    else
      var ctx := Context(0, tx.sender, db.Last());
      var o := w.evm.transact(db.accounts[n], ctx, tx);
      (db.(accounts := db.accounts[n := Executed(w.evm, db.accounts[n], ctx, tx).0]),
       Some((o.reason, if tx.to.Some? then o.output else [], o.gas)))
  }

  function StaticCall(w: World, db: Db, n: nat, caller: H160, target: H160, input: Octets): Option<(ExitReason, Octets, U64)>
    requires db.blocks != []
  {
    if n >= |db.accounts| then None
    else Some(CallResult(w.evm, db.accounts[n], Context(0, caller, db.Last()), caller, target, input))
  }

  datatype RpcReceipt = RpcReceipt(
    transactionHash: H256, transactionIndex: nat, blockHash: H256, from: H160, to: Option<H160>,
    blockNumber: U64, contractAddress: Option<H160>, stateRoot: Option<H256>)

  datatype ReceiptLookup = Unknown | Found(receipt: RpcReceipt) | Panicked

  function Receipt(c: Crypto, db: Db, hash: H256): ReceiptLookup {
    if hash !in db.infos then Unknown
    else
      var info := db.infos[hash];
      if info.transaction.None? || info.blockHash !in db.hashIndex then Panicked
      else
        var tx := info.transaction.value;
        var n := db.hashIndex[info.blockHash];
        Found(RpcReceipt(
          hash, info.index, info.blockHash, tx.sender, tx.transaction.Receiver(), n, ContractAddress(c, tx),
          if n < |db.blocks| then Some(db.blocks[n].header.fields.stateRoot) else None))
  }

  // ------------------------------------------------------------ the class

  class HashMapEthDB {
    const w: World
    var blocks: seq<Block>
    var accounts: seq<Accounts>
    var hashIndex: map<H256, U64>
    var infos: map<H256, TransactionInfo>

    function View(): Db
      reads this
    {
      Db(blocks, accounts, hashIndex, infos)
    }

    constructor (w: World, time: U64)
      ensures this.w == w && View() == Genesis(w.crypto, time)
    {
      this.w, blocks, accounts, hashIndex, infos := w, [], [], map[], map[];
      new;
      CreateGenesis(time);
    }

    method CreateGenesis(time: U64)
      requires View() == Db([], [], map[], map[])
      modifies this
      ensures View() == Genesis(w.crypto, time)
    {
      var h := new Header(w.crypto);
      h.timestamp := time;
      var hash := h.ComputeHash(w.crypto);
      blocks := blocks + [Block(h.Record(), [], [])];
      hashIndex := hashIndex[hash := 0];
      accounts := accounts + [map[]];
    }

    /** Fills in a fresh header field by field and memoises its hash last. */
    method NewBlock(txs: seq<SignedTransaction>, time: U64) returns (b: Block)
      requires blocks != [] && HasSuccessor(View().Last()) && RootSized(|txs|)
      ensures b == NextBlock(w.crypto, View().Last(), txs, time)
    {
      var h := NumberedHeader(blocks[|blocks| - 1], time);
      h.transactionsRoot := ComputeTransactionRoot(w.crypto, txs);
      var _ := h.ComputeHash(w.crypto);
      b := Block(h.Record(), txs, []);
    }

    method NumberedHeader(best: Block, time: U64) returns (h: Header)
      requires HasSuccessor(best)
      ensures fresh(h) && h.memo == None && h.Fields() == NumberedFields(w.crypto, best, time)
    {
      var n := best.header.fields.number + 1;
      h := new Header(w.crypto);
      h.parentHash := best.header.Hash(w.crypto);
      h.number := n;
      h.stateRoot := LowU64Hash(n);
      h.receiptsRoot := LowU64Hash(n);
      h.timestamp := time;
    }

    method SubmitTx(tx: SignedTransaction, time: U64) returns (r: Submission)
      requires blocks != [] && accounts != []
      modifies this
      ensures (View(), r) == Submit(w, old(View()), tx, time)
    {
      var last := blocks[|blocks| - 1];
      if !HasSuccessor(last) {
        return Overflowed;
      }
      var newBlock := NewBlock([tx], time);
      var reason, newAccounts, info := ExecuteIn(newBlock, tx);
      if reason != Succeed {
        return Rejected;
      }
      accounts := accounts + [newAccounts];
      SaveBlock(newBlock);
      infos := infos[tx.transaction.hash := info];
      return Accepted;
    }

    /** Runs the transaction on a copy of the last snapshot and gathers its info. */
    method ExecuteIn(newBlock: Block, tx: SignedTransaction)
      returns (reason: ExitReason, newAccounts: Accounts, info: TransactionInfo)
      requires blocks != [] && accounts != []
      ensures var m := accounts[|accounts| - 1];
        && reason == OutcomeOf(w, m, tx, newBlock).reason
        && newAccounts == Executed(w.evm, m, ContextOf(tx, newBlock), TransactOf(tx)).0
        && info == InfoFor(w, m, tx, blocks[|blocks| - 1], newBlock)
    {
      var last := blocks[|blocks| - 1];
      info := DEFAULT_INFO;
      info := info.(postState := last.header.fields.stateRoot);
      info := info.(parentHash := last.header.Hash(w.crypto));
      info := info.(blockHash := newBlock.header.Hash(w.crypto));
      info := info.(index := 0, transaction := Some(tx));
      var backend := new EthDBBackend(accounts[|accounts| - 1], ContextOf(tx, newBlock));
      var res, gas;
      reason, res, gas := backend.Execute(w.evm, TransactOf(tx));
      info := info.(logs := backend.logs, result := res);
      newAccounts := backend.accounts;
      assert [] + backend.logs == backend.logs;
    }

    method SaveBlock(b: Block)
      modifies `blocks, `hashIndex
      ensures blocks == old(blocks) + [b]
      ensures hashIndex == old(hashIndex)[b.header.Hash(w.crypto) := b.header.fields.number]
    {
      var h, n := b.header.Hash(w.crypto), b.header.fields.number;
      blocks := blocks + [b];
      hashIndex := hashIndex[h := n];
    }

    /** Panics in the source when there is no snapshot `n`. */
    method EstimateGas(n: nat, tx: Transact) returns (r: (ExitReason, Octets, U64))
      requires blocks != [] && n < |accounts|
      modifies `accounts
      ensures (View(), Some(r)) == Estimate(w, old(View()), n, tx)
    {
      var backend := new EthDBBackend(accounts[n], Context(0, tx.sender, blocks[|blocks| - 1]));
      var reason, out, gas := backend.Execute(w.evm, tx);
      accounts := accounts[n := backend.accounts];
      r := (reason, out.GetOr([]), gas);
    }

    method Call(n: nat, caller: H160, target: H160, input: Octets) returns (r: (ExitReason, Octets, U64))
      requires blocks != [] && n < |accounts|
      ensures Some(r) == StaticCall(w, View(), n, caller, target, input)
    {
      var backend := new EthDBBackend(accounts[n], Context(0, caller, blocks[|blocks| - 1]));
      r := backend.Call(w.evm, caller, target, input);
    }
  }
}
