/** Whole runs of the chain database, and replaying the chain from genesis. */
module DbRuns {
  import opened Bytes
  import opened Cryptography
  import opened Transactions
  import opened TransactionCodec
  import opened Signing
  import opened Ethcore
  import opened Backend
  import opened ChainDb
  import opened DbInvariant

  // --------------------------------------------------------------- replay

  function RunTxs(w: World, m: Accounts, b: Block, txs: seq<SignedTransaction>): Accounts
    decreases |txs|
  {
    if txs == [] then m
    else RunTxs(w, Executed(w.evm, m, ContextOf(txs[0], b), TransactOf(txs[0])).0, b, txs[1..])
  }

  /** The state after the last block, computed from nothing but the blocks. */
  function Replay(w: World, blocks: seq<Block>): Accounts {
    if |blocks| <= 1 then map[]
    else
      var b := blocks[|blocks| - 1];
      RunTxs(w, Replay(w, blocks[..|blocks| - 1]), b, b.transactions)
  }

  ghost predicate Replays(w: World, db: Db) {
    && |db.accounts| == |db.blocks|
    && forall k :: 0 <= k < |db.blocks| ==> db.accounts[k] == Replay(w, db.blocks[..k + 1])
  }

  /** Every transaction of the chain succeeded on the snapshot before its block,
      and the info kept for it holds the output and logs of that execution. */
  ghost predicate ExecutionsAgree(w: World, db: Db) {
    && |db.accounts| == |db.blocks|
    && (forall k :: 0 < k < |db.blocks| ==> TxSucceeded(w, db, k))
    && forall h :: h in db.infos && LastHolding(db.blocks, h).Some? ==>
         InfoComplete(w, db, h, LastHolding(db.blocks, h).value)
  }

  predicate TxSucceeded(w: World, db: Db, k: nat)
    requires 0 < k < |db.blocks| == |db.accounts|
  {
    && |db.blocks[k].transactions| == 1
    && OutcomeOf(w, db.accounts[k - 1], db.blocks[k].transactions[0], db.blocks[k]).reason == Succeed
  }

  predicate InfoComplete(w: World, db: Db, h: H256, k: nat)
    requires h in db.infos && k < |db.blocks| == |db.accounts|
  {
    && k > 0 && |db.blocks[k].transactions| == 1
    && db.infos[h] == InfoFor(w, db.accounts[k - 1], db.blocks[k].transactions[0], db.blocks[k - 1], db.blocks[k])
  }

  lemma ReplayOneMore(w: World, db: Db, b: Block, m: Accounts, db': Db)
    requires Replays(w, db) && db.blocks != []
    requires db'.blocks == db.blocks + [b] && db'.accounts == db.accounts + [m]
    requires m == RunTxs(w, db.accounts[|db.accounts| - 1], b, b.transactions)
    ensures Replays(w, db')
  {
    var n := |db.blocks|;
    forall k | 0 <= k < |db'.blocks|
      ensures db'.accounts[k] == Replay(w, db'.blocks[..k + 1])
    {
      if k < n {
        assert db'.blocks[..k + 1] == db.blocks[..k + 1];
      } else {
        assert db'.blocks[..n + 1] == db'.blocks && db'.blocks[..n] == db.blocks;
        assert db.blocks[..(n - 1) + 1] == db.blocks;
      }
    }
  }

  lemma SubmitKeepsReplays(w: World, db: Db, tx: SignedTransaction, time: U64)
    requires db.blocks != [] && Replays(w, db)
    ensures Replays(w, Submit(w, db, tx, time).0)
  {
    if Submit(w, db, tx, time).1 == Accepted {
      AcceptedShape(w, db, tx, time);
      var b := NextBlock(w.crypto, db.Last(), [tx], time);
      var m := Executed(w.evm, db.accounts[|db.accounts| - 1], ContextOf(tx, b), TransactOf(tx)).0;
      assert b.transactions[1..] == [];
      assert RunTxs(w, m, b, []) == m;
      ReplayOneMore(w, db, b, m, Submit(w, db, tx, time).0);
    }
  }

  lemma SubmitKeepsExecutions(w: World, db: Db, tx: SignedTransaction, time: U64)
    requires db.blocks != [] && ExecutionsAgree(w, db)
    ensures ExecutionsAgree(w, Submit(w, db, tx, time).0)
  {
    if Submit(w, db, tx, time).1 == Accepted {
      AcceptedShape(w, db, tx, time);
      var n := |db.blocks|;
      var db' := Submit(w, db, tx, time).0;
      var b := NextBlock(w.crypto, db.Last(), [tx], time);
      forall k | 0 < k < |db'.blocks|
        ensures TxSucceeded(w, db', k)
      {
        if k < n { assert TxSucceeded(w, db, k); }
      }
      forall h | h in db'.infos && LastHolding(db'.blocks, h).Some?
        ensures InfoComplete(w, db', h, LastHolding(db'.blocks, h).value)
      {
        assert db'.blocks[..n] == db.blocks;
        assert b.transactions[0] == tx;
        assert Holds(b, h) <==> h == tx.transaction.hash;
        if h != tx.transaction.hash { assert InfoComplete(w, db, h, LastHolding(db.blocks, h).value); }
      }
    }
  }

  // ------------------------------------------------------------------ runs

  datatype Step =
    | SubmitStep(tx: SignedTransaction, time: U64)
    | CallStep(n: nat, caller: H160, target: H160, input: Octets)
    | EstimateStep(n: nat, args: Transact)

  /** The state after one operation; a call answers without changing anything. */
  function Take(w: World, db: Db, s: Step): Db
    requires db.blocks != [] && db.accounts != []
  {
    match s
    case SubmitStep(tx, time) => Submit(w, db, tx, time).0
    case CallStep(_, _, _, _) => db
    case EstimateStep(n, args) => Estimate(w, db, n, args).0
  }

  function Run(w: World, db: Db, steps: seq<Step>): (r: Db)
    requires db.blocks != [] && db.accounts != []
    ensures r.blocks != [] && r.accounts != []
    decreases |steps|
  {
    if steps == [] then db else Run(w, Take(w, db, steps[0]), steps[1..])
  }

  lemma TakeKeepsStructural(w: World, db: Db, s: Step)
    requires Structural(w.crypto, db)
    ensures Structural(w.crypto, Take(w, db, s))
  {
    match s
    case SubmitStep(tx, time) => SubmitKeepsStructural(w, db, tx, time);
    case CallStep(_, _, _, _) =>
    case EstimateStep(n, args) => EstimateKeepsStructural(w, db, n, args);
  }

  /** In every reachable state, estimates included, the four structures agree. */
  lemma {:induction false} RunKeepsStructural(w: World, db: Db, steps: seq<Step>)
    requires Structural(w.crypto, db)
    ensures Structural(w.crypto, Run(w, db, steps))
    decreases |steps|
  {
    if steps != [] {
      TakeKeepsStructural(w, db, steps[0]);
      RunKeepsStructural(w, Take(w, db, steps[0]), steps[1..]);
    }
  }

  lemma ReachableIsStructural(w: World, time: U64, steps: seq<Step>)
    ensures Structural(w.crypto, Run(w, Genesis(w.crypto, time), steps))
  {
    GenesisStructural(w.crypto, time);
    RunKeepsStructural(w, Genesis(w.crypto, time), steps);
  }

  /** Over any run of submissions and calls, whether they succeed or fail, every
      snapshot is what replaying its block's prefix of the chain from the empty
      genesis state gives, and every info is that of its execution. */
  lemma {:induction false} RunReplays(w: World, db: Db, steps: seq<Step>)
    requires Structural(w.crypto, db) && Replays(w, db) && ExecutionsAgree(w, db)
    requires forall i :: 0 <= i < |steps| ==> !steps[i].EstimateStep?
    ensures Structural(w.crypto, Run(w, db, steps))
    ensures Replays(w, Run(w, db, steps)) && ExecutionsAgree(w, Run(w, db, steps))
    decreases |steps|
  {
    if steps != [] {
      match steps[0] {
        case SubmitStep(tx, time) =>
          SubmitKeepsReplays(w, db, tx, time);
          SubmitKeepsExecutions(w, db, tx, time);
          SubmitKeepsStructural(w, db, tx, time);
        case CallStep(_, _, _, _) =>
      }
      RunReplays(w, Take(w, db, steps[0]), steps[1..]);
    }
  }

  lemma GenesisReplays(w: World, time: U64)
    ensures Replays(w, Genesis(w.crypto, time)) && ExecutionsAgree(w, Genesis(w.crypto, time))
  {
  }

  lemma ReachableReplays(w: World, time: U64, steps: seq<Step>)
    requires forall i :: 0 <= i < |steps| ==> !steps[i].EstimateStep?
    ensures Replays(w, Run(w, Genesis(w.crypto, time), steps))
    ensures ExecutionsAgree(w, Run(w, Genesis(w.crypto, time), steps))
  {
    GenesisStructural(w.crypto, time);
    GenesisReplays(w, time);
    RunReplays(w, Genesis(w.crypto, time), steps);
  }

  lemma SubmitKeepsPast(w: World, db: Db, tx: SignedTransaction, time: U64, k: nat)
    requires Structural(w.crypto, db) && k < |db.accounts|
    ensures var db' := Submit(w, db, tx, time).0;
      && |db.blocks| <= |db'.blocks| && db'.blocks[..|db.blocks|] == db.blocks
      && k < |db'.accounts| && db'.accounts[k] == db.accounts[k]
  {
    if Submit(w, db, tx, time).1 == Accepted { AcceptedShape(w, db, tx, time); }
  }

  lemma TakeKeepsPast(w: World, db: Db, s: Step, k: nat)
    requires Structural(w.crypto, db) && k < |db.accounts|
    requires s.EstimateStep? ==> s.n != k
    ensures var db' := Take(w, db, s);
      && |db.blocks| <= |db'.blocks| && db'.blocks[..|db.blocks|] == db.blocks
      && k < |db'.accounts| && db'.accounts[k] == db.accounts[k]
  {
    if s.SubmitStep? { SubmitKeepsPast(w, db, s.tx, s.time, k); }
  }

  /** Every run keeps the chain it started from as a prefix, and keeps a
      snapshot as it was unless gas is estimated on that very snapshot. */
  lemma {:induction false} RunKeepsPast(w: World, db: Db, steps: seq<Step>, k: nat)
    requires Structural(w.crypto, db) && k < |db.accounts|
    requires forall i :: 0 <= i < |steps| && steps[i].EstimateStep? ==> steps[i].n != k
    ensures var db' := Run(w, db, steps);
      && |db.blocks| <= |db'.blocks| == |db'.accounts|
      && db'.blocks[..|db.blocks|] == db.blocks
      && db'.accounts[k] == db.accounts[k]
    decreases |steps|
  {
    if steps != [] {
      var next := Take(w, db, steps[0]);
      TakeKeepsStructural(w, db, steps[0]);
      TakeKeepsPast(w, db, steps[0], k);
      RunKeepsPast(w, next, steps[1..], k);
      var db' := Run(w, db, steps);
      assert db'.blocks[..|db.blocks|] == db'.blocks[..|next.blocks|][..|db.blocks|];
    }
  }

  // ------------------------------------------------- estimates and replay

  /** Estimating gas on an existing snapshot keeps replay agreement exactly when
      the execution does not succeed or its writes change nothing there. */
  lemma EstimateReplaysExactly(w: World, db: Db, n: nat, tx: Transact)
    requires Structural(w.crypto, db) && Replays(w, db) && n < |db.accounts|
    ensures var o := w.evm.transact(db.accounts[n], Context(0, tx.sender, db.Last()), tx);
      Replays(w, Estimate(w, db, n, tx).0) <==>
        o.reason != Succeed || ApplyAll(db.accounts[n], o.applies, false) == db.accounts[n]
  {
    var db' := Estimate(w, db, n, tx).0;
    assert db'.blocks == db.blocks;
    assert db.accounts[n] == Replay(w, db.blocks[..n + 1]);
    if Replays(w, db') {
      assert db'.accounts[n] == Replay(w, db'.blocks[..n + 1]);
    } else {
      assert db'.accounts != db.accounts;
    }
  }

  /** An interpreter whose every transaction credits the zero address. */
  function CreditingEvm(): Evm {
    Evm((_, _, _) => Outcome(Succeed, [], 0, [Modify(Zeros(20), Basic(1, 0), None, [], false)], []),
        (_, _, _, _, _) => Trap(0))
  }

  /** So replay agreement is lost by a single estimate on a fresh chain, with
      any cryptography. */
  lemma EstimateCanBreakReplay(c: Crypto, time: U64, tx: Transact)
    ensures var w := World(c, CreditingEvm()); var db := Genesis(c, time);
      Structural(c, db) && Replays(w, db) && !Replays(w, Estimate(w, db, 0, tx).0)
  {
    var w := World(c, CreditingEvm());
    var db := Genesis(c, time);
    GenesisStructural(c, time);
    var credit := Modify(Zeros(20), Basic(1, 0), None, [], false);
    var after := ApplyAll(map[], [credit], false);
    assert after == ApplyAll(ApplyOne(map[], credit, false), [credit][1..], false);
    assert Zeros(20) in after;
    EstimateReplaysExactly(w, db, 0, tx);
  }

  // --------------------------------------------------- zero-free snapshots

  ghost predicate AllZeroFree(db: Db) {
    forall k :: 0 <= k < |db.accounts| ==> ZeroFree(db.accounts[k])
  }

  lemma ExecutedKeepsZeroFree(evm: Evm, m: Accounts, ctx: Context, tx: Transact)
    requires ZeroFree(m)
    ensures ZeroFree(Executed(evm, m, ctx, tx).0)
  {
    ApplyKeepsZeroFree(m, evm.transact(m, ctx, tx).applies, false);
  }

  lemma TakeKeepsZeroFree(w: World, db: Db, s: Step)
    requires db.blocks != [] && db.accounts != [] && AllZeroFree(db)
    ensures AllZeroFree(Take(w, db, s))
  {
    match s
    case SubmitStep(tx, time) =>
      if Submit(w, db, tx, time).1 == Accepted {
        AcceptedShape(w, db, tx, time);
        var b := NextBlock(w.crypto, db.Last(), [tx], time);
        ExecutedKeepsZeroFree(w.evm, db.accounts[|db.accounts| - 1], ContextOf(tx, b), TransactOf(tx));
      }
    case CallStep(_, _, _, _) =>
    case EstimateStep(n, args) =>
      if n < |db.accounts| {
        ExecutedKeepsZeroFree(w.evm, db.accounts[n], Context(0, args.sender, db.Last()), args);
      }
  }

  /** No snapshot ever stores a zero slot, estimates included, so by
      `ReadsDetermineMap` the four readers see everything a snapshot holds. */
  lemma {:induction false} RunKeepsZeroFree(w: World, db: Db, steps: seq<Step>)
    requires db.blocks != [] && db.accounts != [] && AllZeroFree(db)
    ensures AllZeroFree(Run(w, db, steps))
    decreases |steps|
  {
    if steps != [] {
      TakeKeepsZeroFree(w, db, steps[0]);
      RunKeepsZeroFree(w, Take(w, db, steps[0]), steps[1..]);
    }
  }

  lemma ReachableZeroFree(w: World, time: U64, steps: seq<Step>)
    ensures AllZeroFree(Run(w, Genesis(w.crypto, time), steps))
  {
    RunKeepsZeroFree(w, Genesis(w.crypto, time), steps);
  }

  /** The writes leave what is read at every address and slot as it was. */
  ghost predicate WritesUnseen(m: Accounts, aps: seq<Apply>) {
    forall a, i :: SeenAfterAll(Observe(m, a, i), aps, a, i, false) == Observe(m, a, i)
  }

  /** In a snapshot without zeros, the writes change nothing exactly when they
      change no read at any address and slot. */
  lemma UnseenExactly(m: Accounts, aps: seq<Apply>)
    requires ZeroFree(m)
    ensures ApplyAll(m, aps, false) == m <==> WritesUnseen(m, aps)
  {
    var r := ApplyAll(m, aps, false);
    ApplyKeepsZeroFree(m, aps, false);
    ReadsDetermineMap(r, m);
    forall a: H160, i: H256
      ensures Observe(r, a, i) == SeenAfterAll(Observe(m, a, i), aps, a, i, false)
    {
      ApplyRefinesTotalModel(m, aps, a, i, false);
    }
  }

  /** In every reachable state that agrees with replay, an estimate keeps it so
      exactly when it does not succeed or no read can tell its writes. */
  lemma EstimateReplaysUnseen(w: World, time: U64, steps: seq<Step>, n: nat, tx: Transact)
    requires var db := Run(w, Genesis(w.crypto, time), steps); Replays(w, db) && n < |db.accounts|
    ensures var db := Run(w, Genesis(w.crypto, time), steps);
      var o := w.evm.transact(db.accounts[n], Context(0, tx.sender, db.Last()), tx);
      Replays(w, Estimate(w, db, n, tx).0) <==> o.reason != Succeed || WritesUnseen(db.accounts[n], o.applies)
  {
    var db := Run(w, Genesis(w.crypto, time), steps);
    ReachableIsStructural(w, time, steps);
    ReachableZeroFree(w, time, steps);
    EstimateReplaysExactly(w, db, n, tx);
    var o := w.evm.transact(db.accounts[n], Context(0, tx.sender, db.Last()), tx);
    UnseenExactly(db.accounts[n], o.applies);
  }

  // ------------------------------------------------- sending a transaction

  datatype SendError = BadRlp(error: DecoderError) | BadSignature(reason: KeyError) | BadSubmission(result: Submission)

  /** `send_raw_transaction` with the write lock held for the submission. */
  function SendRaw(w: World, db: Db, raw: seq<Byte>, time: U64): (r: (Db, Result<H256, SendError>))
    requires db.blocks != [] && db.accounts != []
    ensures r.0.blocks != [] && r.0.accounts != []
  {
    match Decode(w.crypto, raw)
    case Err(e) => (db, Err(BadRlp(e)))
    case Ok(tx) =>
      match NewSigned(w.crypto, tx)
      case Err(e) => (db, Err(BadSignature(e)))
      case Ok(signed) =>
        var (db', r) := Submit(w, db, signed, time);
        (db', if r == Accepted then Ok(signed.transaction.hash) else Err(BadSubmission(r)))
  }

  /** The receipt of the transaction in the last block, with no condition on hashes. */
  lemma NewestReceipt(c: Crypto, db: Db, tx: SignedTransaction)
    requires Structural(c, db) && db.Last().transactions == [tx]
    ensures var found := Receipt(c, db, tx.transaction.hash);
      && found.Found?
      && found.receipt.from == tx.sender
      && found.receipt.blockHash == db.Last().header.Hash(c)
      && found.receipt.blockNumber == |db.blocks| - 1
      && found.receipt.stateRoot == Some(db.Last().header.fields.stateRoot)
  {
    var h, k := tx.transaction.hash, |db.blocks| - 1;
    assert db.Last().transactions[0] == tx;
    assert IsHighestHolding(db, h, k);
    ReceiptAgrees(c, db, h, k);
  }

  /** Sent bytes are accepted exactly when they decode, the signature verifies,
      there is a next block number and the execution in the next block succeeds.
      The answer is the hash of the bytes; in every other case nothing changes. */
  lemma SendExactly(w: World, db: Db, raw: seq<Byte>, time: U64, h: H256)
    requires db.blocks != [] && db.accounts != []
    ensures SendRaw(w, db, raw, time).1 == Ok(h) <==>
      && h == w.crypto.keccak(raw)
      && Decode(w.crypto, raw).Ok?
      && var u := Decode(w.crypto, raw).value;
      && NewSigned(w.crypto, u).Ok?
      && db.Last().header.fields.number + 1 < U64_LIMIT
      && var tx := NewSigned(w.crypto, u).value;
         w.evm.transact(
           db.accounts[|db.accounts| - 1],
           Context(u.unsigned.gasPrice, tx.sender, NextBlock(w.crypto, db.Last(), [tx], time)),
           Transact(tx.sender, u.unsigned.value,
                    match u.unsigned.action { case Create => None case Call(to) => Some(to) }, u.unsigned.data)
         ).reason == Succeed
    ensures SendRaw(w, db, raw, time).1.Err? ==> SendRaw(w, db, raw, time).0 == db
  {
    if Decode(w.crypto, raw).Ok? {
      DecodeIsCanonical(w.crypto, raw);
      var u := Decode(w.crypto, raw).value;
      if NewSigned(w.crypto, u).Ok? {
        AcceptedExactly(w, db, NewSigned(w.crypto, u).value, time);
      }
    }
  }

  /** From key to receipt. A transaction is signed and its wire bytes are sent.
      They are accepted exactly when there is a next block number and the
      transaction, sent by the signer, succeeds in the next block. Then the new
      last block holds it, the answer is its hash, and the receipt under that hash
      names the signer, the new block's hash and the new block's number. */
  lemma SentTransactionHasReceipt(
      w: World, db: Db, t: Transaction, secret: Secret, chain: Option<U64>, time: U64)
    requires Structural(w.crypto, db)
    requires w.crypto.Signs(secret, w.crypto.keccak(Preimage(t, chain)))
    requires chain.Some? ==> chain.value <= 0x8000_0000_0000_0000 - 19
    ensures Sign(w.crypto, t, secret, chain).Some?
    ensures var signed := Sign(w.crypto, t, secret, chain).value;
      var sender: H160 := w.crypto.keccak(w.crypto.publicOf(secret))[12..];
      SendRaw(w, db, Wire(signed.transaction), time).1.Ok? <==>
        && db.Last().header.fields.number + 1 < U64_LIMIT
        && w.evm.transact(
             db.accounts[|db.accounts| - 1],
             Context(t.gasPrice, sender, NextBlock(w.crypto, db.Last(), [signed], time)),
             Transact(sender, t.value, match t.action { case Create => None case Call(to) => Some(to) }, t.data)
           ).reason == Succeed
    ensures var signed := Sign(w.crypto, t, secret, chain).value;
      var h := signed.transaction.hash;
      var (db', answer) := SendRaw(w, db, Wire(signed.transaction), time);
      if answer.Ok? then
        && answer == Ok(h) && |db'.blocks| == |db.blocks| + 1 && db'.Last().transactions == [signed]
        && Receipt(w.crypto, db', h).Found?
        && Receipt(w.crypto, db', h).receipt.from == w.crypto.keccak(w.crypto.publicOf(secret))[12..]
        && Receipt(w.crypto, db', h).receipt.blockHash == db'.Last().header.Hash(w.crypto)
        && Receipt(w.crypto, db', h).receipt.blockNumber == |db.blocks|
      else db' == db
  {
    SignSendRecover(w.crypto, t, secret, chain);
    var signed := Sign(w.crypto, t, secret, chain).value;
    AcceptedExactly(w, db, signed, time);
    SubmissionIsAtomic(w, db, signed, time);
    SubmitKeepsStructural(w, db, signed, time);
    var (db', r) := Submit(w, db, signed, time);
    if r == Accepted {
      NewestReceipt(w.crypto, db', signed);
    }
  }
}
