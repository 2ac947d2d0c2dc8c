# A verified model of the in-memory Ethereum node

The node keeps a chain of one-transaction blocks, a full account snapshot per block, an index from block
hashes to positions and an info record per transaction. It receives signed transactions as RLP bytes,
recovers their senders, executes them on the last snapshot and answers RPC requests. This project models
that behaviour and proves its properties; `dafny verify dfyconfig.toml` checks all of it.

| file | models |
|---|---|
| `Bytes.dfy` | integer widths, fixed-size hashes, minimal big-endian integers |
| `Rlp.dfy` | RLP as in Appendix B of the Ethereum Yellow Paper: encoding, size, strict decoding |
| `RlpStream.dfy` | the streaming writer that every encoder appends to |
| `Crypto.dfy` | hashing, signing and recovering, as parameters |
| `Transaction.dfy`, `TransactionCodec.dfy`, `Signing.dfy` | transactions, their writers and decoder, EIP-155 replay protection, signing, contract addresses |
| `Ethcore.dfy` | headers with memoised hashes, transaction roots, accounts |
| `Backend.dfy` | the fold of EVM writes into a snapshot, and the readers |
| `Db.dfy`, `DbInvariant.dfy`, `DbRuns.dfy` | the chain database, what every operation keeps, whole runs and replay |
| `Rpc.dfy` | RPC requests as lock sections of many threads |
| `Commitment.dfy` | what a block hash commits to |
| `BlockSelector.dfy`, `RpcTypes.dfy` | the block selector, hex byte strings, the block summary's size |

The EVM, Keccak and ECDSA are values of the types `Evm` and `Crypto` that every theorem takes as
arguments. Nothing is assumed about them except what a lemma's own `requires` says: `Crypto.Signs` (a
signature recovers to its signer, is not empty, and has recovery id 0 or 1) and `Crypto.CollisionFree`
over the finite set of byte strings that the chains at hand have hashed. Where a law needs distinct hashes
it is stated as an equivalence with collision freedom, or names the collision.

Results worth knowing before using the code:

- Estimating gas writes to the snapshot it runs on, so replay agreement holds over submissions and calls
  but is lost by one successful estimate that changes something (`DbRuns.EstimateReplaysExactly` says
  exactly when, `DbRuns.EstimateCanBreakReplay` shows a case).
- A recovery id of 2 or 3 does not survive packing into `v`: with a chain id it reads back as the next
  chain (`Signing.PackThenUnpack`).
- A call or a gas estimate at a block number that does not exist panics under the write lock, after which
  the database never changes and every request that takes the lock fails (`RpcNode.UnknownNumberStopsNode`,
  `RpcNode.PoisonIsPermanent`). No other selector can cause that (`RpcNode.NeverPoisoned`); the only other
  way is to run out of block numbers (`RpcNode.PoisonsExactly` is exact).

## Model

| member | source | states |
|---|---|---|
| Bytes.ToBERoundTrip | src/transaction.rs:152-157 | an appended integer's bytes have no leading zero and read back to it |
| Bytes.FromBERoundTrip | src/transaction.rs:275-284 | bytes without a leading zero are the only ones that stand for their number |
| Bytes.ToBEWidths | src/transaction.rs:250-254 | `u64` and `U256` values are exactly those of at most 8 and 32 bytes |
| Rlp.ParseOfEncode | src/transaction.rs:267-288 | strict decoding of an encoding followed by anything gives the item back and stops at its end |
| Rlp.EncodeOfParse | src/transaction.rs:267-288 | every prefix that strict decoding accepts is the encoding of the item it returns |
| Rlp.PrefixFree | src/transaction.rs:318-329 | no encoding is a prefix of another, so `Encode` is injective even with bytes after it |
| Rlp.ExactInverse | src/transaction.rs:267-288 | a byte string is exactly one item if and only if it is that item's encoding |
| Rlp.EncodingLayout | src/transaction.rs:318-329 | the format as such: payload at the end, and before it nothing, one byte holding type and length, or type, length of length and length without a leading zero, exactly by payload size |
| RlpStreams.ListOfPushes | src/transaction.rs:150-163 | appending n items to a list opened for n is one append of the finished list to the enclosing stream |
| RlpStreams.RlpStream.BeginList | src/ethcore.rs:11-12 | opening a list: the bytes stay the encoding of the written structure, an empty list counts as one item at once |
| RlpStreams.RlpStream.AppendData | src/transaction.rs:152-157 | appending a string pushes exactly that item and closes every list it completes, with the prefix spliced in front of the payload |
| RlpStreams.RlpStream.NoteAppended | src/transaction.rs:318-329 | counting an item, and closing all lists that become full, keeps bytes and structure in agreement |
| RlpStreams.RlpStream.Out | src/ethcore.rs:143-148 | the finished bytes are the encoding of the items written |
| Transactions.AppendUnsigned | src/transaction.rs:150-163 | on any stream, exactly one item is appended: six fields, or nine with the chain id and two zeros; PreimageLayout says which number stands where |
| Transactions.AppendSealed | src/transaction.rs:318-329 | on any stream, exactly one nine-field item is appended |
| Transactions.AppendAction | src/transaction.rs:89-96 | creation is the empty string, a call is the twenty address bytes |
| Transactions.Hash | src/transaction.rs:168-172 | the streamed message hash is the hash of the bytes that PreimageLayout and PlainPreimageExactly pin |
| Transactions.ComputeHash | src/transaction.rs:298-302 | the memo becomes the hash of the wire bytes and nothing else changes |
| Transactions.SealedFits | src/transaction.rs:318-329 | every transaction with data a byte vector can hold has an encoding |
| TransactionCodec.ActionInverse | src/transaction.rs:75-87 | decoding and encoding an action are inverse; the empty list is refused |
| TransactionCodec.FieldsInverse | src/transaction.rs:273-286 | nine items decode to a transaction exactly when they are the ones it is written as |
| TransactionCodec.WireRoundTrip | src/transaction.rs:267-302 | decoding any transaction's wire bytes gives the same fields, and the received bytes hash to the memo of `compute_hash` |
| TransactionCodec.DecodeIsCanonical | src/transaction.rs:267-288 | an accepted input is byte for byte the wire form of what it decodes to |
| TransactionCodec.DecodeInjective | src/transaction.rs:267-288 | no two accepted inputs decode to the same fields |
| TransactionCodec.WireLayout | src/transaction.rs:318-329 | a wire form reads as nine items, each position holding the field it is documented to hold, integers by value |
| TransactionCodec.PreimageLayout | src/transaction.rs:150-172 | signed bytes read as six items, or nine with the chain id and two zeros, nonce first and each position by value |
| TransactionCodec.PlainPreimageExactly | src/transaction.rs:150-172 | the bytes signed without a chain id are the only ones that read as a six-item list and, before any three items, decode to the transaction |
| Signing.PackThenUnpack | src/transaction.rs:110-128 | `standard_v` and `chain_id` undo packing exactly for ids 0 and 1, and for id 4 without a chain |
| Signing.UnpackThenPack | src/transaction.rs:337-353 | packing undoes unpacking exactly for v = 27, 28, 31 and every v from 35 up to the `u64` maximum |
| Signing.ChainIdBound | src/transaction.rs:110-116 | both ids pack without overflow exactly for chain ids up to 2^63 - 19 |
| Signing.AcceptedChains | src/transaction.rs:362-402 | a signature for chain n passes `verify_basic` for n only, one without a chain id for all, and the low-s test is required exactly when asked for |
| Signing.EmptySignatureRefused | src/transaction.rs:377-446 | the empty signature is refused by both verifications; in `verify_basic` its error is given to nothing else, in `SignedTransaction::new` only to a recovery that fails with the same error |
| Signing.PreimageInjective | src/transaction.rs:150-172 | signed bytes determine the transaction and the optional chain id; the two list forms never meet |
| Signing.PreimageMeetsWire | src/transaction.rs:318-353 | signed bytes are a wire form exactly of the transaction with v = n and an empty signature, which then reports n as its chain id |
| Signing.SignSendRecover | src/transaction.rs:175-192 | sign, encode, decode and verify return the same signed transaction, with r and s as signed, v as packed, its chain id, the signer's key, and as sender the low half of that key's hash |
| Signing.ComputeContractAddress | src/transaction.rs:474-486 | the streamed contract address is the one AddressesExactly pins; there is none exactly for calls |
| Signing.AddressesExactly | src/transaction.rs:474-486 | a call has its receiver and no contract address; a creation has no receiver and the low twenty bytes of the hash of the encoded sender and nonce |
| Signing.ContractPreimageInjective | src/transaction.rs:478-482 | equal contract-address preimages have equal sender and nonce |
| Signing.LocalizedTransaction.Sender | src/transaction.rs:507-518 | returns the recovered sender and caches it; the empty signature gets the fixed address and is not cached |
| Ethcore.ComputeTransactionRoot | src/ethcore.rs:10-20 | the loop's result is the hash of the list of the transactions' hashes, in order |
| Ethcore.RootPreimageInjective | src/ethcore.rs:10-20 | equal root preimages come from equal hash sequences |
| Ethcore.RootLayout | src/ethcore.rs:10-20 | a transaction root is the hash of bytes that read as the list of the transactions' hashes, in order |
| Ethcore.HeaderFits | src/ethcore.rs:151-166 | every header has an encoding, and its payload length is the sum of its fields' |
| Ethcore.HeaderInjective | src/ethcore.rs:151-166 | equal header encodings agree on all thirteen fields |
| Ethcore.HeaderLayout | src/ethcore.rs:151-166 | a header's bytes read as thirteen items, each position holding the field the source streams there |
| Ethcore.Header.StreamRlp | src/ethcore.rs:151-166 | on any stream, exactly one thirteen-field item is appended |
| Ethcore.Header.Rlp | src/ethcore.rs:144-148 | the streamed bytes are the recursive encoding of the current fields |
| Ethcore.Header.Hash | src/ethcore.rs:176-178 | the memo when there is one, otherwise the hash of the current fields |
| Ethcore.Header.ComputeHash | src/ethcore.rs:169-173 | without a memo the header becomes sealed over its current fields; a memo that is there is kept |
| Backend.EthDBBackend.Apply | src/db.rs:43-107 | the loops leave the fold of the writes over the old map, and append the logs in order |
| Backend.EthDBBackend.ModifyAccount | src/db.rs:57-97 | one account's in-place update, zero clean-up, slot writes and conditional removal |
| Backend.EthDBBackend.RemoveZeros | src/db.rs:70-79 | collecting and removing the zero slots leaves exactly the non-zero ones |
| Backend.EthDBBackend.Execute | src/db.rs:217-251 | a successful execution applies its writes and logs, any other changes nothing |
| Backend.ApplyConcat | src/db.rs:49-102 | applying a concatenation is applying its parts in sequence |
| Backend.ApplyRefinesTotalModel | src/db.rs:42-182 | after any writes, existence, balance, nonce, code and every slot read as a total last-write-wins model says |
| Backend.ApplyKeepsZeroFree | src/db.rs:70-87 | no write stores a zero slot, and an account that is modified ends free of zeros even if it held some before |
| Backend.ReadsDetermineMap | src/db.rs:146-182 | zero-free maps are equal exactly when all their reads agree |
| Backend.ApplyIsLocal | src/db.rs:49-102 | what ends up at an address depends only on the writes to it, in order |
| Backend.InterleavingIrrelevant | src/db.rs:49-102 | lists with the same writes per address give the same map, however interleaved |
| Backend.PermutationIrrelevant | src/db.rs:49-102 | writes to pairwise different addresses may be applied in any order |
| ChainDb.HashMapEthDB.CreateGenesis | src/db.rs:419-433 | one sealed default block at position 0, one empty snapshot, one index entry |
| ChainDb.HashMapEthDB.NewBlock | src/db.rs:309-328 | the field-by-field block is the next block over the best one, hashed after its last field is set |
| ChainDb.HashMapEthDB.SubmitTx | src/db.rs:268-306 | the four structures change exactly as `Submit` says, or not at all; AcceptedExactly and AcceptedEffect say when and how |
| ChainDb.HashMapEthDB.ExecuteIn | src/db.rs:271-292 | runs on a copy of the last snapshot and fills the info from the parent, the new block and the execution; AcceptedEffect writes the execution out |
| ChainDb.HashMapEthDB.SaveBlock | src/db.rs:376-380 | the block is pushed and its hash indexed under its number |
| ChainDb.HashMapEthDB.EstimateGas | src/db.rs:331-352 | executes on snapshot n in place |
| ChainDb.HashMapEthDB.Call | src/db.rs:355-374 | answers on snapshot n and changes nothing |
| DbInvariant.LastHoldingIsHighest | src/db.rs:301 | the model's lookup finds the highest block that holds a transaction hash |
| DbInvariant.GenesisStructural | src/db.rs:255-266 | a fresh database satisfies the structural invariant |
| DbInvariant.GenesisExactly | src/db.rs:419-433 | every field of a fresh database and its block: number 0, the given time, zero parent, the three empty-string roots, the empty-list uncle hash, one empty snapshot |
| DbInvariant.AcceptedExactly | src/db.rs:268-304 | a submission is accepted exactly when a next number exists and the transaction, with its own sender, value, receiver, data and gas price, succeeds in the next block |
| DbInvariant.AcceptedEffect | src/db.rs:271-302 | the new snapshot is the last one with the writes of exactly that execution; its logs, and its output unless it is a creation, are remembered |
| DbInvariant.AcceptedHeader | src/db.rs:309-328 | every header field of an accepted block: parent, number, time, roots, and the hash of its one transaction |
| DbInvariant.SubmitKeepsStructural | src/db.rs:268-306 | submitting keeps numbers, memos, links, index and infos in agreement, whatever the hash function |
| DbInvariant.EstimateKeepsStructural | src/db.rs:331-352 | estimating keeps the invariant and touches no index but n and no other structure |
| DbInvariant.EstimateExactly | src/db.rs:331-352 | an estimate without a snapshot panics; otherwise it answers reason, gas and, with a receiver, output, and writes to snapshot n only on success |
| DbInvariant.SubmissionIsAtomic | src/db.rs:268-306 | a submission extends all four structures together and keeps the past, or changes nothing |
| DbInvariant.HighestInfo | src/db.rs:274-279 | the info kept for a hash has the transaction and hash of the highest block holding it, and the hash and state root of the block before |
| DbInvariant.IndexInverseExactly | src/db.rs:376-384 | the hash index is the exact inverse of position-to-hash if and only if no two header encodings of the chain collide |
| DbInvariant.PreimagesDiffer | src/db.rs:309-328 | blocks at different positions never have the same header encoding |
| DbInvariant.WalkBack | src/db.rs:313 | j parent links through the index lead from block k to block k - j |
| DbInvariant.WalkReachesGenesis | src/db.rs:313 | genesis is reached after exactly as many steps as the block's number, and no earlier |
| DbInvariant.ReceiptFound | src/db.rs:390-416 | no unwrap of a receipt lookup can fail, and it finds something exactly when a block holds the transaction |
| DbInvariant.ReceiptAgrees | src/db.rs:390-416 | the receipt is that of the highest holding block; its number is right exactly when no later block shares the hash |
| DbInvariant.ReceiptAddresses | src/db.rs:390-416 | a call's receipt names its receiver and no contract, a creation's names no receiver and the contract of that sender and nonce |
| DbInvariant.StateRootOf | src/db.rs:315-316 | a built block's state root reads back to its number, so built blocks never share one |
| DbInvariant.ReceiptNumber | src/db.rs:401-411 | without collisions number, state root and block hash are the block's own |
| DbRuns.RunKeepsStructural | src/db.rs:254-388 | the structural invariant holds after any run of submissions, calls and estimates |
| DbRuns.ReachableIsStructural | src/db.rs:255-266 | so it holds in every state reachable from genesis |
| DbRuns.RunReplays | src/db.rs:268-306 | over any run without estimates every snapshot equals replaying its prefix of the chain, and every info is its execution's |
| DbRuns.ReachableReplays | src/db.rs:268-306 | so it does in every state reachable from genesis without estimates |
| DbRuns.RunKeepsPast | src/db.rs:268-374 | runs keep the chain as a prefix, and a snapshot unless gas is estimated on it |
| DbRuns.EstimateReplaysExactly | src/db.rs:331-352 | an estimate keeps replay agreement exactly when it does not succeed or its writes change nothing |
| DbRuns.EstimateCanBreakReplay | src/db.rs:331-352 | with any cryptography, one estimate on a fresh chain that breaks replay agreement |
| DbRuns.ReachableZeroFree | src/db.rs:254-388 | after any run from genesis, estimates included, no snapshot stores a zero slot |
| DbRuns.UnseenExactly | src/db.rs:42-182 | on a snapshot without zeros, writes change nothing exactly when they change no read at any address and slot |
| DbRuns.EstimateReplaysUnseen | src/db.rs:331-352 | from genesis, an estimate keeps replay agreement exactly when it does not succeed or no read can tell its writes |
| DbRuns.SendExactly | src/rpc.rs:381-400 | sent bytes are answered by their own hash exactly when they decode, verify, have a next number and succeed; otherwise nothing changes |
| DbRuns.SentTransactionHasReceipt | src/rpc.rs:381-400 | a signed transaction sent as bytes is accepted exactly when numbers are left and its execution by the signer succeeds; it is then in the new last block, and its receipt names the signer, that block's hash and that block's number, whatever the hash function |
| RpcNode.SendRawTransaction | src/rpc.rs:381-400 | decode, verify and submit in that order, changing the database only by an accepted submission |
| RpcNode.SelectorInRange | src/rpc.rs:330-347 | each selector resolves to the block it means: first, last (also when absent), the highest with a hash, or the explicit number itself; only the last can be out of range |
| RpcNode.UnknownHash | src/rpc.rs:340 | a selector fails to resolve exactly when it is a hash that no block has |
| RpcNode.BeginsExactly | src/rpc.rs:402-463 | a first section refuses exactly on a poisoned lock, a call without receiver or an unknown hash, and otherwise waits with the resolved index |
| RpcNode.WaitingIsStable | src/rpc.rs:426-445 | between the two sections a resolved index stays in range and its snapshot unchanged, for any other threads' steps that do not estimate on it |
| RpcNode.ReadAnswers | src/rpc.rs:426-488 | over any interleaving at all, a read answers from the snapshot then at its index; without one a balance fails and a nonce is zero |
| RpcNode.TwoLockRead | src/rpc.rs:426-488 | the second section of a balance or nonce request answers that account's balance or nonce, zero if absent, in the snapshot as it was when the index was resolved |
| RpcNode.TwoLockCall | src/rpc.rs:402-416 | a call is answered from the snapshot as it was when its index was resolved, in the context of the block that is last when it runs; success and a trap give bytes, every other end fails, and nothing changes |
| RpcNode.TwoLockEstimate | src/rpc.rs:458-474 | an estimate runs, with the source's defaults for missing fields, on the snapshot as it was when its index was resolved, answers the gas, and writes to that snapshot only, on success |
| RpcNode.PoisonsExactly | src/rpc.rs:381-416 | a section poisons the lock exactly when a call or estimate has no snapshot, or a send decodes and verifies when no block number is left |
| RpcNode.PoisonIsPermanent | src/rpc.rs:17-31 | from a poisoned lock on, whatever runs, the database never changes and every section that answers fails |
| RpcNode.UnknownNumberStopsNode | src/rpc.rs:402-474 | one call or estimate at a number without a block crashes in its second section and stops the node for good |
| RpcNode.FreshNodeCanStop | src/rpc.rs:402-416 | a fresh node is poisoned by the first call that asks for block 1 |
| RpcNode.SendAnswers | src/rpc.rs:381-400 | on a sound lock a send answers the hash of the bytes exactly when they decode, verify and execute; otherwise the database is unchanged and it fails, or crashes exactly when numbers have run out |
| RpcNode.NeverPoisoned | src/rpc.rs:402-473 | over any interleaving the lock stays sound if numbered calls and estimates begin in range |
| Commitment.SameChainOrCollision | src/db.rs:309-328 | two chains with the same head hash are the same chain, or a hash collision between their blocks is exhibited |
| Commitment.HeadDeterminesChain | src/db.rs:309-328 | without collisions the head hash determines every header and transaction of the chain |
| Commitment.HeadDeterminesState | src/db.rs:268-306 | and every account snapshot of a replaying chain |
| Commitment.NodeReplays | src/rpc.rs:381-445 | over any interleaving of threads without gas estimates the snapshots keep agreeing with replay |
| Commitment.NodesWithSameHeadAgree | src/rpc.rs:381-400 | two nodes run from genesis on any events without estimates, each send being one strict item or refused, have equal chains and snapshots once their head hashes agree, short of a collision |
| Commitment.NodeStaysProper | src/rpc.rs:381-400 | with sends being one strict item or refused, every chain a node reaches holds only transactions whose hash and sender follow from their wire bytes |
| BlockSelector.ParseHexU64 | src/rpc.rs:112-114 | digit-wise checked parsing accepts exactly the numbers below 2^64 |
| BlockSelector.HexU64Exactly | src/rpc.rs:112-114 | a number is read exactly from non-empty hex digits of that value, after at most one plus sign |
| BlockSelector.LeadingZeros | src/rpc.rs:112-114 | any number of leading zeros leaves the value alone |
| BlockSelector.PaddedNumber | src/rpc.rs:150-164 | a prefixed, padded number selects its value exactly when it is below 2^64 |
| BlockSelector.VisitStrExactly | src/rpc.rs:150-164 | which strings select each keyword, each number, or fail for want of a prefix |
| BlockSelector.VisitMap | src/rpc.rs:97-148 | the loop returns the selection of the entry sequence |
| BlockSelector.DecisiveEntryDecides | src/rpc.rs:104-134 | the first block number, unknown key or ill-typed value decides, whatever follows |
| BlockSelector.NumberSelected | src/rpc.rs:104-140 | an object selects a number exactly when its first decisive entry is a block number that reads as it |
| BlockSelector.HashSelected | src/rpc.rs:124-146 | an object selects a hash and a flag exactly when nothing in it is decisive, the last hash is that one, and the last flag, or false, is that flag |
| BlockSelector.ObjectRefused | src/rpc.rs:130-147 | an unknown key is reported exactly when the first decisive entry has one, missing input exactly when nothing is decisive and no hash is given |
| BlockSelector.InterleavingOfKeysIrrelevant | src/rpc.rs:124-129 | otherwise the last hash and the last flag decide, independent of the order between the two keys |
| RpcTypes.SerializeRoundTrip | src/rpc_types.rs:262-304 | deserialising serialised bytes gives them back |
| RpcTypes.DeserializeExactly | src/rpc_types.rs:291-304 | a string reads as some bytes exactly when its lower-case form is how they are written and its prefix is lower-case |
| RpcTypes.HexValueOfBytes | src/rpc_types.rs:291-304 | an even number of hex digits stands, as a selector number, for the number that its bytes stand for |
| RpcTypes.SummarySize | src/rpc_types.rs:314-337 | without extra data the reported size is between 454 and 566 bytes and the exact encoded length |
| RpcTypes.SummarySizeTight | src/rpc_types.rs:314-337 | both bounds are reached |
| RpcTypes.SummaryOfBlock | src/rpc_types.rs:314-337 | for any block of a node's chain the reported hash, number, parent and roots are that block's own, and the size depends on number and timestamp only |

## Left out

- EVM interpretation and gas: one deterministic function from snapshot, block context and call to an exit reason, writes, logs, output and gas.
- Keccak, ECDSA, the low-s test and the kinds of key error besides `InvalidSignature`: parameters of the theorems, with no internals.
- Wall-clock time: block timestamps are arbitrary inputs, and nothing is said about their order.
- Bytes after the top-level item, the leniency of the `rlp` crate and which of several decoding errors it reports first: the crate is not part of this model.
- Commitment.NodeStaysProper: covers sends that are one strict item. The source hashes the bytes as received (src/transaction.rs:272), so input the crate accepts with bytes after the item gets a hash that is not that of its wire bytes; here such input is refused.
- Commitment.NodesWithSameHeadAgree: the same limit, for both nodes' sends; bytes after an item that the crate accepts (src/rpc.rs:383-387) are not modelled.
- TransactionCodec.WireRoundTrip: speaks of input that is one strict item; the crate parses lazily and may accept more.
- RlpStreams.RlpStream: the crate's stream is modelled by its documented behaviour; capacity growth and unbounded lists are not.
- Ethcore.ComputeTransactionRoot: requires that the list of hashes fits a byte vector, below 2^63 bytes; the node's own blocks have at most one transaction.
- Signing.SignSendRecover: takes recovery ids 0 and 1 as part of what signing gives; the other ids fail as PackThenUnpack says.
- Arithmetic overflow is a panic, as in a build with overflow checks; the wrapped values of a build without them are not modelled.
- ChainDb.HashMapEthDB.SubmitTx: the overflow of the block number is an answer here where the source panics; RpcNode turns it into a poisoned lock.
- A stored header is a value, `HeaderRecord`; only the header under construction is an object, since the source never writes to a stored one.
- TransactionInfo fields that are never written (gas, bloom) and receipt fields that are constant in the source (logs, gas, bloom, status).
- RpcNode.TwoLockRead: lock fairness and blocking are not modelled, only the order in which sections run.
- BlockSelector.VisitMap: syntax errors inside the JSON text, and serde's own complaint about entries left unread after a block number, are not modelled; parsing a hash string is a parameter.
- `block_by_number`, `Rich` serialisation, the field copies of `RpcTransaction`, `RpcLog` and `Request`, constant RPC answers, HTTP and JSON-RPC dispatch: easy members.
- `fake_sign`, `null_sign`, `invalid_sign`, `PendingTransaction` and `Condition`: not used by the node; the empty signature appears in PreimageMeetsWire.
