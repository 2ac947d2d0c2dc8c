/**
 The RPC interface as a state machine over lock sections. Balance, nonce, call
 and gas requests resolve their block under one lock and use the index under a
 second one, and any number of other threads may run sections in between. A
 panic under the write lock poisons it: from then on every section fails.
 */
module RpcNode {
  import opened Bytes
  import opened Cryptography
  import opened TransactionCodec
  import opened Signing
  import opened Backend
  import opened ChainDb
  import opened DbInvariant
  import opened DbRuns
  import B = BlockSelector

  type Thread = nat

  datatype Request =
    | Balance(address: H160)
    | Nonce(address: H160)
    | Call(from: Option<H160>, to: Option<H160>, data: Option<Octets>)
    | EstimateGas(from: Option<H160>, value: Option<U256>, to: Option<H160>, data: Option<Octets>)
  {
    /** Whether the second section is a write section that unwraps the snapshot. */
    predicate Unwraps() {
      Call? || EstimateGas?
    }

    /** What an estimate executes, with the defaults for what is missing. */
    function Args(): Transact
      requires EstimateGas?
    {
      Transact(from.GetOr(Zeros(20)), value.GetOr(0), to, data.GetOr([]))
    }
  }

  datatype Answer = Value(v: U256) | Output(bytes: Octets) | Gas(gas: U64) | TxHash(hash: H256) | Failed | Crashed

  /** A request between its two sections, with the index it resolved. */
  datatype Waiting = Waiting(req: Request, n: nat)

  datatype Node = Node(db: Db, poisoned: bool, waiting: map<Thread, Waiting>)

  datatype Event =
    | Begin(t: Thread, req: Request, num: Option<B.BlockNumber>)
    | Finish(t: Thread)
    | Send(raw: seq<Byte>, time: U64)

  /** `parse_number`; the canonical flag is not looked at. */
  function ParseNumber(num: Option<B.BlockNumber>, db: Db): Option<nat>
    requires db.blocks != []
  {
    match num.GetOr(B.Latest)
    case Earliest => Some(0)
    case Hash(hash, _) => if hash in db.hashIndex then Some(db.hashIndex[hash]) else None
    case Num(n) => Some(n)
    case Pending => Some(|db.blocks| - 1)
    case Latest => Some(|db.blocks| - 1)
  }

  // -------------------------------------------------------------- sections

  function BeginSection(node: Node, t: Thread, req: Request, num: Option<B.BlockNumber>): (Node, Option<Answer>)
    requires node.db.blocks != []
  {
    if t in node.waiting then (node, None)
    else if (req.Call? && req.to.None?) || node.poisoned then (node, Some(Failed))
    else
      match ParseNumber(num, node.db)
      case None => (node, Some(Failed))
      case Some(n) => (node.(waiting := node.waiting[t := Waiting(req, n)]), None)
  }

  /** The answer of a reader's second section. */
  function ReadAt(db: Db, req: Request, n: nat): Answer
    requires !req.Unwraps()
  {
    match req
    case Balance(a) => if n < |db.accounts| then Value(BasicAt(db.accounts[n], a).balance) else Failed
    case Nonce(a) => if n < |db.accounts| then Value(BasicAt(db.accounts[n], a).nonce) else Value(0)
  }

  function FinishSection(w: World, node: Node, t: Thread): (r: (Node, Option<Answer>))
    requires node.db.blocks != []
    ensures r.0.db.blocks == node.db.blocks && |r.0.db.accounts| == |node.db.accounts|
  {
    if t !in node.waiting then (node, None)
    else
      var Waiting(req, n) := node.waiting[t];
      var idle := node.(waiting := node.waiting - {t});
      if node.poisoned then (idle, Some(Failed))
      else
        match req
        case Call(from, to, data) =>
          (match StaticCall(w, node.db, n, from.GetOr(Zeros(20)), to.GetOr(Zeros(20)), data.GetOr([]))
           case None => (idle.(poisoned := true), Some(Crashed))
           case Some(r) => (idle, Some(if r.0 == Succeed then Output(r.1) else Failed)))
        case EstimateGas(_, _, _, _) =>
          var (db', r) := Estimate(w, node.db, n, req.Args());
          (match r
           case None => (idle.(poisoned := true), Some(Crashed))
           case Some(r) => (idle.(db := db'), Some(Gas(r.2))))
        case _ => (idle, Some(ReadAt(node.db, req, n)))
  }

  function SendSection(w: World, node: Node, raw: seq<Byte>, time: U64): (r: (Node, Option<Answer>))
    requires node.db.blocks != [] && node.db.accounts != []
    ensures r.0.db.blocks != [] && r.0.db.accounts != []
  {
    if node.poisoned then (node, Some(Failed))
    else
      var (db', r) := SendRaw(w, node.db, raw, time);
      if r == Err(BadSubmission(Overflowed)) then (node.(poisoned := true), Some(Crashed))
      else (node.(db := db'), Some(if r.Ok? then TxHash(r.value) else Failed))
  }

  function Next(w: World, node: Node, e: Event): (r: (Node, Option<Answer>))
    requires node.db.blocks != [] && node.db.accounts != []
    ensures r.0.db.blocks != [] && r.0.db.accounts != []
  {
    match e
    case Begin(t, req, num) => BeginSection(node, t, req, num)
    case Finish(t) => FinishSection(w, node, t)
    case Send(raw, time) => SendSection(w, node, raw, time)
  }

  function RunNode(w: World, node: Node, events: seq<Event>): (r: Node)
    requires node.db.blocks != [] && node.db.accounts != []
    ensures r.db.blocks != [] && r.db.accounts != []
    decreases |events|
  {
    if events == [] then node else RunNode(w, Next(w, node, events[0]).0, events[1..])
  }

  /** Under the lock, `send_raw_transaction` is the database's submission of what
      the bytes decode and verify to. */
  method SendRawTransaction(db: HashMapEthDB, raw: seq<Byte>, time: U64) returns (answer: Result<H256, SendError>)
    requires db.blocks != [] && db.accounts != []
    modifies db
    ensures (db.View(), answer) == SendRaw(db.w, old(db.View()), raw, time)
  {
    var decoded := Decode(db.w.crypto, raw);
    if decoded.Err? {
      return Err(BadRlp(decoded.error));
    }
    var signed := NewSigned(db.w.crypto, decoded.value);
    if signed.Err? {
      return Err(BadSignature(signed.error));
    }
    var h := signed.value.transaction.hash;
    var r := db.SubmitTx(signed.value, time);
    answer := if r == Accepted then Ok(h) else Err(BadSubmission(r));
  }

  // ----------------------------------------------------- what selectors mean

  /** Every selector but an explicit number resolves to a block that exists: the
      first, the last, or the highest one with the given hash. An explicit number
      resolves to itself, whether or not there is such a block. */
  lemma SelectorInRange(c: Crypto, db: Db, num: Option<B.BlockNumber>)
    requires Structural(c, db) && ParseNumber(num, db).Some?
    ensures var n := ParseNumber(num, db).value;
      match num
      case None => n == |db.blocks| - 1
      case Some(Latest) => n == |db.blocks| - 1
      case Some(Pending) => n == |db.blocks| - 1
      case Some(Earliest) => n == 0
      case Some(Num(m)) => n == m
      case Some(Hash(hash, _)) =>
        && n < |db.blocks| && BlockHash(c, db.blocks, n) == hash
        && forall j :: n < j < |db.blocks| ==> BlockHash(c, db.blocks, j) != hash
    ensures ParseNumber(num, db).value < |db.accounts| || (num.Some? && num.value.Num?)
  {
  }

  /** A selector fails to resolve exactly when it is a hash that no block has. */
  lemma UnknownHash(c: Crypto, db: Db, num: Option<B.BlockNumber>)
    requires Structural(c, db)
    ensures ParseNumber(num, db) == None <==>
      && num.Some? && num.value.Hash?
      && forall k :: 0 <= k < |db.blocks| ==> BlockHash(c, db.blocks, k) != num.value.hash
  {
  }

  /** An idle thread's request is refused at once exactly when the lock is
      poisoned, a call names no receiver, or its hash is no block's; then nothing
      changes. Otherwise it waits with the index that its selector resolved to. */
  lemma BeginsExactly(w: World, node: Node, t: Thread, req: Request, num: Option<B.BlockNumber>)
    requires Structural(w.crypto, node.db) && t !in node.waiting
    ensures var (after, answer) := Next(w, node, Begin(t, req, num));
      if || node.poisoned
         || (req.Call? && req.to == None)
         || (num.Some? && num.value.Hash?
             && forall k :: 0 <= k < |node.db.blocks| ==> BlockHash(w.crypto, node.db.blocks, k) != num.value.hash)
      then after == node && answer == Some(Failed)
      else
        && answer == None && ParseNumber(num, node.db).Some?
        && after.db == node.db && !after.poisoned
        && after.waiting == node.waiting[t := Waiting(req, ParseNumber(num, node.db).value)]
  {
    UnknownHash(w.crypto, node.db, num);
  }

  // ------------------------------------------------------ stability of reads

  /** The event runs a gas estimate on snapshot `n`. */
  predicate EstimatesOn(node: Node, e: Event, n: nat) {
    e.Finish? && e.t in node.waiting && node.waiting[e.t].req.EstimateGas? && node.waiting[e.t].n == n
  }

  lemma NextKeepsStructural(w: World, node: Node, e: Event)
    requires Structural(w.crypto, node.db)
    ensures Structural(w.crypto, Next(w, node, e).0.db)
  {
    match e
    case Begin(_, _, _) =>
    case Finish(t) =>
      if t in node.waiting && node.waiting[t].req.EstimateGas? {
        EstimateKeepsStructural(w, node.db, node.waiting[t].n, node.waiting[t].req.Args());
      }
    case Send(raw, time) =>
      SendKeeps(w, node.db, raw, time);
  }

  lemma SendKeeps(w: World, db: Db, raw: seq<Byte>, time: U64)
    requires Structural(w.crypto, db)
    ensures var db' := SendRaw(w, db, raw, time).0;
      && Structural(w.crypto, db') && |db.accounts| <= |db'.accounts|
      && db'.accounts[..|db.accounts|] == db.accounts
  {
    var decoded := Decode(w.crypto, raw);
    if decoded.Ok? && NewSigned(w.crypto, decoded.value).Ok? {
      var signed := NewSigned(w.crypto, decoded.value).value;
      SubmitKeepsStructural(w, db, signed, time);
      SubmissionIsAtomic(w, db, signed, time);
    }
  }

  lemma NextKeepsSnapshot(w: World, node: Node, e: Event, n: nat)
    requires Structural(w.crypto, node.db) && n < |node.db.accounts| && !EstimatesOn(node, e, n)
    ensures var db' := Next(w, node, e).0.db;
      n < |db'.accounts| && db'.accounts[n] == node.db.accounts[n]
  {
    match e
    case Begin(_, _, _) =>
    case Finish(t) =>
      if t in node.waiting && node.waiting[t].req.EstimateGas? {
        EstimateKeepsStructural(w, node.db, node.waiting[t].n, node.waiting[t].req.Args());
      }
    case Send(raw, time) =>
      SendKeeps(w, node.db, raw, time);
      var db' := SendRaw(w, node.db, raw, time).0;
      assert db'.accounts[n] == db'.accounts[..|node.db.accounts|][n];
  }

  /** None of the events finishes thread `t`, and none estimates gas on snapshot
      `n` at the moment it happens. */
  predicate Undisturbed(w: World, node: Node, events: seq<Event>, t: Thread, n: nat)
    requires node.db.blocks != [] && node.db.accounts != []
    decreases |events|
  {
    events == [] ||
    (&& events[0] != Finish(t)
     && !EstimatesOn(node, events[0], n)
     && Undisturbed(w, Next(w, node, events[0]).0, events[1..], t, n))
  }

  lemma NextKeepsWaiting(w: World, node: Node, e: Event, t: Thread)
    requires node.db.blocks != [] && node.db.accounts != [] && t in node.waiting && e != Finish(t)
    ensures var next := Next(w, node, e).0;
      t in next.waiting && next.waiting[t] == node.waiting[t]
  {
  }

  lemma {:induction false} WaitingIsStable(w: World, node: Node, events: seq<Event>, t: Thread, n: nat)
    requires Structural(w.crypto, node.db) && t in node.waiting && n < |node.db.accounts|
    requires Undisturbed(w, node, events, t, n)
    ensures var later := RunNode(w, node, events);
      && Structural(w.crypto, later.db)
      && t in later.waiting && later.waiting[t] == node.waiting[t]
      && n < |later.db.accounts| && later.db.accounts[n] == node.db.accounts[n]
    decreases |events|
  {
    if events != [] {
      var e := events[0];
      NextKeepsStructural(w, node, e);
      NextKeepsSnapshot(w, node, e, n);
      NextKeepsWaiting(w, node, e, t);
      WaitingIsStable(w, Next(w, node, e).0, events[1..], t, n);
    }
  }

  /** A request waits with the same index until its own second section runs. */
  lemma {:induction false} StillWaiting(w: World, node: Node, events: seq<Event>, t: Thread)
    requires node.db.blocks != [] && node.db.accounts != [] && t in node.waiting
    requires forall i :: 0 <= i < |events| ==> events[i] != Finish(t)
    ensures var later := RunNode(w, node, events);
      t in later.waiting && later.waiting[t] == node.waiting[t]
    decreases |events|
  {
    if events != [] {
      NextKeepsWaiting(w, node, events[0], t);
      StillWaiting(w, Next(w, node, events[0]).0, events[1..], t);
    }
  }

  /** The answer of a balance or nonce request in every case. Whatever other
      threads do between its two sections, the second one reads the snapshot that
      is then at the resolved index, zero for an absent account. Without such a
      snapshot a balance request fails and a nonce request answers zero. */
  lemma ReadAnswers(w: World, node: Node, t: Thread, req: Request, num: Option<B.BlockNumber>, events: seq<Event>)
    requires node.db.blocks != [] && node.db.accounts != [] && !node.poisoned && t !in node.waiting
    requires !req.Unwraps() && ParseNumber(num, node.db).Some?
    requires forall i :: 0 <= i < |events| ==> events[i] != Finish(t)
    ensures var n := ParseNumber(num, node.db).value;
      var later := RunNode(w, Next(w, node, Begin(t, req, num)).0, events);
      var (after, answer) := Next(w, later, Finish(t));
      && after == later.(waiting := later.waiting - {t})
      && if later.poisoned then answer == Some(Failed)
         else if n < |later.db.accounts| then
           var m := later.db.accounts[n];
           match req
           case Balance(a) => answer == Some(Value(if a in m then m[a].balance else 0))
           case Nonce(a) => answer == Some(Value(if a in m then m[a].nonce else 0))
         else answer == Some(if req.Balance? then Failed else Value(0))
  {
    StillWaiting(w, Next(w, node, Begin(t, req, num)).0, events, t);
  }

  /** Two-lock reads are stable. Whatever other threads do between the two
      sections, short of estimating gas on the very snapshot, a reader whose
      index existed when it was resolved gets what that snapshot said then, or the
      lock error if the lock has been poisoned meanwhile. */
  lemma TwoLockRead(w: World, node: Node, t: Thread, req: Request, num: Option<B.BlockNumber>, events: seq<Event>)
    requires Structural(w.crypto, node.db) && !node.poisoned && t !in node.waiting && !req.Unwraps()
    requires ParseNumber(num, node.db).Some? && ParseNumber(num, node.db).value < |node.db.accounts|
    requires Undisturbed(w, Next(w, node, Begin(t, req, num)).0, events, t, ParseNumber(num, node.db).value)
    ensures var m := node.db.accounts[ParseNumber(num, node.db).value];
      var later := RunNode(w, Next(w, node, Begin(t, req, num)).0, events);
      Next(w, later, Finish(t)).1 == Some(
        if later.poisoned then Failed
        else match req
          case Balance(a) => Value(if a in m then m[a].balance else 0)
          case Nonce(a) => Value(if a in m then m[a].nonce else 0))
  {
    WaitingIsStable(w, Next(w, node, Begin(t, req, num)).0, events, t, ParseNumber(num, node.db).value);
  }

  /** A call is answered from the snapshot as it was when its index was resolved,
      run in the context of whatever block is last when it finishes, unless the
      lock has been poisoned meanwhile. It changes neither the database nor the
      lock. A trap answers no bytes, and any end but success is a failure. */
  lemma TwoLockCall(
      w: World, node: Node, t: Thread, from: Option<H160>, to: H160, data: Option<Octets>,
      num: Option<B.BlockNumber>, events: seq<Event>)
    requires Structural(w.crypto, node.db) && !node.poisoned && t !in node.waiting
    requires ParseNumber(num, node.db).Some? && ParseNumber(num, node.db).value < |node.db.accounts|
    requires Undisturbed(w, Next(w, node, Begin(t, Call(from, Some(to), data), num)).0, events, t,
                         ParseNumber(num, node.db).value)
    ensures var snapshot := node.db.accounts[ParseNumber(num, node.db).value];
      var caller := match from { case Some(a) => a case None => Zeros(20) };
      var input := match data { case Some(bytes) => bytes case None => [] };
      var later := RunNode(w, Next(w, node, Begin(t, Call(from, Some(to), data), num)).0, events);
      var (after, answer) := Next(w, later, Finish(t));
      && after == later.(waiting := later.waiting - {t})
      && answer == Some(
           if later.poisoned then Failed
           else match w.evm.call(snapshot, Context(0, caller, later.db.Last()), caller, to, input)
             case Exit(Succeed, bytes, _) => Output(bytes)
             case Exit(_, _, _) => Failed
             case Trap(_) => Output([]))
  {
    WaitingIsStable(w, Next(w, node, Begin(t, Call(from, Some(to), data), num)).0, events, t,
                    ParseNumber(num, node.db).value);
  }

  /** The second section of an estimate that has its snapshot, on a sound lock. */
  lemma FinishEstimate(w: World, node: Node, t: Thread)
    requires node.db.blocks != [] && !node.poisoned
    requires t in node.waiting && node.waiting[t].req.EstimateGas? && node.waiting[t].n < |node.db.accounts|
    ensures var n := node.waiting[t].n; var m, args := node.db.accounts[n], node.waiting[t].req.Args();
      var o := w.evm.transact(m, Context(0, args.sender, node.db.Last()), args);
      var db' := node.db.(accounts := node.db.accounts[n := if o.reason == Succeed then ApplyAll(m, o.applies, false) else m]);
      FinishSection(w, node, t) == (node.(db := db', waiting := node.waiting - {t}), Some(Gas(o.gas)))
  {
    EstimateExactly(w, node.db, node.waiting[t].n, node.waiting[t].req.Args());
  }

  /** An estimate runs on the snapshot as it was when its index was resolved. It
      writes to that one snapshot, only on success, and answers the gas either way. */
  lemma TwoLockEstimate(
      w: World, node: Node, t: Thread, from: Option<H160>, value: Option<U256>, to: Option<H160>, data: Option<Octets>,
      num: Option<B.BlockNumber>, events: seq<Event>)
    requires Structural(w.crypto, node.db) && !node.poisoned && t !in node.waiting
    requires ParseNumber(num, node.db).Some? && ParseNumber(num, node.db).value < |node.db.accounts|
    requires Undisturbed(w, Next(w, node, Begin(t, EstimateGas(from, value, to, data), num)).0, events, t,
                         ParseNumber(num, node.db).value)
    ensures var n := ParseNumber(num, node.db).value; var snapshot := node.db.accounts[n];
      var later := RunNode(w, Next(w, node, Begin(t, EstimateGas(from, value, to, data), num)).0, events);
      var (after, answer) := Next(w, later, Finish(t));
      var sender := match from { case Some(a) => a case None => Zeros(20) };
      var amount := match value { case Some(v) => v case None => 0 };
      var input := match data { case Some(bytes) => bytes case None => [] };
      var o := w.evm.transact(snapshot, Context(0, sender, later.db.Last()), Transact(sender, amount, to, input));
      var written := if o.reason == Succeed then ApplyAll(snapshot, o.applies, false) else snapshot;
      && n < |later.db.accounts| && later.db.accounts[n] == snapshot
      && answer == Some(if later.poisoned then Failed else Gas(o.gas))
      && after == later.(
           waiting := later.waiting - {t},
           db := if later.poisoned then later.db else later.db.(accounts := later.db.accounts[n := written]))
  {
    var begun := Next(w, node, Begin(t, EstimateGas(from, value, to, data), num)).0;
    WaitingIsStable(w, begun, events, t, ParseNumber(num, node.db).value);
    var later := RunNode(w, begun, events);
    if !later.poisoned { FinishEstimate(w, later, t); }
  }

  // ------------------------------------------------------------- poisoning

  /** The event is a submission that verifies when no block number is left. */
  predicate OutOfNumbers(w: World, node: Node, e: Event)
    requires node.db.blocks != []
  {
    && e.Send?
    && Decode(w.crypto, e.raw).Ok?
    && NewSigned(w.crypto, Decode(w.crypto, e.raw).value).Ok?
    && !HasSuccessor(node.db.Last())
  }

  /** A section poisons a sound lock exactly when it is the second section of a
      call or an estimate whose snapshot does not exist, or a submission that
      decodes and verifies after the last block number has been used up. */
  lemma PoisonsExactly(w: World, node: Node, e: Event)
    requires Structural(w.crypto, node.db) && !node.poisoned
    ensures Next(w, node, e).0.poisoned <==>
      || (e.Finish? && e.t in node.waiting && node.waiting[e.t].req.Unwraps() && node.waiting[e.t].n >= |node.db.accounts|)
      || OutOfNumbers(w, node, e)
  {
  }

  /** The event runs no section: its thread is not at that point of a request. */
  predicate Idle(node: Node, e: Event) {
    (e.Begin? && e.t in node.waiting) || (e.Finish? && e.t !in node.waiting)
  }

  /** Once poisoned, always poisoned: whatever runs, the database stays as it is
      and every section that answers answers with a failure. */
  lemma {:induction false} PoisonIsPermanent(w: World, node: Node, events: seq<Event>, e: Event)
    requires node.db.blocks != [] && node.db.accounts != [] && node.poisoned
    ensures var later := RunNode(w, node, events);
      && later.poisoned && later.db == node.db
      && Next(w, later, e).1 == if Idle(later, e) then None else Some(Failed)
    decreases |events|
  {
    if events != [] {
      PoisonIsPermanent(w, Next(w, node, events[0]).0, events[1..], e);
    }
  }

  /** An idle thread's call or estimate at a block number that does not exist yet
      resolves, crashes in its second section, and stops the node for good. */
  lemma UnknownNumberStopsNode(
      w: World, node: Node, t: Thread, req: Request, n: U64, events: seq<Event>, e: Event)
    requires node.db.blocks != [] && node.db.accounts != [] && !node.poisoned && t !in node.waiting
    requires req.Unwraps() && (req.Call? ==> req.to.Some?) && n >= |node.db.accounts|
    ensures var (begun, first) := Next(w, node, Begin(t, req, Some(B.Num(n))));
      var (crashed, second) := Next(w, begun, Finish(t));
      var later := RunNode(w, crashed, events);
      && first == None && second == Some(Crashed)
      && later.poisoned && later.db == node.db
      && Next(w, later, e).1 == if Idle(later, e) then None else Some(Failed)
  {
    var begun := Next(w, node, Begin(t, req, Some(B.Num(n)))).0;
    assert begun.waiting[t] == Waiting(req, n);
    PoisonIsPermanent(w, Next(w, begun, Finish(t)).0, events, e);
  }

  function FreshNode(c: Crypto, time: U64): Node {
    Node(Genesis(c, time), false, map[])
  }

  /** A fresh node is stopped so by the first call that asks for block 1. */
  lemma FreshNodeCanStop(w: World, time: U64, t: Thread, a: H160)
    ensures var call := Begin(t, Call(None, Some(a), None), Some(B.Num(1)));
      RunNode(w, FreshNode(w.crypto, time), [call, Finish(t)]).poisoned
  {
    var node := FreshNode(w.crypto, time);
    var call := Begin(t, Call(None, Some(a), None), Some(B.Num(1)));
    UnknownNumberStopsNode(w, node, t, call.req, 1, [], call);
    var begun := Next(w, node, call).0;
    assert [call, Finish(t)][1..] == [Finish(t)];
    assert RunNode(w, begun, [Finish(t)]) == RunNode(w, Next(w, begun, Finish(t)).0, [Finish(t)][1..]);
  }

  /** What a send answers on a sound lock: the hash of the bytes exactly when they
      decode, verify and execute in the next block; otherwise the database stays
      as it is, and the section fails, or crashes when block numbers have run out. */
  lemma SendAnswers(w: World, node: Node, raw: seq<Byte>, time: U64)
    requires node.db.blocks != [] && node.db.accounts != [] && !node.poisoned
    ensures var (after, answer) := Next(w, node, Send(raw, time));
      && after.waiting == node.waiting
      && if && Decode(w.crypto, raw).Ok?
            && var u := Decode(w.crypto, raw).value;
            && NewSigned(w.crypto, u).Ok?
            && node.db.Last().header.fields.number + 1 < U64_LIMIT
            && var tx := NewSigned(w.crypto, u).value;
               w.evm.transact(
                 node.db.accounts[|node.db.accounts| - 1],
                 Context(u.unsigned.gasPrice, tx.sender, NextBlock(w.crypto, node.db.Last(), [tx], time)),
                 Transact(tx.sender, u.unsigned.value,
                          match u.unsigned.action { case Create => None case Call(to) => Some(to) }, u.unsigned.data)
               ).reason == Succeed
         then
           && answer == Some(TxHash(w.crypto.keccak(raw))) && !after.poisoned
           && after.db == Submit(w, node.db, NewSigned(w.crypto, Decode(w.crypto, raw).value).value, time).0
         else
           && after.db == node.db && after.poisoned == OutOfNumbers(w, node, Send(raw, time))
           && answer == Some(if after.poisoned then Crashed else Failed)
  {
    SendExactly(w, node.db, raw, time, w.crypto.keccak(raw));
    if SendRaw(w, node.db, raw, time).1.Ok? {
      SendExactly(w, node.db, raw, time, SendRaw(w, node.db, raw, time).1.value);
    }
  }

  /** The lock is sound and every waiting call or estimate has its snapshot. */
  ghost predicate Sound(w: World, node: Node) {
    && Structural(w.crypto, node.db)
    && !node.poisoned
    && forall t :: t in node.waiting && node.waiting[t].req.Unwraps() ==> node.waiting[t].n < |node.db.accounts|
  }

  /** A call or estimate by explicit number names a snapshot that exists, and
      there is a next block number. */
  predicate InBounds(node: Node, e: Event)
    requires node.db.blocks != []
  {
    match e
    case Begin(_, req, num) =>
      req.Unwraps() && num.Some? && num.value.Num? ==> num.value.n < |node.db.accounts|
    case Finish(_) => true
    case Send(_, _) => HasSuccessor(node.db.Last())
  }

  predicate AllInBounds(w: World, node: Node, events: seq<Event>)
    requires node.db.blocks != [] && node.db.accounts != []
    decreases |events|
  {
    events == [] || (InBounds(node, events[0]) && AllInBounds(w, Next(w, node, events[0]).0, events[1..]))
  }

  lemma NextKeepsSound(w: World, node: Node, e: Event)
    requires Sound(w, node) && InBounds(node, e)
    ensures Sound(w, Next(w, node, e).0)
  {
    NextKeepsStructural(w, node, e);
    PoisonsExactly(w, node, e);
    match e
    case Begin(t, req, num) =>
      if ParseNumber(num, node.db).Some? { SelectorInRange(w.crypto, node.db, num); }
    case Finish(t) =>
      if t in node.waiting && node.waiting[t].req.EstimateGas? {
        EstimateKeepsStructural(w, node.db, node.waiting[t].n, node.waiting[t].req.Args());
      }
    case Send(raw, time) =>
      SendKeeps(w, node.db, raw, time);
  }

  /** Over any interleaving of any number of threads the lock stays sound as long
      as explicitly numbered calls and estimates are in bounds when they begin:
      an index resolved under the first lock never dangles under the second. */
  lemma {:induction false} NeverPoisoned(w: World, node: Node, events: seq<Event>)
    requires Sound(w, node) && AllInBounds(w, node, events)
    ensures Sound(w, RunNode(w, node, events))
    decreases |events|
  {
    if events != [] {
      NextKeepsSound(w, node, events[0]);
      NeverPoisoned(w, Next(w, node, events[0]).0, events[1..]);
    }
  }
}
