/**
 The EVM's view of one account snapshot, and the fold of its writes into it.
 The interpreter itself is foreign: it is a function of the snapshot and the
 call, which returns how it ended and the list of writes to apply.
 */
module Backend {
  import opened Bytes
  import opened Ethcore

  type Accounts = map<H160, MemAccount>

  const ZERO: H256 := Zeros(32)

  datatype Basic = Basic(balance: U256, nonce: U256)

  datatype Apply =
    | Modify(address: H160, basic: Basic, code: Option<Octets>, storage: seq<(H256, H256)>, resetStorage: bool)
    | Delete(address: H160)

  datatype Log = Log(address: H160, topics: seq<H256>, data: Octets)

  datatype ExitReason = Succeed | Error | Revert | Fatal

  /** What the backend tells the interpreter besides the accounts. */
  datatype Context = Context(gasPrice: U256, origin: H160, block: Block)

  datatype Transact = Transact(sender: H160, value: U256, to: Option<H160>, data: Octets)

  datatype Outcome = Outcome(reason: ExitReason, output: Octets, gas: U64, applies: seq<Apply>, logs: seq<Log>)

  datatype Capture = Exit(reason: ExitReason, output: Octets, gas: U64) | Trap(gas: U64)

  datatype Evm = Evm(
    transact: (Accounts, Context, Transact) -> Outcome,
    call: (Accounts, Context, H160, H160, Octets) -> Capture)

  // ------------------------------------------------------ the fold of writes

  function DropZeros(m: map<H256, H256>): map<H256, H256> {
    map k | k in m && m[k] != ZERO :: m[k]
  }

  function WriteSlot(m: map<H256, H256>, w: (H256, H256)): map<H256, H256> {
    if w.1 == ZERO then m - {w.0} else m[w.0 := w.1]
  }

  function WriteSlots(m: map<H256, H256>, writes: seq<(H256, H256)>): map<H256, H256> {
    if writes == [] then m
    else WriteSlot(WriteSlots(m, writes[..|writes| - 1]), writes[|writes| - 1])
  }

  predicate IsEmptyAccount(a: MemAccount) {
    a.balance == 0 && a.nonce == 0 && |a.code| == 0
  }

  function Modified(before: MemAccount, m: Apply): MemAccount
    requires m.Modify?
  {
    var kept := if m.resetStorage then map[] else DropZeros(before.storage);
    MemAccount(m.basic.nonce, m.basic.balance, WriteSlots(kept, m.storage), m.code.GetOr(before.code))
  }

  function ApplyOne(m: Accounts, ap: Apply, deleteEmpty: bool): Accounts {
    match ap
    case Delete(a) => m - {a}
    case Modify(a, _, _, _, _) =>
      var account := Modified(if a in m then m[a] else EMPTY_ACCOUNT, ap);
      if IsEmptyAccount(account) && deleteEmpty then m - {a} else m[a := account]
  }

  function ApplyAll(m: Accounts, aps: seq<Apply>, deleteEmpty: bool): Accounts
    decreases |aps|
  {
    if aps == [] then m else ApplyAll(ApplyOne(m, aps[0], deleteEmpty), aps[1..], deleteEmpty)
  }

  /** Applying two lists one after the other is applying their concatenation. */
  lemma {:induction false} ApplyConcat(m: Accounts, a: seq<Apply>, b: seq<Apply>, deleteEmpty: bool)
    ensures ApplyAll(m, a + b, deleteEmpty) == ApplyAll(ApplyAll(m, a, deleteEmpty), b, deleteEmpty)
    decreases |a|
  {
    if a == [] {
      assert a + b == b;
    } else {
      ApplyConcat(ApplyOne(m, a[0], deleteEmpty), a[1..], b, deleteEmpty);
      assert (a + b)[1..] == a[1..] + b;
    }
  }

  // ------------------------------------------------------------ the readers

  function BasicAt(m: Accounts, a: H160): Basic {
    if a in m then Basic(m[a].balance, m[a].nonce) else Basic(0, 0)
  }

  function CodeAt(m: Accounts, a: H160): Octets {
    if a in m then m[a].code else []
  }

  function OriginalStorageAt(m: Accounts, a: H160, i: H256): Option<H256> {
    if a in m && i in m[a].storage then Some(m[a].storage[i]) else None
  }

  function StorageAt(m: Accounts, a: H160, i: H256): H256 {
    OriginalStorageAt(m, a, i).GetOr(ZERO)
  }

  /** Everything the four readers say about one address and one slot. */
  datatype Seen = Seen(present: bool, basic: Basic, code: Octets, slot: H256)

  const ABSENT := Seen(false, Basic(0, 0), [], ZERO)

  function Observe(m: Accounts, a: H160, i: H256): Seen {
    Seen(a in m, BasicAt(m, a), CodeAt(m, a), StorageAt(m, a, i))
  }

  // ---------------------------------- a total, pointwise model of the writes

  /** The value of slot `i` after the writes: the last one to it wins. */
  function LastWrite(writes: seq<(H256, H256)>, i: H256, before: H256): H256 {
    if writes == [] then before
    else
      var last := writes[|writes| - 1];
      if last.0 == i then last.1 else LastWrite(writes[..|writes| - 1], i, before)
  }

  /** What one write does to what is seen at an address and a slot, with no
      reference to how accounts and storage are kept. */
  function SeenAfter(s: Seen, ap: Apply, a: H160, i: H256, deleteEmpty: bool): Seen {
    if ap.address != a then s
    else
      match ap
      case Delete(_) => ABSENT
      case Modify(_, basic, code, storage, reset) =>
        var code' := code.GetOr(s.code);
        if deleteEmpty && basic == Basic(0, 0) && code' == [] then ABSENT
        else Seen(true, basic, code', LastWrite(storage, i, if reset then ZERO else s.slot))
  }

  function SeenAfterAll(s: Seen, aps: seq<Apply>, a: H160, i: H256, deleteEmpty: bool): Seen
    decreases |aps|
  {
    if aps == [] then s else SeenAfterAll(SeenAfter(s, aps[0], a, i, deleteEmpty), aps[1..], a, i, deleteEmpty)
  }

  function SlotOf(m: map<H256, H256>, i: H256): H256 {
    if i in m then m[i] else ZERO
  }

  lemma {:induction false} WriteSlotsAt(m: map<H256, H256>, writes: seq<(H256, H256)>, i: H256)
    ensures SlotOf(WriteSlots(m, writes), i) == LastWrite(writes, i, SlotOf(m, i))
  {
    if writes != [] {
      WriteSlotsAt(m, writes[..|writes| - 1], i);
    }
  }

  lemma ObserveApplyOne(m: Accounts, ap: Apply, a: H160, i: H256, deleteEmpty: bool)
    ensures Observe(ApplyOne(m, ap, deleteEmpty), a, i) == SeenAfter(Observe(m, a, i), ap, a, i, deleteEmpty)
  {
    if ap.Modify? && ap.address == a {
      var before := if a in m then m[a] else EMPTY_ACCOUNT;
      var kept := if ap.resetStorage then map[] else DropZeros(before.storage);
      WriteSlotsAt(kept, ap.storage, i);
      assert SlotOf(kept, i) == if ap.resetStorage then ZERO else StorageAt(m, a, i);
    }
  }

  /** The sparse account map reads, at every address and slot, exactly as the
      total model says, whatever list of writes is applied to whatever map. */
  lemma {:induction false} ApplyRefinesTotalModel(m: Accounts, aps: seq<Apply>, a: H160, i: H256, deleteEmpty: bool)
    ensures Observe(ApplyAll(m, aps, deleteEmpty), a, i)
         == SeenAfterAll(Observe(m, a, i), aps, a, i, deleteEmpty)
    decreases |aps|
  {
    if aps != [] {
      ObserveApplyOne(m, aps[0], a, i, deleteEmpty);
      ApplyRefinesTotalModel(ApplyOne(m, aps[0], deleteEmpty), aps[1..], a, i, deleteEmpty);
    }
  }

  // ------------------------------------------------------ zero-free storage

  predicate NoZeros(m: map<H256, H256>) {
    forall i :: i in m ==> m[i] != ZERO
  }

  predicate ZeroFree(m: Accounts) {
    forall a :: a in m ==> NoZeros(m[a].storage)
  }

  lemma {:induction false} WriteSlotsNoZeros(m: map<H256, H256>, writes: seq<(H256, H256)>)
    requires NoZeros(m)
    ensures NoZeros(WriteSlots(m, writes))
  {
    if writes != [] {
      WriteSlotsNoZeros(m, writes[..|writes| - 1]);
    }
  }

  predicate Modifies(aps: seq<Apply>, a: H160) {
    exists ap :: ap in aps && ap.Modify? && ap.address == a
  }

  /** Applying writes never stores a zero, and cleans any account it modifies:
      zeros that were there before survive only where nothing is modified. */
  lemma {:induction false} ApplyKeepsZeroFree(m: Accounts, aps: seq<Apply>, deleteEmpty: bool)
    ensures var r := ApplyAll(m, aps, deleteEmpty);
      forall a :: a in r && (a !in m || NoZeros(m[a].storage) || Modifies(aps, a)) ==> NoZeros(r[a].storage)
    ensures ZeroFree(m) ==> ZeroFree(ApplyAll(m, aps, deleteEmpty))
    decreases |aps|
  {
    if aps != [] {
      var ap := aps[0];
      if ap.Modify? {
        var before := if ap.address in m then m[ap.address] else EMPTY_ACCOUNT;
        WriteSlotsNoZeros(if ap.resetStorage then map[] else DropZeros(before.storage), ap.storage);
      }
      ApplyKeepsZeroFree(ApplyOne(m, ap, deleteEmpty), aps[1..], deleteEmpty);
      assert forall a :: Modifies(aps, a) ==> (ap.Modify? && ap.address == a) || Modifies(aps[1..], a);
    }
  }

  /** On zero-free maps the readers see everything: maps that answer every read
      alike are the same map. */
  lemma ReadsDetermineMap(m: Accounts, n: Accounts)
    requires ZeroFree(m) && ZeroFree(n)
    ensures m == n <==> forall a, i :: Observe(m, a, i) == Observe(n, a, i)
  {
    if forall a, i :: Observe(m, a, i) == Observe(n, a, i) {
      assert forall a :: a in m <==> a in n by {
        forall a: H160 ensures a in m <==> a in n { assert Observe(m, a, ZERO) == Observe(n, a, ZERO); }
      }
      forall a | a in m
        ensures m[a] == n[a]
      {
        assert Observe(m, a, ZERO) == Observe(n, a, ZERO);
        forall i: H256
          ensures i in m[a].storage <==> i in n[a].storage
          ensures SlotOf(m[a].storage, i) == SlotOf(n[a].storage, i)
        {
          assert Observe(m, a, i) == Observe(n, a, i);
        }
        assert m[a].storage == n[a].storage;
      }
    }
  }

  // ----------------------------------------------------- order independence

  function Lookup(m: Accounts, a: H160): Option<MemAccount> {
    if a in m then Some(m[a]) else None
  }

  /** The writes to one address, in order. */
  function Touching(aps: seq<Apply>, a: H160): seq<Apply> {
    if aps == [] then []
    else (if aps[0].address == a then [aps[0]] else []) + Touching(aps[1..], a)
  }

  /** What ends up at an address depends only on the writes to that address. */
  lemma {:induction false} ApplyIsLocal(m: Accounts, n: Accounts, aps: seq<Apply>, a: H160, deleteEmpty: bool)
    requires Lookup(m, a) == Lookup(n, a)
    ensures Lookup(ApplyAll(m, aps, deleteEmpty), a) == Lookup(ApplyAll(n, Touching(aps, a), deleteEmpty), a)
    decreases |aps|
  {
    if aps != [] {
      var rest := Touching(aps[1..], a);
      if aps[0].address == a {
        assert Touching(aps, a)[0] == aps[0] && Touching(aps, a)[1..] == rest;
        ApplyIsLocal(ApplyOne(m, aps[0], deleteEmpty), ApplyOne(n, aps[0], deleteEmpty), aps[1..], a, deleteEmpty);
      } else {
        assert Touching(aps, a) == rest;
        ApplyIsLocal(ApplyOne(m, aps[0], deleteEmpty), n, aps[1..], a, deleteEmpty);
      }
    }
  }

  /** Writes to different addresses commute: any two lists with the same writes
      per address, in whatever interleaving, give the same account map. */
  lemma InterleavingIrrelevant(m: Accounts, aps: seq<Apply>, bps: seq<Apply>, deleteEmpty: bool)
    requires forall a :: Touching(aps, a) == Touching(bps, a)
    ensures ApplyAll(m, aps, deleteEmpty) == ApplyAll(m, bps, deleteEmpty)
  {
    var x, y := ApplyAll(m, aps, deleteEmpty), ApplyAll(m, bps, deleteEmpty);
    forall a: H160
      ensures Lookup(x, a) == Lookup(y, a)
    {
      ApplyIsLocal(m, m, aps, a, deleteEmpty);
      ApplyIsLocal(m, m, bps, a, deleteEmpty);
    }
    assert forall a :: a in x <==> Lookup(x, a).Some?;
    assert forall a :: a in y <==> Lookup(y, a).Some?;
    assert forall a :: a in x ==> x[a] == Lookup(x, a).value == Lookup(y, a).value == y[a];
  }

  predicate DistinctAddresses(aps: seq<Apply>) {
    forall i, j :: 0 <= i < j < |aps| ==> aps[i].address != aps[j].address
  }

  lemma {:induction false} TouchingDistinct(aps: seq<Apply>, a: H160)
    requires DistinctAddresses(aps)
    ensures forall ap :: ap in aps && ap.address == a ==> Touching(aps, a) == [ap]
    ensures (forall ap :: ap in aps ==> ap.address != a) ==> Touching(aps, a) == []
  {
    if aps != [] {
      TouchingDistinct(aps[1..], a);
      assert forall ap :: ap in aps <==> ap == aps[0] || ap in aps[1..];
    }
  }

  /** Writes to pairwise different addresses may be applied in any order. */
  lemma PermutationIrrelevant(m: Accounts, aps: seq<Apply>, bps: seq<Apply>, deleteEmpty: bool)
    requires DistinctAddresses(aps) && DistinctAddresses(bps) && multiset(aps) == multiset(bps)
    ensures ApplyAll(m, aps, deleteEmpty) == ApplyAll(m, bps, deleteEmpty)
  {
    forall a: H160
      ensures Touching(aps, a) == Touching(bps, a)
    {
      TouchingDistinct(aps, a);
      TouchingDistinct(bps, a);
      assert forall ap :: ap in aps <==> ap in multiset(aps);
      assert forall ap :: ap in bps <==> ap in multiset(bps);
    }
    InterleavingIrrelevant(m, aps, bps, deleteEmpty);
  }

  // ------------------------------------------------------------ the backend

  /** The result of running a transaction on a snapshot: its writes and logs
      count only when it succeeds. */
  function Executed(evm: Evm, m: Accounts, ctx: Context, tx: Transact): (Accounts, seq<Log>) {
    var o := evm.transact(m, ctx, tx);
    if o.reason == Succeed then (ApplyAll(m, o.applies, false), o.logs) else (m, [])
  }

  /** One execution's mutable borrow of a snapshot and of its log list. */
  class EthDBBackend {
    var accounts: Accounts
    var logs: seq<Log>
    const ctx: Context

    constructor (accounts: Accounts, ctx: Context)
      ensures this.accounts == accounts && logs == [] && this.ctx == ctx
    {
      this.accounts, logs, this.ctx := accounts, [], ctx;
    }

    method Apply(values: seq<Apply>, newLogs: seq<Log>, deleteEmpty: bool)
      modifies this
      ensures accounts == ApplyAll(old(accounts), values, deleteEmpty)
      ensures logs == old(logs) + newLogs
    {
      for n := 0 to |values|
        invariant accounts == ApplyAll(old(accounts), values[..n], deleteEmpty)
        invariant logs == old(logs)
      {
        match values[n] {
          case Modify(_, _, _, _, _) =>
            ModifyAccount(values[n], deleteEmpty);
          case Delete(address) =>
            accounts := accounts - {address};
        }
        assert values[..n + 1] == values[..n] + [values[n]];
        ApplyConcat(old(accounts), values[..n], [values[n]], deleteEmpty);
      }
      assert values[..|values|] == values;
      for n := 0 to |newLogs|
        invariant accounts == ApplyAll(old(accounts), values, deleteEmpty)
        invariant logs == old(logs) + newLogs[..n]
      {
        logs := logs + [newLogs[n]];
      }
    }

    method ModifyAccount(m: Apply, deleteEmpty: bool)
      requires m.Modify?
      modifies `accounts
      ensures accounts == ApplyOne(old(accounts), m, deleteEmpty)
    {
      var account := if m.address in accounts then accounts[m.address] else EMPTY_ACCOUNT;
      account := account.(balance := m.basic.balance, nonce := m.basic.nonce);
      if m.code.Some? {
        account := account.(code := m.code.value);
      }
      var storage := if m.resetStorage then map[] else account.storage;
      storage := RemoveZeros(storage);
      for n := 0 to |m.storage|
        invariant storage == WriteSlots(if m.resetStorage then map[] else DropZeros(account.storage), m.storage[..n])
      {
        var (index, value) := m.storage[n];
        assert m.storage[..n + 1][..n] == m.storage[..n];
        if value == ZERO {
          storage := storage - {index};
        } else {
          storage := storage[index := value];
        }
      }
      assert m.storage[..|m.storage|] == m.storage;
      account := account.(storage := storage);
      accounts := accounts[m.address := account];
      if IsEmptyAccount(account) && deleteEmpty {
        accounts := accounts - {m.address};
        assert accounts == old(accounts) - {m.address};
      }
    }

    method RemoveZeros(storage: map<H256, H256>) returns (r: map<H256, H256>)
      ensures r == DropZeros(storage)
    {
      var zeros := set k | k in storage && storage[k] == ZERO;
      r := storage;
      while zeros != {}
        invariant zeros <= storage.Keys && forall k :: k in zeros ==> storage[k] == ZERO
        invariant r.Keys <= storage.Keys && forall k :: k in r ==> r[k] == storage[k]
        invariant forall k :: k in storage && storage[k] != ZERO ==> k in r
        invariant forall k :: k in r && storage[k] == ZERO ==> k in zeros
        decreases zeros
      {
        var zero :| zero in zeros;
        r := r - {zero};
        zeros := zeros - {zero};
      }
    }

    method Execute(evm: Evm, tx: Transact) returns (reason: ExitReason, res: Option<Octets>, gas: U64)
      modifies this
      ensures accounts == Executed(evm, old(accounts), ctx, tx).0
      ensures logs == old(logs) + Executed(evm, old(accounts), ctx, tx).1
      ensures reason == evm.transact(old(accounts), ctx, tx).reason
      ensures gas == evm.transact(old(accounts), ctx, tx).gas
      ensures res == if tx.to.Some? then Some(evm.transact(old(accounts), ctx, tx).output) else None
    {
      var o := evm.transact(accounts, ctx, tx);
      reason, gas := o.reason, o.gas;
      res := match tx.to { case Some(_) => Some(o.output) case None => None };
      if o.reason == Succeed {
        Apply(o.applies, o.logs, false);
      }
    }

    /** A static call leaves the snapshot alone; a trap counts as an empty success. */
    method Call(evm: Evm, caller: H160, target: H160, input: Octets) returns (r: (ExitReason, Octets, U64))
      ensures r == CallResult(evm, accounts, ctx, caller, target, input)
    {
      match evm.call(accounts, ctx, caller, target, input) {
        case Exit(reason, v, gas) => r := (reason, v, gas);
        case Trap(gas) => r := (Succeed, [], gas);
      }
    }
  }

  function CallResult(evm: Evm, m: Accounts, ctx: Context, caller: H160, target: H160, input: Octets): (ExitReason, Octets, U64) {
    match evm.call(m, ctx, caller, target, input)
    case Exit(reason, v, gas) => (reason, v, gas)
    case Trap(gas) => (Succeed, [], gas)
  }
}
