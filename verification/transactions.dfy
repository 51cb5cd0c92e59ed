/**
 The transaction loop of a block: what each message does to the state, the gas pool, the gas
 counter and the receipts. The EVM is a deterministic program over the state database together
 with a verdict; all that is assumed of it is that it stays within the gas pool.
 */
module Transactions {
  import opened Types
  import opened WorldState
  import opened Replay

  /** Rejected says what is left in the pool: gas bought before the rejection may be gone. */
  datatype Verdict =
    | Rejected(left: nat)
    | Applied(used: nat, failed: bool)

  /** The calls depend on the gas in the pool and the answers so far, the verdict on all of them. */
  datatype Message = Message(program: nat -> Program, steps: nat, verdict: (nat, seq<Response>) -> Verdict)

  /** A transaction with no valid signer has no message. */
  datatype Transaction = Transaction(hash: Hash, message: Option<Message>)

  ghost predicate WithinPool(m: Message) {
    forall pool, heard ::
      match m.verdict(pool, heard)
      case Rejected(left) => left <= pool
      case Applied(used, _) => used <= pool
  }

  ghost predicate AllWithinPool(txs: seq<Transaction>) {
    forall tx :: tx in txs && tx.message.Some? ==> WithinPool(tx.message.value)
  }

  ghost predicate DigestedBlock(txs: seq<Transaction>, keccak: Bytes -> Hash) {
    forall tx, pool :: tx in txs && tx.message.Some? ==> DigestedProgram(tx.message.value.program(pool), keccak)
  }

  /** Where the loop stands. */
  datatype Tally = Tally(db: Db, pool: nat, used: nat, receipts: seq<Receipt>)

  function Take(pool: nat, used: nat): nat {
    if used <= pool then pool - used else 0
  }

  function FailedReceipt(hash: Hash, used: nat, i: nat): Receipt {
    Receipt(false, 0, used, hash, i, [])
  }

  /** The state a message starts from: its context is set twice, the second time to the number of its logs. */
  function Entered(db: Db, hash: Hash, i: nat): (r: Db)
    requires db.Ordered()
    ensures r.Ordered() && r.store == db.store && r.block == db.block
  {
    var d := db.SetTxContext(hash, i);
    d.SetTxContext(hash, |d.LogsOf(hash)|)
  }

  /** The gas counter is a 64-bit word. */
  function Settle(t: Tally, db: Db, hash: Hash, i: nat, v: Verdict): Tally {
    match v
    case Rejected(left) => t.(db := db, pool := left, receipts := t.receipts + [FailedReceipt(hash, t.used, i)])
    case Applied(used, failed) =>
      var total := (t.used + used) % TWO_64;
      Tally(db, Take(t.pool, used), total, t.receipts + [Receipt(!failed, used, total, hash, i, db.LogsOf(hash))])
  }

  function ApplyOne(t: Tally, tx: Transaction, i: nat): (r: Tally)
    requires t.db.Ordered()
    ensures r.db.Ordered() && r.db.store == t.db.store && r.db.block == t.db.block
  {
    match tx.message
    case None => t.(db := t.db.SetTxContext(tx.hash, i), receipts := t.receipts + [FailedReceipt(tx.hash, t.used, i)])
    case Some(m) =>
      var (db, heard) := Execute(m.program(t.pool), Entered(t.db, tx.hash, i), [], m.steps);
      Settle(t, db, tx.hash, i, m.verdict(t.pool, heard))
  }

  function ApplyFrom(t: Tally, txs: seq<Transaction>, i: nat): (r: Tally)
    requires t.db.Ordered()
    ensures r.db.Ordered() && r.db.store == t.db.store && r.db.block == t.db.block
    decreases |txs| - i
  {
    if i >= |txs| then t else ApplyFrom(ApplyOne(t, txs[i], i), txs, i + 1)
  }

  function ApplyAll(db: Db, txs: seq<Transaction>, gasLimit: nat): (r: Tally)
    requires db.Ordered()
    ensures r.db.Ordered() && r.db.store == db.store && r.db.block == db.block
  {
    ApplyFrom(Tally(db, gasLimit, 0, []), txs, 0)
  }

  /******* Gas and receipts *******/

  function GasOf(rs: seq<Receipt>): nat
    decreases |rs|
  {
    if rs == [] then 0 else GasOf(rs[..|rs| - 1]) + rs[|rs| - 1].gasUsed
  }

  /** Receipt k is the k-th one, of its own transaction, and counts the gas up to and including it. */
  predicate Accounted(rs: seq<Receipt>, txs: seq<Transaction>, k: nat)
    requires k < |rs| && k < |txs|
  {
    rs[k].index == k && rs[k].txHash == txs[k].hash && rs[k].cumulativeGasUsed == GasOf(rs[..k + 1])
  }

  ghost predicate InOrder(t: Tally, txs: seq<Transaction>, i: nat, gasLimit: nat) {
    && |t.receipts| == i <= |txs| && t.used == GasOf(t.receipts)
    && t.used + t.pool <= gasLimit
    && forall k :: 0 <= k < i ==> Accounted(t.receipts, txs, k)
  }

  lemma AppendedReceipt(t: Tally, u: Tally, txs: seq<Transaction>, i: nat, gasLimit: nat, r: Receipt)
    requires InOrder(t, txs, i, gasLimit) && i < |txs|
    requires u.receipts == t.receipts + [r] && u.used == t.used + r.gasUsed && u.used + u.pool <= gasLimit
    requires r.index == i && r.txHash == txs[i].hash && r.cumulativeGasUsed == u.used
    ensures InOrder(u, txs, i + 1, gasLimit)
  {
    assert u.receipts[..|u.receipts| - 1] == t.receipts;
    forall k | 0 <= k < i + 1 ensures Accounted(u.receipts, txs, k) {
      if k < i {
        assert Accounted(t.receipts, txs, k);
        assert u.receipts[..k + 1] == t.receipts[..k + 1];
      } else {
        assert u.receipts[..k + 1] == u.receipts;
      }
    }
  }

  lemma ApplyOneInOrder(t: Tally, txs: seq<Transaction>, i: nat, gasLimit: nat)
    requires t.db.Ordered() && i < |txs| && AllWithinPool(txs) && gasLimit < TWO_64 && InOrder(t, txs, i, gasLimit)
    ensures InOrder(ApplyOne(t, txs[i], i), txs, i + 1, gasLimit)
  {
    hide Execute, Entered, InOrder, AllWithinPool;
    var u := ApplyOne(t, txs[i], i);
    PoolHolds(t, txs, i, gasLimit);
    AppendedReceipt(t, u, txs, i, gasLimit, u.receipts[|t.receipts|]);
  }

  lemma PoolHolds(t: Tally, txs: seq<Transaction>, i: nat, gasLimit: nat)
    requires i < |txs| && AllWithinPool(txs) && InOrder(t, txs, i, gasLimit)
    ensures t.used + t.pool <= gasLimit
    ensures txs[i].message.Some? ==>
      forall heard ::
        match txs[i].message.value.verdict(t.pool, heard)
        case Rejected(left) => left <= t.pool
        case Applied(used, _) => used <= t.pool
  {
    assert txs[i] in txs;
  }

  lemma {:induction false} ApplyFromInOrder(t: Tally, txs: seq<Transaction>, i: nat, gasLimit: nat)
    requires t.db.Ordered() && i <= |txs| && AllWithinPool(txs) && gasLimit < TWO_64 && InOrder(t, txs, i, gasLimit)
    ensures InOrder(ApplyFrom(t, txs, i), txs, |txs|, gasLimit)
    decreases |txs| - i
  {
    hide InOrder, AllWithinPool, ApplyOne;
    if i < |txs| {
      ApplyOneInOrder(t, txs, i, gasLimit);
      ApplyFromInOrder(ApplyOne(t, txs[i], i), txs, i + 1, gasLimit);
    } else {
      SameEnd(t, txs, i, gasLimit);
    }
  }

  lemma SameEnd(t: Tally, txs: seq<Transaction>, i: nat, gasLimit: nat)
    requires i <= |txs| && !(i < |txs|) && InOrder(t, txs, i, gasLimit)
    ensures InOrder(t, txs, |txs|, gasLimit)
  {
  }

  /**
   For any transactions, rejected or not: one receipt each, in order, with cumulative gas the prefix
   sum; the counter is the full sum and never wraps, because it stays within the block gas limit.
   */
  lemma GasAndReceipts(db: Db, txs: seq<Transaction>, gasLimit: nat)
    requires db.Ordered() && AllWithinPool(txs) && gasLimit < TWO_64
    ensures var r := ApplyAll(db, txs, gasLimit);
      && |r.receipts| == |txs| && r.used == GasOf(r.receipts) && r.used + r.pool <= gasLimit
      && forall k :: 0 <= k < |txs| ==> Accounted(r.receipts, txs, k)
  {
    var t := Tally(db, gasLimit, 0, []);
    assert InOrder(t, txs, 0, gasLimit);
    ApplyFromInOrder(t, txs, 0, gasLimit);
  }

  /******* What each transaction gets *******/

  /** Running tx from t leaves u and the receipt r, as the verdict of its message says. */
  ghost predicate Charged(t: Tally, u: Tally, tx: Transaction, i: nat, r: Receipt) {
    t.db.Ordered() &&
    match tx.message
    case None =>
      && !r.success && r.gasUsed == 0 && r.logs == []
      && u.used == t.used && u.pool == t.pool && u.db == t.db.SetTxContext(tx.hash, i)
    case Some(m) =>
      var (db, heard) := Execute(m.program(t.pool), Entered(t.db, tx.hash, i), [], m.steps);
      u.db == db &&
      match m.verdict(t.pool, heard)
      case Rejected(left) => !r.success && r.gasUsed == 0 && r.logs == [] && u.used == t.used && u.pool == left
      case Applied(gas, failed) =>
        && r.success == !failed && r.gasUsed == gas && r.logs == db.LogsOf(tx.hash)
        && u.used == t.used + gas && u.pool == t.pool - gas
  }

  lemma ApplyOneCharges(t: Tally, txs: seq<Transaction>, i: nat, gasLimit: nat)
    requires t.db.Ordered() && i < |txs| && AllWithinPool(txs) && gasLimit < TWO_64 && InOrder(t, txs, i, gasLimit)
    ensures var u := ApplyOne(t, txs[i], i);
      |u.receipts| == i + 1 && u.receipts[..i] == t.receipts && Charged(t, u, txs[i], i, u.receipts[i])
  {
    PoolHolds(t, txs, i, gasLimit);
    hide Execute, Entered, AllWithinPool;
  }

  lemma {:induction false} ApplyPrefix(t: Tally, txs: seq<Transaction>, k: nat, i: nat)
    requires t.db.Ordered() && k <= i <= |txs|
    ensures ApplyFrom(t, txs, k) == ApplyFrom(ApplyFrom(t, txs[..i], k), txs, i)
    decreases i - k
  {
    hide ApplyOne;
    if k < i {
      assert txs[..i][k] == txs[k];
      ApplyPrefix(ApplyOne(t, txs[k], k), txs, k + 1, i);
    }
  }

  /** The first i + 1 transactions are the first i and one more. */
  lemma ApplyNext(db: Db, txs: seq<Transaction>, gasLimit: nat, i: nat)
    requires db.Ordered() && i < |txs|
    ensures ApplyAll(db, txs[..i + 1], gasLimit) == ApplyOne(ApplyAll(db, txs[..i], gasLimit), txs[i], i)
  {
    hide ApplyOne;
    var t, some := Tally(db, gasLimit, 0, []), txs[..i + 1];
    ApplyPrefix(t, some, 0, i);
    assert some[..i] == txs[..i] && some[i] == txs[i];
    var u := ApplyFrom(t, txs[..i], 0);
    assert ApplyFrom(u, some, i) == ApplyFrom(ApplyOne(u, txs[i], i), some, i + 1);
  }

  lemma {:induction false} ReceiptsGrow(t: Tally, txs: seq<Transaction>, i: nat)
    requires t.db.Ordered()
    ensures t.receipts <= ApplyFrom(t, txs, i).receipts
    decreases |txs| - i
  {
    if i < |txs| {
      OneMoreReceipt(t, txs[i], i);
      hide ApplyOne;
      ReceiptsGrow(ApplyOne(t, txs[i], i), txs, i + 1);
    }
  }

  lemma OneMoreReceipt(t: Tally, tx: Transaction, i: nat)
    requires t.db.Ordered()
    ensures t.receipts <= ApplyOne(t, tx, i).receipts
  {
    hide Execute, Entered;
  }

  lemma PrefixWithinPool(txs: seq<Transaction>, i: nat)
    requires AllWithinPool(txs) && i <= |txs|
    ensures AllWithinPool(txs[..i])
  {
    hide WithinPool;
  }

  lemma PrefixInOrder(db: Db, txs: seq<Transaction>, gasLimit: nat, i: nat)
    requires db.Ordered() && AllWithinPool(txs) && gasLimit < TWO_64 && i <= |txs|
    ensures InOrder(ApplyAll(db, txs[..i], gasLimit), txs, i, gasLimit)
  {
    PrefixWithinPool(txs, i);
    var t, some := ApplyAll(db, txs[..i], gasLimit), txs[..i];
    hide AllWithinPool, ApplyFrom;
    GasAndReceipts(db, some, gasLimit);
    forall k | 0 <= k < i ensures Accounted(t.receipts, txs, k) {
      assert Accounted(t.receipts, some, k) && some[k] == txs[k];
    }
  }

  /**
   Transaction i of a block, run where the first i left off: its receipt, the gas counter and the pool
   say exactly what the verdict of its message says, and it leaves the state its message left.
   */
  lemma VerdictsTell(db: Db, txs: seq<Transaction>, gasLimit: nat, i: nat)
    requires db.Ordered() && AllWithinPool(txs) && gasLimit < TWO_64 && i < |txs|
    ensures var (t, u) := (ApplyAll(db, txs[..i], gasLimit), ApplyAll(db, txs[..i + 1], gasLimit));
      var rs := ApplyAll(db, txs, gasLimit).receipts;
      |rs| == |txs| && Charged(t, u, txs[i], i, rs[i])
  {
    var t, u := ApplyAll(db, txs[..i], gasLimit), ApplyAll(db, txs[..i + 1], gasLimit);
    hide *;
    PrefixInOrder(db, txs, gasLimit, i);
    ApplyNext(db, txs, gasLimit, i);
    ApplyOneCharges(t, txs, i, gasLimit);
    LaterReceipts(db, txs, gasLimit, i + 1);
    GasAndReceipts(db, txs, gasLimit);
  }

  /** The receipts of the first i transactions are the first receipts of all. */
  lemma LaterReceipts(db: Db, txs: seq<Transaction>, gasLimit: nat, i: nat)
    requires db.Ordered() && i <= |txs|
    ensures ApplyAll(db, txs[..i], gasLimit).receipts <= ApplyAll(db, txs, gasLimit).receipts
  {
    hide ApplyFrom;
    var t := Tally(db, gasLimit, 0, []);
    ApplyPrefix(t, txs, 0, i);
    ReceiptsGrow(ApplyFrom(t, txs[..i], 0), txs, i);
  }
}
