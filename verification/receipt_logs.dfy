/**
 Preparing a transaction clears the transaction hash that logs are filed under. Messages prepare
 before they log, so every log of a block is filed under the zero hash, and the receipts, which
 ask for the logs of their own hash, carry none.
 */
module ReceiptLogs {
  import opened Types
  import opened WorldState
  import opened Replay
  import opened Transactions
  import Runs
  import E = Effects
  import L = LogNumbers

  /** The message sets no transaction context, and logs only after Prepare. */
  ghost predicate LogsAfterPrepare(program: Program, db: Db, heard: seq<Response>, steps: nat, prepared: bool)
    requires db.Ordered()
    decreases steps
  {
    steps == 0 || program(heard).None? ||
      var c := program(heard).value;
      !c.SetTxContext? && (c.AddLog? ==> prepared)
      && LogsAfterPrepare(program, Runs.Step(db, c), heard + [Respond(db, c)], steps - 1, prepared || c.Prepare?)
  }

  /** Every log so far was filed under the zero hash. */
  ghost predicate FiledUnderZero(db: Db) {
    && L.Numbered(db, L.Issued(db.journal))
    && forall h :: h in L.Issued(db.journal) ==> h == ZERO_HASH
  }

  lemma {:induction false} NeverCounted(hs: seq<Hash>, h: Hash)
    requires h !in hs
    ensures L.Count(hs, h) == 0
    decreases |hs|
  {
    if hs != [] {
      NeverCounted(hs[..|hs| - 1], h);
    }
  }

  lemma NoOtherLogs(db: Db, h: Hash)
    requires FiledUnderZero(db) && h != ZERO_HASH
    ensures db.LogsOf(h) == []
  {
    NeverCounted(L.Issued(db.journal), h);
    assert |db.LogsOf(h)| == L.Count(L.Issued(db.journal), h);
  }

  lemma {:induction false} UndoAllKeepsHash(db: Db, js: seq<Entry>)
    ensures db.UndoAll(js).txHash == db.txHash
    decreases |js|
  {
    if js != [] {
      UndoAllKeepsHash(db, js[1..]);
    }
  }

  lemma RevertFiled(db: Db, id: nat)
    requires db.Ordered() && FiledUnderZero(db)
    ensures var r := db.RevertToSnapshot(id);
      r.txHash == db.txHash && forall h :: h in L.Issued(r.journal) ==> h == ZERO_HASH
  {
    var r := db.RevertToSnapshot(id);
    if db.Find(id).Some? {
      var k := db.revisions[db.Find(id).value].journalIndex;
      UndoAllKeepsHash(db, db.journal[k..]);
      IssuedBefore(db, k);
      assert r.journal == db.journal[..k];
    } else {
      assert r == db;
    }
  }

  lemma IssuedBefore(db: Db, k: nat)
    requires FiledUnderZero(db) && k <= |db.journal|
    ensures forall h :: h in L.Issued(db.journal[..k]) ==> h == ZERO_HASH
  {
    L.IssuedConcat(db.journal[..k], db.journal[k..]);
    assert db.journal == db.journal[..k] + db.journal[k..];
    forall h | h in L.Issued(db.journal[..k]) ensures h == ZERO_HASH {
      assert h in L.Issued(db.journal);
    }
  }

  lemma AddLogFiled(db: Db, data: Bytes)
    requires FiledUnderZero(db) && db.txHash == ZERO_HASH
    ensures forall h :: h in L.Issued(db.AddLog(data).journal) ==> h == ZERO_HASH
  {
    hide L.Numbered;
    assert (db.journal + [AddLogChange(db.txHash)])[..|db.journal|] == db.journal;
  }

  lemma CallFiled(db: Db, c: Runs.Call)
    requires FiledUnderZero(db) && (c.AddLog? ==> db.txHash == ZERO_HASH)
    ensures forall h :: h in L.Issued(Runs.Advance(db, c).journal) ==> h == ZERO_HASH
  {
    hide L.Numbered, Runs.AdvanceAccount, Runs.AdvanceAccess;
    if c.AddLog? {
      AddLogFiled(db, c.data);
    } else {
      L.OnlyAddLogLogs(db, c);
      hide Runs.Advance, L.Issued;
      L.IssuedConcat(db.journal, Runs.Added(db, c));
      assert Runs.Advance(db, c).journal == db.journal + Runs.Added(db, c);
    }
  }

  lemma StepFiled(db: Db, c: Runs.Call)
    requires db.Ordered() && FiledUnderZero(db) && !c.SetTxContext? && (c.AddLog? ==> db.txHash == ZERO_HASH)
    ensures FiledUnderZero(Runs.Step(db, c))
    ensures Runs.Step(db, c).txHash == if c.Prepare? then ZERO_HASH else db.txHash
  {
    L.StepNumbered(db, c);
    hide L.Numbered, L.Issued, Runs.AdvanceAccount, Runs.AdvanceOther;
    if c.RevertToSnapshot? {
      RevertFiled(db, c.id);
    } else if !c.Snapshot? {
      CallFiled(db, c);
      if !c.Prepare? {
        E.ContextEffect(db, c);
      }
    }
  }

  lemma {:induction false} ExecuteFiled(program: Program, db: Db, heard: seq<Response>, steps: nat, prepared: bool)
    requires db.Ordered() && FiledUnderZero(db) && (prepared ==> db.txHash == ZERO_HASH)
    requires LogsAfterPrepare(program, db, heard, steps, prepared)
    ensures FiledUnderZero(Execute(program, db, heard, steps).0)
    decreases steps
  {
    hide Runs.Step, FiledUnderZero, Respond;
    if steps != 0 && program(heard).Some? {
      var c := program(heard).value;
      StepFiled(db, c);
      ExecuteFiled(program, Runs.Step(db, c), heard + [Respond(db, c)], steps - 1, prepared || c.Prepare?);
    }
  }

  /** Every message of the block, from wherever it starts, logs only after Prepare. */
  ghost predicate PreparedLogs(txs: seq<Transaction>) {
    forall tx, pool, db: Db :: tx in txs && tx.message.Some? && db.Ordered() ==>
      LogsAfterPrepare(tx.message.value.program(pool), db, [], tx.message.value.steps, false)
  }

  ghost predicate NoLogsYet(t: Tally) {
    FiledUnderZero(t.db) && forall r :: r in t.receipts && r.txHash != ZERO_HASH ==> r.logs == []
  }

  lemma EnteredFiled(db: Db, hash: Hash, i: nat)
    requires db.Ordered() && FiledUnderZero(db)
    ensures FiledUnderZero(db.SetTxContext(hash, i)) && FiledUnderZero(Entered(db, hash, i))
  {
    L.SameLogs(db, db.SetTxContext(hash, i), L.Issued(db.journal));
    L.SameLogs(db, Entered(db, hash, i), L.Issued(db.journal));
  }

  lemma ApplyOneNoLogs(t: Tally, txs: seq<Transaction>, i: nat)
    requires t.db.Ordered() && NoLogsYet(t) && PreparedLogs(txs) && i < |txs|
    ensures NoLogsYet(ApplyOne(t, txs[i], i))
  {
    var tx := txs[i];
    EnteredFiled(t.db, tx.hash, i);
    hide FiledUnderZero, Entered, Execute, LogsAfterPrepare, Settle;
    if tx.message.Some? {
      var m := tx.message.value;
      var start := Entered(t.db, tx.hash, i);
      assert tx in txs;
      ExecuteFiled(m.program(t.pool), start, [], m.steps, false);
      var (db, heard) := Execute(m.program(t.pool), start, [], m.steps);
      SettleNoLogs(t, db, tx.hash, i, m.verdict(t.pool, heard));
    }
  }

  lemma SettleNoLogs(t: Tally, db: Db, hash: Hash, i: nat, v: Verdict)
    requires NoLogsYet(t) && FiledUnderZero(db)
    ensures NoLogsYet(Settle(t, db, hash, i, v))
  {
    hide FiledUnderZero;
    if hash != ZERO_HASH {
      NoOtherLogs(db, hash);
    }
  }

  lemma {:induction false} ApplyFromNoLogs(t: Tally, txs: seq<Transaction>, i: nat)
    requires t.db.Ordered() && NoLogsYet(t) && PreparedLogs(txs)
    ensures NoLogsYet(ApplyFrom(t, txs, i))
    decreases |txs| - i
  {
    hide NoLogsYet, PreparedLogs, ApplyOne;
    if i < |txs| {
      ApplyOneNoLogs(t, txs, i);
      ApplyFromNoLogs(ApplyOne(t, txs[i], i), txs, i + 1);
    }
  }

  /** No receipt of a block carries a log, whatever its messages logged. */
  lemma ReceiptsCarryNoLogs(store: Store, block: nat, txs: seq<Transaction>, gasLimit: nat)
    requires PreparedLogs(txs)
    ensures var r := ApplyAll(NewDb(store, block), txs, gasLimit);
      forall rc :: rc in r.receipts && rc.txHash != ZERO_HASH ==> rc.logs == []
  {
    var t := Tally(NewDb(store, block), gasLimit, 0, []);
    assert NoLogsYet(t);
    ApplyFromNoLogs(t, txs, 0);
  }

  /******* Exactly which receipts are complete *******/

  function Min(a: nat, b: nat): nat {
    if a <= b then a else b
  }

  /** How far down the execution ever cut the journal: what lies below was there before, what lies above is its own. */
  function Floor(program: Program, db: Db, heard: seq<Response>, steps: nat): (r: nat)
    requires db.Ordered()
    ensures r <= |db.journal| && r <= |Execute(program, db, heard, steps).0.journal|
    decreases steps
  {
    if steps == 0 || program(heard).None? then |db.journal|
    else
      var c := program(heard).value;
      Min(|db.journal|, Floor(program, Runs.Step(db, c), heard + [Respond(db, c)], steps - 1))
  }

  /** The first k records are the same. */
  predicate Shares(d: Db, r: Db, k: nat) {
    k <= |d.journal| && k <= |r.journal| && d.journal[..k] == r.journal[..k]
  }

  lemma StepShares(db: Db, c: Runs.Call, k: nat)
    requires db.Ordered() && k <= |db.journal| && k <= |Runs.Step(db, c).journal|
    ensures Shares(db, Runs.Step(db, c), k)
  {
    hide Runs.AdvanceAccount, Runs.AdvanceOther, Runs.AdvanceAccess;
    assert c.Snapshot? || c.RevertToSnapshot? || db.journal <= Runs.Step(db, c).journal;
  }

  lemma SharesOn(d: Db, r: Db, s: Db, k: nat)
    requires Shares(d, r, k) && Shares(r, s, k)
    ensures Shares(d, s, k)
  {
  }

  lemma OneShares(program: Program, db: Db, heard: seq<Response>, steps: nat, k: nat)
    requires db.Ordered() && k <= Floor(program, db, heard, steps) && steps > 0 && program(heard).Some?
    ensures var c := program(heard).value;
      var next, all := Runs.Step(db, c), heard + [Respond(db, c)];
      && Shares(db, next, k) && k <= Floor(program, next, all, steps - 1)
      && Execute(program, db, heard, steps) == Execute(program, next, all, steps - 1)
  {
    hide Runs.Step, Respond;
    StepShares(db, program(heard).value, k);
  }

  lemma StoppedShares(program: Program, db: Db, heard: seq<Response>, steps: nat, k: nat)
    requires db.Ordered() && k <= |db.journal| && (steps == 0 || program(heard).None?)
    ensures Shares(db, Execute(program, db, heard, steps).0, k)
  {
  }

  /** The records below the floor are those from before. */
  lemma {:induction false} BelowFloor(program: Program, db: Db, heard: seq<Response>, steps: nat, k: nat)
    requires db.Ordered() && k <= Floor(program, db, heard, steps)
    ensures Shares(db, Execute(program, db, heard, steps).0, k)
    decreases steps
  {
    hide *;
    if steps == 0 || program(heard).None? {
      StoppedShares(program, db, heard, steps, k);
    } else {
      var c := program(heard).value;
      var next, all := Runs.Step(db, c), heard + [Respond(db, c)];
      OneShares(program, db, heard, steps, k);
      BelowFloor(program, next, all, steps - 1, k);
      SharesOn(db, next, Execute(program, next, all, steps - 1).0, k);
    }
  }

  /** The log that record i of the live log records stands for. */
  ghost function LogOf(db: Db, i: nat): Log
    requires L.Numbered(db, L.Issued(db.journal)) && i < |L.Issued(db.journal)|
  {
    var hs := L.Issued(db.journal);
    assert L.NumberedAt(db, hs, i);
    db.LogsOf(hs[i])[L.Count(hs[..i], hs[i])]
  }

  /** The logs whose live records lie above the floor, in the order of their numbers. */
  ghost function LogsAbove(db: Db, floor: nat): seq<Log>
    requires L.Numbered(db, L.Issued(db.journal)) && floor <= |db.journal|
  {
    var below := |L.Issued(db.journal[..floor])|;
    AboveCount(db.journal, floor);
    seq(|L.Issued(db.journal)| - below, i requires 0 <= i < |L.Issued(db.journal)| - below => LogOf(db, below + i))
  }

  lemma AboveCount(js: seq<Entry>, floor: nat)
    requires floor <= |js|
    ensures L.Issued(js) == L.Issued(js[..floor]) + L.Issued(js[floor..])
  {
    assert js == js[..floor] + js[floor..];
    L.IssuedConcat(js[..floor], js[floor..]);
  }

  /** The state after the message of transaction i, and the floor of its execution. */
  ghost function AfterMessage(t: Tally, tx: Transaction, i: nat): (r: (Db, nat))
    requires t.db.Ordered() && tx.message.Some?
    ensures r.1 <= |r.0.journal| && r.0 == ApplyOne(t, tx, i).db
  {
    var m, start := tx.message.value, Entered(t.db, tx.hash, i);
    (Execute(m.program(t.pool), start, [], m.steps).0, Floor(m.program(t.pool), start, [], m.steps))
  }

  lemma OneReceipt(t: Tally, tx: Transaction, i: nat)
    requires t.db.Ordered()
    ensures var rs := ApplyOne(t, tx, i).receipts;
      |rs| == |t.receipts| + 1 && rs[|t.receipts|].txHash == tx.hash && rs[|t.receipts|] in rs
  {
    hide Execute, Entered;
  }

  lemma LastReceipt(t: Tally, txs: seq<Transaction>, i: nat)
    requires t.db.Ordered() && NoLogsYet(t) && PreparedLogs(txs) && i < |txs| && txs[i].hash != ZERO_HASH
    ensures NoLogsYet(ApplyOne(t, txs[i], i))
    ensures var rs := ApplyOne(t, txs[i], i).receipts; rs != [] && rs[|rs| - 1].logs == []
  {
    ApplyOneNoLogs(t, txs, i);
    OneReceipt(t, txs[i], i);
    hide ApplyOne, FiledUnderZero, PreparedLogs;
  }

  /**
   The receipt of a message carries the logs that the message emitted, whatever it reverted of them,
   if and only if no log record of the message is live at its end.
   */
  lemma ReceiptLogsExactness(store: Store, block: nat, txs: seq<Transaction>, gasLimit: nat, i: nat)
    requires PreparedLogs(txs) && i < |txs| && txs[i].message.Some? && txs[i].hash != ZERO_HASH
    ensures var t := ApplyAll(NewDb(store, block), txs[..i], gasLimit);
      var (db, floor) := AfterMessage(t, txs[i], i);
      var rs := ApplyOne(t, txs[i], i).receipts;
      && rs != [] && L.Numbered(db, L.Issued(db.journal))
      && (rs[|rs| - 1].logs == LogsAbove(db, floor) <==> L.Issued(db.journal[floor..]) == [])
  {
    var t := ApplyAll(NewDb(store, block), txs[..i], gasLimit);
    hide *;
    PrefixNoLogs(store, block, txs, gasLimit, i);
    LastReceipt(t, txs, i);
    var (db, floor) := AfterMessage(t, txs[i], i);
    NumberedAnyway(ApplyOne(t, txs[i], i));
    LogsAboveCount(db, floor);
  }

  lemma PrefixNoLogs(store: Store, block: nat, txs: seq<Transaction>, gasLimit: nat, i: nat)
    requires PreparedLogs(txs) && i <= |txs|
    ensures NoLogsYet(ApplyAll(NewDb(store, block), txs[..i], gasLimit))
  {
    var start := Tally(NewDb(store, block), gasLimit, 0, []);
    assert NoLogsYet(start) && PreparedLogs(txs[..i]);
    hide NoLogsYet, PreparedLogs, ApplyFrom;
    ApplyFromNoLogs(start, txs[..i], 0);
  }

  lemma NumberedAnyway(t: Tally)
    requires NoLogsYet(t)
    ensures L.Numbered(t.db, L.Issued(t.db.journal))
  {
    hide L.Numbered, L.Issued;
  }

  lemma LogsAboveCount(db: Db, floor: nat)
    requires L.Numbered(db, L.Issued(db.journal)) && floor <= |db.journal|
    ensures |LogsAbove(db, floor)| == |L.Issued(db.journal[floor..])|
  {
    hide L.Numbered, L.Issued;
    AboveCount(db.journal, floor);
  }
}
