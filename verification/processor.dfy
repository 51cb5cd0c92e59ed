/**
 Processing a block with the state database object: every call of a message is carried out by the
 object's own method, so running the transactions computes exactly what Transactions says.
 */
module Processing {
  import opened Types
  import opened WorldState
  import opened Storage
  import opened StateDb
  import opened Replay
  import R = Runs
  import T = Transactions

  method PerformAccount(db: PikaStateDB, c: R.Call) returns (r: Response)
    requires db.Valid() && R.AccountCall(c) && Digested(c, db.keccak)
    modifies db.Footprint()
    ensures db.Valid() && db.Model() == R.AdvanceAccount(old(db.Model()), c)
    ensures r == Respond(old(db.Model()), c)
    ensures forall b :: b in db.accounts ==> db.accounts[b] in old(db.accounts.Values) || fresh(db.accounts[b])
  {
    hide PikaStateDB.Model, PikaStateDB.Sound, Steady;
    r := Done;
    match c {
      case CreateAccount(a) => db.CreateAccount(a);
      case AddBalance(a, x) => db.AddBalance(a, x);
      case SubBalance(a, x) => db.SubBalance(a, x);
      case SetNonce(a, n) => db.SetNonce(a, n);
      case SetCode(a, code, _) => db.SetCode(a, code);
      case Suicide(a) =>
        var first := db.Suicide(a);
        r := Flag(first);
    }
  }

  method PerformAccess(db: PikaStateDB, c: R.Call)
    requires db.Valid() && R.AccessCall(c)
    modifies db`thash, db`txIndex, db.accessList, db.journal
    ensures db.Valid() && db.Model() == R.AdvanceAccess(old(db.Model()), c)
  {
    hide PikaStateDB.Model, PikaStateDB.Sound, Steady;
    match c {
      case AddAddressToAccessList(a) => db.AddAddressToAccessList(a);
      case AddSlotToAccessList(a, slot) => db.AddSlotToAccessList(a, slot);
      case Prepare(sender, dest, precompiles, tuples) => db.Prepare(sender, dest, precompiles, tuples);
    }
  }

  method PerformOther(db: PikaStateDB, c: R.Call)
    requires db.Valid() && !R.AccountCall(c) && !R.AccessCall(c) && !c.Ask? && !c.Snapshot? && !c.RevertToSnapshot?
    modifies db, db.journal
    ensures db.Valid() && db.Model() == R.AdvanceOther(old(db.Model()), c) && db.accounts == old(db.accounts)
  {
    hide PikaStateDB.Model, PikaStateDB.Sound, Steady;
    match c {
      case SetState(a, k, v) => db.SetState(a, k, v);
      case AddLog(data) => db.AddLog(data);
      case AddRefund(gas) => db.AddRefund(gas);
      case SubRefund(gas) => db.SubRefund(gas);
      case AddPreimage(h, data) => db.AddPreimage(h, data);
      case SetTxContext(h, i) => db.SetTxContext(h, i);
    }
  }

  method AskAccount(db: PikaStateDB, q: R.Query) returns (r: Response)
    requires db.Valid() && q.LoadsAccount()
    modifies db
    ensures db.Valid() && db.Model() == old(db.Model()).Load(q.addr) && r == Answer(old(db.Model()), q)
    ensures forall b :: b in db.accounts ==> db.accounts[b] in old(db.accounts.Values) || fresh(db.accounts[b])
  {
    hide PikaStateDB.Model, PikaStateDB.Sound, Steady, Db.Load;
    match q {
      case GetBalance(a) =>
        var x := db.GetBalance(a);
        r := Number(x);
      case GetNonce(a) =>
        var x := db.GetNonce(a);
        r := Number(x);
      case GetCodeHash(a) =>
        var h := db.GetCodeHash(a);
        r := Word(h);
      case GetCode(a) =>
        var code := db.GetCode(a);
        r := Code(code);
      case Exist(a) =>
        var b := db.Exist(a);
        r := Flag(b);
      case Empty(a) =>
        var b := db.Empty(a);
        r := Flag(b);
    }
  }

  method AskOther(db: PikaStateDB, q: R.Query) returns (r: Response)
    requires db.Valid() && !q.LoadsAccount()
    modifies db
    ensures db.accounts == old(db.accounts)
    ensures db.Valid() && db.Model() == old(db.Model()) && r == Answer(old(db.Model()), q)
  {
    hide PikaStateDB.Model, PikaStateDB.Sound, Steady;
    match q {
      case GetState(a, k) =>
        var v := db.GetState(a, k);
        r := Word(v);
      case HasSuicided(a) =>
        var b := db.HasSuicided(a);
        r := Flag(b);
      case GetRefund =>
        var n := db.GetRefund();
        r := Number(n);
      case GetLogs(h) =>
        var l := db.GetLogs(h);
        r := Logs(l);
      case AddressInAccessList(a) =>
        var b := db.AddressInAccessList(a);
        r := Flag(b);
      case SlotInAccessList(a, slot) =>
        var listed, warm := db.SlotInAccessList(a, slot);
        r := Flags(listed, warm);
    }
  }

  method Query(db: PikaStateDB, q: R.Query) returns (r: Response)
    requires db.Valid()
    modifies db
    ensures db.Valid() && db.Model() == (if q.LoadsAccount() then old(db.Model()).Load(q.addr) else old(db.Model()))
    ensures r == Answer(old(db.Model()), q)
    ensures forall b :: b in db.accounts ==> db.accounts[b] in old(db.accounts.Values) || fresh(db.accounts[b])
  {
    hide PikaStateDB.Model, PikaStateDB.Sound, Steady, Answer, Db.Load;
    if q.LoadsAccount() {
      r := AskAccount(db, q);
    } else {
      r := AskOther(db, q);
    }
  }

  /** Any call but the two that work on the revision stack. */
  method PerformPlain(db: PikaStateDB, c: R.Call) returns (r: Response)
    requires db.Valid() && Digested(c, db.keccak) && !c.Snapshot? && !c.RevertToSnapshot?
    modifies db.Footprint()
    ensures db.Valid() && db.Model() == R.Advance(old(db.Model()), c) && r == Respond(old(db.Model()), c)
    ensures forall b :: b in db.accounts ==> db.accounts[b] in old(db.accounts.Values) || fresh(db.accounts[b])
  {
    hide PikaStateDB.Model, PikaStateDB.Sound, Steady, R.AdvanceAccount, R.AdvanceAccess, Answer, Db.Load;
    if R.AccountCall(c) {
      r := PerformAccount(db, c);
      return;
    }
    r := Done;
    if R.AccessCall(c) {
      PerformAccess(db, c);
    } else if c.Ask? {
      r := Query(db, c.query);
    } else {
      PerformOther(db, c);
    }
  }

  lemma ValidOrdered(db: PikaStateDB)
    requires db.Valid()
    ensures db.Model().Ordered()
  {
  }

  /** Any call: the new state and the answer are those of the model. */
  method Perform(db: PikaStateDB, c: R.Call) returns (r: Response)
    requires db.Valid() && Digested(c, db.keccak)
    modifies db.Footprint()
    ensures old(db.Model()).Ordered()
    ensures db.Valid() && db.Model() == R.Step(old(db.Model()), c) && r == Respond(old(db.Model()), c)
    ensures forall b :: b in db.accounts ==> db.accounts[b] in old(db.accounts.Values) || fresh(db.accounts[b])
  {
    hide PikaStateDB.Model, PikaStateDB.Sound, Steady, R.Advance, Answer, Db.Ordered;
    ValidOrdered(db);
    if c.Snapshot? {
      var id := db.Snapshot();
      r := Number(id);
    } else if c.RevertToSnapshot? {
      var known := db.RevertToSnapshot(c.id);
      r := Flag(known);
    } else {
      r := PerformPlain(db, c);
    }
  }

  method RunProgram(db: PikaStateDB, program: Program, heard: seq<Response>, steps: nat) returns (all: seq<Response>)
    requires db.Valid() && DigestedProgram(program, db.keccak)
    modifies db.Footprint()
    ensures old(db.Model()).Ordered()
    ensures db.Valid() && (db.Model(), all) == Execute(program, old(db.Model()), heard, steps)
    ensures forall b :: b in db.accounts ==> db.accounts[b] in old(db.accounts.Values) || fresh(db.accounts[b])
    decreases steps
  {
    hide PikaStateDB.Model, PikaStateDB.Sound, Steady, Respond, R.Step, Db.Ordered, Digested;
    ValidOrdered(db);
    if steps == 0 || program(heard).None? {
      return heard;
    }
    var r := Perform(db, program(heard).value);
    all := RunProgram(db, program, heard + [r], steps - 1);
  }

  /** Start of a message: its context is set to the number of logs filed under its hash. */
  method Enter(db: PikaStateDB, hash: Hash, i: nat)
    requires db.Valid()
    modifies db
    ensures db.accounts == old(db.accounts) && db.Valid()
    ensures old(db.Model()).Ordered() && db.Model() == T.Entered(old(db.Model()), hash, i)
  {
    hide PikaStateDB.Model, PikaStateDB.Sound, Steady, Db.Ordered;
    ValidOrdered(db);
    db.SetTxContext(hash, i);
    var logs := db.GetLogs(hash);
    db.SetTxContext(hash, |logs|);
  }

  /** One transaction: a receipt in every case, the gas counter and the pool moved by what was used. */
  method ApplyTransaction(db: PikaStateDB, tx: T.Transaction, i: nat, pool: nat, used: nat)
    returns (poolLeft: nat, usedGas: nat, receipt: Receipt)
    requires db.Valid()
    requires tx.message.Some? ==> DigestedProgram(tx.message.value.program(pool), db.keccak)
    modifies db.Footprint()
    ensures old(db.Model()).Ordered() && db.Valid()
    ensures forall rs ::
      T.Tally(db.Model(), poolLeft, usedGas, rs + [receipt]) ==
          T.ApplyOne(T.Tally(old(db.Model()), pool, used, rs), tx, i)
    ensures forall b :: b in db.accounts ==> db.accounts[b] in old(db.accounts.Values) || fresh(db.accounts[b])
  {
    hide PikaStateDB.Model, PikaStateDB.Sound, Steady, Db.Ordered, Execute, T.Entered, Db.LogsOf;
    ValidOrdered(db);
    poolLeft, usedGas, receipt := pool, used, T.FailedReceipt(tx.hash, used, i);
    if tx.message.None? {
      db.SetTxContext(tx.hash, i);
      return;
    }
    var m := tx.message.value;
    Enter(db, tx.hash, i);
    var heard := RunProgram(db, m.program(pool), [], m.steps);
    match m.verdict(pool, heard) {
      case Rejected(left) =>
        poolLeft := left;
      case Applied(gas, failed) =>
        poolLeft := T.Take(pool, gas);
        usedGas := (used + gas) % TWO_64;
        var logs := db.GetLogs(tx.hash);
        receipt := Receipt(!failed, gas, usedGas, tx.hash, i, logs);
    }
  }

  /** The transaction loop. */
  method ProcessTransactions(db: PikaStateDB, txs: seq<T.Transaction>, gasLimit: nat)
    returns (pool: nat, usedGas: nat, receipts: seq<Receipt>)
    requires db.Valid() && T.DigestedBlock(txs, db.keccak)
    modifies db.Footprint()
    ensures old(db.Model()).Ordered() && db.Valid()
    ensures T.Tally(db.Model(), pool, usedGas, receipts) == T.ApplyAll(old(db.Model()), txs, gasLimit)
    ensures forall b :: b in db.accounts ==> db.accounts[b] in old(db.accounts.Values) || fresh(db.accounts[b])
  {
    hide PikaStateDB.Model, Steady, Db.Ordered, T.ApplyOne, DigestedProgram;
    pool, usedGas, receipts := gasLimit, 0, [];
    ValidOrdered(db);
    ghost var all := T.ApplyAll(db.Model(), txs, gasLimit);
    for i := 0 to |txs|
      invariant db.Valid() && db.Model().Ordered()
      invariant T.ApplyFrom(T.Tally(db.Model(), pool, usedGas, receipts), txs, i) == all
      invariant forall b :: b in db.accounts ==> db.accounts[b] in old(db.accounts.Values) || fresh(db.accounts[b])
    {
      var receipt;
      pool, usedGas, receipt := ApplyTransaction(db, txs[i], i, pool, usedGas);
      receipts := receipts + [receipt];
      ValidOrdered(db);
    }
  }
}
