/**
 What blocks leave in the store: one receipt for each transaction, with the gas and the status its
 message got, and for the next block the accounts and slots as the last transaction left them.
 */
module BlockResults {
  import opened Types
  import opened WorldState
  import opened Transactions
  import opened Commit
  import opened BlockInputs
  import opened ExecutorSteps
  import opened BlockRuns

  /** The messages of the block stay within its gas, and its gas limit is a 64-bit word. */
  ghost predicate WellFormed(b: Block) {
    AllWithinPool(b.txs) && b.gasLimit < TWO_64
  }

  /** The first i transactions of the block, over the state that s has of block n. */
  function Half(s: Store, n: nat, b: Block, i: nat): Tally
    requires i <= |b.txs|
  {
    ApplyAll(NewDb(s, n), b.txs[..i], b.gasLimit)
  }

  /** One receipt for each transaction over the state of block n, in order, with what its message got. */
  ghost predicate ReceiptsOfBlock(s: Store, n: nat, b: Block, rs: seq<Receipt>) {
    && |rs| == |b.txs|
    && forall i :: 0 <= i < |rs| ==>
      Accounted(rs, b.txs, i) && Charged(Half(s, n, b, i), Half(s, n, b, i + 1), b.txs[i], i, rs[i])
  }

  lemma OutcomeIsAll(chain: Chain, s: Store, n: nat)
    requires 0 < n < TWO_64
    ensures Outcome(chain, s, n) == ApplyAll(NewDb(s, n - 1), chain(n).txs, chain(n).gasLimit)
  {
    hide ApplyAll;
    ParentOf(n);
  }

  /** The receipts a block answers are those of its transactions, run over its parent. */
  lemma BlockReceipts(chain: Chain, s: Store, n: nat)
    requires 0 < n < TWO_64 && WellFormed(chain(n))
    ensures ReceiptsOfBlock(s, n - 1, chain(n), ProcessorOf(chain).receipts(s, n))
  {
    var b, rs := chain(n), ProcessorOf(chain).receipts(s, n);
    OutcomeIsAll(chain, s, n);
    hide ApplyAll, Accounted, Charged, AllWithinPool;
    GasAndReceipts(NewDb(s, n - 1), b.txs, b.gasLimit);
    forall i | 0 <= i < |rs|
      ensures Accounted(rs, b.txs, i) && Charged(Half(s, n - 1, b, i), Half(s, n - 1, b, i + 1), b.txs[i], i, rs[i])
    {
      VerdictsTell(NewDb(s, n - 1), b.txs, b.gasLimit, i);
    }
  }

  /******* What the next block finds *******/

  lemma FinishShows(chain: Chain, s: Store, n: nat, m: nat)
    ensures var f, c := Finish(ProcessorOf(chain), s, n), CommitStore(Outcome(chain, s, n).db);
      forall k :: k != ReceiptKey(n) && k != ExecProgressKey ==> SameAt(c, f, k)
    ensures var f, c := NewDb(Finish(ProcessorOf(chain), s, n), m), NewDb(CommitStore(Outcome(chain, s, n).db), m);
      && (forall a :: f.Account(a) == c.Account(a) && f.Code(a) == c.Code(a))
      && (forall a, k :: f.State(a, k) == c.State(a, k))
  {
    hide Outcome, CommitWrites;
    var t, u := Finish(ProcessorOf(chain), s, n), CommitStore(Outcome(chain, s, n).db);
    forall k | k != ReceiptKey(n) && k != ExecProgressKey ensures SameAt(u, t, k) {}
    SameDatabases(t, u, m);
  }

  lemma SameDatabases(t: Store, u: Store, m: nat)
    requires forall k: Key :: !k.ReceiptKey? && !k.ExecProgressKey? ==> SameAt(u, t, k)
    ensures forall a :: NewDb(t, m).Account(a) == NewDb(u, m).Account(a) && NewDb(t, m).Code(a) == NewDb(u, m).Code(a)
    ensures forall a, k :: NewDb(t, m).State(a, k) == NewDb(u, m).State(a, k)
  {
    forall a ensures NewDb(t, m).Account(a) == NewDb(u, m).Account(a) && NewDb(t, m).Code(a) == NewDb(u, m).Code(a) {
      assert SameAt(u, t, AccountKey(m, a));
      assert SameAt(u, t, CodeKey(NewDb(u, m).Account(a).codeHash));
    }
    forall a, k ensures NewDb(t, m).State(a, k) == NewDb(u, m).State(a, k) {
      assert SameAt(u, t, StorageKey(m, a, k));
    }
  }

  /**
   A database opened at block n after it is finished shows every account and slot that the block loaded or
   wrote as its last transaction left it; apart from receipts and height no other key has moved.
   */
  lemma BlockLeaves(chain: Chain, s: Store, n: nat)
    requires 0 < n < TWO_64
    ensures var last := Half(s, n - 1, chain(n), |chain(n).txs|).db;
      var f := Finish(ProcessorOf(chain), s, n);
      var d := NewDb(f, n);
      && (forall a :: a in last.accounts ==> d.Account(a) == last.Account(a) && d.Code(a) == last.Code(a))
      && (forall a, k :: Slot(a, k) in last.storages ==> d.State(a, k) == last.State(a, k))
      && (forall k :: Committed(last, k).None? && k != ReceiptKey(n) && k != ExecProgressKey ==> SameAt(s, f, k))
  {
    var last, f := Half(s, n - 1, chain(n), |chain(n).txs|).db, Finish(ProcessorOf(chain), s, n);
    assert chain(n).txs[..|chain(n).txs|] == chain(n).txs;
    OutcomeIsAll(chain, s, n);
    ParentOf(n);
    FinishShows(chain, s, n, n);
    hide ProcessorOf, ApplyAll, CommitStore, Finish, NextBlock, Committed;
    assert last == Outcome(chain, s, n).db && last.store == s && NextBlock(last.block) == n;
    CommitExactness(last, n);
    forall k | Committed(last, k).None? && k != ReceiptKey(n) && k != ExecProgressKey ensures SameAt(s, f, k) {
      assert SameAt(CommitStore(last), f, k);
    }
  }

  /******* What lies under the receipt keys *******/

  ghost predicate Produced(p: Processor, d: Datum, n: nat) {
    exists s :: d == ReceiptsDatum(p.receipts(s, n))
  }

  ghost predicate HasProduced(p: Processor, s: Store, n: nat) {
    ReceiptKey(n) in s && Produced(p, s[ReceiptKey(n)], n)
  }

  /** Every recorded block has receipts that it answered over some store. */
  ghost predicate Answered(p: Processor, start: Store, s: State) {
    && (forall n :: Height(start) < n <= Height(s.store) ==> HasProduced(p, s.store, n))
    && (s.phase.StateWritten? ==> Produced(p, ReceiptsDatum(s.phase.rs), s.phase.next))
    && (s.phase.ReceiptsWritten? ==> HasProduced(p, s.store, s.phase.next))
  }

  lemma CommitAnswered(p: Processor, start: Store, s: State, t: State)
    requires AllScoped(p) && Recorded(start, s) && Answered(p, start, s) && CommitStep(p, s, t) && s.seen < LAST
    ensures Answered(p, start, t)
  {
    var n, w := s.phase.next, p.writes(s.store, s.phase.next);
    assert Scoped(p, s.store, n) && !KeyOfBlock(ExecProgressKey, n);
    assert Partly(s.store, t.store, w);
    assert Height(t.store) == Height(s.store);
    forall m | Height(start) < m <= Height(t.store) ensures HasProduced(p, t.store, m) {
      assert HasProduced(p, s.store, m) && !KeyOfBlock(ReceiptKey(m), n);
    }
  }

  lemma RestAnswered(p: Processor, start: Store, batch: nat, s: State, t: State)
    requires AllScoped(p) && Recorded(start, s) && Answered(p, start, s) && s.seen < LAST
    requires SyncStep(s, t) || TickStep(batch, s, t) || CrashStep(s, t) || ReceiptStep(s, t) || ProgressStep(s, t)
    ensures Answered(p, start, t)
  {
    hide Produced;
    forall n | Height(start) < n <= Height(t.store) ensures HasProduced(p, t.store, n) {
      assert n <= Height(s.store) ==> HasProduced(p, s.store, n);
    }
  }

  lemma {:induction false} RunAnswered(p: Processor, start: Store, batch: nat, ss: seq<State>, i: nat)
    requires AllScoped(p) && IsRun(p, batch, ss) && Fresh(start, ss[0]) && i < |ss| && ss[i].seen < LAST
    ensures Answered(p, start, ss[i])
    decreases i
  {
    if i > 0 {
      var s, t := ss[i - 1], ss[i];
      assert Next(p, batch, s, ss[i - 1 + 1]);
      SeenGrows(p, batch, s, t);
      RunAnswered(p, start, batch, ss, i - 1);
      RunRecorded(p, start, batch, ss, i - 1);
      hide Answered, Recorded, AllScoped, CommitStep, SyncStep, TickStep, CrashStep, ReceiptStep, ProgressStep;
      if CommitStep(p, s, t) { CommitAnswered(p, start, s, t); } else { RestAnswered(p, start, batch, s, t); }
    }
  }

  /**
   In every run of the service, whatever crashed and whatever it started from, under the receipt key of
   every recorded block lie the receipts of all its transactions, run over the state of some store.
   */
  lemma StoredReceipts(chain: Chain, start: Store, batch: nat, ss: seq<State>, i: nat, n: nat) returns (s: Store)
    requires IsRun(ProcessorOf(chain), batch, ss) && Fresh(start, ss[0]) && i < |ss| && ss[i].seen < LAST
    requires Height(start) < n <= Height(ss[i].store) && WellFormed(chain(n))
    ensures ReceiptKey(n) in ss[i].store && ss[i].store[ReceiptKey(n)].ReceiptsDatum?
    ensures ReceiptsOfBlock(s, n - 1, chain(n), ss[i].store[ReceiptKey(n)].receipts)
  {
    var p := ProcessorOf(chain);
    ProcessorOfReliable(chain);
    RunAnswered(p, start, batch, ss, i);
    RunRecorded(p, start, batch, ss, i);
    assert HasProduced(p, ss[i].store, n) && n < TWO_64;
    s :| ss[i].store[ReceiptKey(n)] == ReceiptsDatum(p.receipts(s, n));
    hide ProcessorOf, ReceiptsOfBlock, WellFormed;
    BlockReceipts(chain, s, n);
  }

  /** And where the crash theorem applies, that store is the one of the uninterrupted run. */
  lemma StoredReceiptsExactly(chain: Chain, start: Store, batch: nat, ss: seq<State>, i: nat, n: nat)
    requires Runnable(ProcessorOf(chain), start) && IsRun(ProcessorOf(chain), batch, ss) && Fresh(start, ss[0])
    requires i < |ss| && ss[i].seen < LAST && FirstInputsKept(start, ss, i)
    requires Height(start) < n <= Height(ss[i].store) && WellFormed(chain(n))
    ensures ReceiptKey(n) in ss[i].store && ss[i].store[ReceiptKey(n)].ReceiptsDatum?
    ensures ReceiptsOfBlock(Ideal(ProcessorOf(chain), start, n - 1), n - 1, chain(n),
        ss[i].store[ReceiptKey(n)].receipts)
  {
    var p := ProcessorOf(chain);
    RunRecorded(p, start, batch, ss, i);
    assert n < TWO_64;
    hide ProcessorOf, ReceiptsOfBlock, WellFormed, Runnable, FirstInputsKept, IsRun, Fresh, Ideal, Recorded;
    RecordedReceipts(p, start, batch, ss, i, n);
    BlockReceipts(chain, Ideal(p, start, n - 1), n);
  }
}
