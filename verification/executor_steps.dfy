/**
 The block loop as a step system. A tick reads the recorded height and works through the next
 blocks; each block is committed, its receipts are stored, the height is recorded. Any write may
 fail, a commit after any part of it, and the process may die between any two steps; what it knew
 is lost and the next tick starts from the recorded height.
 */
module ExecutorSteps {
  import opened Types
  import opened BlockInputs

  /** What running block n over a store leads to: the state to commit, and the receipts. */
  datatype Processor = Processor(writes: (Store, nat) -> Store, receipts: (Store, nat) -> seq<Receipt>)

  function Height(store: Store): nat {
    if ExecProgressKey in store && store[ExecProgressKey].HeightDatum? then store[ExecProgressKey].height else 0
  }

  function WithReceipts(store: Store, n: nat, rs: seq<Receipt>): Store {
    store[ReceiptKey(n) := ReceiptsDatum(rs)]
  }

  function WithHeight(store: Store, n: nat): Store {
    store[ExecProgressKey := HeightDatum(n)]
  }

  /** Everything processing block n writes, apart from the height. */
  function BlockWrites(p: Processor, store: Store, n: nat): Store {
    WithReceipts(p.writes(store, n), n, p.receipts(store, n))
  }

  /** The store after block n has been processed without interruption. */
  function Finish(p: Processor, store: Store, n: nat): Store {
    WithHeight(WithReceipts(store + p.writes(store, n), n, p.receipts(store, n)), n)
  }

  /** The store of an uninterrupted run from start, at height h. */
  function Ideal(p: Processor, start: Store, h: nat): Store
    decreases h
  {
    if h <= Height(start) then start else Finish(p, Ideal(p, start, h - 1), h)
  }

  /******* Steps *******/

  datatype Phase =
    | Idle
    | Executing(next: nat, end: nat)
    | StateWritten(next: nat, end: nat, rs: seq<Receipt>)
    | ReceiptsWritten(next: nat, end: nat)

  /** seen is the greatest sync height that was ever set. */
  datatype State = State(store: Store, sync: nat, seen: nat, phase: Phase)

  /** The greatest block number there is. */
  const LAST: nat := TWO_64 - 1

  function EndBlock(h: nat, batch: nat, sync: nat): nat {
    var end := (h + batch) % TWO_64;
    if end > sync then sync else end
  }

  /** The loop counter goes up as a 64-bit word and is compared with the end of the batch. */
  function After(n: nat, end: nat): Phase {
    if NextBlock(n) <= end then Executing(NextBlock(n), end) else Idle
  }

  predicate SyncStep(s: State, t: State) {
    t.sync < TWO_64 && t == s.(sync := t.sync, seen := if t.sync > s.seen then t.sync else s.seen)
  }

  predicate TickStep(batch: nat, s: State, t: State) {
    var h := Height(s.store);
    s.phase.Idle? && s.sync > h && t == s.(phase := After(h, EndBlock(h, batch, s.sync)))
  }

  ghost predicate CommitStep(p: Processor, s: State, t: State) {
    s.phase.Executing? &&
    var w := p.writes(s.store, s.phase.next);
    || t == s.(store := s.store + w,
        phase := StateWritten(s.phase.next, s.phase.end, p.receipts(s.store, s.phase.next)))
    || (t == s.(store := t.store, phase := Idle) && Partly(s.store, t.store, w))
  }

  predicate ReceiptStep(s: State, t: State) {
    s.phase.StateWritten? &&
    var after := WithReceipts(s.store, s.phase.next, s.phase.rs);
    || t == s.(store := after, phase := ReceiptsWritten(s.phase.next, s.phase.end))
    || t == s.(store := after, phase := Idle)
  }

  predicate ProgressStep(s: State, t: State) {
    s.phase.ReceiptsWritten? &&
    var after := WithHeight(s.store, s.phase.next);
    || t == s.(store := after, phase := After(s.phase.next, s.phase.end))
    || t == s.(store := after, phase := Idle)
  }

  /** The process dies, gives up on an error, or a write fails without reaching the store. */
  predicate CrashStep(s: State, t: State) {
    t == s.(phase := Idle)
  }

  ghost predicate Next(p: Processor, batch: nat, s: State, t: State) {
    || SyncStep(s, t) || TickStep(batch, s, t) || CommitStep(p, s, t) || ReceiptStep(s, t)
    || ProgressStep(s, t) || CrashStep(s, t)
  }

  ghost predicate IsRun(p: Processor, batch: nat, ss: seq<State>) {
    ss != [] && forall i :: 0 <= i < |ss| - 1 ==> Next(p, batch, ss[i], ss[i + 1])
  }

  /** A fresh process. */
  predicate Fresh(start: Store, s: State) {
    s.store == start && s.phase.Idle? && s.sync == s.seen < TWO_64
  }

  lemma SeenGrows(p: Processor, batch: nat, s: State, t: State)
    requires Next(p, batch, s, t)
    ensures s.seen <= t.seen
  {
  }

  /******* What is assumed of processing a block *******/

  /** Block n writes its own state keys, the latest alias and code. */
  predicate KeyOfBlock(k: Key, n: nat) {
    match k
    case AccountKey(m, _) => m == n || m == 0
    case StorageKey(m, _, _) => m == n || m == 0
    case CodeKey(_) => true
    case _ => false
  }

  ghost predicate Scoped(p: Processor, s: Store, n: nat) {
    n < TWO_64 ==> forall k :: k in p.writes(s, n) ==> KeyOfBlock(k, n)
  }

  ghost predicate AllScoped(p: Processor) {
    forall s, n :: Scoped(p, s, n)
  }

  /** A run depends on the inputs of its parent, and on nothing else. */
  ghost predicate Determined(p: Processor, s: Store, t: Store, n: nat) {
    0 < n < TWO_64 && Readable(s, n - 1) && SameInputs(s, t, n - 1) ==>
      p.writes(t, n) == p.writes(s, n) && p.receipts(t, n) == p.receipts(s, n)
  }

  ghost predicate KeepsReadable(p: Processor, s: Store, n: nat) {
    0 < n < TWO_64 && Readable(s, n - 1) && NothingAbove(s, n - 1) ==> Readable(s + p.writes(s, n), n)
  }

  ghost predicate Reliable(p: Processor) {
    && AllScoped(p)
    && (forall s, n :: KeepsReadable(p, s, n))
    && (forall s, t, n :: Determined(p, s, t, n))
  }

  /** Code a block writes is the stored code wherever there is any. */
  ghost predicate CodeStays(p: Processor, s: Store, n: nat) {
    var w := p.writes(s, n);
    forall h :: h != ZERO_HASH && HasCode(s, h) && CodeKey(h) in w ==> w[CodeKey(h)] == s[CodeKey(h)]
  }

  /******* Any run at all: what a recorded height means *******/

  predicate HasReceipts(s: Store, n: nat) {
    ReceiptKey(n) in s && s[ReceiptKey(n)].ReceiptsDatum?
  }

  /** Heights and receipts, whatever the blocks do and wherever the process died. */
  predicate Recorded(start: Store, s: State) {
    var h := Height(s.store);
    && Height(start) <= h && (h > Height(start) ==> h <= s.seen) && s.sync <= s.seen
    && (forall n :: Height(start) < n <= h ==> HasReceipts(s.store, n))
    && match s.phase
       case Idle => true
       case Executing(n, end) => n == h + 1 <= end <= s.seen
       case StateWritten(n, end, _) => n == h + 1 <= end <= s.seen
       case ReceiptsWritten(n, end) => n == h + 1 <= end <= s.seen && HasReceipts(s.store, n)
  }

  lemma ScopedWritesKeep(w: Store, s: Store, t: Store, n: nat)
    requires Partly(s, t, w) && forall k :: k in w ==> KeyOfBlock(k, n)
    ensures Height(t) == Height(s) && forall m :: HasReceipts(s, m) ==> HasReceipts(t, m)
  {
    assert !KeyOfBlock(ExecProgressKey, n);
    forall m | HasReceipts(s, m) ensures HasReceipts(t, m) { assert !KeyOfBlock(ReceiptKey(m), n); }
  }

  lemma AllIsPart(s: Store, w: Store)
    ensures Partly(s, s + w, w)
  {
  }

  lemma CommitRecorded(p: Processor, start: Store, s: State, t: State)
    requires AllScoped(p) && Recorded(start, s) && CommitStep(p, s, t) && s.seen < LAST
    ensures Recorded(start, t) && Height(t.store) == Height(s.store)
  {
    var n := s.phase.next;
    assert Scoped(p, s.store, n);
    AllIsPart(s.store, p.writes(s.store, n));
    ScopedWritesKeep(p.writes(s.store, n), s.store, t.store, n);
  }

  lemma ProgressRecorded(start: Store, s: State, t: State)
    requires Recorded(start, s) && ProgressStep(s, t) && s.seen < LAST
    ensures Recorded(start, t) && Height(t.store) == Height(s.store) + 1
  {
    forall n | Height(start) < n <= Height(t.store) ensures HasReceipts(t.store, n) {
      assert HasReceipts(s.store, n);
    }
  }

  lemma NextRecorded(p: Processor, start: Store, batch: nat, s: State, t: State)
    requires AllScoped(p) && Recorded(start, s) && Next(p, batch, s, t) && t.seen < LAST
    ensures Recorded(start, t)
    ensures if ProgressStep(s, t) then Height(t.store) == Height(s.store) + 1 else Height(t.store) == Height(s.store)
  {
    SeenGrows(p, batch, s, t);
    if ProgressStep(s, t) {
      ProgressRecorded(start, s, t);
    } else if CommitStep(p, s, t) {
      CommitRecorded(p, start, s, t);
    } else if ReceiptStep(s, t) {
      forall n | HasReceipts(s.store, n) ensures HasReceipts(t.store, n) {}
    }
  }

  lemma {:induction false} RunRecorded(p: Processor, start: Store, batch: nat, ss: seq<State>, i: nat)
    requires AllScoped(p) && IsRun(p, batch, ss) && Fresh(start, ss[0]) && i < |ss| && ss[i].seen < LAST
    ensures Recorded(start, ss[i])
    decreases i
  {
    hide Recorded, Next;
    if i == 0 {
      FreshRecorded(start, ss[0]);
    } else {
      assert Next(p, batch, ss[i - 1], ss[i - 1 + 1]);
      SeenGrows(p, batch, ss[i - 1], ss[i]);
      RunRecorded(p, start, batch, ss, i - 1);
      NextRecorded(p, start, batch, ss[i - 1], ss[i]);
    }
  }

  lemma FreshRecorded(start: Store, s: State)
    requires Fresh(start, s)
    ensures Recorded(start, s)
  {
  }

  /**
   In every run from any store, with crashes anywhere, block 1 included: the recorded height never
   goes below the start, never exceeds a sync height already seen, moves by one at a time, and
   every block up to it has its receipts stored.
   */
  lemma RecordedHeight(p: Processor, start: Store, batch: nat, ss: seq<State>, i: nat)
    requires AllScoped(p) && IsRun(p, batch, ss) && Fresh(start, ss[0]) && i < |ss| && ss[i].seen < LAST
    ensures var h := Height(ss[i].store);
      && Height(start) <= h && (h > Height(start) ==> h <= ss[i].seen)
      && (forall n :: Height(start) < n <= h ==> HasReceipts(ss[i].store, n))
    ensures i > 0 ==> Height(ss[i - 1].store) <= Height(ss[i].store) <= Height(ss[i - 1].store) + 1
  {
    RunRecorded(p, start, batch, ss, i);
    if i > 0 {
      assert Next(p, batch, ss[i - 1], ss[i - 1 + 1]);
      SeenGrows(p, batch, ss[i - 1], ss[i]);
      RunRecorded(p, start, batch, ss, i - 1);
      NextRecorded(p, start, batch, ss[i - 1], ss[i]);
    }
  }

  /******* Any run at all: in which order a block is written *******/

  /** At r the store is that at c with the whole commit of block n, computed there, and nothing else. */
  predicate CommittedWhole(p: Processor, ss: seq<State>, c: nat, r: nat, n: nat) {
    c < r < |ss| && ss[c].phase.Executing? && ss[c].phase.next == n &&
        ss[r].store == ss[c].store + p.writes(ss[c].store, n)
  }

  /** At j the receipts computed at c have been added to the store at r, and nothing else. */
  predicate ReceiptsAfter(p: Processor, ss: seq<State>, c: nat, r: nat, j: nat, n: nat) {
    CommittedWhole(p, ss, c, r, n) && r < j < |ss| &&
    ss[j].store == WithReceipts(ss[r].store, n, p.receipts(ss[c].store, n))
  }

  ghost predicate History(p: Processor, ss: seq<State>, i: nat)
    requires i < |ss|
  {
    match ss[i].phase
    case StateWritten(n, _, rs) =>
      exists c: nat :: CommittedWhole(p, ss, c, i, n) && rs == p.receipts(ss[c].store, n)
    case ReceiptsWritten(n, _) => exists c: nat, r: nat :: ReceiptsAfter(p, ss, c, r, i, n)
    case _ => true
  }

  lemma NextHistory(p: Processor, batch: nat, ss: seq<State>, i: nat)
    requires 0 < i < |ss| && History(p, ss, i - 1) && Next(p, batch, ss[i - 1], ss[i])
    ensures History(p, ss, i)
  {
    var s, t := ss[i - 1], ss[i];
    if t.phase.StateWritten? {
      if CommitStep(p, s, t) {
        assert CommittedWhole(p, ss, i - 1, i, t.phase.next);
      } else {
        var c: nat :| CommittedWhole(p, ss, c, i - 1, t.phase.next) &&
            t.phase.rs == p.receipts(ss[c].store, t.phase.next);
        assert CommittedWhole(p, ss, c, i, t.phase.next);
      }
    } else if t.phase.ReceiptsWritten? {
      var n := t.phase.next;
      if ReceiptStep(s, t) {
        var c: nat :| CommittedWhole(p, ss, c, i - 1, n) && s.phase.rs == p.receipts(ss[c].store, n);
        assert ReceiptsAfter(p, ss, c, i - 1, i, n);
      } else {
        var c: nat, r: nat :| ReceiptsAfter(p, ss, c, r, i - 1, n);
        assert ReceiptsAfter(p, ss, c, r, i, n);
      }
    }
  }

  lemma {:induction false} RunHistory(p: Processor, batch: nat, ss: seq<State>, i: nat)
    requires IsRun(p, batch, ss) && ss[0].phase.Idle? && i < |ss|
    ensures History(p, ss, i)
    decreases i
  {
    hide Next;
    if i > 0 {
      RunHistory(p, batch, ss, i - 1);
      assert Next(p, batch, ss[i - 1], ss[i - 1 + 1]);
      hide History;
      NextHistory(p, batch, ss, i);
    }
  }

  /** Step j records block n: its commit was whole at r, its receipts followed, and then its height. */
  predicate RecordsAt(p: Processor, ss: seq<State>, c: nat, r: nat, j: nat, n: nat) {
    ReceiptsAfter(p, ss, c, r, j, n) && j + 1 < |ss| && ss[j + 1].store == WithHeight(ss[j].store, n)
  }

  ghost predicate WasRecorded(p: Processor, ss: seq<State>, i: nat, n: nat) {
    exists c: nat, r: nat, j: nat :: j < i && RecordsAt(p, ss, c, r, j, n)
  }

  lemma StepRecords(p: Processor, batch: nat, ss: seq<State>, j: nat)
    requires IsRun(p, batch, ss) && ss[0].phase.Idle? && j + 1 < |ss| && ProgressStep(ss[j], ss[j + 1])
    ensures WasRecorded(p, ss, j + 1, ss[j].phase.next)
  {
    var n := ss[j].phase.next;
    RunHistory(p, batch, ss, j);
    var c: nat, r: nat :| ReceiptsAfter(p, ss, c, r, j, n);
    assert RecordsAt(p, ss, c, r, j, n);
  }

  /**
   Every block up to the recorded height was written in order: all of its state, then its receipts,
   then its height, each computed from one store, however often it was tried before.
   */
  lemma {:induction false} RecordedBlocks(p: Processor, start: Store, batch: nat, ss: seq<State>, i: nat, n: nat)
    requires AllScoped(p) && IsRun(p, batch, ss) && Fresh(start, ss[0]) && i < |ss| && ss[i].seen < LAST
    requires Height(start) < n <= Height(ss[i].store)
    ensures WasRecorded(p, ss, i, n)
    decreases i
  {
    hide WasRecorded, Recorded;
    if i > 0 {
      var s, t := ss[i - 1], ss[i];
      assert Next(p, batch, s, ss[i - 1 + 1]);
      SeenGrows(p, batch, s, t);
      RunRecorded(p, start, batch, ss, i - 1);
      NextRecorded(p, start, batch, s, t);
      if n <= Height(s.store) {
        RecordedBlocks(p, start, batch, ss, i - 1, n);
        StillRecorded(p, ss, i, n);
      } else {
        StepRecords(p, batch, ss, i - 1);
        NextInLine(start, s);
      }
    }
  }

  lemma StillRecorded(p: Processor, ss: seq<State>, i: nat, n: nat)
    requires i > 0 && WasRecorded(p, ss, i - 1, n)
    ensures WasRecorded(p, ss, i, n)
  {
    var c: nat, r: nat, j: nat :| j < i - 1 && RecordsAt(p, ss, c, r, j, n);
    assert j < i && RecordsAt(p, ss, c, r, j, n);
  }

  lemma NextInLine(start: Store, s: State)
    requires Recorded(start, s) && s.phase.ReceiptsWritten?
    ensures s.phase.next == Height(s.store) + 1
  {
  }

  /******* The last block number *******/

  predicate InBatch(s: State, end: nat) {
    !s.phase.Idle? && s.phase.end == end
  }

  /** A step that is no failure: the process goes on with what it was about to do. */
  ghost predicate GoesOn(p: Processor, s: State, t: State) {
    || SyncStep(s, t)
    || (CommitStep(p, s, t) && t.phase.StateWritten?)
    || (ReceiptStep(s, t) && t.phase.ReceiptsWritten?)
    || (ProgressStep(s, t) && t.phase == After(s.phase.next, s.phase.end))
  }

  /** No run leaves a batch that ends at the last block number other than by a failure. */
  lemma {:induction false} LastBatchNeverEnds(p: Processor, ss: seq<State>, i: nat, j: nat)
    requires i <= j < |ss| && InBatch(ss[i], LAST) && forall m :: i <= m < j ==> GoesOn(p, ss[m], ss[m + 1])
    ensures InBatch(ss[j], LAST)
    decreases j
  {
    if i < j {
      LastBatchNeverEnds(p, ss, i, j - 1);
      assert GoesOn(p, ss[j - 1], ss[j - 1 + 1]);
    }
  }

  function Overrun(p: Processor, start: Store): (ss: seq<State>)
    ensures |ss| == 8
  {
    var s2 := start + p.writes(start, LAST);
    var s3 := WithReceipts(s2, LAST, p.receipts(start, LAST));
    var s4 := WithHeight(s3, LAST);
    var s5 := s4 + p.writes(s4, 0);
    var s6 := WithReceipts(s5, 0, p.receipts(s4, 0));
    [State(start, LAST, LAST, Idle),
     State(start, LAST, LAST, Executing(LAST, LAST)),
     State(s2, LAST, LAST, StateWritten(LAST, LAST, p.receipts(start, LAST))),
     State(s3, LAST, LAST, ReceiptsWritten(LAST, LAST)),
     State(s4, LAST, LAST, Executing(0, LAST)),
     State(s5, LAST, LAST, StateWritten(0, LAST, p.receipts(s4, 0))),
     State(s6, LAST, LAST, ReceiptsWritten(0, LAST)),
     State(WithHeight(s6, 0), LAST, LAST, Executing(1, LAST))]
  }

  /** At the last block number the counter wraps: block 0 follows, and the recorded height drops to 0. */
  lemma OverrunFallsBack(p: Processor, start: Store)
    requires Height(start) == LAST - 1
    ensures var ss := Overrun(p, start);
      IsRun(p, 1, ss) && Fresh(start, ss[0]) && Height(ss[4].store) == LAST && Height(ss[7].store) == 0
  {
    var ss := Overrun(p, start);
    assert TickStep(1, ss[0], ss[1]);
    assert CommitStep(p, ss[1], ss[2]);
    assert ReceiptStep(ss[2], ss[3]);
    assert ProgressStep(ss[3], ss[4]);
    assert CommitStep(p, ss[4], ss[5]);
    assert ReceiptStep(ss[5], ss[6]);
    assert ProgressStep(ss[6], ss[7]);
    hide TickStep, CommitStep, ReceiptStep, ProgressStep;
    forall i | 0 <= i < |ss| - 1 ensures Next(p, 1, ss[i], ss[i + 1]) {
      assert i == 0 || i == 1 || i == 2 || i == 3 || i == 4 || i == 5 || i == 6;
    }
  }

  /** While no sync height above bound has been seen, the recorded height never goes below its start. */
  ghost predicate NeverFalls(bound: nat) {
    forall p, start, batch: nat, ss: seq<State>, i: nat ::
      AllScoped(p) && IsRun(p, batch, ss) && Fresh(start, ss[0]) && i < |ss| && ss[i].seen <= bound ==>
        Height(start) <= Height(ss[i].store)
  }

  const NO_WRITES := Processor((s: Store, n: nat) => map[], (s: Store, n: nat) => [])

  /** Exactly the sync height 2^64 - 1 breaks the recorded height. */
  lemma NeverFallsExactly(bound: nat)
    ensures NeverFalls(bound) <==> bound < LAST
  {
    if bound < LAST {
      forall p, start, batch: nat, ss: seq<State>, i: nat |
        AllScoped(p) && IsRun(p, batch, ss) && Fresh(start, ss[0]) && i < |ss| && ss[i].seen <= bound
        ensures Height(start) <= Height(ss[i].store)
      {
        RecordedHeight(p, start, batch, ss, i);
      }
    } else {
      var start: Store := map[ExecProgressKey := HeightDatum(LAST - 1)];
      OverrunFallsBack(NO_WRITES, start);
      var ss := Overrun(NO_WRITES, start);
      assert ss[7].seen <= bound && AllScoped(NO_WRITES);
      hide IsRun, Overrun, AllScoped;
      assert !(Height(start) <= Height(ss[7].store));
    }
  }

  /******* The uninterrupted run *******/

  /** A store finished at height h: nothing lies above it and its accounts refer to stored code. */
  ghost predicate Settled(store: Store, h: nat) {
    Height(store) == h && NothingAbove(store, h) && Readable(store, h)
  }

  lemma FinishSettled(p: Processor, store: Store, n: nat)
    requires 0 < n < TWO_64 && Settled(store, n - 1) && Reliable(p)
    ensures Settled(Finish(p, store, n), n)
  {
    assert Scoped(p, store, n) && KeepsReadable(p, store, n);
    var s, f := store + p.writes(store, n), Finish(p, store, n);
    forall a ensures RecordReadable(f, n, a) {
      assert RecordReadable(s, n, a);
    }
    forall m, a | m > n ensures AccountKey(m, a) !in f { assert !KeyOfBlock(AccountKey(m, a), n); }
    forall m, a, k | m > n ensures StorageKey(m, a, k) !in f { assert !KeyOfBlock(StorageKey(m, a, k), n); }
  }

  lemma {:induction false} IdealSettled(p: Processor, start: Store, h: nat)
    requires Settled(start, Height(start)) && Height(start) <= h < TWO_64 && Reliable(p)
    ensures Settled(Ideal(p, start, h), h)
    decreases h
  {
    if h > Height(start) {
      IdealSettled(p, start, h - 1);
      FinishSettled(p, Ideal(p, start, h - 1), h);
    }
  }

  /******* A half-finished block *******/

  lemma FinishIsWrites(p: Processor, base: Store, n: nat)
    ensures Finish(p, base, n) == WithHeight(base + BlockWrites(p, base, n), n)
  {
    var w, r := p.writes(base, n), ReceiptsDatum(p.receipts(base, n));
    assert base + w[ReceiptKey(n) := r] == (base + w)[ReceiptKey(n) := r];
  }

  /** The half-finished block n leaves alone what its replay reads, unless its parent is the latest alias. */
  lemma HalfDoneSameInputs(p: Processor, base: Store, s: Store, n: nat)
    requires 2 <= n < TWO_64 && Reliable(p) && CodeStays(p, base, n) && Partly(base, s, BlockWrites(p, base, n))
    ensures SameInputs(base, s, n - 1)
  {
    assert Scoped(p, base, n);
    var m := n - 1;
    forall a ensures SameAt(base, s, AccountKey(m, a)) { assert !KeyOfBlock(AccountKey(m, a), n); }
    forall a, k ensures SameAt(base, s, StorageKey(m, a, k)) { assert !KeyOfBlock(StorageKey(m, a, k), n); }
  }

  /** Replaying a half-finished block gives the same writes and receipts. */
  lemma ReplaySameWrites(p: Processor, base: Store, s: Store, n: nat)
    requires 2 <= n < TWO_64 && Reliable(p) && Settled(base, n - 1) && CodeStays(p, base, n)
    requires Partly(base, s, BlockWrites(p, base, n))
    ensures p.writes(s, n) == p.writes(base, n) && p.receipts(s, n) == p.receipts(base, n)
  {
    HalfDoneSameInputs(p, base, s, n);
    assert Determined(p, base, s, n);
  }

  /******* Reachable states *******/

  ghost predicate HasAll(s: Store, w: Store) {
    forall k :: k in w ==> k in s && s[k] == w[k]
  }

  /**
   The store is base, the finished store at height h, with part of the next block on top; the phase
   says which part. While block 1 executes, what it reads is as it was.
   */
  ghost predicate Between(p: Processor, base: Store, h: nat, s: State) {
    && Height(s.store) == h
    && (if h < s.seen then Partly(base, s.store, BlockWrites(p, base, h + 1)) else s.store == base)
    && match s.phase
       case Idle => true
       case Executing(n, end) => n == h + 1 <= end <= s.seen && (h == 0 ==> SameInputs(base, s.store, 0))
       case StateWritten(n, end, rs) =>
         n == h + 1 <= end <= s.seen && rs == p.receipts(base, n) && HasAll(s.store, p.writes(base, n))
       case ReceiptsWritten(n, end) =>
         n == h + 1 <= end <= s.seen && HasAll(s.store, BlockWrites(p, base, n))
  }

  ghost predicate Consistent(p: Processor, start: Store, s: State) {
    var h := Height(s.store);
    && h >= Height(start) && (h > Height(start) ==> h <= s.seen) && s.sync <= s.seen
    && Between(p, Ideal(p, start, h), h, s)
  }

  lemma PartlyAndAll(base: Store, s: Store, w: Store)
    requires Partly(base, s, w) && HasAll(s, w)
    ensures s == base + w
  {
    assert s.Keys == (base + w).Keys;
  }

  /** A commit, whole or in part, puts values of the block and leaves the height alone. */
  lemma CommitPuts(p: Processor, base: Store, s: Store, t: Store, n: nat)
    requires n < TWO_64 && Scoped(p, base, n) && Partly(base, s, BlockWrites(p, base, n)) &&
        Partly(s, t, p.writes(base, n))
    ensures Partly(base, t, BlockWrites(p, base, n)) && Height(t) == Height(s)
  {
    assert !KeyOfBlock(ExecProgressKey, n) && !KeyOfBlock(ReceiptKey(n), n);
  }

  /** Block 1 commits over inputs that were left alone, later blocks over inputs that every crash leaves alone. */
  lemma CommitStepBetween(p: Processor, base: Store, h: nat, s: State, t: State)
    requires Reliable(p) && Settled(base, h) && (h >= 1 ==> CodeStays(p, base, h + 1)) && s.seen < LAST
    requires Between(p, base, h, s) && CommitStep(p, s, t)
    ensures Between(p, base, h, t)
  {
    if h >= 1 {
      ReplaySameWrites(p, base, s.store, h + 1);
    } else {
      assert Determined(p, base, s.store, 1);
    }
    assert Scoped(p, base, h + 1);
    CommitPuts(p, base, s.store, t.store, h + 1);
  }

  lemma ReceiptStepBetween(p: Processor, base: Store, h: nat, s: State, t: State)
    requires Between(p, base, h, s) && ReceiptStep(s, t)
    ensures Between(p, base, h, t)
  {
    var w := BlockWrites(p, base, h + 1);
    assert t.store == s.store[ReceiptKey(h + 1) := w[ReceiptKey(h + 1)]];
  }

  lemma AfterBlock(n: nat, end: nat)
    requires n <= end < LAST
    ensures After(n, end).Idle? || (n + 1 <= end && After(n, end) == Executing(n + 1, end))
  {
  }

  /** All of the block is there when its height is recorded. */
  lemma ProgressStepStore(p: Processor, base: Store, h: nat, s: State, t: State)
    requires Between(p, base, h, s) && ProgressStep(s, t) && s.seen < LAST
    ensures t.store == WithHeight(base + BlockWrites(p, base, h + 1), h + 1) && Height(t.store) == h + 1 <= t.seen
  {
    hide Partly, HasAll, BlockWrites;
    PartlyAndAll(base, s.store, BlockWrites(p, base, h + 1));
  }

  lemma ProgressStepPhase(p: Processor, base: Store, h: nat, s: State, t: State)
    requires Between(p, base, h, s) && ProgressStep(s, t) && s.seen < LAST
    ensures t.phase.Idle? || (t.phase.Executing? && t.phase.next == h + 2 <= t.phase.end <= t.seen)
  {
    AfterBlock(h + 1, s.phase.end);
    hide Partly, HasAll, BlockWrites, After, Height, WithHeight;
  }

  /** The step that records the height leaves exactly the uninterrupted store. */
  lemma ProgressStepFinishes(p: Processor, base: Store, h: nat, s: State, t: State)
    requires Between(p, base, h, s) && ProgressStep(s, t) && s.seen < LAST
    ensures t.store == Finish(p, base, h + 1) && Height(t.store) == h + 1 <= t.seen
    ensures t.phase.Idle? || (t.phase.Executing? && t.phase.next == h + 2 <= t.phase.end <= t.seen)
  {
    hide *;
    ProgressStepStore(p, base, h, s, t);
    ProgressStepPhase(p, base, h, s, t);
    FinishIsWrites(p, base, h + 1);
  }

  lemma ItselfIsPart(s: Store, w: Store)
    ensures Partly(s, s, w)
  {
  }

  lemma ProgressStepConsistent(p: Processor, start: Store, s: State, t: State)
    requires Consistent(p, start, s) && ProgressStep(s, t) && s.seen < LAST
    ensures Consistent(p, start, t) && t.store == Ideal(p, start, Height(t.store)) &&
        Height(t.store) == Height(s.store) + 1
  {
    var h := Height(s.store);
    ProgressStepFinishes(p, Ideal(p, start, h), h, s, t);
    ItselfIsPart(t.store, BlockWrites(p, t.store, h + 2));
  }

  /** Seeing a greater sync height, starting a batch and dying write nothing. */
  lemma QuietStepConsistent(p: Processor, start: Store, batch: nat, s: State, t: State)
    requires Consistent(p, start, s) && (SyncStep(s, t) || TickStep(batch, s, t) || CrashStep(s, t)) && s.seen < LAST
    requires s.phase.Idle? && Height(s.store) == 0 ==> SameInputs(start, s.store, 0)
    ensures Consistent(p, start, t) && t.store == s.store
  {
    var h := Height(s.store);
    ItselfIsPart(s.store, BlockWrites(p, s.store, h + 1));
  }

  /** Nothing lies above the recorded height, and blocks after the first bring no colliding code. */
  ghost predicate Runnable(p: Processor, start: Store) {
    && Settled(start, Height(start)) && Reliable(p)
    && forall h: nat :: h >= Height(start) && 1 <= h < LAST ==> CodeStays(p, Ideal(p, start, h), h + 1)
  }

  /** Before state n: whenever the process is idle with block 1 not recorded, what block 1 reads is as at the start. */
  ghost predicate FirstInputsKept(start: Store, ss: seq<State>, n: nat)
    requires n <= |ss|
  {
    forall i :: 0 <= i < n && Height(ss[i].store) == 0 && ss[i].phase.Idle? ==> SameInputs(start, ss[i].store, 0)
  }

  lemma NextConsistent(p: Processor, start: Store, batch: nat, s: State, t: State)
    requires Runnable(p, start) && Consistent(p, start, s) && Next(p, batch, s, t) && t.seen < LAST
    requires s.phase.Idle? && Height(s.store) == 0 ==> SameInputs(start, s.store, 0)
    ensures Consistent(p, start, t)
    ensures Height(t.store) == Height(s.store) ||
        (Height(t.store) == Height(s.store) + 1 && t.store == Ideal(p, start, Height(t.store)))
  {
    var h := Height(s.store);
    var base := Ideal(p, start, h);
    SeenGrows(p, batch, s, t);
    if ProgressStep(s, t) {
      ProgressStepConsistent(p, start, s, t);
    } else if CommitStep(p, s, t) {
      IdealSettled(p, start, h);
      CommitStepBetween(p, base, h, s, t);
    } else if ReceiptStep(s, t) {
      ReceiptStepBetween(p, base, h, s, t);
    } else {
      QuietStepConsistent(p, start, batch, s, t);
    }
  }

  lemma {:induction false} RunConsistent(p: Processor, start: Store, batch: nat, ss: seq<State>, i: nat)
    requires Runnable(p, start) && IsRun(p, batch, ss) && Fresh(start, ss[0])
    requires i < |ss| && ss[i].seen < LAST && FirstInputsKept(start, ss, i)
    ensures Consistent(p, start, ss[i])
    decreases i
  {
    if i == 0 {
      ItselfIsPart(start, BlockWrites(p, start, Height(start) + 1));
    } else {
      assert Next(p, batch, ss[i - 1], ss[i - 1 + 1]);
      SeenGrows(p, batch, ss[i - 1], ss[i]);
      RunConsistent(p, start, batch, ss, i - 1);
      hide Next, Runnable, Consistent;
      NextConsistent(p, start, batch, ss[i - 1], ss[i]);
    }
  }

  /******* Main results *******/

  /**
   Crash and replay: in every run, from any settled store, with failures and restarts anywhere and any
   part of a commit written each time, as long as a half-finished block 1 has not touched what it
   reads, whenever the recorded height moves, it moves by one and the whole store is that of an
   uninterrupted run to that height.
   */
  lemma CrashReplay(p: Processor, start: Store, batch: nat, ss: seq<State>, i: nat)
    requires Runnable(p, start) && IsRun(p, batch, ss) && Fresh(start, ss[0])
    requires i + 1 < |ss| && ss[i + 1].seen < LAST && FirstInputsKept(start, ss, i + 1)
    ensures var h, g := Height(ss[i].store), Height(ss[i + 1].store);
      g == h || (g == h + 1 && ss[i + 1].store == Ideal(p, start, g))
  {
    assert Next(p, batch, ss[i], ss[i + 1]);
    SeenGrows(p, batch, ss[i], ss[i + 1]);
    RunConsistent(p, start, batch, ss, i);
    hide Next, Runnable, Consistent;
    NextConsistent(p, start, batch, ss[i], ss[i + 1]);
  }

  /** Whenever the service is level with the greatest sync height it saw, the store is that of an uninterrupted run. */
  lemma LevelIsIdeal(p: Processor, start: Store, batch: nat, ss: seq<State>, i: nat)
    requires Runnable(p, start) && IsRun(p, batch, ss) && Fresh(start, ss[0])
    requires i < |ss| && ss[i].seen < LAST && FirstInputsKept(start, ss, i) && Height(ss[i].store) >= ss[i].seen
    ensures ss[i].store == Ideal(p, start, Height(ss[i].store))
  {
    RunConsistent(p, start, batch, ss, i);
    hide Runnable, IsRun, Fresh, FirstInputsKept;
  }

  lemma {:induction false} SeenOnlyGrows(p: Processor, batch: nat, ss: seq<State>, i: nat, j: nat)
    requires IsRun(p, batch, ss) && i <= j < |ss|
    ensures ss[i].seen <= ss[j].seen
    decreases j
  {
    if i < j {
      SeenOnlyGrows(p, batch, ss, i, j - 1);
      assert Next(p, batch, ss[j - 1], ss[j - 1 + 1]);
    }
  }

  /** Once block 1 is recorded no run comes back to height 0. */
  lemma LaterStartsKeepInputs(p: Processor, start: Store, batch: nat, ss: seq<State>, n: nat)
    requires AllScoped(p) && IsRun(p, batch, ss) && Fresh(start, ss[0]) && Height(start) >= 1
    requires n < |ss| && ss[n].seen < LAST
    ensures FirstInputsKept(start, ss, n)
  {
    forall i | 0 <= i < n ensures Height(ss[i].store) >= 1 {
      SeenOnlyGrows(p, batch, ss, i, n);
      RecordedHeight(p, start, batch, ss, i);
    }
  }

  /** From a store with block 1 recorded, crashes may fall anywhere. */
  lemma CrashReplayLater(p: Processor, start: Store, batch: nat, ss: seq<State>, i: nat)
    requires Runnable(p, start) && IsRun(p, batch, ss) && Fresh(start, ss[0]) && Height(start) >= 1
    requires i + 1 < |ss| && ss[i + 1].seen < LAST
    ensures var h, g := Height(ss[i].store), Height(ss[i + 1].store);
      g == h || (g == h + 1 && ss[i + 1].store == Ideal(p, start, g))
  {
    LaterStartsKeepInputs(p, start, batch, ss, i + 1);
    CrashReplay(p, start, batch, ss, i);
  }

  function ReceiptsOf(p: Processor, start: Store, n: nat): Datum
    requires n > 0
  {
    ReceiptsDatum(p.receipts(Ideal(p, start, n - 1), n))
  }

  lemma {:induction false} IdealReceipts(p: Processor, start: Store, h: nat, n: nat)
    requires AllScoped(p) && Height(start) < n <= h < TWO_64
    ensures ReceiptKey(n) in Ideal(p, start, h) && Ideal(p, start, h)[ReceiptKey(n)] == ReceiptsOf(p, start, n)
    decreases h
  {
    if n < h {
      IdealReceipts(p, start, h - 1, n);
      assert Scoped(p, Ideal(p, start, h - 1), h) && !KeyOfBlock(ReceiptKey(n), h);
    }
  }

  /** At every moment of such a run the stored receipts are those of the uninterrupted run. */
  lemma RecordedReceipts(p: Processor, start: Store, batch: nat, ss: seq<State>, i: nat, n: nat)
    requires Runnable(p, start) && IsRun(p, batch, ss) && Fresh(start, ss[0])
    requires i < |ss| && ss[i].seen < LAST && FirstInputsKept(start, ss, i) && Height(start) < n <= Height(ss[i].store)
    ensures ReceiptKey(n) in ss[i].store && ss[i].store[ReceiptKey(n)] == ReceiptsOf(p, start, n)
  {
    var h := Height(ss[i].store);
    RunConsistent(p, start, batch, ss, i);
    var base := Ideal(p, start, h);
    IdealReceipts(p, start, h, n);
    assert Scoped(p, base, h + 1) && !KeyOfBlock(ReceiptKey(n), h + 1);
  }
}
