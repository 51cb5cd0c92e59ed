/**
 Block 1 after a crash. Its parent is block 0, whose keys are the latest alias, which its own commit
 overwrites. What a half-finished block 1 left behind does no harm exactly when the latest accounts
 and slots are still those it started from.
 */
module FirstInputs {
  import opened Types
  import opened BlockInputs
  import opened ExecutorSteps

  /** The process died while block 1 was committing, or after its receipts. */
  ghost predicate CouldLeave(p: Processor, start: Store, half: Store) {
    || Partly(start, half, p.writes(start, 1))
    || half == WithReceipts(start + p.writes(start, 1), 1, p.receipts(start, 1))
  }

  ghost predicate LatestKept(start: Store, half: Store) {
    && (forall a :: SameAt(start, half, AccountKey(0, a)))
    && (forall a, k :: SameAt(start, half, StorageKey(0, a, k)))
  }

  ghost predicate CodeKept(start: Store, half: Store) {
    forall h :: h != ZERO_HASH && HasCode(start, h) ==> SameAt(start, half, CodeKey(h))
  }

  lemma KeptIsSame(start: Store, half: Store)
    ensures SameInputs(start, half, 0) <==> LatestKept(start, half) && CodeKept(start, half)
  {
  }

  /******* Finishing block 1 *******/

  lemma OntoItself(start: Store, half: Store, w: Store)
    requires Partly(start, half, w)
    ensures half + w == start + w
  {
    assert (half + w).Keys == (start + w).Keys;
  }

  lemma SameFinish(p: Processor, start: Store, half: Store)
    requires Reliable(p) && Readable(start, 0) && CouldLeave(p, start, half) && LatestKept(start, half) &&
        CodeKept(start, half)
    ensures Finish(p, half, 1) == Finish(p, start, 1)
  {
    KeptIsSame(start, half);
    assert Determined(p, start, half, 1);
    var w, rs := p.writes(start, 1), p.receipts(start, 1);
    if Partly(start, half, w) {
      OntoItself(start, half, w);
    } else {
      assert Scoped(p, start, 1) && !KeyOfBlock(ReceiptKey(1), 1);
      assert half + w == WithReceipts(start + w, 1, rs);
    }
  }

  /******* A processor that shows what it read *******/

  /** The code a store holds. */
  function CodeOf(s: Store): Store {
    map k | k in s && k.CodeKey? && k.codeHash != ZERO_HASH && s[k].CodeDatum? :: s[k]
  }

  const OTHER := Receipt(false, 0, 0, ZERO_HASH, 0, [])

  /** It writes w wherever it runs, and says in its receipts whether it saw the latest state of start. */
  ghost function Telltale(start: Store, w: Store, rs: seq<Receipt>): Processor {
    Processor((s: Store, n: nat) => if n == 1 then w + CodeOf(start) else map[],
              (s: Store, n: nat) => if n == 1 && !LatestKept(start, s) then rs + [OTHER] else rs)
  }

  lemma TelltaleReadable(start: Store, w: Store, s: Store)
    requires Readable(start + w, 1) && NothingAbove(start, 0) && NothingAbove(s, 0)
    ensures Readable(s + (w + CodeOf(start)), 1)
  {
    var t, u := start + w, s + (w + CodeOf(start));
    forall a ensures RecordReadable(u, 1, a) {
      assert RecordReadable(t, 1, a);
      if AccountKey(1, a) in w && w[AccountKey(1, a)].AccountDatum? {
        var h := w[AccountKey(1, a)].account.codeHash;
        assert h != ZERO_HASH ==> HasCode(t, h);
        assert h != ZERO_HASH && CodeKey(h) !in w ==> CodeKey(h) in CodeOf(start);
      }
    }
  }

  lemma LatestKeptBoth(start: Store, s: Store, t: Store)
    requires SameInputs(s, t, 0)
    ensures LatestKept(start, s) <==> LatestKept(start, t)
  {
    forall a ensures SameAt(start, s, AccountKey(0, a)) <==> SameAt(start, t, AccountKey(0, a)) {
      assert SameAt(s, t, AccountKey(0, a));
    }
    forall a, k ensures SameAt(start, s, StorageKey(0, a, k)) <==> SameAt(start, t, StorageKey(0, a, k)) {
      assert SameAt(s, t, StorageKey(0, a, k));
    }
  }

  lemma TelltaleReliable(start: Store, w: Store, rs: seq<Receipt>)
    requires (forall k :: k in w ==> KeyOfBlock(k, 1)) && Readable(start + w, 1) && NothingAbove(start, 0)
    ensures Reliable(Telltale(start, w, rs))
  {
    var p := Telltale(start, w, rs);
    forall s, n: nat ensures KeepsReadable(p, s, n) {
      if n == 1 && NothingAbove(s, 0) {
        TelltaleReadable(start, w, s);
      } else if n > 0 && NothingAbove(s, n - 1) {
        forall a ensures RecordReadable(s + p.writes(s, n), n, a) {}
      }
    }
    forall s, t, n: nat ensures Determined(p, s, t, n) {
      if n == 1 && SameInputs(s, t, 0) {
        LatestKeptBoth(start, s, t);
      }
    }
  }

  lemma TelltaleCouldLeave(p: Processor, start: Store, half: Store)
    requires CouldLeave(p, start, half) && CodeKept(start, half)
    ensures CouldLeave(Telltale(start, p.writes(start, 1), p.receipts(start, 1)), start, half)
  {
    var w, c := p.writes(start, 1), CodeOf(start);
    assert LatestKept(start, start);
    forall k | k in c ensures k in half && half[k] == start[k] { assert SameAt(start, half, CodeKey(k.codeHash)); }
    if Partly(start, half, w) {
      assert Partly(start, half, w + c);
    } else {
      assert ReceiptKey(1) !in c;
      assert start + (w + c) == start + w;
    }
  }

  lemma TelltaleDiffers(start: Store, w: Store, rs: seq<Receipt>, half: Store)
    requires !LatestKept(start, half)
    ensures Finish(Telltale(start, w, rs), half, 1) != Finish(Telltale(start, w, rs), start, 1)
  {
    var p := Telltale(start, w, rs);
    assert LatestKept(start, start);
    assert |p.receipts(half, 1)| != |p.receipts(start, 1)|;
    assert Finish(p, half, 1)[ReceiptKey(1)] == ReceiptsDatum(p.receipts(half, 1));
    assert Finish(p, start, 1)[ReceiptKey(1)] == ReceiptsDatum(p.receipts(start, 1));
  }

  lemma TelltaleOf(p: Processor, start: Store, half: Store) returns (q: Processor)
    requires Settled(start, 0) && Reliable(p) && CouldLeave(p, start, half) && CodeKept(start, half)
    ensures q == Telltale(start, p.writes(start, 1), p.receipts(start, 1))
    ensures Reliable(q) && CouldLeave(q, start, half)
  {
    q := Telltale(start, p.writes(start, 1), p.receipts(start, 1));
    assert Scoped(p, start, 1) && KeepsReadable(p, start, 1);
    TelltaleReliable(start, p.writes(start, 1), p.receipts(start, 1));
    TelltaleCouldLeave(p, start, half);
  }

  /**
   Over a store that some block 1 left behind, every block 1 that could have left it finishes as over
   the start, if and only if the latest accounts and slots are those of the start.
   */
  lemma FinishExactness(p: Processor, start: Store, half: Store)
    requires Settled(start, 0) && Reliable(p) && CouldLeave(p, start, half) && CodeKept(start, half)
    ensures (forall q :: Reliable(q) && CouldLeave(q, start, half) ==> Finish(q, half, 1) == Finish(q, start, 1)) <==>
      LatestKept(start, half)
  {
    hide Reliable, Finish, CouldLeave, Telltale;
    if LatestKept(start, half) {
      forall q | Reliable(q) && CouldLeave(q, start, half) ensures Finish(q, half, 1) == Finish(q, start, 1) {
        SameFinish(q, start, half);
      }
    } else {
      var q := TelltaleOf(p, start, half);
      TelltaleDiffers(start, p.writes(start, 1), p.receipts(start, 1), half);
    }
  }

  /******* Runs *******/

  /** Block 1 over half, from the tick that starts it to the height that records it. */
  ghost function Second(p: Processor, half: Store): (ss: seq<State>)
    ensures |ss| == 5
  {
    var done, rs := half + p.writes(half, 1), p.receipts(half, 1);
    [State(half, 1, 1, Idle),
     State(half, 1, 1, Executing(1, 1)),
     State(done, 1, 1, StateWritten(1, 1, rs)),
     State(WithReceipts(done, 1, rs), 1, 1, ReceiptsWritten(1, 1)),
     State(Finish(p, half, 1), 1, 1, Idle)]
  }

  /** Block 1 over start, until the process dies and leaves half behind. */
  ghost function First(p: Processor, start: Store, half: Store): seq<State> {
    var done, rs := start + p.writes(start, 1), p.receipts(start, 1);
    [State(start, 1, 1, Idle), State(start, 1, 1, Executing(1, 1))]
    + if Partly(start, half, p.writes(start, 1)) then []
      else [State(done, 1, 1, StateWritten(1, 1, rs)), State(half, 1, 1, ReceiptsWritten(1, 1))]
  }

  ghost function CrashedRun(p: Processor, start: Store, half: Store): (ss: seq<State>)
    ensures |ss| >= 7
  {
    First(p, start, half) + Second(p, half)
  }

  lemma SecondSteps(p: Processor, half: Store, i: nat)
    requires Height(half) == 0 && i < 4
    ensures Next(p, 1, Second(p, half)[i], Second(p, half)[i + 1])
  {
    var ss := Second(p, half);
    if i == 0 {
      assert TickStep(1, ss[0], ss[1]);
    } else if i == 1 {
      assert CommitStep(p, ss[1], ss[2]);
    } else if i == 2 {
      assert ReceiptStep(ss[2], ss[3]);
    } else {
      assert ProgressStep(ss[3], ss[4]);
    }
  }

  lemma FirstSteps(p: Processor, start: Store, half: Store, i: nat)
    requires Height(start) == 0 && CouldLeave(p, start, half) && i < |First(p, start, half)|
    ensures Next(p, 1, CrashedRun(p, start, half)[i], CrashedRun(p, start, half)[i + 1])
  {
    var ss := CrashedRun(p, start, half);
    if i == 0 {
      assert TickStep(1, ss[0], ss[1]);
    } else if i == 1 {
      assert CommitStep(p, ss[1], ss[2]);
    } else if i == 2 {
      assert ReceiptStep(ss[2], ss[3]);
    } else {
      assert CrashStep(ss[3], ss[4]);
    }
  }

  lemma CrashedRunIsRun(p: Processor, start: Store, half: Store)
    requires Height(start) == 0 && Height(half) == 0 && CouldLeave(p, start, half)
    ensures IsRun(p, 1, CrashedRun(p, start, half)) && Fresh(start, CrashedRun(p, start, half)[0])
  {
    var ss, n := CrashedRun(p, start, half), |First(p, start, half)|;
    forall i | 0 <= i < |ss| - 1 ensures Next(p, 1, ss[i], ss[i + 1]) {
      if i < n {
        FirstSteps(p, start, half, i);
      } else {
        SecondSteps(p, half, i - n);
        assert ss[i] == Second(p, half)[i - n] && ss[i + 1] == Second(p, half)[i + 1 - n];
      }
    }
  }

  /** The recorded height stays, or moves by one onto the store of an uninterrupted run. */
  ghost predicate Unharmed(p: Processor, start: Store, s: State, t: State) {
    var h, g := Height(s.store), Height(t.store);
    g == h || (g == h + 1 && t.store == Ideal(p, start, g))
  }

  /** Before state n: whenever the process is idle with block 1 not recorded, the store is start or half. */
  predicate LeavesOnly(start: Store, half: Store, ss: seq<State>, n: nat)
    requires n <= |ss|
  {
    forall i :: 0 <= i < n && Height(ss[i].store) == 0 && ss[i].phase.Idle? ==>
      ss[i].store == start || ss[i].store == half
  }

  /** No run in which crashes of block 1 left half behind, and nothing else, ever shows a crash. */
  ghost predicate SafeAfter(start: Store, half: Store) {
    forall p, batch: nat, ss: seq<State>, i: nat ::
      && Runnable(p, start) && CouldLeave(p, start, half) && IsRun(p, batch, ss) && Fresh(start, ss[0])
      && i + 1 < |ss| && ss[i + 1].seen < LAST && LeavesOnly(start, half, ss, i + 1) ==>
        Unharmed(p, start, ss[i], ss[i + 1])
  }

  lemma HalfHeight(p: Processor, start: Store, half: Store)
    requires Height(start) == 0 && Reliable(p) && CouldLeave(p, start, half)
    ensures Height(half) == 0
  {
    assert Scoped(p, start, 1) && !KeyOfBlock(ExecProgressKey, 1);
  }

  lemma IdealOne(p: Processor, start: Store)
    requires Height(start) == 0
    ensures Ideal(p, start, 1) == Finish(p, start, 1)
  {
    assert Ideal(p, start, 0) == start;
  }

  lemma FinishedHeights(p: Processor, half: Store)
    requires Height(half) == 0 && forall k :: k in p.writes(half, 1) ==> KeyOfBlock(k, 1)
    ensures Height(Second(p, half)[3].store) == 0 && Height(Second(p, half)[4].store) == 1
  {
    assert !KeyOfBlock(ExecProgressKey, 1);
  }

  lemma CrashedRunLeaves(p: Processor, start: Store, half: Store)
    requires Height(half) == 0
    ensures var ss := CrashedRun(p, start, half); LeavesOnly(start, half, ss, |ss| - 1)
    ensures var ss := CrashedRun(p, start, half);
      ss[|ss| - 2] == Second(p, half)[3] && ss[|ss| - 1] == Second(p, half)[4]
  {
  }

  /** A processor that finishes otherwise over half shows the crash. */
  lemma HarmedRun(p: Processor, start: Store, half: Store)
    requires Runnable(p, start) && Height(start) == 0 && CouldLeave(p, start, half)
    requires Finish(p, half, 1) != Finish(p, start, 1)
    ensures !SafeAfter(start, half)
  {
    HalfHeight(p, start, half);
    assert Scoped(p, half, 1);
    FinishedHeights(p, half);
    CrashedRunIsRun(p, start, half);
    CrashedRunLeaves(p, start, half);
    IdealOne(p, start);
    hide Runnable, CouldLeave, IsRun, Fresh, Ideal, CrashedRun, LeavesOnly;
    var ss := CrashedRun(p, start, half);
    assert ss[|ss| - 1].store == Finish(p, half, 1) && ss[|ss| - 1].seen == 1;
    hide Finish;
    var i := |ss| - 2;
    assert !Unharmed(p, start, ss[i], ss[i + 1]);
  }

  lemma TelltaleRunnable(p: Processor, start: Store, half: Store) returns (q: Processor)
    requires Settled(start, 0) && Reliable(p) && CouldLeave(p, start, half) && CodeKept(start, half)
    ensures q == Telltale(start, p.writes(start, 1), p.receipts(start, 1))
    ensures Runnable(q, start) && CouldLeave(q, start, half)
  {
    q := TelltaleOf(p, start, half);
    hide Reliable, CouldLeave;
    forall h: nat | 1 <= h < LAST ensures CodeStays(q, Ideal(q, start, h), h + 1) {}
  }

  /**
   The same for whole runs: crashes of block 1 that leave half behind never show if and only if the
   latest accounts and slots in half are those of the start.
   */
  lemma RunExactness(p: Processor, start: Store, half: Store)
    requires Settled(start, 0) && Reliable(p) && CouldLeave(p, start, half) && CodeKept(start, half)
    ensures SafeAfter(start, half) <==> LatestKept(start, half)
  {
    if LatestKept(start, half) {
      KeptIsSame(start, half);
      hide Runnable, CouldLeave, IsRun, Fresh, Ideal, SameInputs, Reliable, Settled;
      forall q, batch: nat, ss: seq<State>, i: nat |
        && Runnable(q, start) && CouldLeave(q, start, half) && IsRun(q, batch, ss) && Fresh(start, ss[0])
        && i + 1 < |ss| && ss[i + 1].seen < LAST && LeavesOnly(start, half, ss, i + 1)
        ensures Unharmed(q, start, ss[i], ss[i + 1])
      {
        Itself(start);
        assert FirstInputsKept(start, ss, i + 1);
        CrashReplay(q, start, batch, ss, i);
      }
    } else {
      hide Runnable, CouldLeave, Telltale, SafeAfter, Reliable;
      var q := TelltaleRunnable(p, start, half);
      TelltaleDiffers(start, p.writes(start, 1), p.receipts(start, 1), half);
      HarmedRun(q, start, half);
    }
  }

  lemma Itself(s: Store)
    ensures SameInputs(s, s, 0)
  {
  }
}
