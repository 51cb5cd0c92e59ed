/**
 The block loop over the store. Every run of it, failures included, is a run of the step system,
 and a tick that succeeds leaves exactly the store of the uninterrupted run.
 */
module Executors {
  import opened Types
  import opened WorldState
  import opened Storage
  import opened StateDb
  import opened Processing
  import opened ExecutorSteps
  import opened BlockRuns
  import opened CatchUp
  import C = Commit
  import T = Transactions

  /** A run that has got as far as s. */
  ghost predicate Reached(p: Processor, batch: nat, run: seq<State>, s: State) {
    IsRun(p, batch, run) && run[|run| - 1] == s
  }

  lemma OneMoreStep(p: Processor, batch: nat, run: seq<State>, s: State, t: State)
    requires Reached(p, batch, run, s) && Next(p, batch, s, t)
    ensures Reached(p, batch, run + [t], t)
  {
    var more := run + [t];
    forall i | 0 <= i < |more| - 1 ensures Next(p, batch, more[i], more[i + 1]) {
      if i < |run| - 1 {
        assert Next(p, batch, run[i], run[i + 1]);
      }
    }
  }

  class BlockProcessor {
    const storage: StateStorage
    const chain: Chain
    const keccak: Bytes -> Hash
    const stateCacheSize: int
    const storageCacheSize: int
    const codeCacheSize: int

    constructor (storage: StateStorage, chain: Chain, keccak: Bytes -> Hash, stateSize: int, storageSize: int,
        codeSize: int)
      ensures this.storage == storage && this.chain == chain && this.keccak == keccak
    {
      this.storage, this.chain, this.keccak := storage, chain, keccak;
      stateCacheSize, storageCacheSize, codeCacheSize := stateSize, storageSize, codeSize;
    }

    ghost predicate Digests() {
      DigestedChain(chain, keccak)
    }

    /** The caches can be made. */
    predicate Ready() {
      stateCacheSize > 0 && storageCacheSize > 0 && codeCacheSize > 0
    }

    /**
     Run the transactions over the parent state; commit. The answer is the receipts, if all went
     well; the block may fail to be fetched, the database to open, the commit to go through.
     */
    method ExecuteAndCommit(n: nat) returns (receipts: Option<seq<Receipt>>)
      requires Digests()
      modifies storage.client
      ensures var p, s, t := ProcessorOf(chain), old(storage.client.data), storage.client.data;
        if receipts.Some? then t == s + p.writes(s, n) && receipts.value == p.receipts(s, n)
        else Partly(s, t, p.writes(s, n))
      ensures storage.client.sent >= old(storage.client.sent)
      ensures receipts.Some? <==> Ready() && storage.client.AllAnswered(old(storage.client.sent))
    {
      hide PikaStateDB.Model, PikaStateDB.Sound, Steady, C.CommitWrites, Partly, T.ApplyAll;
      ghost var store := storage.client.data;
      var fetched := storage.client.Fetch();
      if !fetched {
        ItselfIsPart(store, ProcessorOf(chain).writes(store, n));
        return None;
      }
      var found := PikaStateDB.Open(storage, Parent(n), keccak, stateCacheSize, storageCacheSize, codeCacheSize);
      if found.None? {
        ItselfIsPart(store, ProcessorOf(chain).writes(store, n));
        return None;
      }
      var db := found.value;
      assert T.DigestedBlock(chain(n).txs, keccak);
      var pool, used, rs := ProcessTransactions(db, chain(n).txs, chain(n).gasLimit);
      assert T.ApplyAll(NewDb(store, Parent(n)), chain(n).txs, chain(n).gasLimit) == Outcome(chain, store, n);
      var ok := db.Commit();
      receipts := if ok then Some(rs) else None;
    }

    /** One block: state first, then receipts. The ghost run is what the step system saw of it. */
    method ProcessBlock(n: nat, ghost batch: nat, ghost run: seq<State>, ghost at: State)
        returns (ok: bool, ghost more: seq<State>)
      requires Digests()
      requires at.store == storage.client.data && at.phase.Executing? && at.phase.next == n
      requires Reached(ProcessorOf(chain), batch, run, at)
      modifies storage.client
      ensures Reached(ProcessorOf(chain), batch, more,
                      at.(store := storage.client.data, phase := if ok then ReceiptsWritten(n, at.phase.end) else Idle))
      ensures run <= more
      ensures ok ==> var p, s := ProcessorOf(chain), at.store;
        storage.client.data == WithReceipts(s + p.writes(s, n), n, p.receipts(s, n))
      ensures storage.client.sent >= old(storage.client.sent)
      ensures ok <==> Ready() && storage.client.AllAnswered(old(storage.client.sent))
    {
      hide Reached, ProcessorOf, Partly;
      ghost var p := ProcessorOf(chain);
      var receipts := ExecuteAndCommit(n);
      if receipts.None? {
        ghost var gaveUp := at.(store := storage.client.data, phase := Idle);
        assert CommitStep(p, at, gaveUp);
        more := OneMore(p, batch, run, at, gaveUp);
        return false, more;
      }
      ghost var committed := at.(store := storage.client.data, phase := StateWritten(n, at.phase.end, receipts.value));
      assert CommitStep(p, at, committed);
      more := OneMore(p, batch, run, at, committed);
      ok := storage.client.Set(ReceiptKey(n), ReceiptsDatum(receipts.value));
      ghost var stored := at.(store := storage.client.data, phase := if ok then ReceiptsWritten(n, at.phase.end)
          else Idle);
      assert ReceiptStep(committed, stored) || CrashStep(committed, stored);
      more := OneMore(p, batch, more, committed, stored);
    }
  }

  ghost method OneMore(p: Processor, batch: nat, run: seq<State>, s: State, t: State) returns (more: seq<State>)
    requires Reached(p, batch, run, s) && Next(p, batch, s, t)
    ensures Reached(p, batch, more, t) && more == run + [t]
  {
    OneMoreStep(p, batch, run, s, t);
    more := run + [t];
  }

  lemma IdealStart(p: Processor, start: Store, h: nat)
    ensures h <= Height(start) ==> Ideal(p, start, h) == start
  {
  }

  lemma IdealNext(p: Processor, start: Store, h: nat)
    requires h > Height(start)
    ensures Ideal(p, start, h) == Finish(p, Ideal(p, start, h - 1), h)
  {
  }

  lemma CutOffTick(h: nat, batch: nat, sync: nat, lifetime: nat)
    requires h < sync < TWO_64 && After(h, EndBlock(h, batch, sync)).Executing?
    requires var end := EndBlock(h, batch, sync);
      end == LAST || lifetime <= end - After(h, end).next
    ensures TickHeight(h, batch, sync).None? || lifetime < EndBlock(h, batch, sync) - h
  {
    assert NextBlock(h) == h + 1;
  }

  /** The sync height the process sees at a tick, and how many blocks it still lives. */
  datatype Tick = Tick(sync: nat, lifetime: nat)

  function Greatest(ticks: seq<Tick>): nat
    decreases |ticks|
  {
    if ticks == [] then 0
    else
      var rest, sync := Greatest(ticks[..|ticks| - 1]), ticks[|ticks| - 1].sync;
      if sync > rest then sync else rest
  }

  predicate HeightReadable(s: Store) {
    ExecProgressKey in s ==> s[ExecProgressKey].HeightDatum?
  }

  lemma IdealHeightReadable(p: Processor, start: Store, h: nat)
    requires HeightReadable(start)
    ensures HeightReadable(Ideal(p, start, h))
  {
    IdealStart(p, start, h);
    if h > Height(start) {
      IdealNext(p, start, h);
    }
  }

  /** The height after ticks that all come to their end. */
  function Heights(h: nat, batch: nat, ticks: seq<Tick>): Option<nat>
    decreases |ticks|
  {
    if ticks == [] then Some(h)
    else
      var before := Heights(h, batch, ticks[..|ticks| - 1]);
      if before.None? then None else TickHeight(before.value, batch, ticks[|ticks| - 1].sync)
  }

  lemma HeightsNext(h: nat, batch: nat, ticks: seq<Tick>, i: nat)
    requires i < |ticks|
    ensures Heights(h, batch, ticks[..i + 1]) ==
      var before := Heights(h, batch, ticks[..i]);
      if before.None? then None else TickHeight(before.value, batch, ticks[i].sync)
  {
    assert ticks[..i + 1][..i] == ticks[..i];
  }

  lemma {:induction false} TicksLater(h: nat, batch: nat, sync: nat, k: nat)
    ensures Ticks(h, batch, sync, k + 1) ==
      var before := Ticks(h, batch, sync, k);
      if before.None? then None else TickHeight(before.value, batch, sync)
    decreases k
  {
    hide TickHeight;
    var t := TickHeight(h, batch, sync);
    if k > 0 && t.Some? {
      TicksLater(t.value, batch, sync, k - 1);
    } else if k == 0 {
      assert t.Some? ==> Ticks(t.value, batch, sync, 0) == t;
    }
  }

  /** Ticks that all see one sync height are those CatchUp speaks of. */
  lemma {:induction false} SteadyHeights(h: nat, batch: nat, ticks: seq<Tick>, sync: nat)
    requires forall tick :: tick in ticks ==> tick.sync == sync
    ensures Heights(h, batch, ticks) == Ticks(h, batch, sync, |ticks|)
    decreases |ticks|
  {
    hide TickHeight;
    if ticks != [] {
      SteadyHeights(h, batch, ticks[..|ticks| - 1], sync);
      TicksLater(h, batch, sync, |ticks| - 1);
    }
  }

  /** So a service that is never disturbed and sees one sync height catches up with it, unless a batch end wraps. */
  lemma SteadyServiceCatchesUp(h: nat, batch: nat, ticks: seq<Tick>, sync: nat)
    requires 1 <= batch < TWO_64 && h <= sync < TWO_64 && forall tick :: tick in ticks ==> tick.sync == sync
    ensures var k := |ticks|;
      Heights(h, batch, ticks) == Some(Target(h, batch, sync, k)) <==>
        NoWrap(h, batch, sync, k) && (h == sync || Target(h, batch, sync, k) < LAST)
  {
    SteadyHeights(h, batch, ticks, sync);
    CatchUpExactness(h, batch, sync, |ticks|);
  }

  function Seeing(s: State, sync: nat): State {
    s.(sync := sync, seen := if sync > s.seen then sync else s.seen)
  }

  lemma SeeingNext(s: State, ticks: seq<Tick>, i: nat)
    requires i < |ticks| && s.seen == Greatest(ticks[..i])
    ensures var t := Seeing(s, ticks[i].sync); t.seen == Greatest(ticks[..i + 1]) && t.phase == s.phase
  {
    assert ticks[..i + 1][..i] == ticks[..i];
  }

  lemma StartsFresh(p: Processor, batch: nat, start: Store)
    ensures Reached(p, batch, [State(start, 0, 0, Idle)], State(start, 0, 0, Idle))
    ensures Fresh(start, State(start, 0, 0, Idle)) && Greatest([]) == 0
  {
  }

  /** What the run from start to a state of the service tells about that state. */
  ghost predicate Lived(p: Processor, start: Store, run: seq<State>, s: State)
    requires run != []
  {
    Runnable(p, start) && s.seen < LAST && FirstInputsKept(start, run, |run| - 1) ==>
      && (Height(s.store) >= s.seen ==> s.store == Ideal(p, start, Height(s.store)))
      && forall n :: Height(start) < n <= Height(s.store) ==>
           ReceiptKey(n) in s.store && s.store[ReceiptKey(n)] == ReceiptsOf(p, start, n)
  }

  lemma RunLived(p: Processor, start: Store, batch: nat, run: seq<State>, at: State)
    requires Reached(p, batch, run, at) && Fresh(start, run[0])
    ensures IsRun(p, batch, run) && run[|run| - 1] == at && Lived(p, start, run, at)
  {
    assert IsRun(p, batch, run) && |run| > 0;
    hide Runnable, FirstInputsKept, IsRun, Height, Ideal;
    if Runnable(p, start) && at.seen < LAST && FirstInputsKept(start, run, |run| - 1) {
      if Height(at.store) >= at.seen {
        LevelIsIdeal(p, start, batch, run, |run| - 1);
      }
      forall n | Height(start) < n <= Height(at.store)
        ensures ReceiptKey(n) in at.store && at.store[ReceiptKey(n)] == ReceiptsOf(p, start, n)
      {
        RecordedReceipts(p, start, batch, run, |run| - 1, n);
      }
    }
  }

  /** The recorded height is h, if there is one. */
  predicate OnTrack(s: Store, h: Option<nat>) {
    h.Some? ==> Height(s) == h.value && HeightReadable(s)
  }

  /** A batch comes to its end, meets a failure, or outlives the process. */
  datatype Ending = Ended | Failed | Stopped

  /** A tick that is not disturbed keeps the service on track. */
  lemma StaysOnTrack(p: Processor, s: Store, t: Store, batch: nat, h: Option<nat>, tick: Tick, outcome: Ending)
    requires OnTrack(s, h) && tick.sync < TWO_64 && tick.lifetime >= TWO_64
    requires outcome.Failed? ==> !HeightReadable(s)
    requires outcome.Ended? ==>
      t == if tick.sync <= Height(s) then s else Ideal(p, s, EndBlock(Height(s), batch, tick.sync))
    requires outcome.Ended? ==> Some(Height(t)) == TickHeight(Height(s), batch, tick.sync)
    requires outcome.Stopped? ==>
      TickHeight(Height(s), batch, tick.sync).None? || tick.lifetime < EndBlock(Height(s), batch, tick.sync) - Height(s)
    ensures OnTrack(t, if h.None? then None else TickHeight(h.value, batch, tick.sync))
  {
    if h.Some? && TickHeight(h.value, batch, tick.sync).Some? {
      assert outcome.Ended?;
      if tick.sync > Height(s) {
        IdealHeightReadable(p, s, EndBlock(Height(s), batch, tick.sync));
      }
    }
  }

  class Executor {
    const processor: BlockProcessor
    const client: PikaClient
    const batchSize: nat

    constructor (processor: BlockProcessor, batchSize: nat)
      ensures this.processor == processor && client == processor.storage.client && this.batchSize == batchSize
    {
      this.processor, this.batchSize := processor, batchSize;
      client := processor.storage.client;
    }

    /** An unreadable height is an error, a missing one is height 0. */
    method GetExecProgress() returns (h: Option<nat>)
      ensures h == if ExecProgressKey in client.data && !client.data[ExecProgressKey].HeightDatum? then None
                   else Some(Height(client.data))
    {
      var d := client.Get(ExecProgressKey);
      if d.None? {
        return Some(0);
      }
      h := if d.value.HeightDatum? then Some(d.value.height) else None;
    }

    /** Process one block and record its height. */
    method ExecuteBlock(n: nat, ghost run: seq<State>, ghost at: State)
        returns (ok: bool, ghost more: seq<State>, ghost done: State)
      requires client == processor.storage.client && processor.Digests()
      requires at.store == client.data && at.phase.Executing? && at.phase.next == n
      requires Reached(ProcessorOf(processor.chain), batchSize, run, at)
      modifies client
      ensures Reached(ProcessorOf(processor.chain), batchSize, more, done)
      ensures done == at.(store := client.data, phase := if ok then After(n, at.phase.end) else Idle)
      ensures run <= more
      ensures ok ==> client.data == Finish(ProcessorOf(processor.chain), at.store, n)
      ensures client.sent >= old(client.sent)
      ensures ok <==> processor.Ready() && client.AllAnswered(old(client.sent))
    {
      hide Reached, ProcessorOf;
      ghost var p := ProcessorOf(processor.chain);
      ok, more := processor.ProcessBlock(n, batchSize, run, at);
      done := at.(store := client.data, phase := Idle);
      if !ok {
        return;
      }
      ghost var processed := at.(store := client.data, phase := ReceiptsWritten(n, at.phase.end));
      ok := client.Set(ExecProgressKey, HeightDatum(n));
      done := at.(store := client.data, phase := if ok then After(n, at.phase.end) else Idle);
      assert ProgressStep(processed, done) || CrashStep(processed, done);
      more := OneMore(p, batchSize, more, processed, done);
    }

    /**
     The blocks of a batch, one after the other, until one fails or the process is stopped, which
     it is after a given number of blocks. The counter is a 64-bit word.
     */
    method ExecuteBatch(execHeight: nat, end: nat, lifetime: nat, ghost run: seq<State>, ghost at: State)
      returns (outcome: Ending, ghost more: seq<State>)
      requires client == processor.storage.client && processor.Digests() && end < TWO_64
      requires at.store == client.data && execHeight == Height(client.data) < LAST && at.phase == After(execHeight, end)
      requires Reached(ProcessorOf(processor.chain), batchSize, run, at)
      modifies client
      ensures Reached(ProcessorOf(processor.chain), batchSize, more, at.(store := client.data, phase := Idle)) &&
          run <= more
      ensures outcome.Ended? ==> at.phase.Idle? || end < LAST
      ensures outcome.Ended? ==> client.data == Ideal(ProcessorOf(processor.chain), at.store, end)
      ensures outcome.Stopped? ==> at.phase.Executing? && (end == LAST || lifetime <= end - at.phase.next)
      ensures client.sent >= old(client.sent)
      ensures outcome.Failed? ==> !processor.Ready() || !client.AllAnswered(old(client.sent))
    {
      hide Reached, ProcessorOf, Finish, Height, Ideal;
      ghost var p, now := ProcessorOf(processor.chain), at;
      assert NextBlock(execHeight) == execHeight + 1;
      more := run;
      var blockNum, done := NextBlock(execHeight), 0;
      IdealStart(p, at.store, execHeight);
      while blockNum <= end && done < lifetime
        invariant 0 <= done <= lifetime && 0 <= blockNum < TWO_64
        invariant run <= more && Reached(p, batchSize, more, now)
        invariant now == at.(store := client.data, phase := if blockNum <= end then Executing(blockNum, end) else Idle)
        invariant end < LAST ==> blockNum == execHeight + 1 + done && (blockNum <= end + 1 || done == 0)
        invariant end < LAST || at.phase.Idle? ==> client.data == Ideal(p, at.store, execHeight + done)
        invariant at.phase.Idle? ==> done == 0 && blockNum == execHeight + 1
        invariant client.sent >= old(client.sent) && client.AllAnswered(old(client.sent))
        decreases lifetime - done
      {
        var ok;
        ok, more, now := ExecuteBlock(blockNum, more, now);
        if !ok {
          return Failed, more;
        }
        if end < LAST {
          assert NextBlock(blockNum) == blockNum + 1;
          IdealNext(p, at.store, blockNum);
        }
        blockNum, done := NextBlock(blockNum), done + 1;
      }
      if blockNum <= end {
        ghost var stopped := now.(phase := Idle);
        assert CrashStep(now, stopped);
        more := OneMore(p, batchSize, more, now, stopped);
        return Stopped, more;
      }
      IdealStart(p, at.store, end);
      outcome := Ended;
    }

    /**
     One tick of a service that has come as far as at. However it ends, it makes the run longer, up to
     an idle state; if it comes to its own end, the store is that of the uninterrupted run to the end
     of the batch. A batch up to the last block number has no end of its own.
     */
    method ExecuteNextBlocks(syncHeight: nat, lifetime: nat, ghost before: seq<State>, ghost at: State)
        returns (outcome: Ending, ghost run: seq<State>)
      requires client == processor.storage.client && processor.Digests() && syncHeight < TWO_64
      requires at.store == client.data && at.phase.Idle?
      requires Reached(ProcessorOf(processor.chain), batchSize, before, at)
      modifies client
      ensures before <= run
      ensures Reached(ProcessorOf(processor.chain), batchSize, run, Seeing(at, syncHeight).(store := client.data))
      ensures var h := Height(old(client.data));
        outcome.Ended? ==>
          client.data == (if syncHeight <= h then old(client.data)
                          else Ideal(ProcessorOf(processor.chain), old(client.data),
                              EndBlock(h, batchSize, syncHeight)))
      ensures var h := Height(old(client.data));
        outcome.Ended? ==> Some(Height(client.data)) == TickHeight(h, batchSize, syncHeight)
      ensures var h := Height(old(client.data));
        outcome.Stopped? ==>
          TickHeight(h, batchSize, syncHeight).None? || lifetime < EndBlock(h, batchSize, syncHeight) - h
      ensures client.sent >= old(client.sent)
      ensures outcome.Failed? ==>
        || !processor.Ready() || !client.AllAnswered(old(client.sent))
        || !HeightReadable(old(client.data))
    {
      ghost var p, start := ProcessorOf(processor.chain), client.data;
      ghost var now := Seeing(at, syncHeight);
      assert SyncStep(at, now);
      run := OneMore(p, batchSize, before, at, now);
      var progress := GetExecProgress();
      if progress.None? {
        return Failed, run;
      }
      var execHeight := progress.value;
      if syncHeight <= execHeight {
        return Ended, run;
      }
      var endBlock := (execHeight + batchSize) % TWO_64;
      if endBlock > syncHeight {
        endBlock := syncHeight;
      }
      hide Reached, ProcessorOf, Ideal, Height, TickHeight;
      ghost var ticked := now.(phase := After(execHeight, endBlock));
      assert TickStep(batchSize, now, ticked);
      run := OneMore(p, batchSize, run, now, ticked);
      outcome, run := ExecuteBatch(execHeight, endBlock, lifetime, run, ticked);
      assert endBlock == EndBlock(execHeight, batchSize, syncHeight);
      hide EndBlock, After;
      if outcome.Ended? {
        IdealTick(p, start, batchSize, syncHeight);
      } else if outcome.Stopped? {
        CutOffTick(execHeight, batchSize, syncHeight, lifetime);
      }
    }

    lemma StillUndisturbed(from: nat, later: nat, ticks: seq<Tick>, i: nat)
      requires Undisturbed(from, ticks) && from <= later && i < |ticks|
      ensures processor.Ready() && client.AllAnswered(later) && ticks[i].lifetime >= TWO_64
      ensures forall since: nat :: since >= from ==> client.AllAnswered(since)
    {
      assert ticks[i] in ticks;
    }

    /** Every request since then was answered, and the process was never stopped. */
    predicate Undisturbed(from: nat, ticks: seq<Tick>)
      reads client
    {
      && processor.Ready() && client.AllAnswered(from)
      && forall tick :: tick in ticks ==> tick.lifetime >= TWO_64
    }

    /**
     The main loop, over the ticks of the service's whole life: a tick that fails is logged and the
     loop goes on, one that outlives the process is followed by a restart. Together they are one run
     from a fresh process. Level with the greatest sync height, and with block 1 not replayed over
     other inputs, the store is that of the uninterrupted run; the receipts are so all the time. A
     service that is never disturbed records the height its ticks come to.
     */
    method Run(ticks: seq<Tick>) returns (ghost run: seq<State>)
      requires client == processor.storage.client && processor.Digests()
      requires forall tick :: tick in ticks ==> tick.sync < TWO_64
      modifies client
      ensures IsRun(ProcessorOf(processor.chain), batchSize, run) && Fresh(old(client.data), run[0])
      ensures run[|run| - 1].store == client.data && run[|run| - 1].seen == Greatest(ticks)
      ensures Lived(ProcessorOf(processor.chain), old(client.data), run, run[|run| - 1])
      ensures client.sent >= old(client.sent)
      ensures var h := Heights(Height(old(client.data)), batchSize, ticks);
        Undisturbed(old(client.sent), ticks) && HeightReadable(old(client.data)) && h.Some? ==>
          Height(client.data) == h.value
    {
      ghost var p, start := ProcessorOf(processor.chain), client.data;
      ghost var at := State(start, 0, 0, Idle);
      run := [at];
      StartsFresh(p, batchSize, start);
      hide *;
      var i := 0;
      while i < |ticks|
        invariant 0 <= i <= |ticks|
        invariant at.store == client.data && at.phase.Idle? && at.seen == Greatest(ticks[..i])
        invariant Reached(p, batchSize, run, at) && run != [] && Fresh(start, run[0])
        invariant client.sent >= old(client.sent)
        invariant Undisturbed(old(client.sent), ticks) && HeightReadable(start) ==>
          OnTrack(client.data, Heights(Height(start), batchSize, ticks[..i]))
      {
        ghost var before, from := client.data, client.sent;
        SeeingNext(at, ticks, i);
        HeightsNext(Height(start), batchSize, ticks, i);
        var outcome;
        ghost var next;
        outcome, next := ExecuteNextBlocks(ticks[i].sync, ticks[i].lifetime, run, at);
        if Undisturbed(old(client.sent), ticks) && HeightReadable(start) {
          StillUndisturbed(old(client.sent), from, ticks, i);
          StaysOnTrack(p, before, client.data, batchSize, Heights(Height(start), batchSize, ticks[..i]), ticks[i],
              outcome);
        }
        run, at, i := next, Seeing(at, ticks[i].sync).(store := client.data), i + 1;
      }
      assert ticks[..i] == ticks;
      RunLived(p, start, batchSize, run, at);
    }
  }
}
