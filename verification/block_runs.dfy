/** Blocks of real transactions meet what the step system assumes of processing a block. */
module BlockRuns {
  import opened Types
  import opened WorldState
  import opened Replay
  import opened Transactions
  import opened Commit
  import opened BlockInputs
  import opened ExecutorSteps

  datatype Block = Block(txs: seq<Transaction>, gasLimit: nat)

  type Chain = nat -> Block

  ghost predicate DigestedChain(chain: Chain, keccak: Bytes -> Hash) {
    forall n :: DigestedBlock(chain(n).txs, keccak)
  }

  /** The transactions of block n, run over the state of its parent; that of block 0 is the last block number. */
  function Outcome(chain: Chain, store: Store, n: nat): (r: Tally)
    ensures r.db.store == store && r.db.block == Parent(n)
  {
    ApplyAll(NewDb(store, Parent(n)), chain(n).txs, chain(n).gasLimit)
  }

  function ProcessorOf(chain: Chain): Processor {
    Processor((s: Store, n: nat) => CommitWrites(Outcome(chain, s, n).db),
        (s: Store, n: nat) => Outcome(chain, s, n).receipts)
  }

  /******* Transactions over stores with the same inputs *******/

  function TallyOn(t: Tally, s: Store): Tally {
    t.(db := On(t.db, s))
  }

  lemma EnteredOn(db: Db, s: Store, hash: Hash, i: nat)
    requires db.Ordered() && HashesHeld(db)
    ensures On(db, s).Ordered() && Entered(On(db, s), hash, i) == On(Entered(db, hash, i), s)
    ensures HashesHeld(db.SetTxContext(hash, i)) && HashesHeld(Entered(db, hash, i))
  {
    SameHeld(db, db.SetTxContext(hash, i));
    SameHeld(db, Entered(db, hash, i));
    hide HashesHeld;
  }

  lemma SettleOn(t: Tally, s: Store, db: Db, hash: Hash, i: nat, v: Verdict)
    ensures Settle(TallyOn(t, s), On(db, s), hash, i, v) == TallyOn(Settle(t, db, hash, i, v), s)
  {
  }

  lemma ApplyOneOn(t: Tally, s: Store, tx: Transaction, i: nat)
    requires t.db.Ordered() && SameInputs(t.db.store, s, t.db.block) && HashesHeld(t.db)
    ensures TallyOn(t, s).db.Ordered() && ApplyOne(TallyOn(t, s), tx, i) == TallyOn(ApplyOne(t, tx, i), s)
    ensures HashesHeld(ApplyOne(t, tx, i).db)
  {
    EnteredOn(t.db, s, tx.hash, i);
    hide Execute, Entered, Settle, SameInputs, HashesHeld;
    if tx.message.Some? {
      var m := tx.message.value;
      var start := Entered(t.db, tx.hash, i);
      ExecuteOn(m.program(t.pool), start, s, [], m.steps);
      var (db, heard) := Execute(m.program(t.pool), start, [], m.steps);
      var v := m.verdict(t.pool, heard);
      SettleOn(t, s, db, tx.hash, i, v);
      assert Settle(t, db, tx.hash, i, v).db == db by { SettleDb(t, db, tx.hash, i, v); }
    }
  }

  lemma SettleDb(t: Tally, db: Db, hash: Hash, i: nat, v: Verdict)
    ensures Settle(t, db, hash, i, v).db == db
  {
  }

  lemma {:induction false} ApplyFromOn(t: Tally, s: Store, txs: seq<Transaction>, i: nat)
    requires t.db.Ordered() && SameInputs(t.db.store, s, t.db.block) && HashesHeld(t.db)
    ensures TallyOn(t, s).db.Ordered() && ApplyFrom(TallyOn(t, s), txs, i) == TallyOn(ApplyFrom(t, txs, i), s)
    ensures HashesHeld(ApplyFrom(t, txs, i).db)
    decreases |txs| - i
  {
    hide ApplyOne, SameInputs, HashesHeld;
    if i < |txs| {
      ApplyOneOn(t, s, txs[i], i);
      ApplyFromOn(ApplyOne(t, txs[i], i), s, txs, i + 1);
    }
  }

  /** What a block does depends only on its inputs. */
  lemma ApplyAllOn(s: Store, t: Store, n: nat, txs: seq<Transaction>, gasLimit: nat)
    requires SameInputs(s, t, n) && HashesHeld(NewDb(s, n))
    ensures var r := ApplyAll(NewDb(s, n), txs, gasLimit);
      HashesHeld(r.db) && ApplyAll(NewDb(t, n), txs, gasLimit) == TallyOn(r, t)
  {
    assert On(NewDb(s, n), t) == NewDb(t, n);
    ApplyFromOn(Tally(NewDb(s, n), gasLimit, 0, []), t, txs, 0);
  }

  /******* What the step system assumes *******/

  lemma CommitScoped(db: Db)
    ensures forall k :: k in CommitWrites(db) ==> KeyOfBlock(k, NextBlock(db.block))
  {
    forall k | k in CommitWrites(db) ensures KeyOfBlock(k, NextBlock(db.block)) { CommitWritesAt(db, k); }
  }

  lemma ChainScoped(chain: Chain, s: Store, n: nat)
    ensures Scoped(ProcessorOf(chain), s, n)
  {
    if n < TWO_64 {
      ParentOf(n);
      CommitScoped(Outcome(chain, s, n).db);
    }
  }

  lemma ReadableHeld(s: Store, n: nat)
    ensures Readable(s, n) <==> HashesHeld(NewDb(s, n))
  {
    var d := NewDb(s, n);
    forall a ensures RecordReadable(s, n, a) <==> (d.Base(a).codeHash != ZERO_HASH ==> d.Held(d.Base(a).codeHash)) {}
  }

  lemma SameCommitWrites(db: Db, t: Store)
    ensures CommitWrites(On(db, t)) == CommitWrites(db)
  {
    forall k ensures SameAt(CommitWrites(On(db, t)), CommitWrites(db), k) {
      CommitWritesAt(On(db, t), k);
      CommitWritesAt(db, k);
      SameCommitted(db, t, k);
    }
    SameMap(CommitWrites(On(db, t)), CommitWrites(db));
  }

  lemma SameCommitted(db: Db, t: Store, k: Key)
    ensures Committed(On(db, t), k) == Committed(db, k)
  {
  }

  lemma SameMap(v: Store, w: Store)
    requires forall k :: SameAt(v, w, k)
    ensures v == w
  {
    forall k ensures (k in v <==> k in w) && (k in v ==> v[k] == w[k]) { assert SameAt(v, w, k); }
    assert v.Keys == w.Keys;
  }

  /** Running the block over a store with the same inputs. */
  lemma SameOutcome(chain: Chain, s: Store, t: Store, n: nat)
    requires 0 < n < TWO_64 && Readable(s, n - 1) && SameInputs(s, t, n - 1)
    ensures Outcome(chain, t, n) == TallyOn(Outcome(chain, s, n), t)
  {
    ParentOf(n);
    ReadableHeld(s, n - 1);
    ApplyAllOn(s, t, n - 1, chain(n).txs, chain(n).gasLimit);
  }

  lemma ChainDetermined(chain: Chain, s: Store, t: Store, n: nat)
    ensures Determined(ProcessorOf(chain), s, t, n)
  {
    if 0 < n < TWO_64 && Readable(s, n - 1) && SameInputs(s, t, n - 1) {
      SameOutcome(chain, s, t, n);
      SameCommitWrites(Outcome(chain, s, n).db, t);
    }
  }

  /** Committing leaves every record of the new block with its code stored. */
  lemma CommitReadable(db: Db)
    requires HashesHeld(db) && NothingAbove(db.store, db.block) && db.block + 1 < TWO_64
    ensures Readable(CommitStore(db), db.block + 1)
  {
    var n, s := db.block + 1, CommitStore(db);
    assert NextBlock(db.block) == n;
    hide NextBlock, CommitWrites;
    forall a ensures RecordReadable(s, n, a) {
      CommittedReadable(db, n, a);
    }
  }

  lemma CommittedReadable(db: Db, n: nat, a: Address)
    requires HashesHeld(db) && n == NextBlock(db.block) && AccountKey(n, a) !in db.store
    ensures RecordReadable(CommitStore(db), n, a)
  {
    hide CommitWrites;
    CommitWritesAt(db, AccountKey(n, a));
    if a in db.accounts {
      CommitWritesAt(db, CodeKey(db.accounts[a].codeHash));
    }
  }

  lemma ApplyAllHeld(s: Store, n: nat, txs: seq<Transaction>, gasLimit: nat)
    requires Readable(s, n)
    ensures HashesHeld(ApplyAll(NewDb(s, n), txs, gasLimit).db)
  {
    ReadableHeld(s, n);
    SelfInputs(s, n);
    hide HashesHeld, Readable, SameInputs, ApplyAll;
    ApplyAllOn(s, s, n, txs, gasLimit);
  }

  lemma OutcomeHeld(chain: Chain, s: Store, n: nat)
    requires 0 < n < TWO_64 && Readable(s, n - 1)
    ensures HashesHeld(Outcome(chain, s, n).db)
  {
    hide HashesHeld, Readable, ApplyAll;
    ParentOf(n);
    ApplyAllHeld(s, n - 1, chain(n).txs, chain(n).gasLimit);
  }

  lemma ChainKeepsReadable(chain: Chain, s: Store, n: nat)
    ensures KeepsReadable(ProcessorOf(chain), s, n)
  {
    hide Outcome, Readable, CommitWrites;
    if 0 < n < TWO_64 && Readable(s, n - 1) && NothingAbove(s, n - 1) {
      ParentOf(n);
      OutcomeHeld(chain, s, n);
      CommitReadable(Outcome(chain, s, n).db);
    }
  }

  lemma ProcessorOfReliable(chain: Chain)
    ensures Reliable(ProcessorOf(chain))
  {
    var p := ProcessorOf(chain);
    forall s, n ensures Scoped(p, s, n) { ChainScoped(chain, s, n); }
    forall s, n ensures KeepsReadable(p, s, n) { ChainKeepsReadable(chain, s, n); }
    forall s, t, n ensures Determined(p, s, t, n) { ChainDetermined(chain, s, t, n); }
  }

  /******* Code *******/

  /** No transaction from i on brings code that collides with code held at the time. */
  ghost predicate CollisionlessFrom(t: Tally, txs: seq<Transaction>, i: nat)
    requires t.db.Ordered()
    decreases |txs| - i
  {
    i < |txs| ==>
      && (txs[i].message.Some? ==>
           var m := txs[i].message.value;
           Collisionless(m.program(t.pool), Entered(t.db, txs[i].hash, i), [], m.steps))
      && CollisionlessFrom(ApplyOne(t, txs[i], i), txs, i + 1)
  }

  lemma EnteredAgree(db: Db, hash: Hash, i: nat)
    requires db.Ordered() && CodesAgree(db)
    ensures CodesAgree(db.SetTxContext(hash, i)) && CodesAgree(Entered(db, hash, i))
  {
    SameAgree(db, db.SetTxContext(hash, i));
    SameAgree(db, Entered(db, hash, i));
  }

  lemma ApplyOneAgree(t: Tally, txs: seq<Transaction>, i: nat)
    requires t.db.Ordered() && CodesAgree(t.db) && i < |txs| && CollisionlessFrom(t, txs, i)
    ensures CodesAgree(ApplyOne(t, txs[i], i).db)
  {
    var tx := txs[i];
    EnteredAgree(t.db, tx.hash, i);
    hide Execute, Entered, Settle, CodesAgree, Collisionless;
    if tx.message.Some? {
      var m := tx.message.value;
      var start := Entered(t.db, tx.hash, i);
      ExecuteAgree(m.program(t.pool), start, [], m.steps);
      var (db, heard) := Execute(m.program(t.pool), start, [], m.steps);
      SettleDb(t, db, tx.hash, i, m.verdict(t.pool, heard));
    }
  }

  lemma {:induction false} ApplyFromAgree(t: Tally, txs: seq<Transaction>, i: nat)
    requires t.db.Ordered() && CodesAgree(t.db) && CollisionlessFrom(t, txs, i)
    ensures CodesAgree(ApplyFrom(t, txs, i).db)
    decreases |txs| - i
  {
    hide ApplyOne, CodesAgree;
    if i < |txs| {
      ApplyOneAgree(t, txs, i);
      ApplyFromAgree(ApplyOne(t, txs[i], i), txs, i + 1);
    }
  }

  ghost predicate BlockCollisionless(chain: Chain, store: Store, n: nat)
  {
    CollisionlessFrom(Tally(NewDb(store, Parent(n)), chain(n).gasLimit, 0, []), chain(n).txs, 0)
  }

  lemma AgreeingCodeStays(db: Db)
    requires CodesAgree(db)
    ensures forall h :: h != ZERO_HASH && HasCode(db.store, h) && CodeKey(h) in CommitWrites(db) ==>
              CommitWrites(db)[CodeKey(h)] == db.store[CodeKey(h)]
  {
    forall h | h != ZERO_HASH && HasCode(db.store, h) && CodeKey(h) in CommitWrites(db)
      ensures CommitWrites(db)[CodeKey(h)] == db.store[CodeKey(h)]
    {
      CommitWritesAt(db, CodeKey(h));
      assert db.StoredCode(h);
    }
  }

  lemma BlockCodeStays(chain: Chain, store: Store, n: nat)
    requires BlockCollisionless(chain, store, n)
    ensures CodeStays(ProcessorOf(chain), store, n)
  {
    ApplyFromAgree(Tally(NewDb(store, Parent(n)), chain(n).gasLimit, 0, []), chain(n).txs, 0);
    AgreeingCodeStays(Outcome(chain, store, n).db);
  }

  /** A settled store from which the chain can go on: no block after the first brings colliding code. */
  ghost predicate GoodChain(chain: Chain, start: Store) {
    && Settled(start, Height(start))
    && forall h: nat :: h >= Height(start) && 1 <= h < LAST ==>
         BlockCollisionless(chain, Ideal(ProcessorOf(chain), start, h), h + 1)
  }

  lemma GoodChainCodeStays(chain: Chain, start: Store, h: nat)
    requires GoodChain(chain, start) && h >= Height(start) && 1 <= h < LAST
    ensures CodeStays(ProcessorOf(chain), Ideal(ProcessorOf(chain), start, h), h + 1)
  {
    hide ProcessorOf, Ideal, CodeStays, BlockCollisionless;
    BlockCodeStays(chain, Ideal(ProcessorOf(chain), start, h), h + 1);
  }

  /** Chains of transactions can be crashed and replayed: see CrashReplay and RecordedReceipts. */
  lemma GoodChainRunnable(chain: Chain, start: Store)
    requires GoodChain(chain, start)
    ensures Runnable(ProcessorOf(chain), start)
  {
    var p := ProcessorOf(chain);
    ProcessorOfReliable(chain);
    forall h: nat | h >= Height(start) && 1 <= h < LAST ensures CodeStays(p, Ideal(p, start, h), h + 1) {
      GoodChainCodeStays(chain, start, h);
    }
  }
}
