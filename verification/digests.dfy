/**
 Why code never collides: its hash is its digest. With a digest that is injective and never the zero
 hash, over a store whose code keys hold their own code, no run and no chain brings code that collides.
 */
module Digests {
  import opened Types
  import opened WorldState
  import opened Revert
  import opened Runs
  import opened Locations
  import opened Replay
  import opened Transactions
  import opened Commit
  import opened BlockInputs
  import opened ExecutorSteps
  import X = ExecutorSteps
  import opened BlockRuns

  ghost predicate Injective(keccak: Bytes -> Hash) {
    && (forall x, y :: keccak(x) == keccak(y) ==> x == y)
    && (forall x :: keccak(x) != ZERO_HASH)
  }

  /** Every code key holds the code it is the digest of. */
  ghost predicate OwnStore(s: Store, keccak: Bytes -> Hash) {
    forall h :: h != ZERO_HASH && HasCode(s, h) ==> keccak(s[CodeKey(h)].code) == h
  }

  /** So do the overlay and the undo records. */
  ghost predicate Own(db: Db, keccak: Bytes -> Hash) {
    && OwnStore(db.store, keccak)
    && (forall h :: h != ZERO_HASH && h in db.codes ==> keccak(db.codes[h]) == h)
    && (forall e :: e in db.journal && e.CodeChange? && e.prevHash != ZERO_HASH ==> keccak(e.prevCode) == e.prevHash)
  }

  lemma OwnIsLegal(db: Db, c: Call, keccak: Bytes -> Hash)
    requires Injective(keccak) && Own(db, keccak) && Digested(c, keccak)
    ensures Legal(db, c)
  {
    if c.SetCode? && db.Held(c.hash) {
      assert keccak(db.Lookup(c.hash)) == c.hash;
    }
  }

  /******* Every step keeps it *******/

  lemma UndoOwn(db: Db, e: Entry, keccak: Bytes -> Hash)
    requires Own(db, keccak) && e in db.journal
    ensures Own(db.Undo(e), keccak)
  {
    assert db.Undo(e).codes == if e.CodeChange? then db.codes[e.prevHash := e.prevCode] else db.codes;
  }

  lemma {:induction false} UndoAllOwn(db: Db, js: seq<Entry>, keccak: Bytes -> Hash)
    requires Own(db, keccak) && forall e :: e in js ==> e in db.journal
    ensures Own(db.UndoAll(js), keccak)
    decreases |js|
  {
    if js != [] {
      UndoAllOwn(db, js[1..], keccak);
      assert db.UndoAll(js) == db.UndoAll(js[1..]).Undo(js[0]);
      UndoOwn(db.UndoAll(js[1..]), js[0], keccak);
    }
  }

  lemma SameOwn(d: Db, r: Db, keccak: Bytes -> Hash)
    requires Own(d, keccak) && r.store == d.store && r.codes == d.codes && r.journal <= d.journal
    ensures Own(r, keccak)
  {
    forall e | e in r.journal ensures e in d.journal {}
  }

  lemma CallOwn(db: Db, c: Call, keccak: Bytes -> Hash)
    requires Own(db, keccak) && HashesHeld(db) && Digested(c, keccak)
    ensures Own(Advance(db, c), keccak)
  {
    var r := Advance(db, c);
    assert r.codes == if c.SetCode? then db.codes[c.hash := c.code] else db.codes;
    assert r.journal == db.journal + Added(db, c);
    hide Advance, Added;
    forall e | e in r.journal && e.CodeChange? && e.prevHash != ZERO_HASH ensures keccak(e.prevCode) == e.prevHash {
      if e in Added(db, c) {
        AddedCode(db, c, e);
        HeldAccount(db, e.account);
      }
    }
  }

  lemma HeldAccount(db: Db, a: Address)
    requires HashesHeld(db) && db.Account(a).codeHash != ZERO_HASH
    ensures db.Held(db.Account(a).codeHash)
  {
  }

  lemma StepOwn(db: Db, c: Call, keccak: Bytes -> Hash)
    requires db.Ordered() && Own(db, keccak) && HashesHeld(db) && Digested(c, keccak)
    ensures Own(Step(db, c), keccak) && HashesHeld(Step(db, c))
  {
    StepHeld(db, c);
    if c.RevertToSnapshot? {
      if db.Find(c.id).Some? {
        var k := db.revisions[db.Find(c.id).value].journalIndex;
        UndoAllOwn(db, db.journal[k..], keccak);
        SameOwn(db.UndoAll(db.journal[k..]), Step(db, c), keccak);
      }
    } else if c.Snapshot? {
      SameOwn(db, Step(db, c), keccak);
    } else {
      CallOwn(db, c, keccak);
    }
  }

  /******* Runs of calls *******/

  lemma {:induction false} RunOwn(t: Traced, cs: seq<Call>, keccak: Bytes -> Hash)
    requires Aligned(t) && Injective(keccak) && Own(t.db, keccak) && HashesHeld(t.db)
    requires forall c :: c in cs ==> Digested(c, keccak)
    ensures LegalRun(t, cs) && Own(TRun(t, cs).db, keccak)
    decreases |cs|
  {
    hide Injective, Own, HashesHeld, Legal;
    if cs != [] {
      OwnIsLegal(t.db, cs[0], keccak);
      StepOwn(t.db, cs[0], keccak);
      RunOwn(TStep(t, cs[0]), cs[1..], keccak);
    }
  }

  lemma CompleteHeld(store: Store, block: nat)
    requires CodesComplete(NewDb(store, block))
    ensures HashesHeld(NewDb(store, block))
  {
  }

  /** No call of a run over a store that holds its own code brings code that collides. */
  lemma DigestedRun(store: Store, block: nat, cs: seq<Call>, keccak: Bytes -> Hash)
    requires Injective(keccak) && OwnStore(store, keccak) && CodesComplete(NewDb(store, block))
    requires forall c :: c in cs ==> Digested(c, keccak)
    ensures LegalRun(Opened(store, block), cs)
  {
    CompleteHeld(store, block);
    RunOwn(Opened(store, block), cs, keccak);
  }

  /******* Transactions *******/

  lemma AskedOwn(program: Program, db: Db, heard: seq<Response>, keccak: Bytes -> Hash)
    requires db.Ordered() && Injective(keccak) && Own(db, keccak) && HashesHeld(db) && DigestedProgram(program, keccak)
    requires program(heard).Some?
    ensures Legal(db, program(heard).value)
    ensures Own(Step(db, program(heard).value), keccak) && HashesHeld(Step(db, program(heard).value))
  {
    assert Digested(program(heard).value, keccak);
    hide *;
    OwnIsLegal(db, program(heard).value, keccak);
    StepOwn(db, program(heard).value, keccak);
  }

  lemma {:induction false} ExecuteOwn(program: Program, db: Db, heard: seq<Response>, steps: nat, keccak: Bytes -> Hash)
    requires db.Ordered() && Injective(keccak) && Own(db, keccak) && HashesHeld(db) && DigestedProgram(program, keccak)
    ensures Collisionless(program, db, heard, steps)
    ensures Own(Execute(program, db, heard, steps).0, keccak) && HashesHeld(Execute(program, db, heard, steps).0)
    decreases steps
  {
    hide Injective, Own, HashesHeld, Legal, Step, Respond, Db.Ordered, DigestedProgram;
    if steps != 0 && program(heard).Some? {
      var c := program(heard).value;
      AskedOwn(program, db, heard, keccak);
      ExecuteOwn(program, Step(db, c), heard + [Respond(db, c)], steps - 1, keccak);
    }
  }

  lemma EnteredOwn(db: Db, hash: Hash, i: nat, keccak: Bytes -> Hash)
    requires db.Ordered() && Own(db, keccak) && HashesHeld(db)
    ensures Own(db.SetTxContext(hash, i), keccak) && HashesHeld(db.SetTxContext(hash, i))
    ensures Own(Entered(db, hash, i), keccak) && HashesHeld(Entered(db, hash, i))
  {
    SameOwn(db, db.SetTxContext(hash, i), keccak);
    SameOwn(db, Entered(db, hash, i), keccak);
    SameHeld(db, db.SetTxContext(hash, i));
    SameHeld(db, Entered(db, hash, i));
  }

  lemma ApplyOneOwn(t: Tally, tx: Transaction, i: nat, keccak: Bytes -> Hash)
    requires t.db.Ordered() && Injective(keccak) && Own(t.db, keccak) && HashesHeld(t.db)
    requires tx.message.Some? ==> DigestedProgram(tx.message.value.program(t.pool), keccak)
    ensures tx.message.Some? ==> var m := tx.message.value;
      Collisionless(m.program(t.pool), Entered(t.db, tx.hash, i), [], m.steps)
    ensures Own(ApplyOne(t, tx, i).db, keccak) && HashesHeld(ApplyOne(t, tx, i).db)
  {
    EnteredOwn(t.db, tx.hash, i, keccak);
    hide Execute, Entered, Settle, Own, HashesHeld, Injective, Collisionless, DigestedProgram;
    if tx.message.Some? {
      var m := tx.message.value;
      var start := Entered(t.db, tx.hash, i);
      ExecuteOwn(m.program(t.pool), start, [], m.steps, keccak);
      var (db, heard) := Execute(m.program(t.pool), start, [], m.steps);
      SettleDb(t, db, tx.hash, i, m.verdict(t.pool, heard));
    }
  }

  lemma {:induction false} ApplyFromOwn(t: Tally, txs: seq<Transaction>, i: nat, keccak: Bytes -> Hash)
    requires t.db.Ordered() && Injective(keccak) && Own(t.db, keccak) && HashesHeld(t.db)
    requires DigestedBlock(txs, keccak)
    ensures CollisionlessFrom(t, txs, i)
    ensures Own(ApplyFrom(t, txs, i).db, keccak)
    decreases |txs| - i
  {
    if i < |txs| {
      hide ApplyOne, Own, HashesHeld, Injective, Collisionless, DigestedProgram;
      ApplyOneOwn(t, txs[i], i, keccak);
      ApplyFromOwn(ApplyOne(t, txs[i], i), txs, i + 1, keccak);
    }
  }

  /******* Chains *******/

  lemma CommitOwn(db: Db, keccak: Bytes -> Hash)
    requires Own(db, keccak)
    ensures OwnStore(CommitStore(db), keccak)
  {
    hide CommitWrites;
    var s := CommitStore(db);
    forall h | h != ZERO_HASH && HasCode(s, h) ensures keccak(s[CodeKey(h)].code) == h {
      CommitWritesAt(db, CodeKey(h));
    }
  }

  lemma NewOwn(store: Store, n: nat, keccak: Bytes -> Hash)
    requires OwnStore(store, keccak)
    ensures Own(NewDb(store, n), keccak)
  {
  }

  /** The tally the transactions of block n start from. */
  function FirstTally(chain: Chain, store: Store, n: nat): (t: Tally)
    ensures t.db.Ordered()
  {
    Tally(NewDb(store, Parent(n)), chain(n).gasLimit, 0, [])
  }

  lemma FirstTallyOwn(chain: Chain, store: Store, n: nat, keccak: Bytes -> Hash)
    requires 0 < n < TWO_64 && Readable(store, n - 1) && OwnStore(store, keccak)
    ensures Own(FirstTally(chain, store, n).db, keccak) && HashesHeld(FirstTally(chain, store, n).db)
  {
    ParentOf(n);
    hide Readable, OwnStore, HashesHeld;
    ReadableHeld(store, n - 1);
    NewOwn(store, n - 1, keccak);
  }

  lemma OutcomeOfTally(chain: Chain, store: Store, n: nat)
    ensures Outcome(chain, store, n) == ApplyFrom(FirstTally(chain, store, n), chain(n).txs, 0)
    ensures BlockCollisionless(chain, store, n) <==> CollisionlessFrom(FirstTally(chain, store, n), chain(n).txs, 0)
  {
    hide ApplyFrom, CollisionlessFrom;
  }

  lemma BlockOfChain(chain: Chain, n: nat, keccak: Bytes -> Hash)
    requires DigestedChain(chain, keccak)
    ensures DigestedBlock(chain(n).txs, keccak)
  {
    hide DigestedBlock;
  }

  lemma BlockOwn(chain: Chain, store: Store, n: nat, keccak: Bytes -> Hash)
    requires 0 < n < TWO_64 && Readable(store, n - 1) && OwnStore(store, keccak)
    requires Injective(keccak) && DigestedChain(chain, keccak)
    ensures BlockCollisionless(chain, store, n) && OwnStore(CommitStore(Outcome(chain, store, n).db), keccak)
  {
    hide *;
    FirstTallyOwn(chain, store, n, keccak);
    BlockOfChain(chain, n, keccak);
    ApplyFromOwn(FirstTally(chain, store, n), chain(n).txs, 0, keccak);
    OutcomeOfTally(chain, store, n);
    CommitOwn(Outcome(chain, store, n).db, keccak);
  }

  lemma FinishOwn(chain: Chain, store: Store, n: nat, keccak: Bytes -> Hash)
    requires OwnStore(CommitStore(Outcome(chain, store, n).db), keccak)
    ensures OwnStore(Finish(ProcessorOf(chain), store, n), keccak)
  {
    hide Outcome, CommitWrites;
    var s, f := CommitStore(Outcome(chain, store, n).db), Finish(ProcessorOf(chain), store, n);
    forall h ensures SameAt(s, f, CodeKey(h)) {}
  }

  lemma IdealReadable(chain: Chain, start: Store, h: nat)
    requires Settled(start, Height(start)) && Height(start) <= h < TWO_64
    ensures Readable(X.Ideal(ProcessorOf(chain), start, h), h)
  {
    hide ProcessorOf, X.Ideal, Reliable, Readable;
    ProcessorOfReliable(chain);
    IdealSettled(ProcessorOf(chain), start, h);
  }

  lemma IdealUnfolds(p: Processor, start: Store, h: nat)
    ensures h <= Height(start) ==> X.Ideal(p, start, h) == start
    ensures h > Height(start) ==> X.Ideal(p, start, h) == Finish(p, X.Ideal(p, start, h - 1), h)
  {
  }

  lemma {:induction false} IdealOwn(chain: Chain, start: Store, h: nat, keccak: Bytes -> Hash)
    requires Settled(start, Height(start)) && OwnStore(start, keccak) && Height(start) <= h < TWO_64
    requires Injective(keccak) && DigestedChain(chain, keccak)
    ensures OwnStore(X.Ideal(ProcessorOf(chain), start, h), keccak)
    decreases h
  {
    hide *;
    IdealUnfolds(ProcessorOf(chain), start, h);
    if h > Height(start) {
      var s := X.Ideal(ProcessorOf(chain), start, h - 1);
      IdealReadable(chain, start, h - 1);
      IdealOwn(chain, start, h - 1, keccak);
      BlockOwn(chain, s, h, keccak);
      FinishOwn(chain, s, h, keccak);
    }
  }

  /** A chain whose new code comes with its digest is a good chain from every settled store with its own code. */
  lemma DigestedGoodChain(chain: Chain, start: Store, keccak: Bytes -> Hash)
    requires Settled(start, Height(start)) && OwnStore(start, keccak)
    requires Injective(keccak) && DigestedChain(chain, keccak)
    ensures GoodChain(chain, start)
  {
    var p := ProcessorOf(chain);
    hide ProcessorOf, OwnStore, Injective, DigestedChain, BlockCollisionless, X.Ideal, Settled, Readable, Height;
    forall h: nat | h >= Height(start) && 1 <= h < LAST ensures BlockCollisionless(chain, X.Ideal(p, start, h), h + 1) {
      IdealReadable(chain, start, h);
      IdealOwn(chain, start, h, keccak);
      BlockOwn(chain, X.Ideal(p, start, h), h + 1, keccak);
    }
  }

  /**
   All that the crash theorem asks of a service: digests that do not collide, programs that set code with
   its digest, and a settled store that holds its own code, which every block keeps.
   */
  lemma DigestedChainRunnable(chain: Chain, start: Store, keccak: Bytes -> Hash)
    requires Settled(start, Height(start)) && OwnStore(start, keccak)
    requires Injective(keccak) && DigestedChain(chain, keccak)
    ensures Runnable(ProcessorOf(chain), start)
  {
    hide *;
    DigestedGoodChain(chain, start, keccak);
    GoodChainRunnable(chain, start);
  }
}
