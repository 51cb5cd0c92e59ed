/**
 Messages and blocks are runs. What a message does is the run of the calls it asks for, given what it
 hears; what a block does is one run, so all that holds of runs holds of blocks.
 */
module Transcripts {
  import opened Types
  import opened WorldState
  import opened Runs
  import opened Replay
  import opened Transactions
  import opened StandingCalls

  /** The calls the program asks for. */
  function Asked(program: Program, db: Db, heard: seq<Response>, steps: nat): seq<Call>
    requires db.Ordered()
    decreases steps
  {
    if steps == 0 || program(heard).None? then []
    else
      var c := program(heard).value;
      [c] + Asked(program, Step(db, c), heard + [Respond(db, c)], steps - 1)
  }

  /** Answer n of all is what call n heard, and call n is what the program asks for after the answers before it. */
  ghost predicate HeardAt(program: Program, db: Db, cs: seq<Call>, all: seq<Response>, from: nat, n: nat)
    requires db.Ordered() && n < |cs| && |all| == from + |cs|
  {
    program(all[..from + n]) == Some(cs[n]) && all[from + n] == Respond(Run(db, cs[..n]), cs[n])
  }

  lemma RunFirst(db: Db, c: Call, cs: seq<Call>)
    requires db.Ordered()
    ensures Run(db, [c] + cs) == Run(Step(db, c), cs)
  {
    assert ([c] + cs)[1..] == cs;
  }

  lemma HeardLater(program: Program, db: Db, c: Call, cs: seq<Call>, all: seq<Response>, from: nat, n: nat)
    requires db.Ordered() && 0 < n < 1 + |cs| && |all| == from + 1 + |cs|
    requires HeardAt(program, Step(db, c), cs, all, from + 1, n - 1)
    ensures HeardAt(program, db, [c] + cs, all, from, n)
  {
    hide Step, Respond;
    RunFirst(db, c, cs[..n - 1]);
    assert ([c] + cs)[..n] == [c] + cs[..n - 1];
  }

  /**
   cs are the calls of a message and all is what it heard: it leaves what the run of its calls leaves, each
   call is what the program asks for after the answers so far, each answer is the one of its moment, and
   it stops only when the program does, or its steps are used up.
   */
  ghost predicate Transcribed(program: Program, db: Db, heard: seq<Response>, steps: nat, cs: seq<Call>, r: Db,
      all: seq<Response>)
    requires db.Ordered()
  {
    && r == Run(db, cs) && heard <= all && |all| == |heard| + |cs|
    && (forall n :: 0 <= n < |cs| ==> HeardAt(program, db, cs, all, |heard|, n))
    && |cs| <= steps && (|cs| < steps ==> program(all).None?)
  }

  lemma TranscribedOn(program: Program, db: Db, heard: seq<Response>, steps: nat, c: Call, cs: seq<Call>, r: Db,
      all: seq<Response>)
    requires db.Ordered() && steps > 0 && program(heard) == Some(c)
    requires Transcribed(program, Step(db, c), heard + [Respond(db, c)], steps - 1, cs, r, all)
    ensures Transcribed(program, db, heard, steps, [c] + cs, r, all)
  {
    RunFirst(db, c, cs);
    hide Step, Respond, Run, HeardAt;
    forall n | 0 <= n < 1 + |cs| ensures HeardAt(program, db, [c] + cs, all, |heard|, n) {
      if n == 0 {
        FirstHeard(program, db, c, cs, all, heard);
      } else {
        HeardLater(program, db, c, cs, all, |heard|, n);
      }
    }
  }

  lemma NothingAsked(program: Program, db: Db, heard: seq<Response>, steps: nat)
    requires db.Ordered() && (steps == 0 || program(heard).None?)
    ensures Execute(program, db, heard, steps) == (db, heard) && Asked(program, db, heard, steps) == []
    ensures Transcribed(program, db, heard, steps, [], db, heard)
  {
  }

  lemma ExecuteUnfolds(program: Program, db: Db, heard: seq<Response>, steps: nat)
    requires db.Ordered() && steps > 0 && program(heard).Some?
    ensures var c := program(heard).value;
      var next, more := Step(db, c), heard + [Respond(db, c)];
      && Execute(program, db, heard, steps) == Execute(program, next, more, steps - 1)
      && Asked(program, db, heard, steps) == [c] + Asked(program, next, more, steps - 1)
  {
    hide Step, Respond;
  }

  /** What a message does is the run of the calls it asks for. */
  lemma {:induction false} Transcript(program: Program, db: Db, heard: seq<Response>, steps: nat)
    requires db.Ordered()
    ensures var (r, all) := Execute(program, db, heard, steps);
      Transcribed(program, db, heard, steps, Asked(program, db, heard, steps), r, all)
    decreases steps
  {
    hide *;
    if steps == 0 || program(heard).None? {
      NothingAsked(program, db, heard, steps);
    } else {
      var c := program(heard).value;
      var next, more := Step(db, c), heard + [Respond(db, c)];
      Transcript(program, next, more, steps - 1);
      var (r, all) := Execute(program, next, more, steps - 1);
      ExecuteUnfolds(program, db, heard, steps);
      TranscribedOn(program, db, heard, steps, c, Asked(program, next, more, steps - 1), r, all);
    }
  }

  lemma FirstHeard(program: Program, db: Db, c: Call, cs: seq<Call>, all: seq<Response>, heard: seq<Response>)
    requires db.Ordered() && program(heard) == Some(c) && |all| == |heard| + 1 + |cs|
    requires heard + [Respond(db, c)] <= all
    ensures HeardAt(program, db, [c] + cs, all, |heard|, 0)
  {
    assert all[..|heard|] == heard;
    assert ([c] + cs)[..0] == [];
  }

  /******* Blocks *******/

  lemma {:induction false} RunConcat(db: Db, cs: seq<Call>, ds: seq<Call>)
    requires db.Ordered()
    ensures Run(db, cs + ds) == Run(Run(db, cs), ds)
    decreases |cs|
  {
    hide Step;
    if cs == [] {
      assert cs + ds == ds;
    } else {
      assert (cs + ds)[1..] == cs[1..] + ds;
      RunConcat(Step(db, cs[0]), cs[1..], ds);
    }
  }

  /** The context of the transaction, set twice, and the calls of its message. */
  function CallsOf(t: Tally, tx: Transaction, i: nat): seq<Call>
    requires t.db.Ordered()
  {
    [SetTxContext(tx.hash, i)] +
    match tx.message
    case None => []
    case Some(m) =>
      [SetTxContext(tx.hash, |t.db.LogsOf(tx.hash)|)]
      + Asked(m.program(t.pool), Entered(t.db, tx.hash, i), [], m.steps)
  }

  function BlockCalls(t: Tally, txs: seq<Transaction>, i: nat): seq<Call>
    requires t.db.Ordered()
    decreases |txs| - i
  {
    if i >= |txs| then [] else CallsOf(t, txs[i], i) + BlockCalls(ApplyOne(t, txs[i], i), txs, i + 1)
  }

  lemma ContextSteps(db: Db, hash: Hash, i: nat)
    requires db.Ordered()
    ensures Step(db, SetTxContext(hash, i)) == db.SetTxContext(hash, i)
    ensures Step(db.SetTxContext(hash, i), SetTxContext(hash, |db.LogsOf(hash)|)) == Entered(db, hash, i)
  {
    assert db.SetTxContext(hash, i).LogsOf(hash) == db.LogsOf(hash);
  }

  lemma OneCall(db: Db, c: Call)
    requires db.Ordered()
    ensures Run(db, [c]) == Step(db, c)
  {
    hide Step;
    assert [c][1..] == [];
  }

  lemma EnteredIsRun(db: Db, hash: Hash, i: nat)
    requires db.Ordered()
    ensures Run(db, [SetTxContext(hash, i)]) == db.SetTxContext(hash, i)
    ensures Run(db, [SetTxContext(hash, i)] + [SetTxContext(hash, |db.LogsOf(hash)|)]) == Entered(db, hash, i)
  {
    var c, d := SetTxContext(hash, i), SetTxContext(hash, |db.LogsOf(hash)|);
    hide *;
    ContextSteps(db, hash, i);
    OneCall(db, c);
    OneCall(Step(db, c), d);
    RunConcat(db, [c], [d]);
  }

  lemma MessageIsRun(t: Tally, tx: Transaction, i: nat)
    requires t.db.Ordered() && tx.message.Some?
    ensures var m, start := tx.message.value, Entered(t.db, tx.hash, i);
      ApplyOne(t, tx, i).db == Run(start, Asked(m.program(t.pool), start, [], m.steps))
  {
    var m, start := tx.message.value, Entered(t.db, tx.hash, i);
    hide Entered, Run, Asked;
    Transcript(m.program(t.pool), start, [], m.steps);
    hide Execute;
  }

  lemma CallsOfMessage(t: Tally, tx: Transaction, i: nat)
    requires t.db.Ordered() && tx.message.Some?
    ensures var m, start := tx.message.value, Entered(t.db, tx.hash, i);
      CallsOf(t, tx, i) == [SetTxContext(tx.hash, i)] + [SetTxContext(tx.hash, |t.db.LogsOf(tx.hash)|)]
        + Asked(m.program(t.pool), start, [], m.steps)
  {
    hide Entered, Asked;
  }

  lemma NoMessageIsRun(t: Tally, tx: Transaction, i: nat)
    requires t.db.Ordered() && tx.message.None?
    ensures ApplyOne(t, tx, i).db == Run(t.db, CallsOf(t, tx, i))
  {
    hide Run, Entered;
    EnteredIsRun(t.db, tx.hash, i);
    assert CallsOf(t, tx, i) == [SetTxContext(tx.hash, i)];
  }

  lemma TransactionIsRun(t: Tally, tx: Transaction, i: nat)
    requires t.db.Ordered()
    ensures ApplyOne(t, tx, i).db == Run(t.db, CallsOf(t, tx, i))
  {
    hide *;
    if tx.message.None? {
      NoMessageIsRun(t, tx, i);
    } else {
      var m, start := tx.message.value, Entered(t.db, tx.hash, i);
      var two := [SetTxContext(tx.hash, i)] + [SetTxContext(tx.hash, |t.db.LogsOf(tx.hash)|)];
      EnteredIsRun(t.db, tx.hash, i);
      CallsOfMessage(t, tx, i);
      MessageIsRun(t, tx, i);
      RunConcat(t.db, two, Asked(m.program(t.pool), start, [], m.steps));
    }
  }

  lemma {:induction false} BlockIsRun(t: Tally, txs: seq<Transaction>, i: nat)
    requires t.db.Ordered()
    ensures ApplyFrom(t, txs, i).db == Run(t.db, BlockCalls(t, txs, i))
    decreases |txs| - i
  {
    hide ApplyOne, CallsOf;
    if i < |txs| {
      var u := ApplyOne(t, txs[i], i);
      TransactionIsRun(t, txs[i], i);
      BlockIsRun(u, txs, i + 1);
      RunConcat(t.db, CallsOf(t, txs[i], i), BlockCalls(u, txs, i + 1));
    }
  }

  lemma {:induction false} RunIsTraced(t: Traced, cs: seq<Call>)
    requires Aligned(t)
    ensures TRun(t, cs).db == Run(t.db, cs)
    decreases |cs|
  {
    hide Step;
    if cs != [] {
      RunIsTraced(TStep(t, cs[0]), cs[1..]);
    }
  }

  /** All calls of a block over the parent's state. */
  function WholeBlock(store: Store, n: nat, txs: seq<Transaction>, gasLimit: nat): seq<Call> {
    BlockCalls(Tally(NewDb(store, n), gasLimit, 0, []), txs, 0)
  }

  /** The transactions of a block, one after the other, are one run over the parent's state. */
  lemma BlockTranscript(store: Store, n: nat, txs: seq<Transaction>, gasLimit: nat)
    ensures ApplyAll(NewDb(store, n), txs, gasLimit).db ==
      TRun(Opened(store, n), WholeBlock(store, n, txs, gasLimit)).db
  {
    hide BlockCalls, ApplyFrom, TRun, Run;
    BlockIsRun(Tally(NewDb(store, n), gasLimit, 0, []), txs, 0);
    RunIsTraced(Opened(store, n), WholeBlock(store, n, txs, gasLimit));
  }

  lemma StateAnswered(db: Db, a: Address, k: Hash)
    ensures Answer(db, GetState(a, k)) == Word(db.State(a, k))
  {
  }

  /** So a slot holds, after a block, the last word that its calls set and no revert undid, else the parent's. */
  lemma BlockLeavesState(store: Store, n: nat, txs: seq<Transaction>, gasLimit: nat, a: Address, k: Hash)
    ensures ApplyAll(NewDb(store, n), txs, gasLimit).db.State(a, k) ==
      Last(Standing(store, n, WholeBlock(store, n, txs, gasLimit)), WordGiven(a, k), StoredWord(store, n, a, k))
  {
    var cs := WholeBlock(store, n, txs, gasLimit);
    var end := TRun(Opened(store, n), cs).db;
    hide *;
    StateAnswered(end, a, k);
    BlockTranscript(store, n, txs, gasLimit);
    HeardState(store, n, cs, a, k);
  }
}
