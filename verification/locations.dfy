/**
 Reverting, one location at a time. A revert that goes wrong at one address says nothing about any
 other location: slots, flags, logs, the counters and preimages come back on every run, and the
 record of an account comes back as long as the reverts so far were right at that account.
 */
module Locations {
  import opened Types
  import opened WorldState
  import opened Revert
  import opened Runs

  /** What a revert to mark k must meet at x: nothing, unless the record of x falls back to the store. */
  predicate RecoverableAt(db: Db, s: Db, k: nat, x: Loc)
    requires k <= |db.journal|
  {
    x.AccountLoc? && FallsToBase(db, k, x.addr) ==> SameRecord(s.Account(x.addr), db.Base(x.addr))
  }

  /** The present, undone to mark k, is what s showed at x. */
  ghost predicate RemembersAt(db: Db, s: Db, k: nat, x: Loc) {
    k <= |db.journal| && s.store == db.store && s.block == db.block &&
        View(s, x) == Ideal(db.journal[k..], x, View(db, x))
  }

  ghost predicate TrackedLoc(t: Traced, x: Loc)
    requires Aligned(t)
  {
    forall i :: 0 <= i < |t.saved| ==> RemembersAt(t.db, t.saved[i], t.db.revisions[i].journalIndex, x)
  }

  lemma UndoExactnessAt(db: Db, s: Db, k: nat, x: Loc)
    requires RemembersAt(db, s, k, x)
    ensures View(db.UndoAll(db.journal[k..]), x) == View(s, x) <==> RecoverableAt(db, s, k, x)
  {
    var js := db.journal[k..];
    LookUndoAll(db, js, x);
    BackVersusIdeal(Pristine(db, x), js, x, Look(db, x));
  }

  /** Undoing does not look at the journal and the revision stack. */
  lemma RevertView(db: Db, i: nat, x: Loc)
    requires db.Ordered() && i < |db.revisions|
    ensures View(db.RevertTo(i), x) == View(db.UndoAll(db.journal[db.revisions[i].journalIndex..]), x)
  {
  }

  /** The revert c, if it is one, is right at x. */
  ghost predicate SoundAt(t: Traced, c: Call, x: Loc)
    requires Aligned(t)
  {
    c.RevertToSnapshot? && t.db.Find(c.id).Some? ==>
      var i := t.db.Find(c.id).value;
      RecoverableAt(t.db, t.saved[i], t.db.revisions[i].journalIndex, x)
  }

  ghost predicate SoundRunAt(t: Traced, cs: seq<Call>, x: Loc)
    requires Aligned(t)
    decreases |cs|
  {
    cs != [] ==> SoundAt(t, cs[0], x) && SoundRunAt(TStep(t, cs[0]), cs[1..], x)
  }

  lemma RememberedAfterCall(db: Db, s: Db, k: nat, c: Call, x: Loc)
    requires RemembersAt(db, s, k, x)
    ensures RemembersAt(Advance(db, c), s, k, x)
  {
    CallExtends(db, c);
    hide Advance;
    var r := Advance(db, c);
    assert r.journal[k..] == db.journal[k..] + Added(db, c);
    IdealConcat(db.journal[k..], Added(db, c), x, View(r, x));
  }

  lemma RememberedAfterRevert(db: Db, s: Db, k: nat, i: nat, was: Db, x: Loc)
    requires db.Ordered() && i < |db.revisions| && k <= db.revisions[i].journalIndex
    requires RemembersAt(db, s, k, x) && RemembersAt(db, was, db.revisions[i].journalIndex, x)
    requires View(db.RevertTo(i), x) == View(was, x)
    ensures RemembersAt(db.RevertTo(i), s, k, x)
  {
    var r, ki := db.RevertTo(i), db.revisions[i].journalIndex;
    assert db.journal[k..] == r.journal[k..] + db.journal[ki..];
    IdealConcat(r.journal[k..], db.journal[ki..], x, View(db, x));
  }

  lemma SnapshotLoc(t: Traced, x: Loc)
    requires Aligned(t) && TrackedLoc(t, x)
    ensures TrackedLoc(TStep(t, Snapshot), x)
  {
    var r := TStep(t, Snapshot);
    assert View(r.db, x) == View(t.db, x);
    assert r.db.journal[|r.db.journal|..] == [];
    forall i | 0 <= i < |r.saved| ensures RemembersAt(r.db, r.saved[i], r.db.revisions[i].journalIndex, x) {
      if i < |t.saved| {
        assert RemembersAt(t.db, t.saved[i], t.db.revisions[i].journalIndex, x);
      }
    }
  }

  lemma RevertLoc(t: Traced, c: Call, x: Loc)
    requires Aligned(t) && TrackedLoc(t, x) && SoundAt(t, c, x) && c.RevertToSnapshot? && t.db.Find(c.id).Some?
    ensures TrackedLoc(TStep(t, c), x)
  {
    var i := t.db.Find(c.id).value;
    var k := t.db.revisions[i].journalIndex;
    assert RemembersAt(t.db, t.saved[i], k, x);
    UndoExactnessAt(t.db, t.saved[i], k, x);
    RevertView(t.db, i, x);
    var r := TStep(t, c);
    hide RemembersAt, View;
    forall j | 0 <= j < |r.saved| ensures RemembersAt(r.db, r.saved[j], r.db.revisions[j].journalIndex, x) {
      assert RemembersAt(t.db, t.saved[j], t.db.revisions[j].journalIndex, x);
      RememberedAfterRevert(t.db, t.saved[j], t.db.revisions[j].journalIndex, i, t.saved[i], x);
    }
  }

  lemma StepLoc(t: Traced, c: Call, x: Loc)
    requires Aligned(t) && TrackedLoc(t, x) && SoundAt(t, c, x)
    ensures TrackedLoc(TStep(t, c), x)
  {
    if c.Snapshot? {
      SnapshotLoc(t, x);
    } else if c.RevertToSnapshot? {
      if t.db.Find(c.id).Some? {
        RevertLoc(t, c, x);
      }
    } else {
      hide RemembersAt, Advance;
      forall i | 0 <= i < |t.saved| ensures RemembersAt(Advance(t.db, c), t.saved[i], t.db.revisions[i].journalIndex,
          x) {
        RememberedAfterCall(t.db, t.saved[i], t.db.revisions[i].journalIndex, c, x);
      }
    }
  }

  lemma {:induction false} RunLoc(t: Traced, cs: seq<Call>, x: Loc)
    requires Aligned(t) && TrackedLoc(t, x) && SoundRunAt(t, cs, x)
    ensures TrackedLoc(TRun(t, cs), x)
    decreases |cs|
  {
    hide TrackedLoc, SoundAt, TStep, Aligned;
    if cs != [] {
      StepLoc(t, cs[0], x);
      RunLoc(TStep(t, cs[0]), cs[1..], x);
    }
  }

  /**
   After any run whose earlier reverts were right at x, whatever they did elsewhere, the next revert
   to any live snapshot gives x back exactly when it is right at x too.
   */
  lemma RevertExactnessAt(store: Store, block: nat, cs: seq<Call>, i: nat, x: Loc)
    requires SoundRunAt(Opened(store, block), cs, x) && i < |TRun(Opened(store, block), cs).saved|
    ensures var t := TRun(Opened(store, block), cs);
      View(t.db.RevertToSnapshot(t.db.revisions[i].id), x) == View(t.saved[i], x) <==>
        RecoverableAt(t.db, t.saved[i], t.db.revisions[i].journalIndex, x)
  {
    var t := TRun(Opened(store, block), cs);
    RunLoc(Opened(store, block), cs, x);
    hide RemembersAt, View, RecoverableAt;
    assert RemembersAt(t.db, t.saved[i], t.db.revisions[i].journalIndex, x);
    UndoExactnessAt(t.db, t.saved[i], t.db.revisions[i].journalIndex, x);
    RevertView(t.db, i, x);
    RevertById(t.db, i);
  }

  lemma {:induction false} SoundOffAccounts(t: Traced, cs: seq<Call>, x: Loc)
    requires Aligned(t) && !x.AccountLoc?
    ensures SoundRunAt(t, cs, x)
    decreases |cs|
  {
    hide TStep, Aligned;
    if cs != [] {
      SoundOffAccounts(TStep(t, cs[0]), cs[1..], x);
    }
  }

  /** Slots, self-destruct flags, refund, logs, log counter and preimages: every revert of every run is exact. */
  lemma AlwaysRestored(store: Store, block: nat, cs: seq<Call>, i: nat, x: Loc)
    requires !x.AccountLoc? && i < |TRun(Opened(store, block), cs).saved|
    ensures var t := TRun(Opened(store, block), cs);
      View(t.db.RevertToSnapshot(t.db.revisions[i].id), x) == View(t.saved[i], x)
  {
    SoundOffAccounts(Opened(store, block), cs, x);
    RevertExactnessAt(store, block, cs, i, x);
  }

  /******* Code bytes *******/

  /** No call brings code that collides with code held at the time. */
  ghost predicate LegalRun(t: Traced, cs: seq<Call>)
    requires Aligned(t)
    decreases |cs|
  {
    cs != [] ==> Legal(t.db, cs[0]) && LegalRun(TStep(t, cs[0]), cs[1..])
  }

  ghost predicate CodeTracked(t: Traced) {
    CodeSound(t.db) && forall i :: 0 <= i < |t.saved| ==> CodeTrackedAt(t.db, t.saved[i])
  }

  ghost predicate CodeTrackedAt(db: Db, s: Db) {
    AccountsHeld(s) && CodesKept(s, db)
  }

  lemma KeptAgain(s: Db, db: Db, r: Db)
    requires CodeTrackedAt(db, s) && CodesKept(db, r)
    ensures CodeTrackedAt(r, s)
  {
  }

  /** Undoing a record whose code is held keeps every hash in use held. */
  lemma UndoCodeSound(db: Db, e: Entry)
    requires CodeSound(db) && CodeEntryHeld(db, e)
    ensures CodeSound(db.Undo(e))
  {
    var r := db.Undo(e);
    UndoKeepsCodes(db, e);
    forall a ensures r.Base(a) == db.Base(a) &&
        r.StoredCode(r.Base(a).codeHash) == db.StoredCode(db.Base(a).codeHash) {}
    forall a | r.Account(a).codeHash != ZERO_HASH ensures r.Held(r.Account(a).codeHash) {
      UndoOnHash(db, e, a);
    }
    forall i | 0 <= i < |r.journal| ensures CodeEntryHeld(r, r.journal[i]) {
      assert CodeEntryHeld(db, db.journal[i]);
    }
  }

  lemma UndoOnHash(db: Db, e: Entry, a: Address)
    ensures var h := db.Undo(e).Account(a).codeHash;
      h == db.Account(a).codeHash || h == db.Base(a).codeHash || (e.CodeChange? && h == e.prevHash)
  {
    assert db.Undo(e).Base(a) == db.Base(a);
  }

  lemma {:induction false} UndoAllCodeSound(db: Db, js: seq<Entry>)
    requires CodeSound(db) && forall e :: e in js ==> CodeEntryHeld(db, e)
    ensures CodeSound(db.UndoAll(js)) && CodesKept(db, db.UndoAll(js))
    decreases |js|
  {
    UndoAllKeepsCodes(db, js);
    if js != [] {
      var d := db.UndoAll(js[1..]);
      UndoAllCodeSound(db, js[1..]);
      assert CodeEntryHeld(db, js[0]);
      assert db.UndoAll(js) == d.Undo(js[0]);
      hide CodeSound;
      UndoCodeSound(d, js[0]);
    }
  }

  lemma PrefixCodeSound(d: Db, r: Db)
    requires CodeSound(d) && r.store == d.store && r.block == d.block && r.accounts == d.accounts && r.codes == d.codes
    requires r.journal <= d.journal
    ensures CodeSound(r) && CodesKept(d, r)
  {
    forall a ensures r.Base(a) == d.Base(a) && r.Account(a) == d.Account(a) {}
    forall h ensures r.Held(h) == d.Held(h) && r.Lookup(h) == d.Lookup(h) && r.StoredCode(h) == d.StoredCode(h) {}
    forall i | 0 <= i < |r.journal| ensures CodeEntryHeld(r, r.journal[i]) {
      assert r.journal[i] == d.journal[i] && CodeEntryHeld(d, d.journal[i]);
    }
  }

  lemma JournalHeld(db: Db, k: nat)
    requires CodeSound(db) && k <= |db.journal|
    ensures forall e :: e in db.journal[k..] ==> CodeEntryHeld(db, e)
  {
    forall e | e in db.journal[k..] ensures CodeEntryHeld(db, e) {
      var i :| 0 <= i < |db.journal[k..]| && db.journal[k..][i] == e;
      assert CodeEntryHeld(db, db.journal[k + i]);
    }
  }

  lemma RevertCodeSound(db: Db, i: nat)
    requires CodeSound(db) && db.Ordered() && i < |db.revisions|
    ensures CodeSound(db.RevertTo(i)) && CodesKept(db, db.RevertTo(i))
  {
    var k := db.revisions[i].journalIndex;
    JournalHeld(db, k);
    UndoAllCodeSound(db, db.journal[k..]);
    PrefixCodeSound(db.UndoAll(db.journal[k..]), db.RevertTo(i));
  }

  lemma StepCode(t: Traced, c: Call)
    requires Aligned(t) && CodeTracked(t) && Legal(t.db, c)
    ensures CodeTracked(TStep(t, c))
  {
    var r := TStep(t, c);
    hide Advance, CodeSound;
    if c.Snapshot? {
      PrefixCodeSound(t.db, r.db);
      assert CodeTrackedAt(t.db, t.db) by { SoundTracksItself(t.db); }
    } else if c.RevertToSnapshot? {
      if t.db.Find(c.id).Some? {
        RevertCodeSound(t.db, t.db.Find(c.id).value);
      }
    } else {
      CallKeepsCodeSound(t.db, c);
    }
    assert CodesKept(t.db, r.db);
    forall i | 0 <= i < |r.saved| ensures CodeTrackedAt(r.db, r.saved[i]) {
      assert CodeTrackedAt(t.db, r.saved[i]);
      KeptAgain(r.saved[i], t.db, r.db);
    }
  }

  lemma SoundTracksItself(db: Db)
    requires CodeSound(db)
    ensures CodeTrackedAt(db, db)
  {
  }

  lemma {:induction false} RunCode(t: Traced, cs: seq<Call>)
    requires Aligned(t) && CodeTracked(t) && LegalRun(t, cs)
    ensures CodeTracked(TRun(t, cs))
    decreases |cs|
  {
    hide CodeTracked, Legal, TStep, Aligned;
    if cs != [] {
      StepCode(t, cs[0]);
      RunCode(TStep(t, cs[0]), cs[1..]);
    }
  }

  lemma SameHashSameCode(db: Db, s: Db, r: Db, a: Address)
    requires CodeTrackedAt(db, s) && CodesKept(db, r) && View(r, AccountLoc(a)) == View(s, AccountLoc(a))
    ensures r.Code(a) == s.Code(a)
  {
    assert r.Account(a).codeHash == s.Account(a).codeHash;
  }

  /** An account's record and code bytes together, under the same condition at that account alone. */
  lemma CodeRevertExactness(store: Store, block: nat, cs: seq<Call>, i: nat, a: Address)
    requires CodesComplete(NewDb(store, block)) && LegalRun(Opened(store, block), cs)
    requires SoundRunAt(Opened(store, block), cs, AccountLoc(a)) && i < |TRun(Opened(store, block), cs).saved|
    ensures var t := TRun(Opened(store, block), cs);
      var r, s := t.db.RevertToSnapshot(t.db.revisions[i].id), t.saved[i];
      View(r, AccountLoc(a)) == View(s, AccountLoc(a)) && r.Code(a) == s.Code(a) <==>
        RecoverableAt(t.db, s, t.db.revisions[i].journalIndex, AccountLoc(a))
  {
    var t := TRun(Opened(store, block), cs);
    RevertExactnessAt(store, block, cs, i, AccountLoc(a));
    OpenedTracked(store, block);
    RunCode(Opened(store, block), cs);
    hide CodeSound, CodeTrackedAt, CodesKept, RecoverableAt, View;
    RevertCodeSound(t.db, i);
    RevertById(t.db, i);
    if View(t.db.RevertTo(i), AccountLoc(a)) == View(t.saved[i], AccountLoc(a)) {
      SameHashSameCode(t.db, t.saved[i], t.db.RevertTo(i), a);
    }
  }
}
