/**
 Runs in which CreateAccount only fires on an address without a live account record in the journal.
 The guard is checked address by address: where it was kept, every revert is right.
 */
module Guarded {
  import opened Types
  import opened WorldState
  import opened Revert
  import opened Runs
  import opened Locations

  predicate Restored(js: seq<Entry>, a: Address) {
    exists i :: 0 <= i < |js| && js[i].RestoresAccount(a)
  }

  /** A creation of a is its oldest live record, a live record of a means that it is loaded. */
  ghost predicate GroundedAt(db: Db, a: Address) {
    && (forall i :: 0 <= i < |db.journal| && db.journal[i] == CreateObjectChange(a) ==> !Restored(db.journal[..i], a))
    && (Restored(db.journal, a) ==> a in db.accounts)
    && Fields(true, db.Base(a)) == Ideal(db.journal, AccountLoc(a), View(db, AccountLoc(a)))
  }

  /** The guard a caller keeps: checked just before the call. */
  predicate CreateGuard(db: Db, c: Call, a: Address) {
    c == CreateAccount(a) && db.Empty(a) ==> !Restored(db.journal, a)
  }

  lemma Untouched(js: seq<Entry>, a: Address, v: Val)
    requires !Restored(js, a)
    ensures Ideal(js, AccountLoc(a), v) == v
  {
    forall e | e in js ensures IdealUndo(e, AccountLoc(a), v) == v {
      var i :| 0 <= i < |js| && js[i] == e;
    }
    ForeignEntriesInvisible(js, AccountLoc(a), v);
  }

  lemma RestoredPrefix(js: seq<Entry>, k: nat, a: Address)
    requires k <= |js|
    ensures Restored(js[..k], a) ==> Restored(js, a)
  {
    if Restored(js[..k], a) {
      var i :| 0 <= i < k && js[..k][i].RestoresAccount(a);
      assert js[i].RestoresAccount(a);
    }
  }

  lemma NoOlderRecord(db: Db, k: nat, a: Address)
    requires GroundedAt(db, a) && k <= |db.journal| && FallsToBase(db, k, a)
    ensures !Restored(db.journal[..k], a)
  {
    RestoredPrefix(db.journal, k, a);
    if CreateObjectChange(a) in db.journal[k..] {
      var i :| k <= i < |db.journal| && db.journal[i] == CreateObjectChange(a);
      assert db.journal[..i][..k] == db.journal[..k];
      RestoredPrefix(db.journal[..i], k, a);
    }
  }

  /** Under the guard the record of a is right at every live snapshot. */
  lemma GroundedRecoverable(db: Db, s: Db, k: nat, a: Address)
    requires RemembersAt(db, s, k, AccountLoc(a)) && GroundedAt(db, a)
    ensures RecoverableAt(db, s, k, AccountLoc(a))
  {
    if FallsToBase(db, k, a) {
      NoOlderRecord(db, k, a);
      var x := AccountLoc(a);
      assert db.journal == db.journal[..k] + db.journal[k..];
      IdealConcat(db.journal[..k], db.journal[k..], x, View(db, x));
      Untouched(db.journal[..k], a, View(s, x));
    }
  }

  lemma OthersRestoreNothing(db: Db, c: Call)
    requires !AccountCall(c)
    ensures forall e, a :: e in Added(db, c) ==> !e.RestoresAccount(a)
  {
    forall e, a | e in Added(db, c) ensures !e.RestoresAccount(a) {
      if AccessCall(c) { AccessCallKinds(db, c, e); } else { OtherCallKinds(db, c); }
    }
  }

  lemma AddedLoaded(db: Db, c: Call, a: Address)
    ensures Restored(Added(db, c), a) ==> a in Advance(db, c).accounts
    ensures !AccountCall(c) ==> !Restored(Added(db, c), a)
  {
    hide AdvanceAccount, Update;
    if AccountCall(c) { AccountCallShape(db, c); } else { OthersRestoreNothing(db, c); }
  }

  lemma AddedCreate(db: Db, c: Call)
    ensures forall i :: 0 <= i < |Added(db, c)| && Added(db, c)[i].CreateObjectChange? ==>
              c.CreateAccount? && db.Empty(c.addr) && i == 0 && Added(db, c)[i].account == c.addr
  {
    if AccountCall(c) {
      AccountCallShape(db, c);
    } else {
      OthersRestoreNothing(db, c);
      forall i | 0 <= i < |Added(db, c)| ensures !Added(db, c)[i].CreateObjectChange? {
        assert Added(db, c)[i].CreateObjectChange? ==> Added(db, c)[i].RestoresAccount(Added(db, c)[i].account);
      }
    }
  }

  lemma StillLoaded(db: Db, c: Call)
    ensures db.accounts.Keys <= Advance(db, c).accounts.Keys
  {
    hide AdvanceAccount, Update;
    if AccountCall(c) {
      AccountCallShape(db, c);
    }
  }

  lemma CallKeepsCreates(db: Db, c: Call, i: nat, a: Address)
    requires GroundedAt(db, a) && CreateGuard(db, c, a)
    requires i < |Advance(db, c).journal| && Advance(db, c).journal[i] == CreateObjectChange(a)
    ensures !Restored(Advance(db, c).journal[..i], a)
  {
    var r := Advance(db, c);
    if i >= |db.journal| {
      AddedCreate(db, c);
      assert r.journal[i] == Added(db, c)[i - |db.journal|];
      assert r.journal[..i] == db.journal;
    } else {
      assert r.journal[..i] == db.journal[..i];
    }
  }

  lemma CallKeepsLoaded(db: Db, c: Call, a: Address)
    requires GroundedAt(db, a) && Restored(Advance(db, c).journal, a)
    ensures a in Advance(db, c).accounts
  {
    var r := Advance(db, c);
    StillLoaded(db, c);
    AddedLoaded(db, c, a);
    var i :| 0 <= i < |r.journal| && r.journal[i].RestoresAccount(a);
    if i < |db.journal| {
      assert db.journal[i].RestoresAccount(a);
    } else {
      assert Added(db, c)[i - |db.journal|].RestoresAccount(a);
    }
  }

  lemma CallGrounded(db: Db, c: Call, a: Address)
    requires GroundedAt(db, a) && CreateGuard(db, c, a)
    ensures GroundedAt(Advance(db, c), a)
  {
    var r, js := Advance(db, c), Added(db, c);
    forall i | 0 <= i < |r.journal| && r.journal[i] == CreateObjectChange(a) ensures !Restored(r.journal[..i], a) {
      CallKeepsCreates(db, c, i, a);
    }
    if Restored(r.journal, a) {
      CallKeepsLoaded(db, c, a);
    }
    CallExtends(db, c);
    IdealConcat(db.journal, js, AccountLoc(a), View(r, AccountLoc(a)));
    assert r.Base(a) == db.Base(a);
    assert View(db, AccountLoc(a)) == Ideal(js, AccountLoc(a), View(r, AccountLoc(a)));
  }

  lemma RevertKeepsLoaded(db: Db, i: nat, a: Address)
    requires db.Ordered() && i < |db.revisions| && GroundedAt(db, a) && Restored(db.RevertTo(i).journal, a)
    ensures a in db.RevertTo(i).accounts
  {
    var k := db.revisions[i].journalIndex;
    var js, x := db.journal[k..], AccountLoc(a);
    if FallsToBase(db, k, a) {
      NoOlderRecord(db, k, a);
    } else {
      LookUndoAll(db, js, x);
      BackVersusIdeal(Pristine(db, x), js, x, Look(db, x));
    }
  }

  lemma RevertGrounded(db: Db, s: Db, i: nat, a: Address)
    requires db.Ordered() && i < |db.revisions| && GroundedAt(db, a)
    requires RemembersAt(db, s, db.revisions[i].journalIndex, AccountLoc(a))
    ensures GroundedAt(db.RevertTo(i), a)
  {
    var k, r, x := db.revisions[i].journalIndex, db.RevertTo(i), AccountLoc(a);
    GroundedRecoverable(db, s, k, a);
    UndoExactnessAt(db, s, k, x);
    RevertView(db, i, x);
    forall j | 0 <= j < |r.journal| && r.journal[j] == CreateObjectChange(a) ensures !Restored(r.journal[..j], a) {
      assert r.journal[j] == db.journal[j] && r.journal[..j] == db.journal[..j];
    }
    if Restored(r.journal, a) {
      RevertKeepsLoaded(db, i, a);
    }
    assert r.Base(a) == db.Base(a);
    assert db.journal == r.journal + db.journal[k..];
    IdealConcat(r.journal, db.journal[k..], x, View(db, x));
  }

  lemma SnapshotGrounded(db: Db, a: Address)
    requires GroundedAt(db, a)
    ensures GroundedAt(db.Snapshot(), a)
  {
    var r := db.Snapshot();
    assert r.Base(a) == db.Base(a) && View(r, AccountLoc(a)) == View(db, AccountLoc(a));
  }

  /** The guard was kept at a, whatever the calls did to other addresses. */
  ghost predicate GuardedAt(t: Traced, cs: seq<Call>, a: Address)
    requires Aligned(t)
    decreases |cs|
  {
    cs != [] ==> CreateGuard(t.db, cs[0], a) && GuardedAt(TStep(t, cs[0]), cs[1..], a)
  }

  ghost predicate GuardedRun(t: Traced, cs: seq<Call>)
    requires Aligned(t)
  {
    forall a :: GuardedAt(t, cs, a)
  }

  lemma StepGrounded(t: Traced, c: Call, a: Address)
    requires Aligned(t) && TrackedLoc(t, AccountLoc(a)) && GroundedAt(t.db, a) && CreateGuard(t.db, c, a)
    ensures SoundAt(t, c, AccountLoc(a)) && TrackedLoc(TStep(t, c), AccountLoc(a)) && GroundedAt(TStep(t, c).db, a)
  {
    hide GroundedAt, RemembersAt, RecoverableAt, Advance;
    if c.RevertToSnapshot? {
      if t.db.Find(c.id).Some? {
        var i := t.db.Find(c.id).value;
        assert RemembersAt(t.db, t.saved[i], t.db.revisions[i].journalIndex, AccountLoc(a));
        GroundedRecoverable(t.db, t.saved[i], t.db.revisions[i].journalIndex, a);
        RevertGrounded(t.db, t.saved[i], i, a);
      }
    } else if c.Snapshot? {
      SnapshotGrounded(t.db, a);
    } else {
      CallGrounded(t.db, c, a);
    }
    StepLoc(t, c, AccountLoc(a));
  }

  /** Where the guard is kept, every revert of the run is right, and the invariant holds at its end. */
  lemma {:induction false} RunGrounded(t: Traced, cs: seq<Call>, a: Address)
    requires Aligned(t) && TrackedLoc(t, AccountLoc(a)) && GroundedAt(t.db, a) && GuardedAt(t, cs, a)
    ensures SoundRunAt(t, cs, AccountLoc(a)) && GroundedAt(TRun(t, cs).db, a)
    ensures TrackedLoc(TRun(t, cs), AccountLoc(a))
    decreases |cs|
  {
    hide Aligned, TrackedLoc, SoundAt, GroundedAt, TStep, CreateGuard;
    if cs != [] {
      StepGrounded(t, cs[0], a);
      RunGrounded(TStep(t, cs[0]), cs[1..], a);
    }
  }

  lemma OpenedGrounded(store: Store, block: nat, a: Address)
    ensures GroundedAt(NewDb(store, block), a)
  {
  }

  lemma GuardedIsSound(store: Store, block: nat, cs: seq<Call>, a: Address)
    requires GuardedAt(Opened(store, block), cs, a)
    ensures SoundRunAt(Opened(store, block), cs, AccountLoc(a)) && GroundedAt(TRun(Opened(store, block), cs).db, a)
    ensures TrackedLoc(TRun(Opened(store, block), cs), AccountLoc(a))
  {
    OpenedGrounded(store, block, a);
    RunGrounded(Opened(store, block), cs, a);
  }

  /** A live snapshot of a run that kept the guard at a is right at a. */
  lemma LiveRecoverable(store: Store, block: nat, cs: seq<Call>, i: nat, a: Address)
    requires GuardedAt(Opened(store, block), cs, a) && i < |TRun(Opened(store, block), cs).saved|
    ensures var t := TRun(Opened(store, block), cs);
      t.db.revisions[i].journalIndex <= |t.db.journal|
      && RecoverableAt(t.db, t.saved[i], t.db.revisions[i].journalIndex, AccountLoc(a))
  {
    GuardedIsSound(store, block, cs, a);
    var t := TRun(Opened(store, block), cs);
    hide GroundedAt, RecoverableAt, GuardedAt, SoundRunAt;
    assert RemembersAt(t.db, t.saved[i], t.db.revisions[i].journalIndex, AccountLoc(a));
    GroundedRecoverable(t.db, t.saved[i], t.db.revisions[i].journalIndex, a);
  }

  /** One account, under its own guard: going back to any live snapshot restores its record. */
  lemma NestedRevertAt(store: Store, block: nat, cs: seq<Call>, i: nat, a: Address)
    requires GuardedAt(Opened(store, block), cs, a) && i < |TRun(Opened(store, block), cs).saved|
    ensures var t := TRun(Opened(store, block), cs);
      View(t.db.RevertToSnapshot(t.db.revisions[i].id), AccountLoc(a)) == View(t.saved[i], AccountLoc(a))
  {
    GuardedIsSound(store, block, cs, a);
    LiveRecoverable(store, block, cs, i, a);
    hide GroundedAt, RecoverableAt, GuardedAt, SoundRunAt, TrackedLoc, View;
    RevertExactnessAt(store, block, cs, i, AccountLoc(a));
  }

  /** The same with the code bytes, as long as no call brings code that collides. */
  lemma NestedCodeAt(store: Store, block: nat, cs: seq<Call>, i: nat, a: Address)
    requires CodesComplete(NewDb(store, block)) && LegalRun(Opened(store, block), cs)
    requires GuardedAt(Opened(store, block), cs, a) && i < |TRun(Opened(store, block), cs).saved|
    ensures var t := TRun(Opened(store, block), cs);
      t.db.RevertToSnapshot(t.db.revisions[i].id).Code(a) == t.saved[i].Code(a)
  {
    GuardedIsSound(store, block, cs, a);
    LiveRecoverable(store, block, cs, i, a);
    hide GroundedAt, RecoverableAt, GuardedAt, SoundRunAt, TrackedLoc, View, LegalRun, CodesComplete;
    CodeRevertExactness(store, block, cs, i, a);
  }

  /**
   Exact nested revert: in every guarded run, with any nesting of snapshots and reverts, going
   back to any live snapshot restores everything observable when it was taken.
   */
  lemma NestedRevert(store: Store, block: nat, cs: seq<Call>, i: nat)
    requires CodesComplete(NewDb(store, block)) && LegalRun(Opened(store, block), cs)
    requires GuardedRun(Opened(store, block), cs) && i < |TRun(Opened(store, block), cs).saved|
    ensures var t := TRun(Opened(store, block), cs);
      SameWorld(t.db.RevertToSnapshot(t.db.revisions[i].id), t.saved[i])
  {
    hide GuardedAt, LegalRun, CodesComplete, TRun, View, Db.Code, Db.RevertToSnapshot;
    var t := TRun(Opened(store, block), cs);
    var r := t.db.RevertToSnapshot(t.db.revisions[i].id);
    forall x ensures View(r, x) == View(t.saved[i], x) {
      if x.AccountLoc? {
        NestedRevertAt(store, block, cs, i, x.addr);
      } else {
        AlwaysRestored(store, block, cs, i, x);
      }
    }
    forall a ensures r.Code(a) == t.saved[i].Code(a) {
      NestedCodeAt(store, block, cs, i, a);
    }
  }

  /** Creating an account and going straight back is exact unless it fires on a stored, non-empty account. */
  lemma CreateUndoExactness(db: Db, saved: seq<Db>, a: Address)
    requires Tracked(db, saved)
    ensures var r := db.Snapshot().CreateAccount(a);
      r.Ordered() && |saved| < |r.revisions| &&
      (SameWorld(r.RevertToSnapshot(db.nextRevisionId), db) <==> (db.Empty(a) ==> NewDb(db.store, db.block).Empty(a)))
  {
    var s := db.Snapshot();
    var r := Advance(s, CreateAccount(a));
    SnapshotTracked(db, saved);
    CallTracked(s, saved + [db], CreateAccount(a));
    RevertExactness(r, saved + [db], |saved|);
    RevertById(r, |saved|);
    CreateFallsToBase(db, a);
  }

  lemma CreateRecords(db: Db, a: Address)
    ensures db.CreateAccount(a).journal == db.journal + (if db.Empty(a) then [CreateObjectChange(a)] else [])
  {
    assert db.Put(a, NEW_ACCOUNT, CreateObjectChange(a)).journal == db.journal + [CreateObjectChange(a)];
    assert db.Load(a).journal == db.journal;
    hide Db.Put, Db.Load, Db.Empty;
  }

  lemma CreateFallsToBase(db: Db, a: Address)
    ensures var r := Advance(db.Snapshot(), CreateAccount(a));
      |db.journal| <= |r.journal| &&
      (Recoverable(r, db, |db.journal|) <==> (db.Empty(a) ==> NewDb(db.store, db.block).Empty(a)))
  {
    var s := db.Snapshot();
    assert s.Empty(a) == db.Empty(a);
    CreateRecords(s, a);
    StillLoaded(s, CreateAccount(a));
    DropToBase(db, Advance(s, CreateAccount(a)), a);
  }

  lemma DropToBase(db: Db, r: Db, a: Address)
    requires r.store == db.store && r.block == db.block && db.accounts.Keys <= r.accounts.Keys
    requires r.journal == db.journal + (if db.Empty(a) then [CreateObjectChange(a)] else [])
    ensures Recoverable(r, db, |db.journal|) <==> (db.Empty(a) ==> NewDb(db.store, db.block).Empty(a))
  {
    var js := r.journal[|db.journal|..];
    assert js == if db.Empty(a) then [CreateObjectChange(a)] else [];
    forall b ensures r.Base(b) == db.Base(b) == NewDb(db.store, db.block).Base(b) {}
    forall b | (b != a || !db.Empty(a)) && FallsToBase(r, |db.journal|, b)
      ensures SameRecord(db.Account(b), r.Base(b))
    {
      assert b !in db.accounts;
    }
    if db.Empty(a) {
      assert js[0] == CreateObjectChange(a) && FallsToBase(r, |db.journal|, a);
    }
  }

  /** A concrete unguarded run that is not undone: drained account, snapshot, create, revert. */
  lemma UnguardedCreateIsNotUndone()
    ensures
      var a := Address(7);
      var db := NewDb(map[AccountKey(3, a) := AccountDatum(AccountData(5, 0, ZERO_HASH, ZERO_HASH))], 3);
      var before := db.SubBalance(a, 5);
      var r := before.Snapshot().CreateAccount(a);
      r.Ordered() && before.Account(a).balance == 0 && r.RevertToSnapshot(0).Account(a).balance == 5
  {
    var a := Address(7);
    var db := NewDb(map[AccountKey(3, a) := AccountDatum(AccountData(5, 0, ZERO_HASH, ZERO_HASH))], 3);
    var before := db.SubBalance(a, 5);
    var r := before.Snapshot().CreateAccount(a);
    assert r.revisions == [Revision(0, 1)] && r.FindFrom(0, 0) == Some(0);
    assert r.journal[1..] == [CreateObjectChange(a)];
    assert r.UndoAll([CreateObjectChange(a)][1..]) == r;
    assert r.UndoAll([CreateObjectChange(a)]) == r.Undo(CreateObjectChange(a));
  }
}
