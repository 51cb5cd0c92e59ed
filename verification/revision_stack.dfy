/** Revision ids over whole runs: handed out in order, never handed out again, dead once reverted. */
module RevisionStack {
  import opened Types
  import opened WorldState
  import opened Runs
  import opened Replay

  /** The ids the snapshots of a run return. */
  function Taken(db: Db, cs: seq<Call>): seq<nat>
    requires db.Ordered()
    decreases |cs|
  {
    if cs == [] then []
    else (if cs[0].Snapshot? then [db.nextRevisionId] else []) + Taken(Step(db, cs[0]), cs[1..])
  }

  lemma StepCounts(db: Db, c: Call)
    requires db.Ordered()
    ensures Step(db, c).nextRevisionId == db.nextRevisionId + (if c.Snapshot? then 1 else 0)
  {
    hide Advance;
  }

  /** Ids are consecutive, so no two snapshots of a run ever share one. */
  lemma {:induction false} IdsInOrder(db: Db, cs: seq<Call>)
    requires db.Ordered()
    ensures Run(db, cs).nextRevisionId == db.nextRevisionId + |Taken(db, cs)|
    ensures forall i :: 0 <= i < |Taken(db, cs)| ==> Taken(db, cs)[i] == db.nextRevisionId + i
    decreases |cs|
  {
    hide Step, Db.Ordered;
    if cs != [] {
      StepCounts(db, cs[0]);
      IdsInOrder(Step(db, cs[0]), cs[1..]);
    }
  }

  predicate Live(db: Db, id: nat) {
    exists i :: 0 <= i < |db.revisions| && db.revisions[i].id == id
  }

  lemma {:induction false} FindFromLive(db: Db, id: nat, i: nat)
    ensures db.FindFrom(id, i).Some? <==> exists j :: i <= j < |db.revisions| && db.revisions[j].id == id
    decreases |db.revisions| - i
  {
    if i < |db.revisions| && db.revisions[i].id != id {
      FindFromLive(db, id, i + 1);
    }
  }

  /** A revert removes its own id and every later one, and keeps the older revisions as they were. */
  lemma RevertCutsStack(db: Db, id: nat, other: nat)
    requires db.Ordered() && Live(db, id)
    ensures Live(db.RevertToSnapshot(id), other) <==> Live(db, other) && other < id
    ensures db.RevertToSnapshot(id).revisions <= db.revisions
  {
    FindFromLive(db, id, 0);
    var i := db.Find(id).value;
    var r := db.RevertToSnapshot(id);
    assert r.revisions == db.revisions[..i];
    if Live(db, other) && other < id {
      var j :| 0 <= j < |db.revisions| && db.revisions[j].id == other;
      assert j < i && r.revisions[j].id == other;
    }
    if Live(r, other) {
      var j :| 0 <= j < |r.revisions| && r.revisions[j].id == other;
      assert db.revisions[j].id == other;
    }
  }

  lemma StepRevivesNone(db: Db, c: Call, id: nat)
    requires db.Ordered() && id < db.nextRevisionId && !Live(db, id)
    ensures !Live(Step(db, c), id)
  {
    hide Advance;
    if c.RevertToSnapshot? {
      FindFromLive(db, c.id, 0);
      if Live(db, c.id) {
        RevertCutsStack(db, c.id, id);
      }
    }
  }

  /** An id that was handed out and is no longer live can never be reverted to again. */
  lemma {:induction false} DeadForEver(db: Db, cs: seq<Call>, id: nat)
    requires db.Ordered() && id < db.nextRevisionId && !Live(db, id)
    ensures Run(db, cs).Find(id).None? && Run(db, cs).RevertToSnapshot(id) == Run(db, cs)
    ensures Respond(Run(db, cs), RevertToSnapshot(id)) == Flag(false)
    decreases |cs|
  {
    hide Step, Live;
    if cs == [] {
      FindFromLive(db, id, 0);
      assert db.Find(id).Some? ==> Live(db, id) by { LiveMeans(db, id); }
    } else {
      StepRevivesNone(db, cs[0], id);
      StepCounts(db, cs[0]);
      DeadForEver(Step(db, cs[0]), cs[1..], id);
    }
  }

  lemma LiveMeans(db: Db, id: nat)
    ensures Live(db, id) <==> exists i :: 0 <= i < |db.revisions| && db.revisions[i].id == id
  {
  }

  /******* What a live snapshot stands for *******/

  /** The i-th live revision was handed out by the snapshot that saved[i] is from, and everything before it stands. */
  ghost predicate Marked(t: Traced, i: nat)
    requires Aligned(t) && i < |t.saved|
  {
    var rev, s := t.db.revisions[i], t.saved[i];
    && rev == Revision(s.nextRevisionId, |s.journal|) && s.Ordered()
    && s.journal <= t.db.journal && s.revisions == t.db.revisions[..i]
  }

  ghost predicate AllMarked(t: Traced) {
    Aligned(t) && forall i :: 0 <= i < |t.saved| ==> Marked(t, i)
  }

  lemma RevertMarked(t: Traced, c: Call)
    requires AllMarked(t) && c.RevertToSnapshot? && t.db.Find(c.id).Some?
    ensures AllMarked(TStep(t, c))
  {
    var n, r := t.db.Find(c.id).value, TStep(t, c);
    assert r.db.journal == t.db.journal[..t.db.revisions[n].journalIndex] && r.db.revisions == t.db.revisions[..n];
    hide Step;
    forall i | 0 <= i < |r.saved| ensures Marked(r, i) {
      assert Marked(t, i);
      assert t.db.revisions[..n][..i] == t.db.revisions[..i];
    }
  }

  lemma StepMarked(t: Traced, c: Call)
    requires AllMarked(t)
    ensures AllMarked(TStep(t, c))
  {
    var r := TStep(t, c);
    if c.RevertToSnapshot? && t.db.Find(c.id).Some? {
      RevertMarked(t, c);
    } else {
      assert t.db.journal <= r.db.journal && t.db.revisions <= r.db.revisions;
      forall i | 0 <= i < |r.saved| ensures Marked(r, i) {
        if i < |t.saved| { assert Marked(t, i); }
      }
    }
  }

  lemma {:induction false} RunMarked(t: Traced, cs: seq<Call>)
    requires AllMarked(t)
    ensures AllMarked(TRun(t, cs))
    decreases |cs|
  {
    if cs != [] {
      StepMarked(t, cs[0]);
      RunMarked(TStep(t, cs[0]), cs[1..]);
    }
  }

  lemma BackAtMark(t: Traced, i: nat)
    requires AllMarked(t) && i < |t.saved|
    ensures var r, s := t.db.RevertToSnapshot(t.db.revisions[i].id), t.saved[i];
      && r.journal == s.journal && r.revisions == s.revisions
      && r.nextRevisionId == t.db.nextRevisionId > t.db.revisions[i].id
  {
    assert Marked(t, i);
    RevertById(t.db, i);
    hide Db.UndoAll, Db.RevertToSnapshot;
  }

  lemma IdAnswered(t: Traced, i: nat)
    requires AllMarked(t) && i < |t.saved|
    ensures var id := t.db.revisions[i].id;
      Respond(t.saved[i], Snapshot) == Number(id) && Respond(t.db, RevertToSnapshot(id)) == Flag(true)
  {
    assert Marked(t, i);
    FoundFrom(t.db, i, 0);
    hide Answer;
  }

  lemma OpenedMarked(store: Store, block: nat)
    ensures AllMarked(Opened(store, block))
  {
  }

  /**
   Every live id is the answer of the Snapshot call that was made in saved[i]; reverting to it, in any
   run, cuts journal and revision stack back to what they were at that call, and reuses no id.
   */
  lemma LiveIdExactness(store: Store, block: nat, cs: seq<Call>, i: nat)
    requires i < |TRun(Opened(store, block), cs).saved|
    ensures var t := TRun(Opened(store, block), cs);
      var (id, s) := (t.db.revisions[i].id, t.saved[i]);
      && Respond(s, Snapshot) == Number(id) && Respond(t.db, RevertToSnapshot(id)) == Flag(true)
      && var r := t.db.RevertToSnapshot(id);
      && r.journal == s.journal && r.revisions == s.revisions && r.nextRevisionId == t.db.nextRevisionId > id
  {
    var t := TRun(Opened(store, block), cs);
    hide *;
    OpenedMarked(store, block);
    RunMarked(Opened(store, block), cs);
    IdAnswered(t, i);
    BackAtMark(t, i);
  }
}
