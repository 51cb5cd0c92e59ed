/**
 Log numbering. Over every run, guarded or not, the logs of a block are numbered from zero without
 gaps, and the k-th live AddLogChange names the list that holds the log with index k.
 */
module LogNumbers {
  import opened Types
  import opened WorldState
  import opened Runs
  import opened Sums

  /** The transaction hashes of the live log records, oldest first. */
  function Issued(js: seq<Entry>): seq<Hash>
    decreases |js|
  {
    if js == [] then []
    else
      var e := js[|js| - 1];
      Issued(js[..|js| - 1]) + (if e.AddLogChange? then [e.txHash] else [])
  }

  function Count(hs: seq<Hash>, h: Hash): nat
    decreases |hs|
  {
    if hs == [] then 0
    else Count(hs[..|hs| - 1], h) + (if hs[|hs| - 1] == h then 1 else 0)
  }

  /** Log i was issued for transaction hs[i] and sits behind the earlier ones of that transaction. */
  ghost predicate NumberedAt(db: Db, hs: seq<Hash>, i: nat)
    requires i < |hs|
  {
    var l, c := db.LogsOf(hs[i]), Count(hs[..i], hs[i]);
    c < |l| && l[c].index == i && l[c].txHash == hs[i]
  }

  ghost predicate Numbered(db: Db, hs: seq<Hash>) {
    && db.logSize == |hs|
    && (forall h :: |db.LogsOf(h)| == Count(hs, h))
    && (forall i :: 0 <= i < |hs| ==> NumberedAt(db, hs, i))
  }

  lemma AddLogNumbered(db: Db, hs: seq<Hash>, data: Bytes)
    requires Numbered(db, hs)
    ensures Numbered(db.AddLog(data), hs + [db.txHash])
  {
    var r, gs := db.AddLog(data), hs + [db.txHash];
    assert gs[..|gs| - 1] == hs;
    forall h ensures |r.LogsOf(h)| == Count(gs, h) {
      assert r.LogsOf(h) == if h == db.txHash then db.LogsOf(h) + [Log(data, db.txHash, db.txIndex, db.logSize)]
          else db.LogsOf(h);
    }
    forall i | 0 <= i < |gs| ensures NumberedAt(r, gs, i) {
      assert gs[..i] == hs[..i];
      if i < |hs| {
        assert NumberedAt(db, hs, i);
      } else {
        assert gs[..i] == hs;
      }
    }
  }

  lemma UndoLogNumbered(db: Db, hs: seq<Hash>)
    requires hs != [] && Numbered(db, hs)
    ensures Numbered(db.Undo(AddLogChange(hs[|hs| - 1])), hs[..|hs| - 1])
    ensures db.LogsOf(hs[|hs| - 1]) != []
  {
    var n := |hs| - 1;
    var g, gs := hs[n], hs[..n];
    var r := db.Undo(AddLogChange(g));
    assert NumberedAt(db, hs, n);
    forall h ensures r.LogsOf(h) == if h == g then db.LogsOf(h)[..|db.LogsOf(h)| - 1] else db.LogsOf(h) {}
    forall i | 0 <= i < n ensures NumberedAt(r, gs, i) {
      assert NumberedAt(db, hs, i);
      assert gs[..i] == hs[..i];
      if gs[i] == g {
        CountGrows(hs, i, n);
      }
    }
  }

  lemma {:induction false} CountGrows(hs: seq<Hash>, i: nat, n: nat)
    requires i < n <= |hs|
    ensures Count(hs[..i], hs[i]) < Count(hs[..n], hs[i])
    decreases n
  {
    assert hs[..n][..n - 1] == hs[..n - 1];
    if i < n - 1 {
      CountGrows(hs, i, n - 1);
    }
  }

  lemma {:induction false} UndoAllNumbered(db: Db, k: nat)
    requires k <= |db.journal| && Numbered(db, Issued(db.journal))
    ensures Numbered(db.UndoAll(db.journal[k..]), Issued(db.journal[..k]))
    decreases |db.journal| - k
  {
    var js := db.journal;
    if k == |js| {
      assert js[..k] == js && js[k..] == [];
    } else {
      UndoAllNumbered(db, k + 1);
      var mid := db.UndoAll(js[k + 1..]);
      assert js[k..][1..] == js[k + 1..] && js[..k + 1][..k] == js[..k];
      assert db.UndoAll(js[k..]) == mid.Undo(js[k]);
      var hs := Issued(js[..k + 1]);
      if js[k].AddLogChange? {
        UndoLogNumbered(mid, hs);
        assert hs[..|hs| - 1] == Issued(js[..k]);
      } else {
        assert hs == Issued(js[..k]);
        SameLogs(mid, mid.Undo(js[k]), hs);
      }
    }
  }

  lemma SameLogs(db: Db, r: Db, hs: seq<Hash>)
    requires Numbered(db, hs) && r.logs == db.logs && r.logSize == db.logSize
    ensures Numbered(r, hs)
  {
    forall h ensures r.LogsOf(h) == db.LogsOf(h) {}
    forall i | 0 <= i < |hs| ensures NumberedAt(r, hs, i) {
      assert NumberedAt(db, hs, i);
    }
  }

  lemma {:induction false} IssuedConcat(js: seq<Entry>, ks: seq<Entry>)
    ensures Issued(js + ks) == Issued(js) + Issued(ks)
    decreases |ks|
  {
    if ks == [] {
      assert js + ks == js;
    } else {
      assert (js + ks)[..|js + ks| - 1] == js + ks[..|ks| - 1];
      IssuedConcat(js, ks[..|ks| - 1]);
    }
  }

  lemma {:induction false} NothingIssued(js: seq<Entry>)
    requires forall e :: e in js ==> !e.AddLogChange?
    ensures Issued(js) == []
    decreases |js|
  {
    if js != [] {
      assert js[|js| - 1] in js;
      assert forall e :: e in js[..|js| - 1] ==> e in js;
      NothingIssued(js[..|js| - 1]);
    }
  }

  lemma OnlyAddLogIssues(db: Db, c: Call, e: Entry)
    requires !c.AddLog? && e in Added(db, c)
    ensures !e.AddLogChange?
  {
    if AccountCall(c) {
      AccountCallShape(db, c);
      LoadKeepsJournal(db, c.addr);
    } else if AccessCall(c) {
      AccessCallKinds(db, c, e);
    } else {
      OtherCallKinds(db, c);
    }
  }

  lemma LoadKeepsJournal(db: Db, a: Address)
    ensures db.Load(a).journal == db.journal
  {
  }

  lemma LogsOnlyFromAddLog(db: Db, c: Call)
    requires !c.AddLog?
    ensures Advance(db, c).logs == db.logs && Advance(db, c).logSize == db.logSize
  {
    hide AdvanceAccount, AdvanceAccess, AdvanceOther;
  }

  lemma OnlyAddLogLogs(db: Db, c: Call)
    requires !c.AddLog?
    ensures Advance(db, c).logs == db.logs && Advance(db, c).logSize == db.logSize
    ensures Issued(Added(db, c)) == []
  {
    LogsOnlyFromAddLog(db, c);
    hide Advance;
    forall e | e in Added(db, c) ensures !e.AddLogChange? {
      OnlyAddLogIssues(db, c, e);
    }
    NothingIssued(Added(db, c));
  }

  lemma RevertNumbered(db: Db, id: nat)
    requires db.Ordered() && Numbered(db, Issued(db.journal))
    ensures Numbered(db.RevertToSnapshot(id), Issued(db.RevertToSnapshot(id).journal))
  {
    hide Numbered;
    if db.Find(id).Some? {
      var k := db.revisions[db.Find(id).value].journalIndex;
      UndoAllNumbered(db, k);
      SameLogs(db.UndoAll(db.journal[k..]), db.RevertToSnapshot(id), Issued(db.journal[..k]));
    }
  }

  lemma AddLogJournalNumbered(db: Db, data: Bytes)
    requires Numbered(db, Issued(db.journal))
    ensures Numbered(db.AddLog(data), Issued(db.AddLog(data).journal))
  {
    hide Numbered;
    AddLogNumbered(db, Issued(db.journal), data);
    assert (db.journal + [AddLogChange(db.txHash)])[..|db.journal|] == db.journal;
  }

  lemma CallNumbered(db: Db, c: Call)
    requires Numbered(db, Issued(db.journal))
    ensures Numbered(Advance(db, c), Issued(Advance(db, c).journal))
  {
    hide Numbered, AdvanceAccount, AdvanceAccess;
    if c.AddLog? {
      AddLogJournalNumbered(db, c.data);
    } else {
      hide Advance;
      OnlyAddLogLogs(db, c);
      IssuedConcat(db.journal, Added(db, c));
      assert Advance(db, c).journal == db.journal + Added(db, c);
      assert Issued(Advance(db, c).journal) == Issued(db.journal);
      SameLogs(db, Advance(db, c), Issued(db.journal));
    }
  }

  lemma StepNumbered(db: Db, c: Call)
    requires db.Ordered() && Numbered(db, Issued(db.journal))
    ensures Numbered(Step(db, c), Issued(Step(db, c).journal))
  {
    hide Numbered, Advance;
    if c.RevertToSnapshot? {
      RevertNumbered(db, c.id);
    } else if c.Snapshot? {
      SameLogs(db, Step(db, c), Issued(db.journal));
    } else {
      CallNumbered(db, c);
    }
  }

  lemma {:induction false} RunNumbered(db: Db, cs: seq<Call>)
    requires db.Ordered() && Numbered(db, Issued(db.journal))
    ensures Numbered(Run(db, cs), Issued(Run(db, cs).journal))
    decreases |cs|
  {
    if cs != [] {
      StepNumbered(db, cs[0]);
      RunNumbered(Step(db, cs[0]), cs[1..]);
    }
  }

  /** The position of the j-th issue of h. */
  lemma {:induction false} FindIssue(hs: seq<Hash>, h: Hash, j: nat) returns (i: nat)
    requires j < Count(hs, h)
    ensures i < |hs| && hs[i] == h && Count(hs[..i], h) == j
    decreases |hs|
  {
    var n := |hs| - 1;
    if j < Count(hs[..n], h) {
      i := FindIssue(hs[..n], h, j);
      assert hs[..n][..i] == hs[..i];
    } else {
      i := n;
    }
  }

  lemma {:induction false} CountMonotone(hs: seq<Hash>, h: Hash, m: nat, n: nat)
    requires m <= n <= |hs|
    ensures Count(hs[..m], h) <= Count(hs[..n], h)
    decreases n
  {
    if m < n {
      assert hs[..n][..n - 1] == hs[..n - 1];
      CountMonotone(hs, h, m, n - 1);
    }
  }

  lemma ListedLog(db: Db, hs: seq<Hash>, h: Hash, j: nat)
    requires Numbered(db, hs) && j < |db.LogsOf(h)|
    ensures var i := db.LogsOf(h)[j].index; 0 <= i < |hs| && hs[i] == h && Count(hs[..i], h) == j
  {
    var i := FindIssue(hs, h, j);
    assert NumberedAt(db, hs, i);
  }

  predicate HoldsIndex(l: seq<Log>, i: int) {
    exists j :: 0 <= j < |l| && l[j].index == i
  }

  /**
   After every run: each index below logSize is the index of a log in the list its record names;
   a log's index is below logSize and leads back to its list, so no index occurs twice across
   lists; and indices increase along each list.
   */
  lemma LogNumbering(store: Store, block: nat, cs: seq<Call>)
    ensures var db := Run(NewDb(store, block), cs);
      var hs := Issued(db.journal);
      && db.logSize == |hs|
      && (forall i :: 0 <= i < |hs| ==> HoldsIndex(db.LogsOf(hs[i]), i))
      && (forall h, j :: 0 <= j < |db.LogsOf(h)| ==>
           var i := db.LogsOf(h)[j].index; 0 <= i < |hs| && hs[i] == h && db.LogsOf(h)[j].txHash == h)
      && (forall h, j, l :: 0 <= j < l < |db.LogsOf(h)| ==> db.LogsOf(h)[j].index < db.LogsOf(h)[l].index)
  {
    var db := Run(NewDb(store, block), cs);
    var hs := Issued(db.journal);
    RunNumbered(NewDb(store, block), cs);
    forall i | 0 <= i < |hs| ensures HoldsIndex(db.LogsOf(hs[i]), i) {
      assert NumberedAt(db, hs, i);
      assert db.LogsOf(hs[i])[Count(hs[..i], hs[i])].index == i;
    }
    forall h, j | 0 <= j < |db.LogsOf(h)|
      ensures var i := db.LogsOf(h)[j].index; 0 <= i < |hs| && hs[i] == h && db.LogsOf(h)[j].txHash == h
    {
      ListedLog(db, hs, h, j);
      assert NumberedAt(db, hs, db.LogsOf(h)[j].index);
    }
    forall h, j, l | 0 <= j < l < |db.LogsOf(h)| ensures db.LogsOf(h)[j].index < db.LogsOf(h)[l].index {
      ListedLog(db, hs, h, j);
      ListedLog(db, hs, h, l);
      var i, m := db.LogsOf(h)[j].index, db.LogsOf(h)[l].index;
      if m <= i {
        CountMonotone(hs, h, m, i);
      }
    }
  }

  lemma {:induction false} CountSum(s: set<Hash>, hs: seq<Hash>)
    requires forall i :: 0 <= i < |hs| ==> hs[i] in s
    ensures SumOver(s, h => Count(hs, h)) == |hs|
    decreases |hs|
  {
    if hs == [] {
      SumZero(s, h => Count(hs, h));
    } else {
      var rest := hs[..|hs| - 1];
      CountSum(s, rest);
      SumBump(s, h => Count(rest, h), h => Count(hs, h), hs[|hs| - 1]);
    }
  }

  /** The counter is the number of logs in all lists together. */
  lemma LogSizeIsSum(store: Store, block: nat, cs: seq<Call>)
    ensures var db := Run(NewDb(store, block), cs);
      SumOver(db.logs.Keys, h => |db.LogsOf(h)|) == db.logSize
  {
    var db := Run(NewDb(store, block), cs);
    var hs := Issued(db.journal);
    RunNumbered(NewDb(store, block), cs);
    forall i | 0 <= i < |hs| ensures hs[i] in db.logs.Keys {
      assert NumberedAt(db, hs, i);
    }
    CountSum(db.logs.Keys, hs);
    SumSame(db.logs.Keys, h => Count(hs, h), h => |db.LogsOf(h)|);
  }
}
