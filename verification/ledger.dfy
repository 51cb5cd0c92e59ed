/**
 Where the money went: as long as the reverts are right at an account, its balance exceeds the stored
 one by exactly the amounts of its balance and suicide records still in the journal.
 */
module Ledger {
  import opened Types
  import opened WorldState
  import opened Revert
  import opened Runs
  import opened Locations
  import opened Guarded
  import opened Sums

  /** The amount a live journal record moved, and to whose account. */
  datatype Posting = Posting(addr: Address, amount: int)

  const NOTHING := Posting(Address(0), 0)

  function Postings(db: Db, c: Call): seq<Posting> {
    match c
    case AddBalance(a, x) => if x == 0 then [] else [Posting(a, x)]
    case SubBalance(a, x) => if x == 0 then [] else [Posting(a, -x)]
    case Suicide(a) => [Posting(a, -db.Account(a).balance)]
    case _ => seq(|Added(db, c)|, _ => NOTHING)
  }

  lemma PostingsFit(db: Db, c: Call)
    ensures |Postings(db, c)| == |Added(db, c)|
  {
    if AccountCall(c) {
      AccountCallIsUpdate(db, c);
      assert Update(db, c).Some? ==> Added(db, c) == [Update(db, c).value.1];
    }
  }

  lemma Shorter(db: Db, c: Call)
    requires db.Ordered() && (c.Snapshot? || c.RevertToSnapshot?)
    ensures |Step(db, c).journal| <= |db.journal| && (c.Snapshot? ==> Step(db, c).journal == db.journal)
  {
  }

  /** The ledger runs beside the journal and is cut back with it. */
  function Next(db: Db, ledger: seq<Posting>, c: Call): (r: seq<Posting>)
    requires db.Ordered() && |ledger| == |db.journal|
    ensures |r| == |Step(db, c).journal|
  {
    if c.Snapshot? || c.RevertToSnapshot? then
      Shorter(db, c);
      ledger[..|Step(db, c).journal|]
    else
      PostingsFit(db, c);
      CallExtends(db, c);
      ledger + Postings(db, c)
  }

  function Net(ledger: seq<Posting>, a: Address): int
    decreases |ledger|
  {
    if ledger == [] then 0
    else Net(ledger[..|ledger| - 1], a) + (if ledger[|ledger| - 1].addr == a then ledger[|ledger| - 1].amount else 0)
  }

  function Total(ledger: seq<Posting>): int
    decreases |ledger|
  {
    if ledger == [] then 0 else Total(ledger[..|ledger| - 1]) + ledger[|ledger| - 1].amount
  }

  /** A record that puts back a balance of a. */
  predicate MovesBalance(e: Entry, a: Address) {
    (e.BalanceChange? || e.SuicideChange?) && e.account == a
  }

  /** Posting i says what record i did: the balance before it, plus the posting, is the one after it. */
  ghost predicate Posted(db: Db, ledger: seq<Posting>, i: nat, a: Address)
    requires i < |ledger| == |db.journal|
  {
    var e := db.journal[i];
    && (MovesBalance(e, a) ==> e.prevBalance == db.Base(a).balance + Net(ledger[..i], a))
    && (!MovesBalance(e, a) && ledger[i].addr == a ==> ledger[i].amount == 0)
  }

  ghost predicate BalancedAt(db: Db, ledger: seq<Posting>, a: Address) {
    && |ledger| == |db.journal|
    && db.Account(a).balance == db.Base(a).balance + Net(ledger, a)
    && (forall i :: 0 <= i < |ledger| ==> Posted(db, ledger, i, a))
  }

  /** Going back to mark k leaves the net of the first k postings. */
  lemma {:induction false} IdealBalance(db: Db, ledger: seq<Posting>, k: nat, a: Address)
    requires BalancedAt(db, ledger, a) && k <= |ledger|
    ensures var v := Ideal(db.journal[k..], AccountLoc(a), View(db, AccountLoc(a)));
      v.AccountVal? && v.loaded && v.balance == db.Base(a).balance + Net(ledger[..k], a)
    decreases |ledger| - k
  {
    if k == |ledger| {
      assert ledger[..k] == ledger;
    } else {
      IdealBalance(db, ledger, k + 1, a);
      assert db.journal[k..][1..] == db.journal[k + 1..];
      assert Posted(db, ledger, k, a);
      assert ledger[..k + 1][..k] == ledger[..k];
    }
  }

  lemma {:induction false} NetConcat(l: seq<Posting>, m: seq<Posting>, a: Address)
    ensures Net(l + m, a) == Net(l, a) + Net(m, a)
    decreases |m|
  {
    if m == [] {
      assert l + m == l;
    } else {
      assert (l + m)[..|l + m| - 1] == l + m[..|m| - 1];
      NetConcat(l, m[..|m| - 1], a);
    }
  }

  lemma {:induction false} NetNothing(m: seq<Posting>, a: Address)
    requires forall i :: 0 <= i < |m| ==> m[i].amount == 0
    ensures Net(m, a) == 0
    decreases |m|
  {
    if m != [] {
      NetNothing(m[..|m| - 1], a);
    }
  }

  lemma NetOne(p: Posting, a: Address)
    ensures Net([p], a) == if p.addr == a then p.amount else 0
  {
    assert [p][..0] == [];
  }

  /** What one call's postings have to say, given the database before it and the records it added. */
  ghost predicate CallPosted(db: Db, r: Db, js: seq<Entry>, ps: seq<Posting>, a: Address) {
    && |ps| == |js|
    && r.Account(a).balance == db.Account(a).balance + Net(ps, a)
    && (forall i :: 0 <= i < |js| ==>
         && (MovesBalance(js[i], a) ==> i == 0 && js[i].prevBalance == db.Account(a).balance)
         && (!MovesBalance(js[i], a) && ps[i].addr == a ==> ps[i].amount == 0))
  }

  lemma UpdatePosted(db: Db, c: Call, acc: AccountData, e: Entry, a: Address)
    requires AccountCall(c) && Update(db, c) == Some((acc, e)) && Added(db, c) == [e]
    ensures CallPosted(db, Apply(db, c, acc, e), [e], Postings(db, c), a)
  {
    var r := Apply(db, c, acc, e);
    assert r.Base(a) == db.Base(a);
    NetOne(Postings(db, c)[0], a);
    assert Postings(db, c) == [Postings(db, c)[0]];
  }

  lemma AccountCallPosted(db: Db, c: Call, a: Address)
    requires AccountCall(c)
    ensures CallPosted(db, Advance(db, c), Added(db, c), Postings(db, c), a)
  {
    AccountCallIsUpdate(db, c);
    if Update(db, c).Some? {
      var (acc, e) := Update(db, c).value;
      assert Added(db, c) == [e];
      UpdatePosted(db, c, acc, e, a);
    } else {
      assert Added(db, c) == [] && Postings(db, c) == [];
      assert Advance(db, c).Base(a) == db.Base(a);
    }
  }

  lemma OtherCallPosted(db: Db, c: Call, a: Address)
    requires !AccountCall(c)
    ensures CallPosted(db, Advance(db, c), Added(db, c), Postings(db, c), a)
  {
    OthersRestoreNothing(db, c);
    NetNothing(Postings(db, c), a);
    assert Advance(db, c).Base(a) == db.Base(a);
    forall i | 0 <= i < |Added(db, c)| ensures !MovesBalance(Added(db, c)[i], a) {
      assert !Added(db, c)[i].RestoresAccount(a);
    }
  }

  /** The ledger grows by postings that fit the records the journal grows by. */
  lemma PostedBalanced(db: Db, r: Db, ledger: seq<Posting>, js: seq<Entry>, ps: seq<Posting>, a: Address)
    requires BalancedAt(db, ledger, a) && r.journal == db.journal + js
    requires r.Base(a) == db.Base(a) && CallPosted(db, r, js, ps, a)
    ensures BalancedAt(r, ledger + ps, a)
  {
    NetConcat(ledger, ps, a);
    forall i | 0 <= i < |ledger + ps| ensures Posted(r, ledger + ps, i, a) {
      PostedAt(db, r, ledger, js, ps, i, a);
    }
  }

  lemma PostedAt(db: Db, r: Db, ledger: seq<Posting>, js: seq<Entry>, ps: seq<Posting>, i: nat, a: Address)
    requires BalancedAt(db, ledger, a) && r.journal == db.journal + js && |ps| == |js| && i < |ledger + ps|
    requires r.Base(a) == db.Base(a) && CallPosted(db, r, js, ps, a)
    ensures Posted(r, ledger + ps, i, a)
  {
    hide Db.Account, Db.Base;
    if i < |ledger| {
      assert Posted(db, ledger, i, a);
      assert (ledger + ps)[..i] == ledger[..i];
    } else {
      assert r.journal[i] == js[i - |ledger|];
      assert i == |ledger| ==> (ledger + ps)[..i] == ledger;
    }
  }

  lemma CallBalanced(db: Db, ledger: seq<Posting>, c: Call, a: Address)
    requires BalancedAt(db, ledger, a) && !c.Snapshot? && !c.RevertToSnapshot?
    ensures BalancedAt(Advance(db, c), ledger + Postings(db, c), a)
  {
    CallExtends(db, c);
    assert Advance(db, c).Base(a) == db.Base(a);
    hide Advance, Postings, CallPosted, BalancedAt;
    if AccountCall(c) { AccountCallPosted(db, c, a); } else { OtherCallPosted(db, c, a); }
    PostedBalanced(db, Advance(db, c), ledger, Added(db, c), Postings(db, c), a);
  }

  lemma RevertBalanced(db: Db, s: Db, ledger: seq<Posting>, i: nat, a: Address)
    requires BalancedAt(db, ledger, a) && db.Ordered() && i < |db.revisions|
    requires RemembersAt(db, s, db.revisions[i].journalIndex, AccountLoc(a))
    requires RecoverableAt(db, s, db.revisions[i].journalIndex, AccountLoc(a))
    ensures BalancedAt(db.RevertTo(i), ledger[..db.revisions[i].journalIndex], a)
  {
    var k, r := db.revisions[i].journalIndex, db.RevertTo(i);
    UndoExactnessAt(db, s, k, AccountLoc(a));
    RevertView(db, i, AccountLoc(a));
    IdealBalance(db, ledger, k, a);
    assert r.Base(a) == db.Base(a);
    forall j | 0 <= j < k ensures Posted(r, ledger[..k], j, a) {
      assert Posted(db, ledger, j, a);
      assert ledger[..k][..j] == ledger[..j];
    }
  }

  lemma SnapshotBalanced(db: Db, ledger: seq<Posting>, a: Address)
    requires BalancedAt(db, ledger, a)
    ensures BalancedAt(db.Snapshot(), ledger, a)
  {
    var r := db.Snapshot();
    assert r.Base(a) == db.Base(a) && r.Account(a) == db.Account(a);
    forall i | 0 <= i < |ledger| ensures Posted(r, ledger, i, a) {
      assert Posted(db, ledger, i, a);
    }
  }

  ghost function LedgerRun(t: Traced, ledger: seq<Posting>, cs: seq<Call>): (r: seq<Posting>)
    requires Aligned(t) && |ledger| == |t.db.journal|
    ensures |r| == |TRun(t, cs).db.journal|
    decreases |cs|
  {
    if cs == [] then ledger else LedgerRun(TStep(t, cs[0]), Next(t.db, ledger, cs[0]), cs[1..])
  }

  lemma StepBalanced(t: Traced, ledger: seq<Posting>, c: Call, a: Address)
    requires Aligned(t) && TrackedLoc(t, AccountLoc(a)) && SoundAt(t, c, AccountLoc(a)) && BalancedAt(t.db, ledger, a)
    ensures BalancedAt(TStep(t, c).db, Next(t.db, ledger, c), a)
  {
    assert |ledger| == |t.db.journal| && ledger[..|ledger|] == ledger;
    hide BalancedAt, RemembersAt, RecoverableAt, Advance, Postings;
    if c.RevertToSnapshot? {
      if t.db.Find(c.id).Some? {
        var i := t.db.Find(c.id).value;
        assert RemembersAt(t.db, t.saved[i], t.db.revisions[i].journalIndex, AccountLoc(a));
        RevertBalanced(t.db, t.saved[i], ledger, i, a);
      }
    } else if c.Snapshot? {
      SnapshotBalanced(t.db, ledger, a);
    } else {
      CallBalanced(t.db, ledger, c, a);
    }
  }

  lemma {:induction false} RunBalanced(t: Traced, ledger: seq<Posting>, cs: seq<Call>, a: Address)
    requires Aligned(t) && TrackedLoc(t, AccountLoc(a)) && SoundRunAt(t, cs, AccountLoc(a))
    requires BalancedAt(t.db, ledger, a)
    ensures BalancedAt(TRun(t, cs).db, LedgerRun(t, ledger, cs), a)
    decreases |cs|
  {
    if cs != [] {
      hide Aligned, TrackedLoc, SoundAt, TStep, Next, Posted, Net;
      StepBalanced(t, ledger, cs[0], a);
      StepLoc(t, cs[0], AccountLoc(a));
      RunBalanced(TStep(t, cs[0]), Next(t.db, ledger, cs[0]), cs[1..], a);
    }
  }

  /** One account, in every run whose reverts were right at it: it gained the net of its live postings. */
  lemma AccountAccounting(store: Store, block: nat, cs: seq<Call>, a: Address)
    requires SoundRunAt(Opened(store, block), cs, AccountLoc(a))
    ensures var db, ledger := TRun(Opened(store, block), cs).db, LedgerRun(Opened(store, block), [], cs);
      BalancedAt(db, ledger, a) && db.Account(a).balance == db.Base(a).balance + Net(ledger, a)
  {
    RunBalanced(Opened(store, block), [], cs, a);
  }

  /** How much more an account holds than its stored record. */
  function Gain(db: Db): Address -> int {
    a => db.Account(a).balance - db.Base(a).balance
  }

  lemma {:induction false} NetSum(s: set<Address>, ledger: seq<Posting>)
    requires forall i :: 0 <= i < |ledger| && ledger[i].amount != 0 ==> ledger[i].addr in s
    ensures SumOver(s, a => Net(ledger, a)) == Total(ledger)
    decreases |ledger|
  {
    if ledger == [] {
      SumZero(s, a => Net(ledger, a));
    } else {
      var rest, p := ledger[..|ledger| - 1], ledger[|ledger| - 1];
      NetSum(s, rest);
      if p.amount == 0 {
        SumSame(s, a => Net(rest, a), a => Net(ledger, a));
      } else {
        SumBump(s, a => Net(rest, a), a => Net(ledger, a), p.addr);
      }
    }
  }

  function Posters(ledger: seq<Posting>): (s: set<Address>)
    ensures forall i :: 0 <= i < |ledger| ==> ledger[i].addr in s
  {
    set i | 0 <= i < |ledger| :: ledger[i].addr
  }

  /** Balance accounting: all that the loaded accounts gained is the total of the live postings. */
  lemma BalanceAccounting(store: Store, block: nat, cs: seq<Call>)
    requires forall a :: SoundRunAt(Opened(store, block), cs, AccountLoc(a))
    ensures var db, ledger := TRun(Opened(store, block), cs).db, LedgerRun(Opened(store, block), [], cs);
      SumOver(db.accounts.Keys, Gain(db)) == Total(ledger)
  {
    var db, ledger := TRun(Opened(store, block), cs).db, LedgerRun(Opened(store, block), [], cs);
    hide TRun, LedgerRun, SoundRunAt, BalancedAt, Net, Total;
    forall a ensures db.Account(a).balance == db.Base(a).balance + Net(ledger, a) {
      AccountAccounting(store, block, cs, a);
    }
    var s := db.accounts.Keys + Posters(ledger);
    NetSum(s, ledger);
    SumSame(s, a => Net(ledger, a), Gain(db));
    SumMore(db.accounts.Keys, s, Gain(db));
  }

  /** The guard of the callers is enough. */
  lemma GuardedAccounting(store: Store, block: nat, cs: seq<Call>)
    requires GuardedRun(Opened(store, block), cs)
    ensures var db, ledger := TRun(Opened(store, block), cs).db, LedgerRun(Opened(store, block), [], cs);
      SumOver(db.accounts.Keys, Gain(db)) == Total(ledger)
  {
    hide TRun, LedgerRun, SoundRunAt, GuardedAt;
    forall a ensures SoundRunAt(Opened(store, block), cs, AccountLoc(a)) {
      GuardedIsSound(store, block, cs, a);
    }
    BalanceAccounting(store, block, cs);
  }

  /** A withdrawal and the matching deposit leave the total alone, whoever the two parties are. */
  lemma TransferConserves(db: Db, from: Address, to: Address, amount: int, s: set<Address>)
    requires from in s && to in s
    ensures SumOver(s, Gain(db.SubBalance(from, amount).AddBalance(to, amount))) == SumOver(s, Gain(db))
  {
    var mid := db.SubBalance(from, amount);
    var end := mid.AddBalance(to, amount);
    forall a ensures mid.Base(a) == db.Base(a) && end.Base(a) == db.Base(a) {}
    forall a ensures mid.Account(a).balance == db.Account(a).balance - (if a == from then amount else 0) {}
    forall a ensures end.Account(a).balance == mid.Account(a).balance + (if a == to then amount else 0) {}
    SumBump(s, Gain(db), Gain(mid), from);
    SumBump(s, Gain(mid), Gain(end), to);
  }
}
