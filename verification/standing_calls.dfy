/**
 What a run adds up to. A call stands until a revert undoes it; at every location where the reverts were
 right, the state, and with it every answer, is what the standing calls alone would have left.
 */
module StandingCalls {
  import opened Types
  import opened WorldState
  import opened Revert
  import opened Runs
  import opened Locations
  import opened Effects
  import opened AccessEffects
  import opened Replay
  import C = Commit

  /******* Answers *******/

  /** Every answer is what the state shows at the place asked for. */
  lemma AnswerShows(db: Db, q: Query)
    ensures
      match q
      case GetBalance(a) => Answer(db, q) == Number(View(db, AccountLoc(a)).balance)
      case GetNonce(a) => Answer(db, q) == Number(View(db, AccountLoc(a)).nonce)
      case GetCodeHash(a) =>
        var h := View(db, AccountLoc(a)).codeHash;
        Answer(db, q) == Word(if h == ZERO_HASH then EMPTY_CODE_HASH else h)
      case GetCode(a) => Answer(db, q) == Code(if View(db, AccountLoc(a)).codeHash == ZERO_HASH then [] else db.Code(a))
      case Exist(a) =>
        var v := View(db, AccountLoc(a));
        Answer(db, q) ==
          Flag(v.balance != 0 || v.nonce != 0 || v.codeHash != ZERO_HASH || View(db, SuicideLoc(a)) == FlagVal(true))
      case Empty(a) =>
        var v := View(db, AccountLoc(a));
        Answer(db, q) == Flag(v.balance == 0 && v.nonce == 0 && v.codeHash == ZERO_HASH)
      case GetState(a, k) => View(db, SlotLoc(a, k)) == WordVal(Answer(db, q).word)
      case HasSuicided(a) => View(db, SuicideLoc(a)) == FlagVal(Answer(db, q).flag)
      case GetRefund => View(db, RefundLoc) == CountVal(Answer(db, q).number)
      case GetLogs(h) => View(db, LogsLoc(h)) == LogsVal(Answer(db, q).logs)
      case AddressInAccessList(a) => Answer(db, q) == Flag(a in db.access)
      case SlotInAccessList(a, s) => Answer(db, q) == Flags(a in db.access, Warm(db.access, a, s))
  {
  }

  /******* Standing calls *******/

  /** A call, and the context it was made in. */
  datatype Act = Act(call: Call, at: Context)

  /** The calls that stand, and how many of them stood at each live snapshot. */
  datatype Script = Script(acts: seq<Act>, marks: seq<nat>)

  ghost predicate Fits(t: Traced, s: Script) {
    && Aligned(t) && |s.marks| == |t.saved|
    && (forall i :: 0 <= i < |s.marks| ==> s.marks[i] <= |s.acts|)
    && (forall i, j :: 0 <= i < j < |s.marks| ==> s.marks[i] <= s.marks[j])
  }

  /** A revert takes back every call since its snapshot. */
  ghost function SStep(t: Traced, s: Script, c: Call): (r: Script)
    requires Fits(t, s)
    ensures Fits(TStep(t, c), r)
  {
    if c.Snapshot? then Script(s.acts, s.marks + [|s.acts|])
    else if c.RevertToSnapshot? then
      var i := t.db.Find(c.id);
      if i.None? then s else Script(s.acts[..s.marks[i.value]], s.marks[..i.value])
    else Script(s.acts + [Act(c, ContextOf(t.db))], s.marks)
  }

  ghost function SRun(t: Traced, s: Script, cs: seq<Call>): (r: Script)
    requires Fits(t, s)
    ensures Fits(TRun(t, cs), r)
    decreases |cs|
  {
    if cs == [] then s else SRun(TStep(t, cs[0]), SStep(t, s, cs[0]), cs[1..])
  }

  /** The calls of a run that no revert has undone. */
  ghost function Standing(store: Store, block: nat, cs: seq<Call>): seq<Act> {
    SRun(Opened(store, block), Script([], []), cs).acts
  }

  /** One call after the other, each with the effect it is named after. */
  function Told(acts: seq<Act>, x: Loc, v: Val): Val
    decreases |acts|
  {
    if acts == [] then v
    else
      var last := acts[|acts| - 1];
      Changed(last.call, last.at, x, Told(acts[..|acts| - 1], x, v))
  }

  ghost predicate Tells(t: Traced, s: Script, x: Loc, v: Val)
    requires Fits(t, s)
  {
    && View(t.db, x) == Told(s.acts, x, v)
    && forall i :: 0 <= i < |t.saved| ==> View(t.saved[i], x) == Told(s.acts[..s.marks[i]], x, v)
  }

  lemma CallTells(t: Traced, s: Script, c: Call, x: Loc, v: Val)
    requires Fits(t, s) && Tells(t, s, x, v) && !c.Snapshot? && !c.RevertToSnapshot?
    ensures Tells(TStep(t, c), SStep(t, s, c), x, v)
  {
    CallEffect(t.db, c, x);
    hide Changed, View, Advance;
    var acts := s.acts + [Act(c, ContextOf(t.db))];
    assert acts[..|acts| - 1] == s.acts;
    forall i | 0 <= i < |t.saved| ensures View(t.saved[i], x) == Told(acts[..s.marks[i]], x, v) {
      assert acts[..s.marks[i]] == s.acts[..s.marks[i]];
    }
  }

  lemma SnapshotTells(t: Traced, s: Script, x: Loc, v: Val)
    requires Fits(t, s) && Tells(t, s, x, v)
    ensures Tells(TStep(t, Snapshot), SStep(t, s, Snapshot), x, v)
  {
    var r := TStep(t, Snapshot);
    assert View(r.db, x) == View(t.db, x);
    hide View, Told;
    assert s.acts[..|s.acts|] == s.acts;
  }

  lemma RevertTells(t: Traced, s: Script, c: Call, x: Loc, v: Val)
    requires Fits(t, s) && Tells(t, s, x, v) && c.RevertToSnapshot? && t.db.Find(c.id).Some?
    requires TrackedLoc(t, x) && SoundAt(t, c, x)
    ensures Tells(TStep(t, c), SStep(t, s, c), x, v)
  {
    var i := t.db.Find(c.id).value;
    var k := t.db.revisions[i].journalIndex;
    assert RemembersAt(t.db, t.saved[i], k, x);
    UndoExactnessAt(t.db, t.saved[i], k, x);
    RevertView(t.db, i, x);
    hide View, Told;
    forall j | 0 <= j < i ensures s.acts[..s.marks[i]][..s.marks[j]] == s.acts[..s.marks[j]] {}
  }

  lemma StepTells(t: Traced, s: Script, c: Call, x: Loc, v: Val)
    requires Fits(t, s) && Tells(t, s, x, v) && TrackedLoc(t, x) && SoundAt(t, c, x)
    ensures Tells(TStep(t, c), SStep(t, s, c), x, v)
  {
    hide Tells, TrackedLoc, SoundAt;
    if c.Snapshot? {
      SnapshotTells(t, s, x, v);
    } else if c.RevertToSnapshot? {
      if t.db.Find(c.id).Some? {
        RevertTells(t, s, c, x, v);
      }
    } else {
      CallTells(t, s, c, x, v);
    }
  }

  lemma {:induction false} RunTells(t: Traced, s: Script, cs: seq<Call>, x: Loc, v: Val)
    requires Fits(t, s) && Tells(t, s, x, v) && TrackedLoc(t, x) && SoundRunAt(t, cs, x)
    ensures Tells(TRun(t, cs), SRun(t, s, cs), x, v)
    decreases |cs|
  {
    hide Tells, TrackedLoc, SoundAt, TStep, SStep;
    if cs != [] {
      assert Aligned(t);
      StepTells(t, s, cs[0], x, v);
      StepLoc(t, cs[0], x);
      RunTells(TStep(t, cs[0]), SStep(t, s, cs[0]), cs[1..], x, v);
    }
  }

  /**
   A run with any nesting of snapshots and reverts shows, wherever its reverts were right, what its
   standing calls alone leave: what was undone might as well never have been called.
   */
  lemma ShowsStanding(store: Store, block: nat, cs: seq<Call>, x: Loc)
    requires SoundRunAt(Opened(store, block), cs, x)
    ensures View(TRun(Opened(store, block), cs).db, x) ==
      Told(Standing(store, block, cs), x, View(NewDb(store, block), x))
  {
    RunTells(Opened(store, block), Script([], []), cs, x, View(NewDb(store, block), x));
  }

  /** The same with no hypothesis, anywhere but at the records of accounts. */
  lemma ShowsStandingOffAccounts(store: Store, block: nat, cs: seq<Call>, x: Loc)
    requires !x.AccountLoc?
    ensures View(TRun(Opened(store, block), cs).db, x) ==
      Told(Standing(store, block, cs), x, View(NewDb(store, block), x))
  {
    SoundOffAccounts(Opened(store, block), cs, x);
    ShowsStanding(store, block, cs, x);
  }

  /******* What is heard *******/

  /** The last of the values that the calls give, or v. */
  function Last<T>(acts: seq<Act>, given: Call -> Option<T>, v: T): T
    decreases |acts|
  {
    if acts == [] then v
    else
      var u := given(acts[|acts| - 1].call);
      if u.Some? then u.value else Last(acts[..|acts| - 1], given, v)
  }

  function WordGiven(a: Address, k: Hash): Call -> Option<Hash> {
    (c: Call) => if c.SetState? && c.addr == a && c.key == k then Some(c.value) else None
  }

  function NonceGiven(a: Address): Call -> Option<nat> {
    (c: Call) => if c.SetNonce? && c.addr == a then Some(c.nonce) else None
  }

  function HashGiven(a: Address): Call -> Option<Hash> {
    (c: Call) => if c.SetCode? && c.addr == a then Some(c.hash) else None
  }

  function CodeGiven(a: Address): Call -> Option<Bytes> {
    (c: Call) => if c.SetCode? && c.addr == a then Some(c.code) else None
  }

  /** Deposits and withdrawals, from zero after a self-destruct. */
  function Held(acts: seq<Act>, a: Address, b: int): int
    decreases |acts|
  {
    if acts == [] then b
    else
      var before := Held(acts[..|acts| - 1], a, b);
      match acts[|acts| - 1].call
      case AddBalance(d, x) => if d == a then before + x else before
      case SubBalance(d, x) => if d == a then before - x else before
      case Suicide(d) => if d == a then 0 else before
      case _ => before
  }

  /** Gas refunds, in 64 bits, never below zero. */
  function Refunded(acts: seq<Act>): int
    decreases |acts|
  {
    if acts == [] then 0
    else
      var before := Refunded(acts[..|acts| - 1]);
      match acts[|acts| - 1].call
      case AddRefund(gas) => (before + gas) % TWO_64
      case SubRefund(gas) => if gas > before then 0 else before - gas
      case _ => before
  }

  lemma {:induction false} ToldWord(acts: seq<Act>, a: Address, k: Hash, w: Hash)
    ensures Told(acts, SlotLoc(a, k), WordVal(w)) == WordVal(Last(acts, WordGiven(a, k), w))
    decreases |acts|
  {
    if acts != [] {
      ToldWord(acts[..|acts| - 1], a, k, w);
    }
  }

  lemma {:induction false} ToldAccount(acts: seq<Act>, a: Address, v: Val)
    requires v.AccountVal?
    ensures Told(acts, AccountLoc(a), v) ==
      AccountVal(v.loaded, Held(acts, a, v.balance), Last(acts, NonceGiven(a), v.nonce),
          Last(acts, HashGiven(a), v.codeHash))
    decreases |acts|
  {
    if acts != [] {
      ToldAccount(acts[..|acts| - 1], a, v);
    }
  }

  lemma {:induction false} ToldRefund(acts: seq<Act>)
    ensures Told(acts, RefundLoc, CountVal(0)) == CountVal(Refunded(acts))
    decreases |acts|
  {
    if acts != [] {
      ToldRefund(acts[..|acts| - 1]);
    }
  }

  /** A self-destruct of a stands. */
  predicate Destroyed(acts: seq<Act>, a: Address) {
    exists i :: 0 <= i < |acts| && acts[i].call == Suicide(a)
  }

  lemma {:induction false} ToldFlag(acts: seq<Act>, a: Address)
    ensures Told(acts, SuicideLoc(a), FlagVal(false)) == FlagVal(Destroyed(acts, a))
    decreases |acts|
  {
    if acts != [] {
      var rest := acts[..|acts| - 1];
      ToldFlag(rest, a);
      if Destroyed(rest, a) {
        var i :| 0 <= i < |rest| && rest[i].call == Suicide(a);
        assert acts[i].call == Suicide(a);
      }
      if Destroyed(acts, a) && acts[|acts| - 1].call != Suicide(a) {
        var i :| 0 <= i < |acts| && acts[i].call == Suicide(a);
        assert rest[i].call == Suicide(a);
      }
    }
  }

  function StoredWord(store: Store, block: nat, a: Address, k: Hash): Hash {
    if WordAt(store, block, a, k).Some? then WordAt(store, block, a, k).value else ZERO_HASH
  }

  function StoredAccount(store: Store, block: nat, a: Address): AccountData {
    if RecordAt(store, block, a).Some? then RecordAt(store, block, a).value else NEW_ACCOUNT
  }

  /** In every run a slot answers the last word that was set and not undone, else the stored one. */
  lemma HeardState(store: Store, block: nat, cs: seq<Call>, a: Address, k: Hash)
    ensures Answer(TRun(Opened(store, block), cs).db, GetState(a, k)) ==
      Word(Last(Standing(store, block, cs), WordGiven(a, k), StoredWord(store, block, a, k)))
  {
    ShowsStandingOffAccounts(store, block, cs, SlotLoc(a, k));
    assert View(NewDb(store, block), SlotLoc(a, k)) == WordVal(StoredWord(store, block, a, k));
    hide TRun, Standing, Told;
    ToldWord(Standing(store, block, cs), a, k, StoredWord(store, block, a, k));
  }

  /** Where the reverts were right,
      an account answers the standing payments and the last standing nonce and code hash. */
  lemma HeardAccount(store: Store, block: nat, cs: seq<Call>, a: Address)
    requires SoundRunAt(Opened(store, block), cs, AccountLoc(a))
    ensures var (db, acts) := (TRun(Opened(store, block), cs).db, Standing(store, block, cs));
      var was := StoredAccount(store, block, a);
      var hash := Last(acts, HashGiven(a), was.codeHash);
      && Answer(db, GetBalance(a)) == Number(Held(acts, a, was.balance))
      && Answer(db, GetNonce(a)) == Number(Last(acts, NonceGiven(a), was.nonce))
      && Answer(db, GetCodeHash(a)) == Word(if hash == ZERO_HASH then EMPTY_CODE_HASH else hash)
  {
    var was := StoredAccount(store, block, a);
    ShowsStanding(store, block, cs, AccountLoc(a));
    assert View(NewDb(store, block), AccountLoc(a)) == Fields(true, was);
    hide TRun, Standing, Told, SoundRunAt;
    ToldAccount(Standing(store, block, cs), a, Fields(true, was));
  }

  /** In every run the mark of a self-destruct stands as long as the call does, and only the first one hears true. */
  lemma HeardSuicide(store: Store, block: nat, cs: seq<Call>, a: Address)
    ensures var (db, acts) := (TRun(Opened(store, block), cs).db, Standing(store, block, cs));
      && Answer(db, HasSuicided(a)) == Flag(Destroyed(acts, a))
      && Respond(db, Suicide(a)) == Flag(!Destroyed(acts, a))
  {
    ShowsStandingOffAccounts(store, block, cs, SuicideLoc(a));
    assert View(NewDb(store, block), SuicideLoc(a)) == FlagVal(false);
    hide TRun, Standing, Told, Destroyed;
    ToldFlag(Standing(store, block, cs), a);
  }

  lemma HeardRefund(store: Store, block: nat, cs: seq<Call>)
    ensures Answer(TRun(Opened(store, block), cs).db, GetRefund) == Number(Refunded(Standing(store, block, cs)))
  {
    ShowsStandingOffAccounts(store, block, cs, RefundLoc);
    assert View(NewDb(store, block), RefundLoc) == CountVal(0);
    hide TRun, Standing, Told;
    ToldRefund(Standing(store, block, cs));
  }

  /** The logs of the standing calls, under the hash and with the number they were given. */
  function Logged(acts: seq<Act>, h: Hash): seq<Log>
    decreases |acts|
  {
    if acts == [] then []
    else
      var before, last := Logged(acts[..|acts| - 1], h), acts[|acts| - 1];
      if last.call.AddLog? && last.at.txHash == h then
        before + [Log(last.call.data, h, last.at.txIndex, last.at.logSize)]
      else before
  }

  lemma {:induction false} ToldLogs(acts: seq<Act>, h: Hash)
    ensures Told(acts, LogsLoc(h), LogsVal([])) == LogsVal(Logged(acts, h))
    decreases |acts|
  {
    if acts != [] {
      ToldLogs(acts[..|acts| - 1], h);
    }
  }

  lemma HeardLogs(store: Store, block: nat, cs: seq<Call>, h: Hash)
    ensures Answer(TRun(Opened(store, block), cs).db, GetLogs(h)) == Logs(Logged(Standing(store, block, cs), h))
  {
    ShowsStandingOffAccounts(store, block, cs, LogsLoc(h));
    assert View(NewDb(store, block), LogsLoc(h)) == LogsVal([]);
    hide TRun, Standing, Told;
    ToldLogs(Standing(store, block, cs), h);
  }

  /******* Code *******/

  /** The code of every standing call is held under its hash. */
  ghost predicate CodesHeld(db: Db, acts: seq<Act>) {
    forall i :: 0 <= i < |acts| && acts[i].call.SetCode? ==>
      acts[i].call.hash != ZERO_HASH && db.Held(acts[i].call.hash) && db.Lookup(acts[i].call.hash) == acts[i].call.code
  }

  lemma StepKeepsCodes(t: Traced, c: Call)
    requires Aligned(t) && CodeSound(t.db) && Legal(t.db, c)
    ensures CodesKept(t.db, Step(t.db, c))
  {
    hide Advance, CodeSound;
    if c.RevertToSnapshot? {
      if t.db.Find(c.id).Some? {
        RevertCodeSound(t.db, t.db.Find(c.id).value);
      }
    } else if c.Snapshot? {
      PrefixCodeSound(t.db, Step(t.db, c));
    } else {
      CallKeepsCodeSound(t.db, c);
    }
  }

  lemma SetHeld(db: Db, c: Call)
    requires c.SetCode?
    ensures Advance(db, c).Held(c.hash) && Advance(db, c).Lookup(c.hash) == c.code
  {
  }

  lemma StepHeldCodes(t: Traced, s: Script, c: Call)
    requires Fits(t, s) && CodeSound(t.db) && Legal(t.db, c) && CodesHeld(t.db, s.acts)
    ensures CodesHeld(TStep(t, c).db, SStep(t, s, c).acts)
  {
    StepKeepsCodes(t, c);
    var r, acts := TStep(t, c).db, SStep(t, s, c).acts;
    hide Advance, CodeSound;
    forall i | 0 <= i < |acts| && acts[i].call.SetCode?
      ensures acts[i].call.hash != ZERO_HASH && r.Held(acts[i].call.hash)
        && r.Lookup(acts[i].call.hash) == acts[i].call.code
    {
      if i < |s.acts| {
        assert acts[i] == s.acts[i];
      } else {
        SetHeld(t.db, c);
      }
    }
  }

  lemma {:induction false} RunHeldCodes(t: Traced, s: Script, cs: seq<Call>, from: Db)
    requires Fits(t, s) && CodeTracked(t) && LegalRun(t, cs) && CodesHeld(t.db, s.acts) && CodesKept(from, t.db)
    ensures CodesHeld(TRun(t, cs).db, SRun(t, s, cs).acts) && CodesKept(from, TRun(t, cs).db)
    decreases |cs|
  {
    if cs != [] {
      assert CodeSound(t.db) && Aligned(t);
      StepHeldCodes(t, s, cs[0]);
      StepKeepsCodes(t, cs[0]);
      StepCode(t, cs[0]);
      hide CodeTracked, CodesHeld, CodeSound, TStep, SStep, Legal, Step;
      RunHeldCodes(TStep(t, cs[0]), SStep(t, s, cs[0]), cs[1..], from);
    }
  }

  lemma {:induction false} LastCode(db: Db, acts: seq<Act>, a: Address, hash: Hash, code: Bytes)
    requires CodesHeld(db, acts) && (if hash == ZERO_HASH then code == [] else db.Lookup(hash) == code)
    ensures var h := Last(acts, HashGiven(a), hash);
      Last(acts, CodeGiven(a), code) == if h == ZERO_HASH then [] else db.Lookup(h)
    decreases |acts|
  {
    if acts != [] {
      var last := acts[|acts| - 1].call;
      assert last.SetCode? ==> last.hash != ZERO_HASH && db.Lookup(last.hash) == last.code;
      forall i | 0 <= i < |acts| - 1 ensures acts[..|acts| - 1][i] == acts[i] {}
      LastCode(db, acts[..|acts| - 1], a, hash, code);
    }
  }

  /** The code of an account is what was set last and stands, else what is stored. */
  lemma HeardCode(store: Store, block: nat, cs: seq<Call>, a: Address)
    requires CodesComplete(NewDb(store, block)) && LegalRun(Opened(store, block), cs)
    requires SoundRunAt(Opened(store, block), cs, AccountLoc(a))
    ensures Answer(TRun(Opened(store, block), cs).db, GetCode(a)) ==
      Code(Last(Standing(store, block, cs), CodeGiven(a), NewDb(store, block).Code(a)))
  {
    var d, acts, from := TRun(Opened(store, block), cs).db, Standing(store, block, cs), NewDb(store, block);
    var was := StoredAccount(store, block, a);
    OpenedTracked(store, block);
    RunHeldCodes(Opened(store, block), Script([], []), cs, from);
    ShowsStanding(store, block, cs, AccountLoc(a));
    assert View(from, AccountLoc(a)) == Fields(true, was) && from.Account(a) == was;
    assert was.codeHash != ZERO_HASH ==> from.Held(was.codeHash) && d.Lookup(was.codeHash) == from.Lookup(was.codeHash);
    hide TRun, Standing, Told, SoundRunAt, LegalRun, CodesHeld, CodesKept;
    ToldAccount(acts, a, Fields(true, was));
    assert d.Account(a).codeHash == Last(acts, HashGiven(a), was.codeHash);
    LastCode(d, acts, a, was.codeHash, from.Code(a));
  }

  /**
   Code outlives its undoing: after a revert the code that was set is still held, and so is what the
   account had before, under its own hash. The next commit writes both, the zero hash included.
   */
  lemma UndoneCodeIsKept(db: Db, a: Address, code: Bytes, hash: Hash)
    requires db.Ordered()
    ensures var r := db.Snapshot().SetCode(a, code, hash);
      r.Ordered() && r.RevertToSnapshot(db.nextRevisionId).codes ==
        db.codes[hash := code][db.Account(a).codeHash := db.Code(a)]
    ensures var r := db.Snapshot().SetCode(a, code, hash).RevertToSnapshot(db.nextRevisionId);
      db.Account(a).codeHash == ZERO_HASH ==> C.Committed(r, CodeKey(ZERO_HASH)) == Some(CodeDatum([]))
  {
    var r, e := db.Snapshot().SetCode(a, code, hash), CodeChange(a, db.Code(a), db.Account(a).codeHash);
    CodeSetAfterSnapshot(db, a, code, hash);
    hide Db.Account, Db.Code, Db.SetCode, Db.Snapshot, Db.Ordered;
    RevertLast(r, db.nextRevisionId, db.journal, e);
  }

  lemma CodeSetAfterSnapshot(db: Db, a: Address, code: Bytes, hash: Hash)
    requires db.Ordered()
    ensures var r := db.Snapshot().SetCode(a, code, hash);
      && r.Ordered() && r.codes == db.codes[hash := code]
      && r.revisions == db.revisions + [Revision(db.nextRevisionId, |db.journal|)]
      && r.journal == db.journal + [CodeChange(a, db.Code(a), db.Account(a).codeHash)]
  {
    assert db.Snapshot().Account(a) == db.Account(a) && db.Snapshot().Code(a) == db.Code(a);
    hide Db.Account, Db.Code;
  }

  /** Reverting over one record undoes that record. */
  lemma RevertLast(r: Db, id: nat, js: seq<Entry>, e: Entry)
    requires r.Ordered() && r.revisions != [] && r.revisions[|r.revisions| - 1] == Revision(id, |js|)
    requires r.journal == js + [e]
    ensures r.RevertToSnapshot(id).codes == r.Undo(e).codes
  {
    RevertById(r, |r.revisions| - 1);
    hide Db.RevertToSnapshot, Db.Undo;
    assert r.journal[|js|..] == [e] && [e][1..] == [];
    assert r.UndoAll([e]) == r.UndoAll([]).Undo(e);
  }
}
