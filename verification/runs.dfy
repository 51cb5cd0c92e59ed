/** Calls on the state database, and what holds after every sequence of them. */
module Runs {
  import opened Types
  import opened WorldState
  import opened Revert

  datatype Query =
    | GetBalance(addr: Address)
    | GetNonce(addr: Address)
    | GetCodeHash(addr: Address)
    | GetCode(addr: Address)
    | Exist(addr: Address)
    | Empty(addr: Address)
    | GetState(addr: Address, key: Hash)
    | HasSuicided(addr: Address)
    | GetRefund
    | GetLogs(txHash: Hash)
    | AddressInAccessList(addr: Address)
    | SlotInAccessList(addr: Address, slot: Hash)
  {
    predicate LoadsAccount() {
      GetBalance? || GetNonce? || GetCodeHash? || GetCode? || Exist? || Empty?
    }
  }

  datatype Call =
    | Ask(query: Query)
    | CreateAccount(addr: Address)
    | AddBalance(addr: Address, amount: int)
    | SubBalance(addr: Address, amount: int)
    | SetNonce(addr: Address, nonce: nat)
    | SetCode(addr: Address, code: Bytes, hash: Hash)
    | SetState(addr: Address, key: Hash, value: Hash)
    | Suicide(addr: Address)
    | AddLog(data: Bytes)
    | AddRefund(gas: nat)
    | SubRefund(gas: nat)
    | AddPreimage(hash: Hash, data: Bytes)
    | AddAddressToAccessList(addr: Address)
    | AddSlotToAccessList(addr: Address, slot: Hash)
    | Prepare(sender: Address, dest: Option<Address>, precompiles: seq<Address>, tuples: seq<AccessTuple>)
    | SetTxContext(txHash: Hash, txIndex: nat)
    | Snapshot
    | RevertToSnapshot(id: nat)

  predicate AccountCall(c: Call) {
    c.CreateAccount? || c.AddBalance? || c.SubBalance? || c.SetNonce? || c.SetCode? || c.Suicide?
  }

  predicate AccessCall(c: Call) {
    c.AddAddressToAccessList? || c.AddSlotToAccessList? || c.Prepare?
  }

  function AdvanceAccount(db: Db, c: Call): (r: Db)
    requires AccountCall(c)
    ensures r.store == db.store && r.block == db.block
    ensures r.revisions == db.revisions && r.nextRevisionId == db.nextRevisionId
    ensures db.journal <= r.journal
    ensures r.codes == if c.SetCode? then db.codes[c.hash := c.code] else db.codes
    ensures r.logs == db.logs && r.logSize == db.logSize
  {
    match c
    case CreateAccount(a) => db.CreateAccount(a)
    case AddBalance(a, x) => db.AddBalance(a, x)
    case SubBalance(a, x) => db.SubBalance(a, x)
    case SetNonce(a, n) => db.SetNonce(a, n)
    case SetCode(a, code, hash) => db.SetCode(a, code, hash)
    case Suicide(a) => db.Suicide(a)
  }

  function AdvanceAccess(db: Db, c: Call): (r: Db)
    requires AccessCall(c)
    ensures db.journal <= r.journal
    ensures r == db.(access := r.access, journal := r.journal, txHash := r.txHash, txIndex := r.txIndex)
  {
    match c
    case AddAddressToAccessList(a) => db.AddAddressToAccessList(a)
    case AddSlotToAccessList(a, s) => db.AddSlotToAccessList(a, s)
    case Prepare(sender, dest, pre, tuples) => db.Prepare(sender, dest, pre, tuples)
  }

  function AdvanceOther(db: Db, c: Call): (r: Db)
    requires !AccountCall(c) && !AccessCall(c)
    ensures r.store == db.store && r.block == db.block
    ensures r.revisions == db.revisions && r.nextRevisionId == db.nextRevisionId
    ensures db.journal <= r.journal
    ensures r.codes == db.codes && r.suicides == db.suicides && r.access == db.access
    ensures !c.AddLog? ==> r.logs == db.logs && r.logSize == db.logSize
    ensures r.accounts == if c.Ask? && c.query.LoadsAccount() then db.Load(c.query.addr).accounts else db.accounts
  {
    match c
    case Ask(q) => if q.LoadsAccount() then db.Load(q.addr) else db
    case SetState(a, k, v) => db.SetState(a, k, v)
    case AddLog(data) => db.AddLog(data)
    case AddRefund(gas) => db.AddRefund(gas)
    case SubRefund(gas) => db.SubRefund(gas)
    case AddPreimage(h, data) => db.AddPreimage(h, data)
    case SetTxContext(h, i) => db.SetTxContext(h, i)
    case _ => db
  }

  /** Every call but the two that work on the revision stack. */
  function Advance(db: Db, c: Call): (r: Db)
    ensures r.store == db.store && r.block == db.block
    ensures r.revisions == db.revisions && r.nextRevisionId == db.nextRevisionId
    ensures db.journal <= r.journal
  {
    if AccountCall(c) then AdvanceAccount(db, c)
    else if AccessCall(c) then AdvanceAccess(db, c)
    else AdvanceOther(db, c)
  }

  function Step(db: Db, c: Call): (r: Db)
    requires db.Ordered()
    ensures r.Ordered() && r.store == db.store && r.block == db.block
  {
    if c.Snapshot? then db.Snapshot()
    else if c.RevertToSnapshot? then db.RevertToSnapshot(c.id)
    else Advance(db, c)
  }

  function Run(db: Db, cs: seq<Call>): (r: Db)
    requires db.Ordered()
    ensures r.Ordered()
    decreases |cs|
  {
    if cs == [] then db else Run(Step(db, cs[0]), cs[1..])
  }

  /** The new code does not collide with other code already held under its hash. */
  predicate Legal(db: Db, c: Call) {
    c.SetCode? ==> c.hash != ZERO_HASH && (db.Held(c.hash) ==> db.Lookup(c.hash) == c.code)
  }

  /** A run keeps, for each live snapshot, the database as it was when the snapshot was taken. */
  datatype Traced = Traced(db: Db, saved: seq<Db>)

  ghost predicate Aligned(t: Traced) {
    t.db.Ordered() && |t.saved| == |t.db.revisions|
  }

  ghost function TStep(t: Traced, c: Call): (r: Traced)
    requires Aligned(t)
    ensures Aligned(r) && r.db == Step(t.db, c)
  {
    if c.Snapshot? then Traced(Step(t.db, c), t.saved + [t.db])
    else if c.RevertToSnapshot? && t.db.Find(c.id).Some? then
      Traced(Step(t.db, c), t.saved[..t.db.Find(c.id).value])
    else Traced(Step(t.db, c), t.saved)
  }

  ghost function TRun(t: Traced, cs: seq<Call>): (r: Traced)
    requires Aligned(t)
    ensures Aligned(r)
    decreases |cs|
  {
    if cs == [] then t else TRun(TStep(t, cs[0]), cs[1..])
  }

  ghost function Opened(store: Store, block: nat): Traced {
    Traced(NewDb(store, block), [])
  }

  /******* Reverting by id *******/

  lemma {:induction false} FoundFrom(db: Db, i: nat, j: nat)
    requires db.Ordered() && j <= i < |db.revisions|
    ensures db.FindFrom(db.revisions[i].id, j) == Some(i)
    decreases i - j
  {
    if j < i {
      assert db.revisions[j].id < db.revisions[i].id;
      FoundFrom(db, i, j + 1);
    }
  }

  /** The id of a live snapshot leads back to that snapshot and to no other. */
  lemma RevertById(db: Db, i: nat)
    requires db.Ordered() && i < |db.revisions|
    ensures db.RevertToSnapshot(db.revisions[i].id) == db.RevertTo(i)
  {
    FoundFrom(db, i, 0);
  }

  /******* One forward call *******/

  /** after adds js to the journal, and undoing js gives back every value of before. */
  ghost predicate Extends(before: Db, after: Db, js: seq<Entry>) {
    && after.store == before.store && after.block == before.block
    && after.revisions == before.revisions && after.nextRevisionId == before.nextRevisionId
    && after.journal == before.journal + js
    && (forall x :: View(before, x) == Ideal(js, x, View(after, x)))
  }

  function Added(db: Db, c: Call): seq<Entry> {
    Advance(db, c).journal[|db.journal|..]
  }

  lemma IdealOne(e: Entry, x: Loc, v: Val)
    ensures Ideal([e], x, v) == IdealUndo(e, x, v)
  {
    assert Ideal([e][1..], x, v) == v;
  }

  /** after differs from before in the record of a, which e puts back, and for a suicide in its flag. */
  predicate OneRecord(before: Db, after: Db, a: Address, e: Entry) {
    && a in after.accounts && after.accounts == before.accounts[a := after.accounts[a]]
    && after.store == before.store && after.block == before.block
    && after.storages == before.storages && after.logs == before.logs && after.logSize == before.logSize
    && after.preimages == before.preimages && after.refund == before.refund
    && after.suicides == (if e.SuicideChange? then before.suicides + {a} else before.suicides)
    && e.RestoresAccount(a) && (e.SuicideChange? ==> e.wasSuicided == (a in before.suicides))
    && IdealUndo(e, AccountLoc(a), Fields(true, after.accounts[a])) == Fields(true, before.Account(a))
  }

  /** The new record of an account call with its undo record; None when the call changes nothing. */
  function Update(db: Db, c: Call): Option<(AccountData, Entry)>
    requires AccountCall(c)
  {
    var acc := db.Account(c.addr);
    match c
    case CreateAccount(a) => if db.Empty(a) then Some((NEW_ACCOUNT, CreateObjectChange(a))) else None
    case AddBalance(a, x) =>
      if x == 0 then None else Some((acc.(balance := acc.balance + x), BalanceChange(a, acc.balance)))
    case SubBalance(a, x) =>
      if x == 0 then None else Some((acc.(balance := acc.balance - x), BalanceChange(a, acc.balance)))
    case SetNonce(a, n) => Some((acc.(nonce := n), NonceChange(a, acc.nonce)))
    case SetCode(a, code, hash) => Some((acc.(codeHash := hash), CodeChange(a, db.Code(a), acc.codeHash)))
    case Suicide(a) => Some((acc.(balance := 0), SuicideChange(a, a in db.suicides, acc.balance)))
  }

  function Apply(db: Db, c: Call, acc: AccountData, e: Entry): Db
    requires AccountCall(c)
  {
    db.(accounts := db.accounts[c.addr := acc], journal := db.journal + [e],
        codes := if c.SetCode? then db.codes[c.hash := c.code] else db.codes,
        suicides := if c.Suicide? then db.suicides + {c.addr} else db.suicides)
  }

  lemma AccountCallIsUpdate(db: Db, c: Call)
    requires AccountCall(c)
    ensures AdvanceAccount(db, c) ==
      match Update(db, c)
      case None => if c.CreateAccount? then db.Load(c.addr) else db
      case Some((acc, e)) => Apply(db, c, acc, e)
  {
  }

  lemma UpdateShape(db: Db, c: Call, acc: AccountData, e: Entry)
    requires AccountCall(c) && Update(db, c) == Some((acc, e))
    ensures OneRecord(db, Apply(db, c, acc, e), c.addr, e)
    ensures acc.codeHash == db.Account(c.addr).codeHash || acc.codeHash == ZERO_HASH ||
        (c.SetCode? && acc.codeHash == c.hash)
  {
  }

  /** Either no undo record is written and nothing visible changes, or one record is. */
  lemma AccountCallShape(db: Db, c: Call)
    requires AccountCall(c)
    ensures var r := AdvanceAccount(db, c);
      || r == db || r == db.Load(c.addr)
      || (r.journal == db.journal + [r.journal[|db.journal|]] && OneRecord(db, r, c.addr, r.journal[|db.journal|])
          && Update(db, c) == Some((r.accounts[c.addr], r.journal[|db.journal|])))
  {
    AccountCallIsUpdate(db, c);
    if Update(db, c).Some? {
      UpdateShape(db, c, Update(db, c).value.0, Update(db, c).value.1);
    }
  }

  lemma OneRecordUndone(before: Db, after: Db, a: Address, e: Entry, x: Loc)
    requires OneRecord(before, after, a, e)
    ensures View(before, x) == IdealUndo(e, x, View(after, x))
  {
    if x.AccountLoc? {
      assert after.Base(x.addr) == before.Base(x.addr);
    }
  }

  lemma LoadInvisible(db: Db, a: Address, x: Loc)
    ensures View(db.Load(a), x) == View(db, x)
  {
    if x.AccountLoc? {
      assert db.Load(a).Base(x.addr) == db.Base(x.addr);
    }
  }

  lemma AccountCallExtends(db: Db, c: Call, x: Loc)
    requires AccountCall(c)
    ensures View(db, x) == Ideal(Added(db, c), x, View(Advance(db, c), x))
  {
    AccountCallShape(db, c);
    LoadInvisible(db, c.addr, x);
    hide AdvanceAccount, Update, OneRecord, View;
    if Added(db, c) != [] {
      assert Added(db, c) == [Added(db, c)[0]];
      OneRecordUndone(db, Advance(db, c), c.addr, Added(db, c)[0], x);
      IdealOne(Added(db, c)[0], x, View(Advance(db, c), x));
    }
  }

  lemma {:induction false} ForeignEntriesInvisible(js: seq<Entry>, x: Loc, v: Val)
    requires forall e :: e in js ==> IdealUndo(e, x, v) == v
    ensures Ideal(js, x, v) == v
    decreases |js|
  {
    if js != [] {
      assert js[0] in js;
      ForeignEntriesInvisible(js[1..], x, v);
    }
  }

  lemma AccessCallKinds(db: Db, c: Call, e: Entry)
    requires AccessCall(c) && e in Added(db, c)
    ensures e.AccessAddressChange? || e.AccessSlotChange?
  {
    assert Added(db, c) == AdvanceAccess(db, c).journal[|db.journal|..];
  }

  lemma AccessCallExtends(db: Db, c: Call, x: Loc)
    requires AccessCall(c)
    ensures View(db, x) == Ideal(Added(db, c), x, View(Advance(db, c), x))
  {
    var r := AdvanceAccess(db, c);
    if x.AccountLoc? {
      assert r.Base(x.addr) == db.Base(x.addr);
    }
    assert View(db, x) == View(r, x);
    hide AdvanceAccess, View;
    forall e | e in Added(db, c) ensures IdealUndo(e, x, View(r, x)) == View(r, x) {
      AccessCallKinds(db, c, e);
    }
    ForeignEntriesInvisible(Added(db, c), x, View(r, x));
  }

  lemma OtherCallKinds(db: Db, c: Call)
    requires !AccountCall(c) && !AccessCall(c)
    ensures var r := AdvanceOther(db, c);
      && (r.journal == db.journal || r.journal == db.journal + [r.journal[|db.journal|]])
      && (forall a :: |r.journal| > |db.journal| ==> !r.journal[|db.journal|].RestoresAccount(a))
      && (|r.journal| > |db.journal| ==> (r.journal[|db.journal|].AddLogChange? <==> c.AddLog?))
  {
  }

  lemma OtherCallOnAccount(db: Db, c: Call, a: Address)
    requires !AccountCall(c) && !AccessCall(c)
    ensures View(db, AccountLoc(a)) == Ideal(Added(db, c), AccountLoc(a), View(Advance(db, c), AccountLoc(a)))
  {
    var r := AdvanceOther(db, c);
    OtherCallKinds(db, c);
    assert r.Base(a) == db.Base(a);
    assert View(db, AccountLoc(a)) == View(r, AccountLoc(a));
    ForeignEntriesInvisible(Added(db, c), AccountLoc(a), View(r, AccountLoc(a)));
  }

  lemma OtherCallElsewhere(db: Db, c: Call, x: Loc)
    requires !AccountCall(c) && !AccessCall(c) && !x.AccountLoc?
    ensures var r := AdvanceOther(db, c);
      if r.journal == db.journal then View(db, x) == View(r, x)
      else View(db, x) == IdealUndo(r.journal[|db.journal|], x, View(r, x))
  {
  }

  lemma OtherCallExtends(db: Db, c: Call, x: Loc)
    requires !AccountCall(c) && !AccessCall(c)
    ensures View(db, x) == Ideal(Added(db, c), x, View(Advance(db, c), x))
  {
    if x.AccountLoc? {
      OtherCallOnAccount(db, c, x.addr);
    } else {
      OtherCallElsewhere(db, c, x);
      OtherCallKinds(db, c);
      if Added(db, c) != [] {
        IdealOne(Added(db, c)[0], x, View(Advance(db, c), x));
        assert Added(db, c) == [Added(db, c)[0]];
      }
    }
  }

  lemma CallExtends(db: Db, c: Call)
    ensures Extends(db, Advance(db, c), Added(db, c))
  {
    var r := Advance(db, c);
    forall x ensures View(db, x) == Ideal(Added(db, c), x, View(r, x)) {
      if AccessCall(c) { AccessCallExtends(db, c, x); }
      else if AccountCall(c) { AccountCallExtends(db, c, x); }
      else { OtherCallExtends(db, c, x); }
    }
  }

  lemma UpdateOnCodeHash(db: Db, c: Call, acc: AccountData, e: Entry, a: Address)
    requires AccountCall(c) && Update(db, c) == Some((acc, e))
    ensures var h := Apply(db, c, acc, e).Account(a).codeHash;
      h == db.Account(a).codeHash || h == ZERO_HASH || (c.SetCode? && h == c.hash)
  {
    UpdateShape(db, c, acc, e);
    assert Apply(db, c, acc, e).Base(a) == db.Base(a);
    hide Update;
  }

  lemma AccountCallOnCodeHash(db: Db, c: Call, a: Address)
    requires AccountCall(c)
    ensures var h := AdvanceAccount(db, c).Account(a).codeHash;
      h == db.Account(a).codeHash || h == ZERO_HASH || (c.SetCode? && h == c.hash)
  {
    AccountCallIsUpdate(db, c);
    if Update(db, c).Some? {
      hide AdvanceAccount, Apply, Update;
      UpdateOnCodeHash(db, c, Update(db, c).value.0, Update(db, c).value.1, a);
    } else {
      assert AdvanceAccount(db, c).Base(a) == db.Base(a);
      hide AdvanceAccount;
    }
  }

  lemma CallOnCodeHash(db: Db, c: Call, a: Address)
    ensures var h := Advance(db, c).Account(a).codeHash;
      h == db.Account(a).codeHash || h == ZERO_HASH || (c.SetCode? && h == c.hash)
  {
    if AccountCall(c) {
      AccountCallOnCodeHash(db, c, a);
    } else {
      assert Advance(db, c).Base(a) == db.Base(a);
    }
  }

  lemma CallKeepsCodes(db: Db, c: Call)
    requires CodeSound(db) && Legal(db, c)
    ensures CodesKept(db, Advance(db, c)) && CodesComplete(Advance(db, c)) && AccountsHeld(Advance(db, c))
  {
    var r := Advance(db, c);
    forall a ensures r.Base(a) == db.Base(a) &&
        (r.StoredCode(r.Base(a).codeHash) <==> db.StoredCode(db.Base(a).codeHash)) {}
    forall a ensures r.Account(a).codeHash != ZERO_HASH ==> r.Held(r.Account(a).codeHash) {
      CallOnCodeHash(db, c, a);
    }
  }

  lemma CallKeepsCodeSound(db: Db, c: Call)
    requires CodeSound(db) && Legal(db, c)
    ensures CodesKept(db, Advance(db, c)) && CodeSound(Advance(db, c))
  {
    CallKeepsCodes(db, c);
    var r := Advance(db, c);
    forall i | 0 <= i < |r.journal| ensures CodeEntryHeld(r, r.journal[i]) {
      if i < |db.journal| {
        assert r.journal[i] == db.journal[i] && CodeEntryHeld(db, db.journal[i]);
      } else if r.journal[i].CodeChange? {
        assert c.SetCode? && r.journal[i] == CodeChange(c.addr, db.Code(c.addr), db.Account(c.addr).codeHash);
      }
    }
  }

  lemma CallTracked(db: Db, saved: seq<Db>, c: Call)
    requires Tracked(db, saved) && Legal(db, c)
    ensures Tracked(Advance(db, c), saved)
  {
    CallExtends(db, c);
    CallKeepsCodeSound(db, c);
    var r, js := Advance(db, c), Added(db, c);
    forall i | 0 <= i < |saved| ensures TrackedAt(r, saved[i], r.revisions[i].journalIndex) {
      var s, k := saved[i], db.revisions[i].journalIndex;
      assert TrackedAt(db, s, k);
      assert r.journal[k..] == db.journal[k..] + js;
      forall x ensures View(s, x) == Ideal(r.journal[k..], x, View(r, x)) {
        IdealConcat(db.journal[k..], js, x, View(r, x));
        assert View(db, x) == Ideal(js, x, View(r, x));
      }
    }
  }

  lemma SnapshotTracked(db: Db, saved: seq<Db>)
    requires Tracked(db, saved)
    ensures Tracked(db.Snapshot(), saved + [db])
  {
    var r := db.Snapshot();
    forall x ensures View(r, x) == View(db, x) {}
    forall h ensures r.Held(h) == db.Held(h) && r.Lookup(h) == db.Lookup(h) {}
    forall a ensures r.Account(a) == db.Account(a) && r.Base(a) == db.Base(a) &&
        r.StoredCode(r.Base(a).codeHash) == db.StoredCode(db.Base(a).codeHash) {}
    forall i | 0 <= i < |r.journal| ensures CodeEntryHeld(r, r.journal[i]) {
      assert CodeEntryHeld(db, db.journal[i]);
    }
    forall i | 0 <= i <= |saved| ensures TrackedAt(r, (saved + [db])[i], r.revisions[i].journalIndex) {
      if i < |saved| {
        assert TrackedAt(db, saved[i], db.revisions[i].journalIndex);
      } else {
        assert r.journal[|r.journal|..] == [];
      }
    }
  }

  lemma RevertKeepsCodeSound(db: Db, saved: seq<Db>, i: nat)
    requires Tracked(db, saved) && i < |saved|
    requires Recoverable(db, saved[i], db.revisions[i].journalIndex)
    ensures CodeSound(db.RevertTo(i)) && CodesKept(db, db.RevertTo(i))
  {
    var s, k := saved[i], db.revisions[i].journalIndex;
    var r := db.RevertTo(i);
    RevertExactness(db, saved, i);
    UndoAllKeepsCodes(db, db.journal[k..]);
    assert TrackedAt(db, s, k);
    forall a ensures r.Base(a) == db.Base(a) &&
        r.StoredCode(r.Base(a).codeHash) == db.StoredCode(db.Base(a).codeHash) {}
    forall a ensures r.Account(a).codeHash != ZERO_HASH ==> r.Held(r.Account(a).codeHash) {
      assert View(r, AccountLoc(a)) == View(s, AccountLoc(a));
      assert s.Account(a).codeHash != ZERO_HASH ==> s.Held(s.Account(a).codeHash) && db.Held(s.Account(a).codeHash);
    }
    forall j | 0 <= j < |r.journal| ensures CodeEntryHeld(r, r.journal[j]) {
      assert r.journal[j] == db.journal[j] && CodeEntryHeld(db, db.journal[j]);
    }
  }

  lemma RevertTracked(db: Db, saved: seq<Db>, i: nat)
    requires Tracked(db, saved) && i < |saved|
    requires Recoverable(db, saved[i], db.revisions[i].journalIndex)
    ensures Tracked(db.RevertTo(i), saved[..i])
  {
    var r, ki := db.RevertTo(i), db.revisions[i].journalIndex;
    RevertExactness(db, saved, i);
    RevertKeepsCodeSound(db, saved, i);
    assert TrackedAt(db, saved[i], ki);
    forall j | 0 <= j < i ensures TrackedAt(r, saved[j], r.revisions[j].journalIndex) {
      var s, k := saved[j], db.revisions[j].journalIndex;
      assert TrackedAt(db, s, k);
      assert db.journal[k..] == r.journal[k..] + db.journal[ki..];
      forall x ensures View(s, x) == Ideal(r.journal[k..], x, View(r, x)) {
        IdealConcat(r.journal[k..], db.journal[ki..], x, View(db, x));
        assert View(r, x) == View(saved[i], x) == Ideal(db.journal[ki..], x, View(db, x));
      }
    }
  }

  /******* Whole runs *******/

  /** The revert c, if it is one, meets the condition of the exactness theorem. */
  ghost predicate RevertsSoundly(t: Traced, c: Call)
    requires Aligned(t)
  {
    c.RevertToSnapshot? && t.db.Find(c.id).Some? ==>
      var i := t.db.Find(c.id).value;
      Recoverable(t.db, t.saved[i], t.db.revisions[i].journalIndex)
  }

  lemma StepTracked(t: Traced, c: Call)
    requires Tracked(t.db, t.saved) && Legal(t.db, c) && RevertsSoundly(t, c)
    ensures Tracked(TStep(t, c).db, TStep(t, c).saved)
  {
    if c.Snapshot? {
      SnapshotTracked(t.db, t.saved);
    } else if c.RevertToSnapshot? {
      if t.db.Find(c.id).Some? {
        RevertTracked(t.db, t.saved, t.db.Find(c.id).value);
      }
    } else {
      CallTracked(t.db, t.saved, c);
    }
  }

  ghost predicate SoundRun(t: Traced, cs: seq<Call>)
    requires Aligned(t)
    decreases |cs|
  {
    cs != [] ==> Legal(t.db, cs[0]) && RevertsSoundly(t, cs[0]) && SoundRun(TStep(t, cs[0]), cs[1..])
  }

  lemma {:induction false} RunTracked(t: Traced, cs: seq<Call>)
    requires Tracked(t.db, t.saved) && SoundRun(t, cs)
    ensures Tracked(TRun(t, cs).db, TRun(t, cs).saved)
    decreases |cs|
  {
    if cs != [] {
      StepTracked(t, cs[0]);
      RunTracked(TStep(t, cs[0]), cs[1..]);
    }
  }

  lemma OpenedTracked(store: Store, block: nat)
    requires CodesComplete(NewDb(store, block))
    ensures Tracked(NewDb(store, block), [])
  {
  }

  /**
   After any run whose earlier reverts met the condition, the next revert to any live snapshot
   restores everything observable at it exactly when it meets the condition too.
   */
  lemma NestedRevertExactness(store: Store, block: nat, cs: seq<Call>, i: nat)
    requires CodesComplete(NewDb(store, block)) && SoundRun(Opened(store, block), cs)
    requires i < |TRun(Opened(store, block), cs).saved|
    ensures var t := TRun(Opened(store, block), cs);
      SameWorld(t.db.RevertToSnapshot(t.db.revisions[i].id), t.saved[i]) <==>
        Recoverable(t.db, t.saved[i], t.db.revisions[i].journalIndex)
  {
    OpenedTracked(store, block);
    RunTracked(Opened(store, block), cs);
    var t := TRun(Opened(store, block), cs);
    RevertExactness(t.db, t.saved, i);
    RevertById(t.db, i);
  }
}
