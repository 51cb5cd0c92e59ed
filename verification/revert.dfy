/**
 Reverting to a snapshot. The overlay is not restored as a map: reads have filled it, undone
 writes leave explicit entries behind and an undone CreateAccount deletes the record. What is
 compared is what a caller can observe, one location at a time.
 */
module Revert {
  import opened Types
  import opened WorldState

  /** Everything a getter can look at, apart from code bytes and the access list. */
  datatype Loc =
    | AccountLoc(addr: Address)
    | SlotLoc(addr: Address, key: Hash)
    | SuicideLoc(addr: Address)
    | RefundLoc
    | LogsLoc(txHash: Hash)
    | LogSizeLoc
    | PreimageLoc(hash: Hash)

  /** The storage root has no getter and is not part of an account's value. */
  datatype Val =
    | AccountVal(loaded: bool, balance: int, nonce: nat, codeHash: Hash)
    | WordVal(word: Hash)
    | FlagVal(flag: bool)
    | CountVal(count: int)
    | LogsVal(logs: seq<Log>)
    | BytesVal(bytes: Option<Bytes>)

  function Fields(loaded: bool, acc: AccountData): Val {
    AccountVal(loaded, acc.balance, acc.nonce, acc.codeHash)
  }

  function Look(db: Db, x: Loc): Val {
    match x
    case AccountLoc(a) => Fields(a in db.accounts, db.Account(a))
    case SlotLoc(a, k) => WordVal(db.State(a, k))
    case SuicideLoc(a) => FlagVal(a in db.suicides)
    case RefundLoc => CountVal(db.refund)
    case LogsLoc(h) => LogsVal(db.LogsOf(h))
    case LogSizeLoc => CountVal(db.logSize)
    case PreimageLoc(h) => BytesVal(if h in db.preimages then Some(db.preimages[h]) else None)
  }

  /** Whether the record sits in the overlay cannot be observed. */
  function Seen(v: Val): Val {
    if v.AccountVal? then v.(loaded := true) else v
  }

  function View(db: Db, x: Loc): Val {
    Seen(Look(db, x))
  }

  /** A record of an account's own kind; p is the account as the untouched store shows it. */
  function UndoRecord(p: Val, e: Entry, v: Val): Val
    requires v.AccountVal?
  {
    if e.CreateObjectChange? then p
    else if !v.loaded then v
    else match e
      case BalanceChange(_, prev) => v.(balance := prev)
      case SuicideChange(_, _, prev) => v.(balance := prev)
      case NonceChange(_, prev) => v.(nonce := prev)
      case CodeChange(_, _, prev) => v.(codeHash := prev)
      case _ => v
  }

  /** What an undo record does to one location. */
  function UndoVal(p: Val, e: Entry, x: Loc, v: Val): Val {
    match x
    case AccountLoc(a) => if v.AccountVal? && e.RestoresAccount(a) then UndoRecord(p, e, v) else v
    case SlotLoc(a, k) => if e.StorageChange? && e.account == a && e.key == k then WordVal(e.prevValue) else v
    case SuicideLoc(a) => if e.SuicideChange? && e.account == a then FlagVal(e.wasSuicided) else v
    case RefundLoc => if e.RefundChange? then CountVal(e.prevRefund) else v
    case LogsLoc(h) =>
      if e == AddLogChange(h) && v.LogsVal? && v.logs != [] then LogsVal(v.logs[..|v.logs| - 1]) else v
    case LogSizeLoc => if e.AddLogChange? && v.CountVal? then CountVal(v.count - 1) else v
    case PreimageLoc(h) => if e == AddPreimageChange(h) then BytesVal(None) else v
  }

  function Back(p: Val, js: seq<Entry>, x: Loc, v: Val): Val
    decreases |js|
  {
    if js == [] then v else UndoVal(p, js[0], x, Back(p, js[1..], x, v))
  }

  /** An account as the untouched store shows it; other locations have no use for it. */
  function Pristine(db: Db, x: Loc): Val {
    if x.AccountLoc? then Fields(false, db.Base(x.addr)) else CountVal(0)
  }

  lemma AccountUndo(db: Db, e: Entry, a: Address)
    ensures Look(db.Undo(e), AccountLoc(a)) ==
        UndoVal(Pristine(db, AccountLoc(a)), e, AccountLoc(a), Look(db, AccountLoc(a)))
  {
    assert db.Undo(e).Base(a) == db.Base(a);
  }

  lemma OtherUndo(db: Db, e: Entry, x: Loc)
    requires !x.AccountLoc?
    ensures Look(db.Undo(e), x) == UndoVal(Pristine(db, x), e, x, Look(db, x))
  {
  }

  lemma LookUndo(db: Db, e: Entry, x: Loc)
    ensures Look(db.Undo(e), x) == UndoVal(Pristine(db, x), e, x, Look(db, x))
  {
    if x.AccountLoc? { AccountUndo(db, e, x.addr); } else { OtherUndo(db, e, x); }
  }

  lemma {:induction false} LookUndoAll(db: Db, js: seq<Entry>, x: Loc)
    ensures Look(db.UndoAll(js), x) == Back(Pristine(db, x), js, x, Look(db, x))
    decreases |js|
  {
    if js != [] {
      var rest := db.UndoAll(js[1..]);
      LookUndoAll(db, js[1..], x);
      LookUndo(rest, js[0], x);
      assert Pristine(rest, x) == Pristine(db, x);
      assert db.UndoAll(js) == rest.Undo(js[0]);
    }
  }

  /******* The intended effect *******/

  /** Undo ignoring whether the record is loaded, with creation undone to the empty account it started from. */
  function IdealUndo(e: Entry, x: Loc, v: Val): Val {
    if e.CreateObjectChange? then v else UndoVal(v, e, x, v)
  }

  function Ideal(js: seq<Entry>, x: Loc, v: Val): Val
    decreases |js|
  {
    if js == [] then v else IdealUndo(js[0], x, Ideal(js[1..], x, v))
  }

  lemma {:induction false} IdealConcat(js: seq<Entry>, ks: seq<Entry>, x: Loc, v: Val)
    ensures Ideal(js + ks, x, v) == Ideal(js, x, Ideal(ks, x, v))
    decreases |js|
  {
    if js == [] {
      assert js + ks == ks;
    } else {
      assert (js + ks)[1..] == js[1..] + ks;
      IdealConcat(js[1..], ks, x, v);
    }
  }

  /** The record was dropped on the way back, or had been dropped before. */
  predicate Lost(js: seq<Entry>, x: Loc, v: Val) {
    x.AccountLoc? && v.AccountVal? && (!v.loaded || CreateObjectChange(x.addr) in js)
  }

  /** One record, on a value that is still loaded. */
  lemma UndoLoaded(p: Val, e: Entry, x: Loc, v: Val)
    requires x.AccountLoc? <==> v.AccountVal?
    requires x.AccountLoc? ==> v.loaded && e != CreateObjectChange(x.addr)
    ensures Seen(UndoVal(p, e, x, v)) == IdealUndo(e, x, Seen(v))
    ensures UndoVal(p, e, x, v).AccountVal? <==> x.AccountLoc?
    ensures x.AccountLoc? ==> UndoVal(p, e, x, v).loaded
  {
  }

  lemma {:induction false} BackVersusIdeal(p: Val, js: seq<Entry>, x: Loc, v: Val)
    requires x.AccountLoc? <==> v.AccountVal?
    requires x.AccountLoc? ==> p.AccountVal? && !p.loaded && (!v.loaded ==> v == p)
    ensures Lost(js, x, v) ==> Back(p, js, x, v) == p
    ensures !Lost(js, x, v) ==> Seen(Back(p, js, x, v)) == Ideal(js, x, Seen(v))
    ensures Back(p, js, x, v).AccountVal? <==> x.AccountLoc?
    ensures !Lost(js, x, v) && x.AccountLoc? ==> Back(p, js, x, v).loaded
    decreases |js|
  {
    if js != [] {
      var e, rest, b := js[0], js[1..], Back(p, js[1..], x, v);
      BackVersusIdeal(p, rest, x, v);
      assert Back(p, js, x, v) == UndoVal(p, e, x, b);
      assert js == [e] + rest;
      if !Lost(js, x, v) {
        assert !Lost(rest, x, v);
        UndoLoaded(p, e, x, b);
      }
    }
  }

  /******* What a live snapshot knows about the present *******/

  /** The present, undone to journal mark k, is what s showed. */
  ghost predicate Remembers(db: Db, s: Db, k: nat) {
    k <= |db.journal| && forall x :: View(s, x) == Ideal(db.journal[k..], x, View(db, x))
  }

  /** Code once held under a hash stays held and stays the same. */
  ghost predicate CodesKept(s: Db, db: Db) {
    forall h :: h != ZERO_HASH && s.Held(h) ==> db.Held(h) && db.Lookup(h) == s.Lookup(h)
  }

  /** The store holds the code of every account it serves. */
  ghost predicate CodesComplete(db: Db) {
    forall a :: db.Base(a).codeHash != ZERO_HASH ==> db.StoredCode(db.Base(a).codeHash)
  }

  ghost predicate AccountsHeld(db: Db) {
    forall a :: db.Account(a).codeHash != ZERO_HASH ==> db.Held(db.Account(a).codeHash)
  }

  predicate CodeEntryHeld(db: Db, e: Entry) {
    e.CodeChange? && e.prevHash != ZERO_HASH ==> db.Held(e.prevHash) && db.Lookup(e.prevHash) == e.prevCode
  }

  ghost predicate CodeSound(db: Db) {
    && CodesComplete(db)
    && AccountsHeld(db)
    && (forall i :: 0 <= i < |db.journal| ==> CodeEntryHeld(db, db.journal[i]))
  }

  /** saved[i] is the database as it was when the i-th live snapshot was taken. */
  ghost predicate Tracked(db: Db, saved: seq<Db>) {
    && db.Ordered()
    && |saved| == |db.revisions|
    && CodeSound(db)
    && (forall i :: 0 <= i < |saved| ==> TrackedAt(db, saved[i], db.revisions[i].journalIndex))
  }

  ghost predicate TrackedAt(db: Db, s: Db, k: nat) {
    s.store == db.store && s.block == db.block && AccountsHeld(s) && CodesKept(s, db) && Remembers(db, s, k)
  }

  /**
   No getter other than the access-list ones can tell the two apart. Code hashes are compared as
   stored, as a commit writes them, although GetCodeHash shows no code and empty code alike.
   */
  ghost predicate SameWorld(d: Db, s: Db) {
    && (forall x :: View(d, x) == View(s, x))
    && (forall a :: d.Code(a) == s.Code(a))
  }

  predicate SameRecord(a: AccountData, b: AccountData) {
    a.balance == b.balance && a.nonce == b.nonce && a.codeHash == b.codeHash
  }

  /** Reverting to mark k gives a its stored record back, whatever the older records say. */
  predicate FallsToBase(db: Db, k: nat, a: Address)
    requires k <= |db.journal|
  {
    a !in db.accounts || CreateObjectChange(a) in db.journal[k..]
  }

  /** The condition of the exact-revert theorem. */
  ghost predicate Recoverable(db: Db, s: Db, k: nat)
    requires k <= |db.journal|
  {
    forall a :: FallsToBase(db, k, a) ==> SameRecord(s.Account(a), db.Base(a))
  }

  lemma ViewAfterUndo(db: Db, s: Db, k: nat, x: Loc)
    requires k <= |db.journal| && Remembers(db, s, k)
    ensures x.AccountLoc? && FallsToBase(db, k, x.addr) ==>
              View(db.UndoAll(db.journal[k..]), x) == Seen(Pristine(db, x))
    ensures !(x.AccountLoc? && FallsToBase(db, k, x.addr)) ==>
              View(db.UndoAll(db.journal[k..]), x) == View(s, x)
  {
    var js := db.journal[k..];
    LookUndoAll(db, js, x);
    BackVersusIdeal(Pristine(db, x), js, x, Look(db, x));
    assert View(s, x) == Ideal(js, x, View(db, x));
  }

  lemma UndoKeepsCodes(db: Db, e: Entry)
    requires CodeEntryHeld(db, e)
    ensures CodesKept(db, db.Undo(e)) && CodesKept(db.Undo(e), db)
  {
  }

  lemma {:induction false} UndoAllKeepsCodes(db: Db, js: seq<Entry>)
    requires forall e :: e in js ==> CodeEntryHeld(db, e)
    ensures CodesKept(db, db.UndoAll(js)) && CodesKept(db.UndoAll(js), db)
    decreases |js|
  {
    if js != [] {
      UndoAllKeepsCodes(db, js[1..]);
      assert CodeEntryHeld(db, js[0]);
      UndoKeepsCodes(db.UndoAll(js[1..]), js[0]);
      assert db.UndoAll(js) == db.UndoAll(js[1..]).Undo(js[0]);
    }
  }

  /** Exactly when going back to a snapshot restores everything that could be observed at it. */
  lemma RevertExactness(db: Db, saved: seq<Db>, i: nat)
    requires Tracked(db, saved) && i < |saved|
    ensures SameWorld(db.RevertTo(i), saved[i]) <==> Recoverable(db, saved[i], db.revisions[i].journalIndex)
  {
    var s, k := saved[i], db.revisions[i].journalIndex;
    assert TrackedAt(db, s, k);
    var js := db.journal[k..];
    var d := db.UndoAll(js);
    var r := db.RevertTo(i);
    UndoAllKeepsCodes(db, js);
    forall x ensures View(r, x) == View(d, x) {}
    if Recoverable(db, s, k) {
      forall x ensures View(r, x) == View(s, x) {
        ViewAfterUndo(db, s, k, x);
        if x.AccountLoc? && FallsToBase(db, k, x.addr) {
          assert SameRecord(s.Account(x.addr), db.Base(x.addr));
        }
      }
      forall a ensures r.Code(a) == s.Code(a) {
        assert View(r, AccountLoc(a)) == View(s, AccountLoc(a));
        var h := s.Account(a).codeHash;
        assert h != ZERO_HASH ==> s.Held(h) && db.Held(h) && d.Lookup(h) == s.Lookup(h);
      }
    }
    if SameWorld(r, s) {
      forall a | FallsToBase(db, k, a) ensures SameRecord(s.Account(a), db.Base(a)) {
        ViewAfterUndo(db, s, k, AccountLoc(a));
        assert View(r, AccountLoc(a)) == View(s, AccountLoc(a));
      }
    }
  }
}
