/** What each call changes of the observable state, location by location, and nothing else. */
module Effects {
  import opened Types
  import opened WorldState
  import opened Revert
  import opened Runs

  /** What a log is stamped with. */
  datatype Context = Context(txHash: Hash, txIndex: nat, logSize: int)

  function ContextOf(db: Db): Context {
    Context(db.txHash, db.txIndex, db.logSize)
  }

  /** The value a location shows after a call, from the value v it showed before. */
  function Changed(c: Call, at: Context, x: Loc, v: Val): Val {
    match x
    case AccountLoc(a) => if v.AccountVal? && AccountCall(c) && c.addr == a then ChangedAccount(c, v) else v
    case SlotLoc(a, k) => if c.SetState? && c.addr == a && c.key == k then WordVal(c.value) else v
    case SuicideLoc(a) => if c == Suicide(a) then FlagVal(true) else v
    case RefundLoc =>
      if c.AddRefund? && v.CountVal? then CountVal((v.count + c.gas) % TWO_64)
      else if c.SubRefund? && v.CountVal? then CountVal(if c.gas > v.count then 0 else v.count - c.gas)
      else v
    case LogsLoc(h) =>
      if c.AddLog? && h == at.txHash && v.LogsVal? then LogsVal(v.logs + [Log(c.data, h, at.txIndex, at.logSize)])
      else v
    case LogSizeLoc => if c.AddLog? && v.CountVal? then CountVal(v.count + 1) else v
    case PreimageLoc(h) => if c.AddPreimage? && c.hash == h && v == BytesVal(None) then BytesVal(Some(c.data)) else v
  }

  /** Creating an account shows nowhere: it only fires on an account that already looks new. */
  function ChangedAccount(c: Call, v: Val): Val
    requires AccountCall(c) && v.AccountVal?
  {
    match c
    case CreateAccount(_) => v
    case AddBalance(_, x) => v.(balance := v.balance + x)
    case SubBalance(_, x) => v.(balance := v.balance - x)
    case SetNonce(_, n) => v.(nonce := n)
    case SetCode(_, _, h) => v.(codeHash := h)
    case Suicide(_) => v.(balance := 0)
  }

  lemma UpdateOnAccount(db: Db, c: Call, acc: AccountData, e: Entry, a: Address)
    requires AccountCall(c) && Update(db, c) == Some((acc, e))
    ensures View(Apply(db, c, acc, e), AccountLoc(a)) ==
        Changed(c, ContextOf(db), AccountLoc(a), View(db, AccountLoc(a)))
  {
    assert Apply(db, c, acc, e).Base(a) == db.Base(a);
    hide Db.Base;
  }

  lemma AccountCallOnAccount(db: Db, c: Call, a: Address)
    requires AccountCall(c)
    ensures View(AdvanceAccount(db, c), AccountLoc(a)) ==
        Changed(c, ContextOf(db), AccountLoc(a), View(db, AccountLoc(a)))
  {
    AccountCallIsUpdate(db, c);
    hide AdvanceAccount, Apply, View;
    if Update(db, c).None? {
      LoadInvisible(db, c.addr, AccountLoc(a));
    } else {
      UpdateOnAccount(db, c, Update(db, c).value.0, Update(db, c).value.1, a);
      hide Update, Changed;
    }
  }

  lemma AccountCallElsewhere(db: Db, c: Call, x: Loc)
    requires AccountCall(c) && !x.AccountLoc?
    ensures View(AdvanceAccount(db, c), x) == Changed(c, ContextOf(db), x, View(db, x))
  {
    AccountCallIsUpdate(db, c);
    hide AdvanceAccount;
    if Update(db, c).None? {
      LoadInvisible(db, c.addr, x);
    }
  }

  lemma AccessCallOnView(db: Db, c: Call, x: Loc)
    requires AccessCall(c)
    ensures View(AdvanceAccess(db, c), x) == View(db, x)
  {
    var r := AdvanceAccess(db, c);
    hide AdvanceAccess;
    if x.AccountLoc? {
      assert r.Base(x.addr) == db.Base(x.addr);
    }
  }

  lemma OtherCallOnAccountView(db: Db, c: Call, a: Address)
    requires !AccountCall(c) && !AccessCall(c)
    ensures View(AdvanceOther(db, c), AccountLoc(a)) == View(db, AccountLoc(a))
  {
    var r := AdvanceOther(db, c);
    if c.Ask? && c.query.LoadsAccount() {
      LoadInvisible(db, c.query.addr, AccountLoc(a));
    } else {
      assert r.accounts == db.accounts && r.Base(a) == db.Base(a);
      hide AdvanceOther;
    }
  }

  lemma OtherCallOnSlot(db: Db, c: Call, a: Address, k: Hash)
    requires !AccountCall(c) && !AccessCall(c)
    ensures View(AdvanceOther(db, c), SlotLoc(a, k)) ==
        Changed(c, ContextOf(db), SlotLoc(a, k), View(db, SlotLoc(a, k)))
  {
    hide Db.Account, Db.Base, Db.Stored;
  }

  lemma OtherCallOnRest(db: Db, c: Call, x: Loc)
    requires !AccountCall(c) && !AccessCall(c) && !x.AccountLoc? && !x.SlotLoc?
    ensures View(AdvanceOther(db, c), x) == Changed(c, ContextOf(db), x, View(db, x))
  {
    hide Db.Account, Db.Base, Db.Stored, Db.State;
  }

  lemma OtherCallOnView(db: Db, c: Call, x: Loc)
    requires !AccountCall(c) && !AccessCall(c)
    ensures View(AdvanceOther(db, c), x) == Changed(c, ContextOf(db), x, View(db, x))
  {
    hide AdvanceOther, View;
    if x.AccountLoc? {
      OtherCallOnAccountView(db, c, x.addr);
    } else if x.SlotLoc? {
      OtherCallOnSlot(db, c, x.addr, x.key);
    } else {
      OtherCallOnRest(db, c, x);
    }
  }

  /** Reads change nothing; every other call changes exactly what it is named after. */
  lemma CallEffect(db: Db, c: Call, x: Loc)
    ensures View(Advance(db, c), x) == Changed(c, ContextOf(db), x, View(db, x))
  {
    if AccountCall(c) {
      if x.AccountLoc? { AccountCallOnAccount(db, c, x.addr); } else { AccountCallElsewhere(db, c, x); }
    } else if AccessCall(c) {
      AccessCallOnView(db, c, x);
    } else {
      OtherCallOnView(db, c, x);
    }
  }

  /** Code bytes: setting code is read back, and no other account's code moves. */
  lemma CodeEffect(db: Db, c: Call, a: Address)
    requires CodeSound(db) && Legal(db, c)
    ensures Advance(db, c).Code(a) == if c.SetCode? && c.addr == a then c.code else db.Code(a)
  {
    var r := Advance(db, c);
    CallEffect(db, c, AccountLoc(a));
    CallKeepsCodes(db, c);
    hide AdvanceAccount, AdvanceAccess, AdvanceOther;
    assert r.codes == if c.SetCode? then db.codes[c.hash := c.code] else db.codes;
    assert db.Account(a).codeHash != ZERO_HASH ==> db.Held(db.Account(a).codeHash);
  }

  /******* The context *******/

  lemma StartsMoveContext(db: Db, c: Call)
    requires c.SetTxContext? || c.Prepare?
    ensures var r := Advance(db, c);
      && r.txHash == (if c.SetTxContext? then c.txHash else ZERO_HASH)
      && r.txIndex == (if c.SetTxContext? then c.txIndex else 0)
  {
    hide WarmTuples, WarmAddresses;
  }

  lemma OthersKeepContext(db: Db, c: Call)
    requires !c.SetTxContext? && !c.Prepare?
    ensures Advance(db, c).txHash == db.txHash && Advance(db, c).txIndex == db.txIndex
  {
    if AccountCall(c) {
      AccountCallIsUpdate(db, c);
      hide AdvanceAccount;
    } else if AccessCall(c) {
      hide AdvanceAccount, AdvanceOther;
    } else {
      hide AdvanceAccount, AdvanceAccess, Db.State, Db.Account;
    }
  }

  /** Only a new transaction moves the context: its own, or none at all when it is prepared. */
  lemma ContextEffect(db: Db, c: Call)
    ensures var r := Advance(db, c);
      && r.txHash == (if c.SetTxContext? then c.txHash else if c.Prepare? then ZERO_HASH else db.txHash)
      && r.txIndex == (if c.SetTxContext? then c.txIndex else if c.Prepare? then 0 else db.txIndex)
  {
    hide *;
    if c.SetTxContext? || c.Prepare? { StartsMoveContext(db, c); } else { OthersKeepContext(db, c); }
  }

  /******* What a commit will carry *******/

  /** The call leaves a record of its account in the overlay. */
  predicate Writes(db: Db, c: Call)
    requires AccountCall(c)
  {
    match c
    case CreateAccount(a) => db.Empty(a) || db.Stored(a).Some?
    case AddBalance(_, x) => x != 0
    case SubBalance(_, x) => x != 0
    case _ => true
  }

  /** It changed the account, or read one that is stored. */
  predicate Touches(db: Db, c: Call, a: Address) {
    || (AccountCall(c) && c.addr == a && Writes(db, c))
    || (c.Ask? && c.query.LoadsAccount() && c.query.addr == a && db.Stored(a).Some?)
  }

  lemma AccountCallOverlay(db: Db, c: Call, a: Address)
    requires AccountCall(c)
    ensures a in Advance(db, c).accounts <==> a in db.accounts || Touches(db, c, a)
    ensures Advance(db, c).storages == db.storages
  {
    AccountCallIsUpdate(db, c);
    assert Update(db, c).Some? ==> Writes(db, c);
    hide AdvanceAccount, Db.Account;
  }

  lemma OtherCallOverlay(db: Db, c: Call, a: Address, k: Hash)
    requires !AccountCall(c)
    ensures a in Advance(db, c).accounts <==> a in db.accounts || Touches(db, c, a)
    ensures Slot(a, k) in Advance(db, c).storages <==>
      Slot(a, k) in db.storages || (c.SetState? && c.addr == a && c.key == k && db.State(a, k) != c.value)
  {
    hide Db.State, Db.Account;
  }

  /** Only calls that touch an account or change a slot add to what a commit writes, and none takes from it. */
  lemma OverlayEffect(db: Db, c: Call, a: Address, k: Hash)
    ensures a in Advance(db, c).accounts <==> a in db.accounts || Touches(db, c, a)
    ensures Slot(a, k) in Advance(db, c).storages <==>
      Slot(a, k) in db.storages || (c.SetState? && c.addr == a && c.key == k && db.State(a, k) != c.value)
  {
    assert AccountCall(c) ==> !c.SetState?;
    hide *;
    if AccountCall(c) { AccountCallOverlay(db, c, a); } else { OtherCallOverlay(db, c, a, k); }
  }
}
