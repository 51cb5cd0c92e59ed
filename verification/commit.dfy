/** What a commit leaves in the store, and what databases opened afterwards show. */
module Commit {
  import opened Types
  import opened WorldState
  import opened Storage

  predicate IsCommitOp(db: Db, op: WriteOp) {
    match op
    case AccountOp(n, a, acc) => n == NextBlock(db.block) && a in db.accounts && acc == db.accounts[a]
    case StorageOp(n, a, k, v) => n == NextBlock(db.block) && Slot(a, k) in db.storages && v == db.storages[Slot(a, k)]
    case CodeOp(h, code) => h in db.codes && code == db.codes[h]
  }

  /** The operations of a commit, in whatever order the maps were walked. */
  ghost predicate Enumerates(db: Db, ops: seq<WriteOp>) {
    forall op :: op in ops <==> IsCommitOp(db, op)
  }

  /** What a commit says about one key, if anything. */
  function Committed(db: Db, k: Key): Option<Datum> {
    match k
    case AccountKey(n, a) =>
      if (n == 0 || n == NextBlock(db.block)) && a in db.accounts then Some(AccountDatum(db.accounts[a])) else None
    case StorageKey(n, a, s) =>
      if (n == 0 || n == NextBlock(db.block)) &&
          Slot(a, s) in db.storages then Some(WordDatum(db.storages[Slot(a, s)])) else None
    case CodeKey(h) => if h in db.codes then Some(CodeDatum(db.codes[h])) else None
    case _ => None
  }

  function CommitKeys(db: Db): set<Key> {
    (set a | a in db.accounts :: AccountKey(NextBlock(db.block), a))
    + (set a | a in db.accounts :: AccountKey(0, a))
    + (set s | s in db.storages :: StorageKey(NextBlock(db.block), s.addr, s.key))
    + (set s | s in db.storages :: StorageKey(0, s.addr, s.key))
    + (set h | h in db.codes :: CodeKey(h))
  }

  /** The new values of a commit. Every one of its keys has one. */
  function CommitWrites(db: Db): Store {
    map k | k in CommitKeys(db) && Committed(db, k).Some? :: Committed(db, k).value
  }

  function CommitStore(db: Db): Store {
    db.store + CommitWrites(db)
  }

  lemma CommitWritesAt(db: Db, k: Key)
    ensures k in CommitWrites(db) <==> Committed(db, k).Some?
    ensures k in CommitWrites(db) ==> CommitWrites(db)[k] == Committed(db, k).value
  {
    if k.StorageKey? && Committed(db, k).Some? {
      var s := Slot(k.addr, k.slot);
      assert s in db.storages && k == StorageKey(k.block, s.addr, s.key);
    }
  }

  /** The commands of one operation, without their order. */
  predicate Sets(op: WriteOp, c: Cmd) {
    match op
    case AccountOp(n, a, acc) => c.datum == AccountDatum(acc) &&
        (c.key == AccountKey(n, a) || c.key == AccountKey(0, a))
    case StorageOp(n, a, k, v) => c.datum == WordDatum(v) &&
        (c.key == StorageKey(n, a, k) || c.key == StorageKey(0, a, k))
    case CodeOp(h, code) => c == Cmd(CodeKey(h), CodeDatum(code))
  }

  lemma CmdsOfOp(op: WriteOp, c: Cmd)
    ensures c in Cmds(op) <==> Sets(op, c)
  {
  }

  lemma {:induction false} CmdOfSomeOp(ops: seq<WriteOp>, c: Cmd)
    ensures c in AllCmds(ops) <==> exists op :: op in ops && Sets(op, c)
    decreases |ops|
  {
    if ops != [] {
      var rest, last := ops[..|ops| - 1], ops[|ops| - 1];
      CmdOfSomeOp(rest, c);
      CmdsOfOp(last, c);
      assert ops == rest + [last];
      assert AllCmds(ops) == AllCmds(rest) + Cmds(last);
    }
  }

  /** The operation that would put a committed key. */
  function OpFor(db: Db, k: Key): WriteOp
    requires Committed(db, k).Some?
  {
    match k
    case AccountKey(_, a) => AccountOp(NextBlock(db.block), a, db.accounts[a])
    case StorageKey(_, a, s) => StorageOp(NextBlock(db.block), a, s, db.storages[Slot(a, s)])
    case CodeKey(h) => CodeOp(h, db.codes[h])
  }

  lemma OpForSets(db: Db, c: Cmd)
    requires Committed(db, c.key) == Some(c.datum)
    ensures IsCommitOp(db, OpFor(db, c.key)) && Sets(OpFor(db, c.key), c)
  {
  }

  lemma CommitOpSets(db: Db, op: WriteOp, c: Cmd)
    requires IsCommitOp(db, op) && Sets(op, c)
    ensures Committed(db, c.key) == Some(c.datum)
  {
  }

  lemma CommitCmds(db: Db, ops: seq<WriteOp>, c: Cmd)
    requires Enumerates(db, ops)
    ensures c in AllCmds(ops) <==> Committed(db, c.key) == Some(c.datum)
  {
    CmdOfSomeOp(ops, c);
    if c in AllCmds(ops) {
      var op :| op in ops && Sets(op, c);
      CommitOpSets(db, op, c);
    }
    if Committed(db, c.key) == Some(c.datum) {
      OpForSets(db, c);
    }
  }

  /** Every order of walking the maps commits the same store: no two operations share a key. */
  lemma CommitAnyOrder(db: Db, ops: seq<WriteOp>)
    requires Enumerates(db, ops)
    ensures Agreeing(AllCmds(ops))
    ensures PutAll(db.store, AllCmds(ops)) == CommitStore(db)
  {
    forall c, d | c in AllCmds(ops) && d in AllCmds(ops) && c.key == d.key ensures c.datum == d.datum {
      CommitCmds(db, ops, c);
      CommitCmds(db, ops, d);
    }
    var s, t := PutAll(db.store, AllCmds(ops)), CommitStore(db);
    forall k ensures (k in s <==> k in t) && (k in s ==> s[k] == t[k]) {
      PutAllLookup(db.store, AllCmds(ops), k);
      CommitWritesAt(db, k);
      if Committed(db, k).Some? {
        CommitCmds(db, ops, Cmd(k, Committed(db, k).value));
        assert Cmd(k, Committed(db, k).value).key == k;
        CommitCmds(db, ops, Cmd(k, s[k]));
      } else {
        forall c | c in AllCmds(ops) ensures c.key != k { CommitCmds(db, ops, c); }
      }
    }
  }

  /** A failed commit leaves any part of its writes behind. */
  lemma PartOfCommit(db: Db, ops: seq<WriteOp>, s: Store)
    requires Enumerates(db, ops) && PartlyPut(db.store, s, AllCmds(ops))
    ensures Partly(db.store, s, CommitWrites(db))
  {
    var w := CommitWrites(db);
    forall k | k in s ensures (k in db.store && s[k] == db.store[k]) || (k in w && s[k] == w[k]) {
      CommitCmds(db, ops, Cmd(k, s[k]));
      CommitWritesAt(db, k);
    }
  }

  /******* Databases opened afterwards *******/

  lemma ReadBack(db: Db, n: nat, a: Address)
    requires n == NextBlock(db.block) || n == 0
    ensures var d := NewDb(CommitStore(db), n);
      && (a in db.accounts ==> d.Account(a) == db.Account(a))
      && (forall k :: Slot(a, k) in db.storages ==> d.State(a, k) == db.State(a, k))
      && (forall h :: d.Held(h) == db.Held(h) && d.Lookup(h) == db.Lookup(h))
  {
    var d := NewDb(CommitStore(db), n);
    CommitWritesAt(db, AccountKey(n, a));
    forall k | Slot(a, k) in db.storages ensures d.State(a, k) == db.State(a, k) {
      CommitWritesAt(db, StorageKey(n, a, k));
    }
    forall h ensures d.Held(h) == db.Held(h) && d.Lookup(h) == db.Lookup(h) {
      CommitWritesAt(db, CodeKey(h));
    }
  }

  /** Everything in the overlay is read back, by the next block and from latest; other state keys keep their values. */
  lemma CommitExactness(db: Db, n: nat)
    requires n == NextBlock(db.block) || n == 0
    ensures var d := NewDb(CommitStore(db), n);
      && (forall a :: a in db.accounts ==> d.Account(a) == db.Account(a) && d.Code(a) == db.Code(a))
      && (forall a, k :: Slot(a, k) in db.storages ==> d.State(a, k) == db.State(a, k))
    ensures forall k :: Committed(db, k).None? ==>
      (k in CommitStore(db) <==> k in db.store) && (k in db.store ==> CommitStore(db)[k] == db.store[k])
  {
    var d := NewDb(CommitStore(db), n);
    forall a | a in db.accounts ensures d.Account(a) == db.Account(a) && d.Code(a) == db.Code(a) {
      ReadBack(db, n, a);
    }
    forall a, k | Slot(a, k) in db.storages ensures d.State(a, k) == db.State(a, k) {
      ReadBack(db, n, a);
    }
    forall k | Committed(db, k).None?
      ensures (k in CommitStore(db) <==> k in db.store) && (k in db.store ==> CommitStore(db)[k] == db.store[k])
    {
      CommitWritesAt(db, k);
    }
  }

  /** A database over latest hands its whole view on to the next one over latest. */
  lemma LatestKeepsWholeView(db: Db)
    requires db.block == 0
    ensures var d := NewDb(CommitStore(db), 0);
      && (forall a :: d.Account(a) == db.Account(a) && d.Code(a) == db.Code(a))
      && (forall a, k :: d.State(a, k) == db.State(a, k))
  {
    var d := NewDb(CommitStore(db), 0);
    CommitExactness(db, 0);
    forall a ensures d.Account(a) == db.Account(a) && d.Code(a) == db.Code(a) {
      CommitWritesAt(db, AccountKey(0, a));
      ReadBack(db, 0, a);
    }
    forall a, k ensures d.State(a, k) == db.State(a, k) {
      CommitWritesAt(db, StorageKey(0, a, k));
    }
  }

  /**
   The next block sees an account as this one left it exactly when this block loaded it, or it was
   never stored: reads at block N do not fall back to older blocks.
   */
  lemma CarryForwardExactness(db: Db, a: Address)
    requires AccountKey(NextBlock(db.block), a) !in db.store
    ensures NewDb(CommitStore(db), NextBlock(db.block)).Account(a) == db.Account(a) <==>
      a in db.accounts || db.Base(a) == NEW_ACCOUNT
  {
    CommitWritesAt(db, AccountKey(NextBlock(db.block), a));
  }

  /** The same for a slot: no entry of an older block is looked at. */
  lemma CarryForwardSlot(db: Db, a: Address, k: Hash)
    requires StorageKey(NextBlock(db.block), a, k) !in db.store
    ensures NewDb(CommitStore(db), NextBlock(db.block)).State(a, k) == db.State(a, k) <==>
      Slot(a, k) in db.storages || NewDb(db.store, db.block).State(a, k) == ZERO_HASH
  {
    CommitWritesAt(db, StorageKey(NextBlock(db.block), a, k));
  }

  /** Every stored account and slot of the parent is in the overlay, or looks new. */
  ghost predicate AllTouched(db: Db) {
    && (forall a :: a in db.accounts || db.Base(a) == NEW_ACCOUNT)
    && (forall a, k :: Slot(a, k) in db.storages || NewDb(db.store, db.block).State(a, k) == ZERO_HASH)
  }

  ghost predicate SameAccountsAndSlots(d: Db, db: Db) {
    && (forall a :: d.Account(a) == db.Account(a))
    && (forall a, k :: d.State(a, k) == db.State(a, k))
  }

  /** A block hands its whole view on to the next one exactly when it has touched everything there is. */
  lemma CarryForwardWholeView(db: Db)
    requires forall a :: AccountKey(NextBlock(db.block), a) !in db.store
    requires forall a, k :: StorageKey(NextBlock(db.block), a, k) !in db.store
    ensures SameAccountsAndSlots(NewDb(CommitStore(db), NextBlock(db.block)), db) <==> AllTouched(db)
  {
    var d, p := NewDb(CommitStore(db), NextBlock(db.block)), NewDb(db.store, db.block);
    forall a ensures d.Account(a) == db.Account(a) <==> a in db.accounts || db.Base(a) == NEW_ACCOUNT {
      CarryForwardExactness(db, a);
    }
    forall a, k ensures d.State(a, k) == db.State(a, k) <==> Slot(a, k) in db.storages || p.State(a, k) == ZERO_HASH {
      CarryForwardSlot(db, a, k);
    }
  }
}
