/**
 The state database as an object: accounts on the heap, nested storage maps, bounded read caches,
 journal and access list. Every method is proved to do to its Model() what WorldState says, so
 the caches are invisible for every size and every choice of what to evict.
 */
module StateDb {
  import opened Types
  import opened WorldState
  import opened Storage
  import opened AccessLists
  import opened Journals
  import opened Overlay
  import C = Commit
  import L = LogNumbers
  import R = Runs

  /** What every call keeps: a well-formed revision stack and gapless log numbers. */
  ghost predicate Steady(db: Db) {
    db.Ordered() && L.Numbered(db, L.Issued(db.journal))
  }

  lemma NewDbSteady(store: Store, n: nat)
    ensures Steady(NewDb(store, n))
  {
  }

  lemma Stepped(before: Db, c: R.Call, after: Db)
    requires Steady(before) && after == R.Step(before, c)
    ensures Steady(after)
  {
    hide R.Step, L.Numbered;
    L.StepNumbered(before, c);
  }

  lemma AccountStepped(before: Db, c: R.Call, after: Db)
    requires Steady(before) && R.AccountCall(c) && after == R.AdvanceAccount(before, c)
    ensures Steady(after)
  {
    hide R.AdvanceAccount, L.Numbered;
    Stepped(before, c, after);
  }

  lemma AccessStepped(before: Db, c: R.Call, after: Db)
    requires Steady(before) && R.AccessCall(c) && after == R.AdvanceAccess(before, c)
    ensures Steady(after)
  {
    hide R.AdvanceAccess, L.Numbered;
    Stepped(before, c, after);
  }

  lemma RevisionStepped(before: Db, c: R.Call, after: Db)
    requires Steady(before) && (c.Snapshot? || c.RevertToSnapshot?)
    requires after == if c.Snapshot? then before.Snapshot() else before.RevertToSnapshot(c.id)
    ensures Steady(after)
  {
    hide L.Numbered;
    Stepped(before, c, after);
  }

  lemma OtherStepped(before: Db, c: R.Call, after: Db)
    requires Steady(before) && !R.AccountCall(c) && !R.AccessCall(c) && !c.Snapshot? && !c.RevertToSnapshot?
    requires after == R.AdvanceOther(before, c)
    ensures Steady(after)
  {
    hide R.AdvanceOther, L.Numbered;
    Stepped(before, c, after);
  }

  lemma LoadKeepsCode(db: Db, a: Address, h: Hash)
    ensures db.Load(a).Lookup(h) == db.Lookup(h) && db.Load(a).Account(a) == db.Account(a)
  {
  }

  lemma PutAt(db: Db, a: Address, d: AccountData, e: Entry)
    ensures db.Put(a, d, e) == db.(accounts := db.accounts[a := d], journal := db.journal + [e])
  {
  }

  lemma UndoNone(db: Db, js: seq<Entry>)
    requires js == []
    ensures db.UndoAll(js) == db
  {
  }

  lemma SteadyOrdered(db: Db)
    requires Steady(db)
    ensures db.Ordered()
  {
  }

  lemma MarkInJournal(db: Db, i: nat)
    requires db.Ordered() && i < |db.revisions|
    ensures db.revisions[i].journalIndex <= |db.journal|
  {
  }

  /** Going back one more record: logs are there to be removed. */
  lemma UndoOneMore(db: Db, i: nat)
    requires Steady(db) && i < |db.journal|
    ensures db.UndoAll(db.journal[i..]) == db.UndoAll(db.journal[i + 1..]).Undo(db.journal[i])
    ensures db.journal[i].AddLogChange? ==> db.UndoAll(db.journal[i + 1..]).LogsOf(db.journal[i].txHash) != []
  {
    hide L.Numbered;
    assert db.journal[i..][1..] == db.journal[i + 1..];
    if db.journal[i].AddLogChange? {
      L.UndoAllNumbered(db, i + 1);
      var hs := L.Issued(db.journal[..i + 1]);
      assert hs[|hs| - 1] == db.journal[i].txHash;
      L.UndoLogNumbered(db.UndoAll(db.journal[i + 1..]), hs);
    }
  }

  /** Loading a record before changing it leaves no trace. */
  lemma PutAfterLoad(db: Db, a: Address, acc: AccountData, e: Entry)
    ensures db.Load(a).Put(a, acc, e) == db.Put(a, acc, e)
  {
    assert db.Load(a).accounts[a := acc] == db.accounts[a := acc];
  }

  class PikaStateDB {
    const storage: StateStorage
    const blockNumber: nat
    const keccak: Bytes -> Hash

    const stateCacheSize: nat
    const storageCacheSize: nat
    const codeCacheSize: nat
    var stateCache: map<Address, AccountData>
    var storageCache: map<Slot, Hash>
    var codeCache: map<Hash, Bytes>

    var accounts: map<Address, Account>
    var storages: map<Address, map<Hash, Hash>>
    var codes: map<Hash, Bytes>
    var logs: map<Hash, seq<Log>>
    var logSize: int
    var suicides: map<Address, bool>
    var preimages: map<Hash, Bytes>
    const journal: Journal
    var validRevisions: seq<Revision>
    var nextRevisionID: nat
    var refund: nat
    const accessList: AccessList
    var thash: Hash
    var txIndex: nat

    ghost function Footprint(): set<object>
      reads this
    {
      {this, journal, accessList} + accounts.Values
    }

    ghost predicate CachesHold()
      reads this`stateCache, this`storageCache, this`codeCache, storage.client
    {
      && StateCacheHolds(stateCache, stateCacheSize, storage.client.data, blockNumber)
      && StorageCacheHolds(storageCache, storageCacheSize, storage.client.data, blockNumber)
      && CodeCacheHolds(codeCache, codeCacheSize, storage.client.data)
    }

    ghost predicate Sound()
      reads this, journal, accessList, storage.client
    {
      && Separate(accounts) && CachesHold() && journal.Valid() && accessList.Valid()
      && AllTrue(suicides)
    }

    /** The state a caller sees, with no caches, no pointers and no nesting. */
    ghost function Model(): Db
      reads this, journal, accessList, accounts.Values, storage.client
      requires accessList.Valid()
    {
      Db(storage.client.data, blockNumber, Values(accounts), Flat(storages), codes, logs, logSize, suicides.Keys,
         preimages, refund, accessList.Model(), journal.entries, validRevisions, nextRevisionID, thash, txIndex)
    }

    ghost predicate Valid()
      reads this, journal, accessList, accounts.Values, storage.client
    {
      Sound() && Steady(Model())
    }

    constructor Fresh(storage: StateStorage, blockNumber: nat, keccak: Bytes -> Hash, stateSize: nat,
        storageSize: nat, codeSize: nat)
      ensures this.storage == storage && this.blockNumber == blockNumber && this.keccak == keccak
      ensures stateCacheSize == stateSize && storageCacheSize == storageSize && codeCacheSize == codeSize
      ensures stateCache == map[] && storageCache == map[] && codeCache == map[]
      ensures accounts == map[] && storages == map[] && codes == map[] && suicides == map[] && preimages == map[]
      ensures logs == map[] && logSize == 0 && refund == 0 && thash == ZERO_HASH && txIndex == 0
      ensures fresh(journal) && journal.Valid() && journal.entries == [] && validRevisions == [] && nextRevisionID == 0
      ensures fresh(accessList) && accessList.Valid() && accessList.Model() == map[]
    {
      this.storage, this.blockNumber, this.keccak := storage, blockNumber, keccak;
      stateCacheSize, storageCacheSize, codeCacheSize := stateSize, storageSize, codeSize;
      stateCache, storageCache, codeCache := map[], map[], map[];
      accounts, storages, codes, suicides, preimages := map[], map[], map[], map[], map[];
      logs, logSize, refund := map[], 0, 0;
      journal := new Journal();
      validRevisions, nextRevisionID := [], 0;
      accessList := new AccessList();
      thash, txIndex := ZERO_HASH, 0;
    }

    /** Opening fails exactly when a cache would have no room. */
    static method Open(storage: StateStorage, blockNumber: nat, keccak: Bytes -> Hash,
                       stateSize: int, storageSize: int, codeSize: int) returns (r: Option<PikaStateDB>)
      ensures r.Some? <==> stateSize > 0 && storageSize > 0 && codeSize > 0
      ensures r.Some? ==> var db := r.value;
        && db.Valid() && db.Model() == NewDb(storage.client.data, blockNumber) && db.storage == storage &&
            db.keccak == keccak
        && fresh(db) && fresh(db.journal) && fresh(db.accessList) && db.accounts == map[]
    {
      hide Steady, Values, Separate, Flat, AllTrue, AccessList.Model, AccessList.Valid, Journal.Valid;
      if stateSize <= 0 || storageSize <= 0 || codeSize <= 0 {
        return None;
      }
      var db := new PikaStateDB.Fresh(storage, blockNumber, keccak, stateSize, storageSize, codeSize);
      EmptyMaps();
      NewDbSteady(storage.client.data, blockNumber);
      r := Some(db);
    }

    /******* Reads *******/

    /** Put a copy of a record into the overlay. */
    method Adopt(a: Address, d: AccountData) returns (acc: Account)
      requires Separate(accounts) && a !in accounts
      modifies this`accounts
      ensures fresh(acc) && acc.Value() == d && accounts == old(accounts)[a := acc]
      ensures Separate(accounts) && Values(accounts) == old(Values(accounts))[a := d]
    {
      acc := new Account(d);
      accounts := accounts[a := acc];
    }

    /** The stored record, by way of the cache. */
    method Fetch(a: Address) returns (r: Option<AccountData>)
      requires StateCacheHolds(stateCache, stateCacheSize, storage.client.data, blockNumber)
      modifies this`stateCache
      ensures StateCacheHolds(stateCache, stateCacheSize, storage.client.data, blockNumber)
      ensures r == RecordAt(storage.client.data, blockNumber, a)
    {
      if a in stateCache {
        return Some(stateCache[a]);
      }
      r := storage.GetAccount(blockNumber, a);
      if r.Some? {
        stateCache := AddToCache(stateCache, stateCacheSize, a, r.value);
      }
    }

    /** The record to change in place: the one in the overlay, a loaded copy, or an unrecorded new one. */
    method GetAccount(a: Address) returns (acc: Account)
      requires Sound()
      modifies this`accounts, this`stateCache
      ensures Sound() && Model() == old(Model()).Load(a)
      ensures acc.Value() == old(Model()).Account(a)
      ensures if a in accounts then accounts[a] == acc else fresh(acc)
      ensures accounts == old(accounts) || accounts == old(accounts)[a := acc]
      ensures fresh({acc} - old(accounts).Values) && forall b :: b in accounts ==>
          accounts[b] in old(accounts.Values) || fresh(accounts[b])
      ensures forall b :: b in accounts && b != a ==> accounts[b] != acc
    {
      hide Steady, Values, Separate, Flat, AllTrue, AccessList.Model, AccessList.Valid, Journal.Valid;
      hide StateCacheHolds, StorageCacheHolds, CodeCacheHolds;
      ghost var before := Model();
      ValuesAt(accounts, a);
      if a in accounts {
        acc := accounts[a];
        SeparateAt(accounts, a);
      } else {
        var stored := Fetch(a);
        assert stored == before.Stored(a);
        hide RecordAt, Db.Stored;
        if stored.None? {
          acc := new Account(NEW_ACCOUNT);
        } else {
          acc := Adopt(a, stored.value);
        }
      }
    }

    method GetBalance(a: Address) returns (r: int)
      requires Valid()
      modifies this`accounts, this`stateCache
      ensures Valid() && Model() == old(Model()).Load(a)
      ensures r == old(Model()).Account(a).balance
      ensures forall b :: b in accounts ==> accounts[b] in old(accounts.Values) || fresh(accounts[b])
    {
      hide Steady, Values, Separate, Flat, AllTrue, AccessList.Model, AccessList.Valid, Journal.Valid, CachesHold;
      ghost var before := Model();
      var acc := GetAccount(a);
      r := acc.balance;
      OtherStepped(before, R.Ask(R.GetBalance(a)), Model());
    }

    method GetNonce(a: Address) returns (r: nat)
      requires Valid()
      modifies this`accounts, this`stateCache
      ensures Valid() && Model() == old(Model()).Load(a)
      ensures r == old(Model()).Account(a).nonce
      ensures forall b :: b in accounts ==> accounts[b] in old(accounts.Values) || fresh(accounts[b])
    {
      hide Steady, Values, Separate, Flat, AllTrue, AccessList.Model, AccessList.Valid, Journal.Valid, CachesHold;
      ghost var before := Model();
      var acc := GetAccount(a);
      r := acc.nonce;
      OtherStepped(before, R.Ask(R.GetNonce(a)), Model());
    }

    method GetCodeHash(a: Address) returns (r: Hash)
      requires Valid()
      modifies this`accounts, this`stateCache
      ensures Valid() && Model() == old(Model()).Load(a)
      ensures r == if old(Model()).Account(a).codeHash == ZERO_HASH then EMPTY_CODE_HASH
          else old(Model()).Account(a).codeHash
      ensures forall b :: b in accounts ==> accounts[b] in old(accounts.Values) || fresh(accounts[b])
    {
      hide Steady, Values, Separate, Flat, AllTrue, AccessList.Model, AccessList.Valid, Journal.Valid, CachesHold;
      ghost var before := Model();
      var acc := GetAccount(a);
      r := if acc.codeHash == ZERO_HASH then EMPTY_CODE_HASH else acc.codeHash;
      OtherStepped(before, R.Ask(R.GetCodeHash(a)), Model());
    }

    method Exist(a: Address) returns (r: bool)
      requires Valid()
      modifies this`accounts, this`stateCache
      ensures Valid() && Model() == old(Model()).Load(a)
      ensures r == old(Model()).Exist(a)
      ensures forall b :: b in accounts ==> accounts[b] in old(accounts.Values) || fresh(accounts[b])
    {
      hide Steady, Values, Separate, Flat, AllTrue, AccessList.Model, AccessList.Valid, Journal.Valid, CachesHold;
      ghost var before := Model();
      var acc := GetAccount(a);
      r := !acc.Empty() || a in suicides;
      OtherStepped(before, R.Ask(R.Exist(a)), Model());
    }

    method Empty(a: Address) returns (r: bool)
      requires Valid()
      modifies this`accounts, this`stateCache
      ensures Valid() && Model() == old(Model()).Load(a)
      ensures r == old(Model()).Empty(a)
      ensures forall b :: b in accounts ==> accounts[b] in old(accounts.Values) || fresh(accounts[b])
    {
      hide Steady, Values, Separate, Flat, AllTrue, AccessList.Model, AccessList.Valid, Journal.Valid, CachesHold;
      ghost var before := Model();
      var acc := GetAccount(a);
      r := acc.Empty();
      OtherStepped(before, R.Ask(R.Empty(a)), Model());
    }

    method FetchCode(h: Hash) returns (r: Option<Bytes>)
      requires CodeCacheHolds(codeCache, codeCacheSize, storage.client.data)
      modifies this`codeCache
      ensures CodeCacheHolds(codeCache, codeCacheSize, storage.client.data)
      ensures r == CodeAt(storage.client.data, h)
    {
      if h in codeCache {
        return Some(codeCache[h]);
      }
      r := storage.GetCode(h);
      if r.Some? {
        codeCache := AddToCache(codeCache, codeCacheSize, h, r.value);
      }
    }

    /** Code by the hash of an account. */
    method CodeOf(h: Hash) returns (code: Bytes)
      requires Sound()
      modifies this`codeCache
      ensures Sound() && Model() == old(Model())
      ensures code == if h == ZERO_HASH then [] else old(Model()).Lookup(h)
    {
      hide Steady, Values, Separate, Flat, AllTrue, AccessList.Model, AccessList.Valid, Journal.Valid;
      hide StateCacheHolds, StorageCacheHolds, CodeCacheHolds;
      if h == ZERO_HASH {
        return [];
      }
      if h in codes {
        return codes[h];
      }
      var stored := FetchCode(h);
      code := if stored.Some? then stored.value else [];
    }

    method GetCode(a: Address) returns (r: Bytes)
      requires Valid()
      modifies this`accounts, this`stateCache, this`codeCache
      ensures Valid() && Model() == old(Model()).Load(a)
      ensures r == old(Model()).Code(a)
      ensures forall b :: b in accounts ==> accounts[b] in old(accounts.Values) || fresh(accounts[b])
    {
      hide Steady, Values, Separate, Flat, AllTrue, AccessList.Model, AccessList.Valid, Journal.Valid, CachesHold;
      ghost var before := Model();
      var acc := GetAccount(a);
      r := CodeOf(acc.codeHash);
      LoadKeepsCode(before, a, acc.codeHash);
      OtherStepped(before, R.Ask(R.GetCode(a)), Model());
    }

    method FetchWord(a: Address, k: Hash) returns (r: Option<Hash>)
      requires StorageCacheHolds(storageCache, storageCacheSize, storage.client.data, blockNumber)
      modifies this`storageCache
      ensures StorageCacheHolds(storageCache, storageCacheSize, storage.client.data, blockNumber)
      ensures r == WordAt(storage.client.data, blockNumber, a, k)
    {
      if Slot(a, k) in storageCache {
        assert storageCache[Slot(a, k)] == WordAt(storage.client.data, blockNumber, a, k).value;
        return Some(storageCache[Slot(a, k)]);
      }
      r := storage.GetStorage(blockNumber, a, k);
      if r.Some? {
        storageCache := AddToCache(storageCache, storageCacheSize, Slot(a, k), r.value);
      }
    }

    method GetState(a: Address, k: Hash) returns (r: Hash)
      requires Valid()
      modifies this`storageCache
      ensures Valid() && Model() == old(Model())
      ensures r == Model().State(a, k)
    {
      hide Steady, Values, Separate, Flat, AllTrue, AccessList.Model, AccessList.Valid, Journal.Valid;
      hide StateCacheHolds, StorageCacheHolds, CodeCacheHolds;
      FlatAt(storages, a, k);
      if a in storages {
        if k in storages[a] {
          return storages[a][k];
        }
      }
      var stored := FetchWord(a, k);
      r := if stored.Some? then stored.value else ZERO_HASH;
    }

    method HasSuicided(a: Address) returns (r: bool)
      requires Valid()
      ensures r <==> a in Model().suicides
    {
      r := SuicideFlag(a);
    }

    method SuicideFlag(a: Address) returns (r: bool)
      requires AllTrue(suicides)
      ensures r <==> a in suicides
    {
      r := a in suicides && suicides[a];
    }

    method GetRefund() returns (r: nat)
      requires Valid()
      ensures r == Model().refund
    {
      r := refund;
    }

    method GetLogs(h: Hash) returns (r: seq<Log>)
      requires Valid()
      ensures r == Model().LogsOf(h)
    {
      r := if h in logs then logs[h] else [];
    }

    method AddressInAccessList(a: Address) returns (r: bool)
      requires Valid()
      ensures r <==> a in Model().access
    {
      r := accessList.ContainsAddress(a);
    }

    method SlotInAccessList(a: Address, slot: Hash) returns (listed: bool, warm: bool)
      requires Valid()
      ensures listed <==> a in Model().access
      ensures warm <==> a in Model().access && slot in Model().access[a]
    {
      listed, warm := accessList.Contains(a, slot);
    }

    /******* Writes *******/

    /** Change a record in place, and make sure the overlay has it. */
    method StoreRecord(a: Address, acc: Account, d: AccountData)
      requires Separate(accounts) && (forall b :: b in accounts && b != a ==> accounts[b] != acc) && d.root == acc.root
      modifies this`accounts, acc
      ensures accounts == old(accounts)[a := acc]
      ensures Separate(accounts) && Values(accounts) == old(Values(accounts))[a := d]
    {
      acc.balance, acc.nonce, acc.codeHash := d.balance, d.nonce, d.codeHash;
      accounts := accounts[a := acc];
    }

    /** Log the undo record, then change the account. */
    method Amend(a: Address, acc: Account, d: AccountData, e: Entry)
      requires Sound() && (forall b :: b in accounts && b != a ==> accounts[b] != acc) && d.root == acc.root
      modifies this`accounts, journal, acc
      ensures Sound() && Model() == old(Model()).Put(a, d, e)
      ensures accounts == old(accounts)[a := acc]
    {
      hide Steady, Values, Separate, Flat, AllTrue, AccessList.Model, AccessList.Valid, Journal.Valid, CachesHold;
      journal.Append(e);
      StoreRecord(a, acc, d);
    }

    method CreateAccount(a: Address)
      requires Valid()
      modifies Footprint()
      ensures Valid() && Model() == old(Model()).CreateAccount(a)
      ensures forall b :: b in accounts ==> accounts[b] in old(accounts.Values) || fresh(accounts[b])
    {
      hide Steady, Values, Separate, Flat, AllTrue, AccessList.Model, AccessList.Valid, Journal.Valid, CachesHold;
      ghost var before := Model();
      var acc := GetAccount(a);
      if acc.nonce == 0 && acc.balance == 0 && acc.codeHash == ZERO_HASH {
        PutAfterLoad(before, a, NEW_ACCOUNT, CreateObjectChange(a));
        var newAcc := new Account(NEW_ACCOUNT);
        Amend(a, newAcc, NEW_ACCOUNT, CreateObjectChange(a));
      }
      AccountStepped(before, R.CreateAccount(a), Model());
    }

    method AddBalance(a: Address, amount: int)
      requires Valid()
      modifies Footprint()
      ensures Valid() && Model() == old(Model()).AddBalance(a, amount)
      ensures forall b :: b in accounts ==> accounts[b] in old(accounts.Values) || fresh(accounts[b])
    {
      hide Steady, Values, Separate, Flat, AllTrue, AccessList.Model, AccessList.Valid, Journal.Valid, CachesHold;
      ghost var before := Model();
      if amount == 0 {
        return;
      }
      hide Db.Load, Db.Put, Db.Account;
      var acc := GetAccount(a);
      var d := AccountData(acc.balance + amount, acc.nonce, acc.codeHash, acc.root);
      PutAfterLoad(before, a, d, BalanceChange(a, acc.balance));
      Amend(a, acc, d, BalanceChange(a, acc.balance));
      hide PikaStateDB.Model, PikaStateDB.Sound;
      AccountStepped(before, R.AddBalance(a, amount), Model());
    }

    method SubBalance(a: Address, amount: int)
      requires Valid()
      modifies Footprint()
      ensures Valid() && Model() == old(Model()).SubBalance(a, amount)
      ensures forall b :: b in accounts ==> accounts[b] in old(accounts.Values) || fresh(accounts[b])
    {
      hide Steady, Values, Separate, Flat, AllTrue, AccessList.Model, AccessList.Valid, Journal.Valid, CachesHold;
      ghost var before := Model();
      if amount == 0 {
        return;
      }
      hide Db.Load, Db.Put, Db.Account;
      var acc := GetAccount(a);
      var d := AccountData(acc.balance - amount, acc.nonce, acc.codeHash, acc.root);
      PutAfterLoad(before, a, d, BalanceChange(a, acc.balance));
      Amend(a, acc, d, BalanceChange(a, acc.balance));
      hide PikaStateDB.Model, PikaStateDB.Sound;
      AccountStepped(before, R.SubBalance(a, amount), Model());
    }

    method SetNonce(a: Address, nonce: nat)
      requires Valid()
      modifies Footprint()
      ensures Valid() && Model() == old(Model()).SetNonce(a, nonce)
      ensures forall b :: b in accounts ==> accounts[b] in old(accounts.Values) || fresh(accounts[b])
    {
      hide Steady, Values, Separate, Flat, AllTrue, AccessList.Model, AccessList.Valid, Journal.Valid, CachesHold;
      ghost var before := Model();
      hide Db.Load, Db.Put, Db.Account;
      var acc := GetAccount(a);
      var d := AccountData(acc.balance, nonce, acc.codeHash, acc.root);
      PutAfterLoad(before, a, d, NonceChange(a, acc.nonce));
      Amend(a, acc, d, NonceChange(a, acc.nonce));
      AccountStepped(before, R.SetNonce(a, nonce), Model());
    }

    method KeepCode(h: Hash, code: Bytes)
      requires Sound()
      modifies this`codes
      ensures Sound() && Model() == old(Model()).(codes := old(Model()).codes[h := code])
    {
      hide Steady, Values, Separate, Flat, AllTrue, AccessList.Model, AccessList.Valid, Journal.Valid, CachesHold;
      codes := codes[h := code];
    }

    method ReplaceCode(a: Address, code: Bytes)
      requires Sound()
      modifies Footprint()
      ensures Sound() && Model() == old(Model()).SetCode(a, code, keccak(code))
      ensures forall b :: b in accounts ==> accounts[b] in old(accounts.Values) || fresh(accounts[b])
    {
      hide Steady, Values, Separate, Flat, AllTrue, AccessList.Model, AccessList.Valid, Journal.Valid, CachesHold;
      ghost var before := Model();
      hide Db.Load, Db.Put;
      var acc := GetAccount(a);
      var prevCode := CodeOf(acc.codeHash);
      LoadKeepsCode(before, a, acc.codeHash);
      var d := AccountData(acc.balance, acc.nonce, keccak(code), acc.root);
      var e := CodeChange(a, prevCode, acc.codeHash);
      PutAfterLoad(before, a, d, e);
      PutAt(before, a, d, e);
      Amend(a, acc, d, e);
      hide PikaStateDB.Model;
      KeepCode(keccak(code), code);
    }

    method SetCode(a: Address, code: Bytes)
      requires Valid()
      modifies Footprint()
      ensures Valid() && Model() == old(Model()).SetCode(a, code, keccak(code))
      ensures forall b :: b in accounts ==> accounts[b] in old(accounts.Values) || fresh(accounts[b])
    {
      hide Steady, Values, Separate, Flat, AllTrue, AccessList.Model, AccessList.Valid, Journal.Valid, CachesHold;
      ghost var before := Model();
      ReplaceCode(a, code);
      AccountStepped(before, R.SetCode(a, code, keccak(code)), Model());
    }

    method PutState(a: Address, k: Hash, value: Hash)
      modifies this`storages
      ensures Flat(storages) == old(Flat(storages))[Slot(a, k) := value]
    {
      FlatUpdate(storages, a, k, value);
      ghost var was := storages;
      if a !in storages {
        storages := storages[a := map[]];
      }
      storages := storages[a := storages[a][k := value]];
      assert storages == was[a := Inner(was, a)[k := value]];
    }

    method SetState(a: Address, k: Hash, value: Hash)
      requires Valid()
      modifies this`storages, this`storageCache, journal
      ensures Valid() && Model() == old(Model()).SetState(a, k, value)
    {
      hide Steady, Values, Separate, Flat, AllTrue, AccessList.Model, AccessList.Valid, Journal.Valid, CachesHold;
      ghost var before := Model();
      var prev := GetState(a, k);
      if prev != value {
        journal.Append(StorageChange(a, k, prev));
        PutState(a, k, value);
      }
      hide Db.State;
      OtherStepped(before, R.SetState(a, k, value), Model());
    }

    method MarkSuicide(a: Address)
      requires AllTrue(suicides)
      modifies this`suicides
      ensures AllTrue(suicides) && suicides.Keys == old(suicides.Keys) + {a}
    {
      suicides := suicides[a := true];
    }

    method ClearAndMark(a: Address) returns (prev: bool)
      requires Sound()
      modifies Footprint()
      ensures Sound() && Model() == old(Model()).Suicide(a)
      ensures prev <==> a in old(Model()).suicides
      ensures forall b :: b in accounts ==> accounts[b] in old(accounts.Values) || fresh(accounts[b])
    {
      hide Steady, Values, Separate, Flat, AllTrue, AccessList.Model, AccessList.Valid, Journal.Valid, CachesHold;
      ghost var before := Model();
      hide Db.Load, Db.Put, Db.Account;
      var acc := GetAccount(a);
      prev := SuicideFlag(a);
      var d := AccountData(0, acc.nonce, acc.codeHash, acc.root);
      var e := SuicideChange(a, prev, acc.balance);
      PutAfterLoad(before, a, d, e);
      Amend(a, acc, d, e);
      PutAt(before, a, d, e);
      MarkSuicide(a);
    }

    method Suicide(a: Address) returns (first: bool)
      requires Valid()
      modifies Footprint()
      ensures Valid() && Model() == old(Model()).Suicide(a)
      ensures first <==> a !in old(Model()).suicides
      ensures forall b :: b in accounts ==> accounts[b] in old(accounts.Values) || fresh(accounts[b])
    {
      hide Steady, Values, Separate, Flat, AllTrue, AccessList.Model, AccessList.Valid, Journal.Valid, CachesHold;
      ghost var before := Model();
      var prev := ClearAndMark(a);
      AccountStepped(before, R.Suicide(a), Model());
      first := !prev;
    }

    method AddLog(data: Bytes)
      requires Valid()
      modifies this`logs, this`logSize, journal
      ensures Valid() && Model() == old(Model()).AddLog(data)
    {
      hide Steady, Values, Separate, Flat, AllTrue, AccessList.Model, AccessList.Valid, Journal.Valid, CachesHold;
      ghost var before := Model();
      journal.Append(AddLogChange(thash));
      var log := Log(data, thash, txIndex, logSize);
      logs := logs[thash := (if thash in logs then logs[thash] else []) + [log]];
      logSize := logSize + 1;
      OtherStepped(before, R.AddLog(data), Model());
    }

    method AddRefund(gas: nat)
      requires Valid()
      modifies this`refund, journal
      ensures Valid() && Model() == old(Model()).AddRefund(gas)
    {
      hide Steady, Values, Separate, Flat, AllTrue, AccessList.Model, AccessList.Valid, Journal.Valid, CachesHold;
      ghost var before := Model();
      journal.Append(RefundChange(refund));
      refund := (refund + gas) % TWO_64;
      OtherStepped(before, R.AddRefund(gas), Model());
    }

    method SubRefund(gas: nat)
      requires Valid()
      modifies this`refund, journal
      ensures Valid() && Model() == old(Model()).SubRefund(gas)
    {
      hide Steady, Values, Separate, Flat, AllTrue, AccessList.Model, AccessList.Valid, Journal.Valid, CachesHold;
      ghost var before := Model();
      journal.Append(RefundChange(refund));
      if gas > refund {
        refund := 0;
      } else {
        refund := refund - gas;
      }
      OtherStepped(before, R.SubRefund(gas), Model());
    }

    method AddPreimage(h: Hash, data: Bytes)
      requires Valid()
      modifies this`preimages, journal
      ensures Valid() && Model() == old(Model()).AddPreimage(h, data)
    {
      hide Steady, Values, Separate, Flat, AllTrue, AccessList.Model, AccessList.Valid, Journal.Valid, CachesHold;
      ghost var before := Model();
      if h !in preimages {
        journal.Append(AddPreimageChange(h));
        preimages := preimages[h := data];
      }
      OtherStepped(before, R.AddPreimage(h, data), Model());
    }

    method AddAddressToAccessList(a: Address)
      requires Valid()
      modifies accessList, journal
      ensures Valid() && Model() == old(Model()).AddAddressToAccessList(a)
    {
      hide Steady, Values, Separate, Flat, AllTrue, AccessList.Model, AccessList.Valid, Journal.Valid, CachesHold;
      ghost var before := Model();
      var added := accessList.AddAddress(a);
      if added {
        journal.Append(AccessAddressChange(a));
      }
      AccessStepped(before, R.AddAddressToAccessList(a), Model());
    }

    /** The caller takes the first answer of AddSlot for "the address is new". */
    method AddSlotToAccessList(a: Address, slot: Hash)
      requires Valid()
      modifies accessList, journal
      ensures Valid() && Model() == old(Model()).AddSlotToAccessList(a, slot)
    {
      hide Steady, Values, Separate, Flat, AllTrue, AccessList.Model, AccessList.Valid, Journal.Valid, CachesHold;
      ghost var before := Model();
      var addrMod, slotMod := accessList.AddSlot(a, slot);
      if addrMod {
        journal.Append(AccessAddressChange(a));
      }
      if slotMod {
        journal.Append(AccessSlotChange(a, slot));
      }
      AccessStepped(before, R.AddSlotToAccessList(a, slot), Model());
    }

    method Prepare(sender: Address, dest: Option<Address>, precompiles: seq<Address>, tuples: seq<AccessTuple>)
      requires Valid()
      modifies this`thash, this`txIndex, accessList
      ensures Valid() && Model() == old(Model()).Prepare(sender, dest, precompiles, tuples)
    {
      hide Steady, Values, Separate, Flat, AllTrue, AccessList.Model, AccessList.Valid, Journal.Valid, CachesHold;
      ghost var before := Model();
      var first := [sender] + (if dest.Some? then [dest.value] else []) + precompiles;
      WarmAll(accessList, first);
      WarmAllTuples(accessList, tuples);
      thash := ZERO_HASH;
      txIndex := 0;
      AccessStepped(before, R.Prepare(sender, dest, precompiles, tuples), Model());
    }

    method SetTxContext(h: Hash, i: nat)
      requires Valid()
      modifies this`thash, this`txIndex
      ensures Valid() && Model() == old(Model()).SetTxContext(h, i)
    {
      hide Steady, Values, Separate, Flat, AllTrue, AccessList.Model, AccessList.Valid, Journal.Valid, CachesHold;
      ghost var before := Model();
      thash := h;
      txIndex := i;
      OtherStepped(before, R.SetTxContext(h, i), Model());
    }

    method Snapshot() returns (id: nat)
      requires Valid()
      modifies this`validRevisions, this`nextRevisionID
      ensures Valid() && Model() == old(Model()).Snapshot()
      ensures id == old(Model()).nextRevisionId
    {
      hide Steady, Values, Separate, Flat, AllTrue, AccessList.Model, AccessList.Valid, Journal.Valid, CachesHold;
      ghost var before := Model();
      id := nextRevisionID;
      nextRevisionID := nextRevisionID + 1;
      var n := journal.Length();
      validRevisions := validRevisions + [Revision(id, n)];
      RevisionStepped(before, R.Snapshot, Model());
    }

    /******* Undo *******/

    method RevertCreateObject(a: Address)
      requires Sound()
      modifies this`accounts
      ensures Sound() && Model() == old(Model()).Undo(CreateObjectChange(a))
      ensures forall b :: b in accounts ==> b in old(accounts) && accounts[b] == old(accounts[b])
    {
      hide Steady, Values, Separate, Flat, AllTrue, AccessList.Model, AccessList.Valid, Journal.Valid, CachesHold;
      Removed(accounts, a);
      accounts := accounts - {a};
    }

    method RevertBalance(a: Address, prev: int)
      requires Sound()
      modifies this`accounts, accounts.Values
      ensures Sound() && Model() == old(Model()).Undo(BalanceChange(a, prev))
      ensures forall b :: b in accounts ==> b in old(accounts) && accounts[b] == old(accounts[b])
    {
      hide Steady, Values, Separate, Flat, AllTrue, AccessList.Model, AccessList.Valid, Journal.Valid, CachesHold;
      ValuesAt(accounts, a);
      if a in accounts {
        SeparateAt(accounts, a);
        var acc := accounts[a];
        StoreRecord(a, acc, AccountData(prev, acc.nonce, acc.codeHash, acc.root));
      }
    }

    method RevertNonce(a: Address, prev: nat)
      requires Sound()
      modifies this`accounts, accounts.Values
      ensures Sound() && Model() == old(Model()).Undo(NonceChange(a, prev))
      ensures forall b :: b in accounts ==> b in old(accounts) && accounts[b] == old(accounts[b])
    {
      hide Steady, Values, Separate, Flat, AllTrue, AccessList.Model, AccessList.Valid, Journal.Valid, CachesHold;
      ValuesAt(accounts, a);
      if a in accounts {
        SeparateAt(accounts, a);
        var acc := accounts[a];
        StoreRecord(a, acc, AccountData(acc.balance, prev, acc.codeHash, acc.root));
      }
    }

    method RevertCode(a: Address, prevCode: Bytes, prevHash: Hash)
      requires Sound()
      modifies this`accounts, this`codes, accounts.Values
      ensures Sound() && Model() == old(Model()).Undo(CodeChange(a, prevCode, prevHash))
      ensures forall b :: b in accounts ==> b in old(accounts) && accounts[b] == old(accounts[b])
    {
      hide Steady, Values, Separate, Flat, AllTrue, AccessList.Model, AccessList.Valid, Journal.Valid, CachesHold;
      ValuesAt(accounts, a);
      if a in accounts {
        SeparateAt(accounts, a);
        var acc := accounts[a];
        StoreRecord(a, acc, AccountData(acc.balance, acc.nonce, prevHash, acc.root));
      }
      codes := codes[prevHash := prevCode];
    }

    method RevertSuicide(a: Address, was: bool, prev: int)
      requires Sound()
      modifies this`accounts, this`suicides, accounts.Values
      ensures Sound() && Model() == old(Model()).Undo(SuicideChange(a, was, prev))
      ensures forall b :: b in accounts ==> b in old(accounts) && accounts[b] == old(accounts[b])
    {
      hide Steady, Values, Separate, Flat, AllTrue, AccessList.Model, AccessList.Valid, Journal.Valid, CachesHold;
      RestoreFlag(a, was);
      ValuesAt(accounts, a);
      if a in accounts {
        SeparateAt(accounts, a);
        var acc := accounts[a];
        StoreRecord(a, acc, AccountData(prev, acc.nonce, acc.codeHash, acc.root));
      }
    }

    method RestoreFlag(a: Address, was: bool)
      requires AllTrue(suicides)
      modifies this`suicides
      ensures AllTrue(suicides) && suicides.Keys == if was then old(suicides.Keys) + {a} else old(suicides.Keys) - {a}
    {
      ghost var keys := suicides.Keys;
      suicides := suicides[a := was];
      if !was {
        suicides := suicides - {a};
      }
      assert suicides.Keys == if was then keys + {a} else keys - {a};
    }

    method RevertStorage(a: Address, k: Hash, prev: Hash)
      requires Sound()
      modifies this`storages
      ensures Sound() && Model() == old(Model()).Undo(StorageChange(a, k, prev))
    {
      hide Steady, Values, Separate, Flat, AllTrue, AccessList.Model, AccessList.Valid, Journal.Valid, CachesHold;
      PutState(a, k, prev);
    }

    method RevertRefund(prev: nat)
      requires Sound()
      modifies this`refund
      ensures Sound() && Model() == old(Model()).Undo(RefundChange(prev))
    {
      hide Steady, Values, Separate, Flat, AllTrue, AccessList.Model, AccessList.Valid, Journal.Valid, CachesHold;
      refund := prev;
    }

    method RevertLog(h: Hash)
      requires Sound() && Model().LogsOf(h) != []
      modifies this`logs, this`logSize
      ensures Sound() && Model() == old(Model()).Undo(AddLogChange(h))
    {
      hide Steady, Values, Separate, Flat, AllTrue, AccessList.Model, AccessList.Valid, Journal.Valid, CachesHold;
      var l := logs[h];
      if |l| == 1 {
        logs := logs - {h};
      } else {
        logs := logs[h := l[..|l| - 1]];
      }
      logSize := logSize - 1;
    }

    method RevertPreimage(h: Hash)
      requires Sound()
      modifies this`preimages
      ensures Sound() && Model() == old(Model()).Undo(AddPreimageChange(h))
    {
      hide Steady, Values, Separate, Flat, AllTrue, AccessList.Model, AccessList.Valid, Journal.Valid, CachesHold;
      preimages := preimages - {h};
    }

    method RevertAccessAddress(a: Address)
      requires Sound()
      modifies accessList
      ensures Sound() && Model() == old(Model()).Undo(AccessAddressChange(a))
    {
      hide Steady, Values, Separate, Flat, AllTrue, AccessList.Model, AccessList.Valid, Journal.Valid, CachesHold;
      accessList.DeleteAddress(a);
    }

    method RevertAccessSlot(a: Address, slot: Hash)
      requires Sound()
      modifies accessList
      ensures Sound() && Model() == old(Model()).Undo(AccessSlotChange(a, slot))
    {
      hide Steady, Values, Separate, Flat, AllTrue, AccessList.Model, AccessList.Valid, Journal.Valid, CachesHold;
      accessList.DeleteSlot(a, slot);
    }

    /** Undo one record, whatever its kind. */
    method RevertEntry(e: Entry)
      requires Sound() && (e.AddLogChange? ==> Model().LogsOf(e.txHash) != [])
      modifies this`accounts, this`storages, this`codes, this`logs, this`logSize, this`suicides, this`preimages,
          this`refund
      modifies accessList, accounts.Values
      ensures Sound() && Model() == old(Model()).Undo(e)
      ensures forall b :: b in accounts ==> b in old(accounts) && accounts[b] == old(accounts[b])
    {
      hide *;
      match e {
        case CreateObjectChange(a) => RevertCreateObject(a);
        case SuicideChange(a, was, prev) => RevertSuicide(a, was, prev);
        case BalanceChange(a, prev) => RevertBalance(a, prev);
        case NonceChange(a, prev) => RevertNonce(a, prev);
        case StorageChange(a, k, prev) => RevertStorage(a, k, prev);
        case CodeChange(a, code, hash) => RevertCode(a, code, hash);
        case RefundChange(prev) => RevertRefund(prev);
        case AddLogChange(h) => RevertLog(h);
        case AddPreimageChange(h) => RevertPreimage(h);
        case AccessAddressChange(a) => RevertAccessAddress(a);
        case AccessSlotChange(a, slot) => RevertAccessSlot(a, slot);
      }
    }

    method DropRecords(snapshot: nat)
      requires Sound() && snapshot <= |journal.entries|
      modifies journal
      ensures Sound() && Model() == old(Model()).(journal := old(Model()).journal[..snapshot])
    {
      hide Steady, Values, Separate, Flat, AllTrue, AccessList.Model, AccessList.Valid, Journal.Valid, CachesHold;
      journal.Truncate(snapshot);
    }

    /** Undo the records down to the mark, newest first. */
    method UndoRecords(snapshot: nat)
      requires Valid() && snapshot <= |journal.entries|
      modifies this`accounts, this`storages, this`codes, this`logs, this`logSize, this`suicides, this`preimages,
          this`refund
      modifies accessList, accounts.Values
      ensures Sound() && Model() == old(Model()).UndoAll(old(journal.entries)[snapshot..])
      ensures forall b :: b in accounts ==> b in old(accounts) && accounts[b] == old(accounts[b])
    {
      hide Steady, Values, Separate, Flat, AllTrue, AccessList.Model, AccessList.Valid, Journal.Valid, CachesHold;
      ghost var m, js := Model(), journal.entries;
      assert m.journal == js;
      hide PikaStateDB.Model, Db.UndoAll, Db.Undo;
      var i := journal.Length();
      UndoNone(m, js[i..]);
      while i > snapshot
        invariant snapshot <= i <= |js|
        invariant Sound() && Model() == m.UndoAll(js[i..])
        invariant forall b :: b in accounts ==> b in old(accounts) && accounts[b] == old(accounts[b])
      {
        i := i - 1;
        UndoOneMore(m, i);
        RevertEntry(journal.entries[i]);
      }
    }

    method FindRevision(id: nat) returns (r: Option<nat>)
      requires Valid()
      ensures r == Model().Find(id)
    {
      hide Steady, Values, Separate, Flat, AllTrue, AccessList.Model, AccessList.Valid, Journal.Valid, CachesHold;
      ghost var m := Model();
      var i := 0;
      while i < |validRevisions| && validRevisions[i].id != id
        invariant i <= |validRevisions| && m.FindFrom(id, i) == m.Find(id)
      {
        i := i + 1;
      }
      r := if i < |validRevisions| then Some(i) else None;
    }

    /** An unknown id is a panic in the source: nothing is changed. */
    method RevertToSnapshot(id: nat) returns (known: bool)
      requires Valid()
      modifies Footprint()
      ensures Valid() && old(Model()).Ordered() && Model() == old(Model()).RevertToSnapshot(id)
      ensures known <==> old(Model()).Find(id).Some?
      ensures forall b :: b in accounts ==> b in old(accounts) && accounts[b] == old(accounts[b])
    {
      hide Steady, Values, Separate, Flat, AllTrue, AccessList.Model, AccessList.Valid, Journal.Valid, CachesHold;
      hide Db.UndoAll, Db.Undo, Db.Ordered;
      ghost var before := Model();
      SteadyOrdered(before);
      var i := FindRevision(id);
      known := i.Some?;
      if known {
        MarkInJournal(before, i.value);
        UndoRecords(validRevisions[i.value].journalIndex);
        DropRecords(validRevisions[i.value].journalIndex);
        validRevisions := validRevisions[..i.value];
      }
      RevisionStepped(before, R.RevertToSnapshot(id), Model());
    }

    /******* Commit *******/

    /** One pipeline for everything in the overlay; a failed one may leave any part of it behind. */
    method Commit() returns (ok: bool)
      requires Sound()
      modifies storage.client
      ensures storage.client.sent == old(storage.client.sent) + 1 &&
          ok == storage.client.answers(old(storage.client.sent))
      ensures ok ==> storage.client.data == C.CommitStore(old(Model()))
      ensures Partly(old(storage.client.data), storage.client.data, C.CommitWrites(old(Model())))
    {
      hide Steady, Values, Separate, Flat, AllTrue, AccessList.Model, AccessList.Valid, Journal.Valid, CachesHold;
      ghost var m := Model();
      var accountOps := AccountOps(NextBlock(blockNumber), accounts);
      var storageOps := StorageOps(NextBlock(blockNumber), storages);
      var codeOps := CodeOps(codes);
      AllOps(m, accountOps, storageOps, codeOps);
      var ops := accountOps + storageOps + codeOps;
      hide PikaStateDB.Model, C.Enumerates, Partly, C.CommitWrites, C.CommitStore, C.IsCommitOp, PartlyPut,
          IsAccountOp, IsStorageOp, IsCodeOp;
      C.CommitAnyOrder(m, ops);
      ok := storage.BatchWrite(ops);
      C.PartOfCommit(m, ops, storage.client.data);
    }
  }
}
