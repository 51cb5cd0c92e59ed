/**
 The parts the state database is made of: account records on the heap, nested storage maps, bounded
 caches, and the operation lists of a commit. Each is tied to the flat value the model uses.
 */
module Overlay {
  import opened Types
  import opened WorldState
  import opened Storage
  import C = Commit

  class Account {
    var balance: int
    var nonce: nat
    var codeHash: Hash
    const root: Hash

    constructor (d: AccountData)
      ensures Value() == d
    {
      balance, nonce, codeHash, root := d.balance, d.nonce, d.codeHash, d.root;
    }

    ghost function Value(): AccountData
      reads this
    {
      AccountData(balance, nonce, codeHash, root)
    }

    predicate Empty()
      reads this
    {
      nonce == 0 && balance == 0 && codeHash == ZERO_HASH
    }
  }

  ghost function Values(m: map<Address, Account>): map<Address, AccountData>
    reads m.Values
  {
    map a | a in m :: m[a].Value()
  }

  lemma ValuesAt(m: map<Address, Account>, a: Address)
    ensures a in Values(m) <==> a in m
    ensures a in m ==> Values(m)[a] == m[a].Value()
  {
  }

  ghost predicate Separate(m: map<Address, Account>) {
    forall a, b :: a in m && b in m && a != b ==> m[a] != m[b]
  }

  /** The slots of the nested storage maps. */
  function Flat(m: map<Address, map<Hash, Hash>>): map<Slot, Hash> {
    map s | s in SlotsOf(m) :: m[s.addr][s.key]
  }

  predicate AllTrue(m: map<Address, bool>) {
    forall a :: a in m ==> m[a]
  }

  function SlotsOf(m: map<Address, map<Hash, Hash>>): (r: set<Slot>)
    ensures forall s :: s in r <==> s.addr in m && s.key in m[s.addr]
  {
    set a, k | a in m && k in m[a] :: Slot(a, k)
  }

  function Inner(m: map<Address, map<Hash, Hash>>, a: Address): map<Hash, Hash> {
    if a in m then m[a] else map[]
  }

  lemma FlatUpdate(m: map<Address, map<Hash, Hash>>, a: Address, k: Hash, v: Hash)
    ensures Flat(m[a := Inner(m, a)[k := v]]) == Flat(m)[Slot(a, k) := v]
  {
  }

  /** What a cache holds is what the store holds, and it is bounded. */
  ghost predicate StateCacheHolds(cache: map<Address, AccountData>, size: nat, store: Store, n: nat) {
    && |cache| <= size && size > 0
    && forall a :: a in cache ==> AccountKey(n, a) in store && store[AccountKey(n, a)] == AccountDatum(cache[a])
  }

  ghost predicate StorageCacheHolds(cache: map<Slot, Hash>, size: nat, store: Store, n: nat) {
    && |cache| <= size && size > 0
    && forall s :: s in cache ==>
         StorageKey(n, s.addr, s.key) in store && store[StorageKey(n, s.addr, s.key)] == WordDatum(cache[s])
  }

  ghost predicate CodeCacheHolds(cache: map<Hash, Bytes>, size: nat, store: Store) {
    && |cache| <= size && size > 0
    && forall h :: h in cache ==> CodeKey(h) in store && store[CodeKey(h)] == CodeDatum(cache[h])
  }

  /** A bounded cache takes a new entry and may lose any others; it never grows beyond its size. */
  method AddToCache<K(==), V>(cache: map<K, V>, size: nat, k: K, v: V) returns (r: map<K, V>)
    requires |cache| <= size && size > 0
    ensures |r| <= size && k in r && r[k] == v
    ensures forall j :: j in r && j != k ==> j in cache && r[j] == cache[j]
  {
    r := cache[k := v];
    assert r.Keys == cache.Keys + {k};
    while |r| > size
      invariant k in r && r[k] == v && |r| <= size + 1
      invariant forall j :: j in r && j != k ==> j in cache && r[j] == cache[j]
    {
      assert r.Keys != {k};
      var oldest :| oldest in r && oldest != k;
      assert (r - {oldest}).Keys == r.Keys - {oldest};
      r := r - {oldest};
    }
  }

  lemma EmptyMaps()
    ensures Values(map[]) == map[] && Separate(map[]) && Flat(map[]) == map[] && AllTrue(map[])
  {
  }

  lemma FlatAt(m: map<Address, map<Hash, Hash>>, a: Address, k: Hash)
    ensures Slot(a, k) in Flat(m) <==> a in m && k in m[a]
    ensures a in m && k in m[a] ==> Flat(m)[Slot(a, k)] == m[a][k]
  {
  }

  lemma Removed(m: map<Address, Account>, a: Address)
    requires Separate(m)
    ensures Separate(m - {a}) && Values(m - {a}) == Values(m) - {a}
  {
  }

  lemma SeparateAt(m: map<Address, Account>, a: Address)
    requires Separate(m) && a in m
    ensures forall b :: b in m && b != a ==> m[b] != m[a]
  {
  }

  /******* The operations of a commit, each map walked in any order *******/

  predicate IsAccountOp(op: WriteOp, n: nat, m: map<Address, AccountData>) {
    op.AccountOp? && op.block == n && op.addr in m && op.account == m[op.addr]
  }

  predicate IsStorageOp(op: WriteOp, n: nat, m: map<Slot, Hash>) {
    op.StorageOp? && op.block == n && Slot(op.addr, op.key) in m && op.value == m[Slot(op.addr, op.key)]
  }

  predicate IsCodeOp(op: WriteOp, m: map<Hash, Bytes>) {
    op.CodeOp? && op.codeHash in m && op.code == m[op.codeHash]
  }

  method AccountOps(n: nat, m: map<Address, Account>) returns (ops: seq<WriteOp>)
    ensures forall op :: op in ops <==> IsAccountOp(op, n, Values(m))
  {
    ghost var values := Values(m);
    assert values.Keys == m.Keys;
    hide Values;
    ops := [];
    var left := m.Keys;
    while left != {}
      invariant left <= m.Keys
      invariant forall op :: op in ops <==> IsAccountOp(op, n, values) && op.addr !in left
      decreases |left|
    {
      var a :| a in left;
      var acc := m[a];
      ValuesAt(m, a);
      ops := ops + [AccountOp(n, a, AccountData(acc.balance, acc.nonce, acc.codeHash, acc.root))];
      left := left - {a};
    }
  }

  method StorageOps(n: nat, m: map<Address, map<Hash, Hash>>) returns (ops: seq<WriteOp>)
    ensures forall op :: op in ops <==> IsStorageOp(op, n, Flat(m))
  {
    hide Flat;
    forall op ensures IsStorageOp(op, n, Flat(m)) <==> IsNestedOp(op, n, m) {
      if op.StorageOp? {
        FlatAt(m, op.addr, op.key);
      }
    }
    hide IsStorageOp;
    ops := [];
    var left := m.Keys;
    while left != {}
      invariant left <= m.Keys
      invariant forall op :: op in ops <==> IsNestedOp(op, n, m) && op.addr !in left
      decreases |left|
    {
      var a :| a in left;
      var row := RowOps(n, a, m[a]);
      ops := ops + row;
      left := left - {a};
    }
  }

  predicate IsNestedOp(op: WriteOp, n: nat, m: map<Address, map<Hash, Hash>>) {
    op.StorageOp? && op.addr in m && IsRowOp(op, n, op.addr, m[op.addr])
  }

  predicate IsRowOp(op: WriteOp, n: nat, a: Address, row: map<Hash, Hash>) {
    op.StorageOp? && op.block == n && op.addr == a && op.key in row && op.value == row[op.key]
  }

  method RowOps(n: nat, a: Address, row: map<Hash, Hash>) returns (ops: seq<WriteOp>)
    ensures forall op :: op in ops <==> IsRowOp(op, n, a, row)
  {
    ops := [];
    var left := row.Keys;
    while left != {}
      invariant left <= row.Keys
      invariant forall op :: op in ops <==> IsRowOp(op, n, a, row) && op.key !in left
      decreases |left|
    {
      var k :| k in left;
      ops := ops + [StorageOp(n, a, k, row[k])];
      left := left - {k};
    }
  }

  method CodeOps(m: map<Hash, Bytes>) returns (ops: seq<WriteOp>)
    ensures forall op :: op in ops <==> IsCodeOp(op, m)
  {
    ops := [];
    var left := m.Keys;
    while left != {}
      invariant left <= m.Keys
      invariant forall op :: op in ops <==> IsCodeOp(op, m) && op.codeHash !in left
      decreases |left|
    {
      var h :| h in left;
      ops := ops + [CodeOp(h, m[h])];
      left := left - {h};
    }
  }

  lemma AllOps(m: Db, accounts: seq<WriteOp>, storages: seq<WriteOp>, codes: seq<WriteOp>)
    requires forall op :: op in accounts <==> IsAccountOp(op, NextBlock(m.block), m.accounts)
    requires forall op :: op in storages <==> IsStorageOp(op, NextBlock(m.block), m.storages)
    requires forall op :: op in codes <==> IsCodeOp(op, m.codes)
    ensures C.Enumerates(m, accounts + storages + codes)
  {
    forall op ensures op in accounts + storages + codes <==> C.IsCommitOp(m, op) {
      assert op in accounts <==> IsAccountOp(op, NextBlock(m.block), m.accounts);
      assert op in storages <==> IsStorageOp(op, NextBlock(m.block), m.storages);
      assert op in codes <==> IsCodeOp(op, m.codes);
    }
  }
}
