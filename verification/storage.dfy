/**
 The versioned key store. Every state write goes to a historical key of its block and to the
 "latest" alias, block 0. The transport is a map; the outside decides which requests it answers. A
 write without an answer may have reached the map, a pipeline any part of it; state reads see the map.
 */
module Storage {
  import opened Types

  datatype Cmd = Cmd(key: Key, datum: Datum)

  datatype WriteOp =
    | AccountOp(block: nat, addr: Address, account: AccountData)
    | StorageOp(block: nat, addr: Address, key: Hash, value: Hash)
    | CodeOp(codeHash: Hash, code: Bytes)

  /** The key sets one operation puts on the pipeline: history first, then the alias. */
  function Cmds(op: WriteOp): seq<Cmd> {
    match op
    case AccountOp(n, a, acc) =>
      (if n > 0 then [Cmd(AccountKey(n, a), AccountDatum(acc))] else []) + [Cmd(AccountKey(0, a), AccountDatum(acc))]
    case StorageOp(n, a, k, v) =>
      (if n > 0 then [Cmd(StorageKey(n, a, k), WordDatum(v))] else []) + [Cmd(StorageKey(0, a, k), WordDatum(v))]
    case CodeOp(h, code) => [Cmd(CodeKey(h), CodeDatum(code))]
  }

  function AllCmds(ops: seq<WriteOp>): seq<Cmd>
    decreases |ops|
  {
    if ops == [] then [] else AllCmds(ops[..|ops| - 1]) + Cmds(ops[|ops| - 1])
  }

  function PutAll(store: Store, cmds: seq<Cmd>): Store
    decreases |cmds|
  {
    if cmds == [] then store
    else PutAll(store, cmds[..|cmds| - 1])[cmds[|cmds| - 1].key := cmds[|cmds| - 1].datum]
  }

  /** Every key of after is as before or as some command says. */
  ghost predicate PartlyPut(before: Store, after: Store, cmds: seq<Cmd>) {
    && before.Keys <= after.Keys
    && forall k :: k in after ==> (k in before && after[k] == before[k]) || Cmd(k, after[k]) in cmds
  }

  class PikaClient {
    /** Whether the n-th request is answered. */
    const answers: nat -> bool
    var sent: nat
    var data: Store

    predicate AllAnswered(from: nat)
      reads this
    {
      forall i :: from <= i < sent ==> answers(i)
    }

    method Get(key: Key) returns (r: Option<Datum>)
      ensures r == if key in data then Some(data[key]) else None
    {
      r := if key in data then Some(data[key]) else None;
    }

    /** A read that may fail, or find nothing. */
    method Fetch() returns (ok: bool)
      modifies this`sent
      ensures sent == old(sent) + 1 && ok == answers(old(sent))
    {
      ok := answers(sent);
      sent := sent + 1;
    }

    /** A failed write may or may not have reached the store. */
    method Set(key: Key, datum: Datum) returns (ok: bool)
      modifies this
      ensures sent == old(sent) + 1 && ok == answers(old(sent))
      ensures ok ==> data == old(data)[key := datum]
      ensures data == old(data) || data == old(data)[key := datum]
    {
      ok := Fetch();
      var reached: bool := *;
      if ok || reached {
        data := data[key := datum];
      }
    }

    /** A failed pipeline may have applied any of its commands. */
    method ExecutePipeline(cmds: seq<Cmd>) returns (ok: bool)
      modifies this
      ensures sent == old(sent) + 1 && ok == answers(old(sent))
      ensures ok ==> data == PutAll(old(data), cmds)
      ensures PartlyPut(old(data), data, cmds)
    {
      ok := Fetch();
      for i := 0 to |cmds|
        invariant sent == old(sent) + 1
        invariant ok ==> data == PutAll(old(data), cmds[..i])
        invariant PartlyPut(old(data), data, cmds)
      {
        var reached: bool := *;
        assert cmds[..i + 1][..i] == cmds[..i];
        if ok || reached {
          assert Cmd(cmds[i].key, cmds[i].datum) in cmds;
          data := data[cmds[i].key := cmds[i].datum];
        }
      }
      assert cmds[..|cmds|] == cmds;
    }
  }

  class StateStorage {
    const client: PikaClient

    constructor (client: PikaClient)
      ensures this.client == client
    {
      this.client := client;
    }

    method GetAccount(block: nat, addr: Address) returns (r: Option<AccountData>)
      ensures r == RecordAt(client.data, block, addr)
    {
      var d := client.Get(AccountKey(block, addr));
      r := if d.Some? && d.value.AccountDatum? then Some(d.value.account) else None;
    }

    method SetAccount(block: nat, addr: Address, acc: AccountData) returns (ok: bool)
      modifies client
      ensures client.sent >= old(client.sent) && (ok <==> client.AllAnswered(old(client.sent)))
      ensures ok ==> client.data == PutAll(old(client.data), Cmds(AccountOp(block, addr, acc)))
      ensures PartlyPut(old(client.data), client.data, Cmds(AccountOp(block, addr, acc)))
    {
      if block > 0 {
        ok := client.Set(AccountKey(block, addr), AccountDatum(acc));
        if !ok {
          return;
        }
        TwoCmds(old(client.data), Cmds(AccountOp(block, addr, acc)));
      } else {
        OneCmd(old(client.data), Cmds(AccountOp(block, addr, acc))[0]);
      }
      ok := client.Set(AccountKey(0, addr), AccountDatum(acc));
    }

    method GetStorage(block: nat, addr: Address, key: Hash) returns (r: Option<Hash>)
      ensures r == WordAt(client.data, block, addr, key)
    {
      var d := client.Get(StorageKey(block, addr, key));
      r := if d.Some? && d.value.WordDatum? then Some(d.value.word) else None;
    }

    method SetStorage(block: nat, addr: Address, key: Hash, value: Hash) returns (ok: bool)
      modifies client
      ensures client.sent >= old(client.sent) && (ok <==> client.AllAnswered(old(client.sent)))
      ensures ok ==> client.data == PutAll(old(client.data), Cmds(StorageOp(block, addr, key, value)))
      ensures PartlyPut(old(client.data), client.data, Cmds(StorageOp(block, addr, key, value)))
    {
      if block > 0 {
        ok := client.Set(StorageKey(block, addr, key), WordDatum(value));
        if !ok {
          return;
        }
        TwoCmds(old(client.data), Cmds(StorageOp(block, addr, key, value)));
      } else {
        OneCmd(old(client.data), Cmds(StorageOp(block, addr, key, value))[0]);
      }
      ok := client.Set(StorageKey(0, addr, key), WordDatum(value));
    }

    method GetCode(codeHash: Hash) returns (r: Option<Bytes>)
      ensures r == CodeAt(client.data, codeHash)
    {
      var d := client.Get(CodeKey(codeHash));
      r := if d.Some? && d.value.CodeDatum? then Some(d.value.code) else None;
    }

    method SetCode(codeHash: Hash, code: Bytes) returns (ok: bool)
      modifies client
      ensures client.sent >= old(client.sent) && (ok <==> client.AllAnswered(old(client.sent)))
      ensures ok ==> client.data == PutAll(old(client.data), Cmds(CodeOp(codeHash, code)))
      ensures PartlyPut(old(client.data), client.data, Cmds(CodeOp(codeHash, code)))
    {
      OneCmd(old(client.data), Cmds(CodeOp(codeHash, code))[0]);
      ok := client.Set(CodeKey(codeHash), CodeDatum(code));
    }

    method BatchWrite(ops: seq<WriteOp>) returns (ok: bool)
      modifies client
      ensures client.sent == old(client.sent) + 1 && ok == client.answers(old(client.sent))
      ensures ok ==> client.data == PutAll(old(client.data), AllCmds(ops))
      ensures PartlyPut(old(client.data), client.data, AllCmds(ops))
    {
      var pipe: seq<Cmd> := [];
      for i := 0 to |ops|
        invariant pipe == AllCmds(ops[..i])
      {
        assert ops[..i + 1][..i] == ops[..i];
        var more: seq<Cmd> := [];
        match ops[i] {
          case AccountOp(n, a, acc) =>
            if n > 0 {
              more := more + [Cmd(AccountKey(n, a), AccountDatum(acc))];
            }
            more := more + [Cmd(AccountKey(0, a), AccountDatum(acc))];
          case StorageOp(n, a, k, v) =>
            if n > 0 {
              more := more + [Cmd(StorageKey(n, a, k), WordDatum(v))];
            }
            more := more + [Cmd(StorageKey(0, a, k), WordDatum(v))];
          case CodeOp(h, code) =>
            more := more + [Cmd(CodeKey(h), CodeDatum(code))];
        }
        pipe := pipe + more;
      }
      assert ops[..|ops|] == ops;
      ok := client.ExecutePipeline(pipe);
    }
  }

  lemma OneCmd(store: Store, c: Cmd)
    ensures PutAll(store, [c]) == store[c.key := c.datum]
  {
    assert PutAll(store, [c][..0]) == store;
  }

  lemma TwoCmds(store: Store, cs: seq<Cmd>)
    requires |cs| == 2
    ensures PutAll(store, cs) == store[cs[0].key := cs[0].datum][cs[1].key := cs[1].datum]
  {
    assert cs[..1] == [cs[0]];
    OneCmd(store, cs[0]);
  }

  /******* What a batch does to the store *******/

  lemma {:induction false} PutAllConcat(store: Store, cs: seq<Cmd>, ds: seq<Cmd>)
    ensures PutAll(store, cs + ds) == PutAll(PutAll(store, cs), ds)
    decreases |ds|
  {
    if ds == [] {
      assert cs + ds == cs;
    } else {
      assert (cs + ds)[..|cs + ds| - 1] == cs + ds[..|ds| - 1];
      PutAllConcat(store, cs, ds[..|ds| - 1]);
    }
  }

  /** One operation after the other, each as its own setter would write it. */
  function SetEach(store: Store, ops: seq<WriteOp>): Store
    decreases |ops|
  {
    if ops == [] then store else PutAll(SetEach(store, ops[..|ops| - 1]), Cmds(ops[|ops| - 1]))
  }

  /** One pipeline writes what the setters called one by one would have written. */
  lemma {:induction false} BatchIsFold(store: Store, ops: seq<WriteOp>)
    ensures PutAll(store, AllCmds(ops)) == SetEach(store, ops)
    decreases |ops|
  {
    if ops != [] {
      BatchIsFold(store, ops[..|ops| - 1]);
      PutAllConcat(store, AllCmds(ops[..|ops| - 1]), Cmds(ops[|ops| - 1]));
    }
  }

  /** No two commands disagree about a key. */
  ghost predicate Agreeing(cs: seq<Cmd>) {
    forall c, d :: c in cs && d in cs && c.key == d.key ==> c.datum == d.datum
  }

  lemma {:induction false} PutAllLookup(store: Store, cs: seq<Cmd>, k: Key)
    requires Agreeing(cs)
    ensures (exists c :: c in cs && c.key == k) ==> k in PutAll(store, cs) && Cmd(k, PutAll(store, cs)[k]) in cs
    ensures (forall c :: c in cs ==> c.key != k) ==>
              (k in PutAll(store, cs) <==> k in store) && (k in store ==> PutAll(store, cs)[k] == store[k])
    decreases |cs|
  {
    if cs != [] {
      var rest, last := cs[..|cs| - 1], cs[|cs| - 1];
      assert cs == rest + [last];
      PutAllLookup(store, rest, k);
      if last.key == k {
        assert PutAll(store, cs)[k] == last.datum && Cmd(k, last.datum) == last;
      }
    }
  }

  /** The order in which agreeing commands are put on the pipeline does not matter, nor do repeats. */
  lemma OrderIndependence(store: Store, cs: seq<Cmd>, ds: seq<Cmd>)
    requires Agreeing(cs) && forall c :: c in cs <==> c in ds
    ensures PutAll(store, cs) == PutAll(store, ds)
  {
    var s, t := PutAll(store, cs), PutAll(store, ds);
    forall k ensures (k in s <==> k in t) && (k in s ==> s[k] == t[k]) {
      PutAllLookup(store, cs, k);
      PutAllLookup(store, ds, k);
    }
  }

  /** Writing any part of a batch and then all of it is writing all of it once. */
  lemma RetryConverges(store: Store, partial: Store, cs: seq<Cmd>)
    requires Agreeing(cs) && PartlyPut(store, partial, cs)
    ensures PutAll(partial, cs) == PutAll(store, cs)
  {
    var s, t := PutAll(store, cs), PutAll(partial, cs);
    forall k ensures (k in s <==> k in t) && (k in s ==> s[k] == t[k]) {
      PutAllLookup(store, cs, k);
      PutAllLookup(partial, cs, k);
      if forall c :: c in cs ==> c.key != k {
        assert k in partial ==> Cmd(k, partial[k]) !in cs;
      }
    }
  }

  /******* The latest alias *******/

  predicate Versioned(k: Key) {
    k.AccountKey? || k.StorageKey?
  }

  function Version(k: Key, n: nat): Key
    requires Versioned(k)
  {
    k.(block := n)
  }

  ghost predicate WrittenAt(store: Store, k: Key, n: nat)
    requires Versioned(k)
  {
    n > 0 && Version(k, n) in store
  }

  /** No block above top has written k, and the alias of k shows what the last block that wrote it wrote. */
  ghost predicate LatestAgrees(store: Store, k: Key, top: nat)
    requires Versioned(k)
  {
    && (forall n: nat :: WrittenAt(store, k, n) ==> n <= top)
    && (forall n: nat :: WrittenAt(store, k, n) && (forall m: nat :: WrittenAt(store, k, m) ==> m <= n) ==>
         Version(k, 0) in store && store[Version(k, 0)] == store[Version(k, n)])
  }

  /** No operation writes under k. */
  ghost predicate Untouched(ops: seq<WriteOp>, k: Key) {
    forall i, c :: 0 <= i < |ops| && c in Cmds(ops[i]) ==> c.key != k
  }

  /** A key that no operation writes keeps its value, or stays absent. */
  lemma {:induction false} UntouchedStays(store: Store, ops: seq<WriteOp>, k: Key)
    requires Untouched(ops, k)
    ensures k in SetEach(store, ops) <==> k in store
    ensures k in store ==> SetEach(store, ops)[k] == store[k]
    decreases |ops|
  {
    if ops != [] {
      var rest, op := ops[..|ops| - 1], ops[|ops| - 1];
      UntouchedStays(store, rest, k);
      PutAllElsewhere(SetEach(store, rest), Cmds(op), k);
    }
  }

  lemma {:induction false} PutAllElsewhere(store: Store, cs: seq<Cmd>, k: Key)
    requires forall c :: c in cs ==> c.key != k
    ensures k in PutAll(store, cs) <==> k in store
    ensures k in store ==> PutAll(store, cs)[k] == store[k]
    decreases |cs|
  {
    if cs != [] {
      PutAllElsewhere(store, cs[..|cs| - 1], k);
    }
  }

  ghost predicate AllLatestAgree(store: Store, top: nat) {
    forall k :: Versioned(k) ==> LatestAgrees(store, k, top)
  }

  /** State operations carry positive block numbers that never go down; code has no version. */
  ghost predicate InBlockOrder(ops: seq<WriteOp>, from: nat) {
    && (forall i :: 0 <= i < |ops| && !ops[i].CodeOp? ==> ops[i].block > 0 && ops[i].block >= from)
    && (forall i, j :: 0 <= i < j < |ops| && !ops[i].CodeOp? && !ops[j].CodeOp? ==> ops[i].block <= ops[j].block)
  }

  function Top(ops: seq<WriteOp>, from: nat): nat
    decreases |ops|
  {
    if ops == [] then from
    else if ops[|ops| - 1].CodeOp? then Top(ops[..|ops| - 1], from)
    else ops[|ops| - 1].block
  }

  lemma OpCmds(store: Store, op: WriteOp)
    requires !op.CodeOp? && op.block > 0
    ensures var k, d := Cmds(op)[1].key, Cmds(op)[1].datum;
      Versioned(k) && k.block == 0 && PutAll(store, Cmds(op)) == store[Version(k, op.block) := d][k := d]
  {
    TwoCmds(store, Cmds(op));
  }

  lemma WriteKeepsLatest(store: Store, op: WriteOp, top: nat, k: Key)
    requires Versioned(k) && LatestAgrees(store, k, top) && !op.CodeOp? && op.block > 0 && op.block >= top
    ensures LatestAgrees(PutAll(store, Cmds(op)), k, op.block)
  {
    var l, d := Cmds(op)[1].key, Cmds(op)[1].datum;
    OpCmds(store, op);
    if Version(k, 0) == l {
      WrittenNow(store, k, op.block, d, top);
    } else {
      assert Version(Version(k, op.block), 0) == Version(k, 0);
      WrittenElsewhere(store, store[Version(l, op.block) := d][l := d], k, top, op.block);
    }
  }

  lemma WrittenNow(store: Store, k: Key, n: nat, d: Datum, top: nat)
    requires Versioned(k) && LatestAgrees(store, k, top) && n > 0 && n >= top
    ensures LatestAgrees(store[Version(Version(k, 0), n) := d][Version(k, 0) := d], k, n)
  {
    var s := store[Version(Version(k, 0), n) := d][Version(k, 0) := d];
    assert WrittenAt(s, k, n) && s[Version(k, 0)] == s[Version(k, n)] == d;
    forall m: nat | m != n ensures WrittenAt(s, k, m) <==> WrittenAt(store, k, m) {}
  }

  lemma WrittenElsewhere(store: Store, s: Store, k: Key, top: nat, n: nat)
    requires Versioned(k) && LatestAgrees(store, k, top) && n >= top
    requires forall m: nat :: (Version(k, m) in s <==> Version(k, m) in store) &&
               (Version(k, m) in store ==> s[Version(k, m)] == store[Version(k, m)])
    ensures LatestAgrees(s, k, n)
  {
    forall m: nat ensures WrittenAt(s, k, m) <==> WrittenAt(store, k, m) {}
  }

  lemma {:induction false} TopAtLeast(ops: seq<WriteOp>, from: nat)
    requires InBlockOrder(ops, from)
    ensures Top(ops, from) >= from
    ensures forall i :: 0 <= i < |ops| && !ops[i].CodeOp? ==> ops[i].block <= Top(ops, from)
    ensures |ops| > 0 && !ops[|ops| - 1].CodeOp? ==> Top(ops[..|ops| - 1], from) <= ops[|ops| - 1].block
    decreases |ops|
  {
    if ops != [] {
      var rest := ops[..|ops| - 1];
      TopAtLeast(rest, from);
      if !ops[|ops| - 1].CodeOp? {
        TopIsWritten(rest, from);
      }
    }
  }

  predicate WritesAt(op: WriteOp, n: nat) {
    !op.CodeOp? && op.block == n
  }

  lemma {:induction false} TopIsWritten(ops: seq<WriteOp>, from: nat)
    ensures Top(ops, from) == from || exists i :: 0 <= i < |ops| && WritesAt(ops[i], Top(ops, from))
    decreases |ops|
  {
    if ops != [] {
      var rest := ops[..|ops| - 1];
      if ops[|ops| - 1].CodeOp? {
        TopIsWritten(rest, from);
        if i :| 0 <= i < |rest| && WritesAt(rest[i], Top(ops, from)) {
          assert WritesAt(ops[i], Top(ops, from));
        }
      } else {
        assert WritesAt(ops[|ops| - 1], Top(ops, from));
      }
    }
  }

  /** After any writes in block order every alias agrees with its last version. */
  lemma {:induction false} LatestIsLastVersion(store: Store, ops: seq<WriteOp>, from: nat)
    requires AllLatestAgree(store, from) && InBlockOrder(ops, from)
    ensures AllLatestAgree(SetEach(store, ops), Top(ops, from))
    ensures forall k :: Versioned(k) && Untouched(ops, Version(k, 0)) ==>
      (Version(k, 0) in SetEach(store, ops) <==> Version(k, 0) in store) &&
      (Version(k, 0) in store ==> SetEach(store, ops)[Version(k, 0)] == store[Version(k, 0)])
    decreases |ops|
  {
    forall k | Versioned(k) && Untouched(ops, Version(k, 0))
      ensures Version(k, 0) in SetEach(store, ops) <==> Version(k, 0) in store
      ensures Version(k, 0) in store ==> SetEach(store, ops)[Version(k, 0)] == store[Version(k, 0)]
    {
      UntouchedStays(store, ops, Version(k, 0));
    }
    if ops != [] {
      var rest, op := ops[..|ops| - 1], ops[|ops| - 1];
      LatestIsLastVersion(store, rest, from);
      TopAtLeast(ops, from);
      var s := SetEach(store, rest);
      if op.CodeOp? {
        OneCmd(s, Cmds(op)[0]);
        forall k | Versioned(k) ensures LatestAgrees(SetEach(store, ops), k, Top(ops, from)) {
          assert LatestAgrees(s, k, Top(rest, from));
          assert forall n: nat :: WrittenAt(SetEach(store, ops), k, n) <==> WrittenAt(s, k, n);
        }
      } else {
        forall k | Versioned(k) ensures LatestAgrees(SetEach(store, ops), k, Top(ops, from)) {
          assert LatestAgrees(s, k, Top(rest, from));
          WriteKeepsLatest(s, op, Top(rest, from), k);
        }
      }
    }
  }
}
