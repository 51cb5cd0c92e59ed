/**
 A block's transactions as a deterministic program over the state database: each call depends on
 the answers so far. What the program does depends on the store only through the state keys of
 the parent block and the code its accounts refer to.
 */
module Replay {
  import opened Types
  import opened WorldState
  import opened Runs
  import opened BlockInputs

  datatype Response =
    | Done
    | Number(number: int)
    | Word(word: Hash)
    | Code(code: Bytes)
    | Flag(flag: bool)
    | Flags(listed: bool, warm: bool)
    | Logs(logs: seq<Log>)

  function Answer(db: Db, q: Query): Response {
    match q
    case GetBalance(a) => Number(db.Account(a).balance)
    case GetNonce(a) => Number(db.Account(a).nonce)
    case GetCodeHash(a) =>
      Word(if db.Account(a).codeHash == ZERO_HASH then EMPTY_CODE_HASH else db.Account(a).codeHash)
    case GetCode(a) => Code(db.Code(a))
    case Exist(a) => Flag(db.Exist(a))
    case Empty(a) => Flag(db.Empty(a))
    case GetState(a, k) => Word(db.State(a, k))
    case HasSuicided(a) => Flag(a in db.suicides)
    case GetRefund => Number(db.refund)
    case GetLogs(h) => Logs(db.LogsOf(h))
    case AddressInAccessList(a) => Flag(a in db.access)
    case SlotInAccessList(a, s) => Flags(a in db.access, a in db.access && s in db.access[a])
  }

  function Respond(db: Db, c: Call): Response {
    match c
    case Ask(q) => Answer(db, q)
    case Suicide(a) => Flag(a !in db.suicides)
    case Snapshot => Number(db.nextRevisionId)
    case RevertToSnapshot(id) => Flag(db.Find(id).Some?)
    case _ => Done
  }

  type Program = seq<Response> -> Option<Call>

  /** The hash that comes with new code is its digest. */
  predicate Digested(c: Call, keccak: Bytes -> Hash) {
    c.SetCode? ==> c.hash == keccak(c.code)
  }

  /** Every code a program sets comes with its digest. */
  ghost predicate DigestedProgram(program: Program, keccak: Bytes -> Hash) {
    forall heard :: program(heard).Some? ==> Digested(program(heard).value, keccak)
  }

  /** Run the program until it stops or its steps are used up. */
  function Execute(program: Program, db: Db, heard: seq<Response>, steps: nat): (r: (Db, seq<Response>))
    requires db.Ordered()
    ensures r.0.Ordered() && r.0.store == db.store && r.0.block == db.block
    decreases steps
  {
    if steps == 0 || program(heard).None? then (db, heard)
    else
      var c := program(heard).value;
      Execute(program, Step(db, c), heard + [Respond(db, c)], steps - 1)
  }

  /** No call of the execution brings code that collides with code held under its hash. */
  ghost predicate Collisionless(program: Program, db: Db, heard: seq<Response>, steps: nat)
    requires db.Ordered()
    decreases steps
  {
    steps == 0 || program(heard).None? ||
      var c := program(heard).value;
      Legal(db, c) && Collisionless(program, Step(db, c), heard + [Respond(db, c)], steps - 1)
  }

  /******* What an execution depends on *******/

  /** Every code hash in an account or an undo record belongs to code that is held. */
  ghost predicate HashesHeld(db: Db) {
    && (forall a :: db.Base(a).codeHash != ZERO_HASH ==> db.Held(db.Base(a).codeHash))
    && (forall a :: a in db.accounts && db.accounts[a].codeHash != ZERO_HASH ==> db.Held(db.accounts[a].codeHash))
    && (forall e :: e in db.journal && e.CodeChange? && e.prevHash != ZERO_HASH ==> db.Held(e.prevHash))
  }

  function On(db: Db, t: Store): Db {
    db.(store := t)
  }

  lemma SameRecord(db: Db, t: Store, a: Address)
    requires SameInputs(db.store, t, db.block)
    ensures On(db, t).Stored(a) == db.Stored(a) && On(db, t).Account(a) == db.Account(a)
  {
    assert SameAt(db.store, t, AccountKey(db.block, a));
  }

  lemma SameState(db: Db, t: Store, a: Address, k: Hash)
    requires SameInputs(db.store, t, db.block)
    ensures On(db, t).State(a, k) == db.State(a, k)
  {
    assert SameAt(db.store, t, StorageKey(db.block, a, k));
  }

  lemma SameCode(db: Db, t: Store, a: Address)
    requires SameInputs(db.store, t, db.block) && HashesHeld(db)
    ensures On(db, t).Code(a) == db.Code(a)
  {
    var h := db.Account(a).codeHash;
    SameRecord(db, t, a);
    if h != ZERO_HASH {
      assert db.Held(h);
      assert db.StoredCode(h) ==> SameAt(db.store, t, CodeKey(h));
    }
  }

  lemma {:induction false} UndoAllOn(db: Db, t: Store, js: seq<Entry>)
    ensures On(db, t).UndoAll(js) == On(db.UndoAll(js), t)
    decreases |js|
  {
    if js != [] {
      UndoAllOn(db, t, js[1..]);
      UndoOn(db.UndoAll(js[1..]), t, js[0]);
    }
  }

  lemma UndoOn(db: Db, t: Store, e: Entry)
    ensures On(db, t).Undo(e) == On(db.Undo(e), t)
  {
  }

  lemma {:induction false} FindOn(db: Db, t: Store, id: nat, i: nat)
    ensures On(db, t).FindFrom(id, i) == db.FindFrom(id, i)
    decreases |db.revisions| - i
  {
    if i < |db.revisions| && db.revisions[i].id != id {
      FindOn(db, t, id, i + 1);
    }
  }

  lemma AccountCallOn(db: Db, t: Store, c: Call)
    requires AccountCall(c) && SameInputs(db.store, t, db.block) && HashesHeld(db)
    ensures AdvanceAccount(On(db, t), c) == On(AdvanceAccount(db, c), t)
  {
    SameRecord(db, t, c.addr);
    SameCode(db, t, c.addr);
    AccountCallIsUpdate(db, c);
    AccountCallIsUpdate(On(db, t), c);
    assert Update(On(db, t), c) == Update(db, c);
  }

  lemma OtherCallOn(db: Db, t: Store, c: Call)
    requires !AccountCall(c) && SameInputs(db.store, t, db.block)
    ensures Advance(On(db, t), c) == On(Advance(db, c), t)
  {
    hide SameInputs, AdvanceAccount, Db.Account, Db.Stored, Db.State;
    if c.Ask? {
      if c.query.LoadsAccount() { SameRecord(db, t, c.query.addr); }
    } else if c.SetState? {
      SameState(db, t, c.addr, c.key);
    }
  }

  lemma RevertOn(db: Db, t: Store, id: nat)
    requires db.Ordered()
    ensures On(db, t).Find(id) == db.Find(id)
    ensures On(db, t).RevertToSnapshot(id) == On(db.RevertToSnapshot(id), t)
  {
    FindOn(db, t, id, 0);
    if db.Find(id).Some? {
      UndoAllOn(db, t, db.journal[db.revisions[db.Find(id).value].journalIndex..]);
    }
  }

  lemma AccountAnswerOn(db: Db, t: Store, q: Query)
    requires q.LoadsAccount() && SameInputs(db.store, t, db.block) && HashesHeld(db)
    ensures Answer(On(db, t), q) == Answer(db, q)
  {
    SameRecord(db, t, q.addr);
    SameCode(db, t, q.addr);
  }

  lemma RespondOn(db: Db, t: Store, c: Call)
    requires SameInputs(db.store, t, db.block) && HashesHeld(db)
    ensures Respond(On(db, t), c) == Respond(db, c)
  {
    if c.Ask? {
      if c.query.LoadsAccount() {
        AccountAnswerOn(db, t, c.query);
      } else if c.query.GetState? {
        SameState(db, t, c.query.addr, c.query.key);
      }
    } else if c.RevertToSnapshot? {
      FindOn(db, t, c.id, 0);
    }
  }

  lemma AdvanceOn(db: Db, t: Store, c: Call)
    requires SameInputs(db.store, t, db.block) && HashesHeld(db)
    ensures Advance(On(db, t), c) == On(Advance(db, c), t)
  {
    if AccountCall(c) { AccountCallOn(db, t, c); } else { OtherCallOn(db, t, c); }
  }

  lemma StepOn(db: Db, t: Store, c: Call)
    requires db.Ordered() && SameInputs(db.store, t, db.block) && HashesHeld(db)
    ensures On(db, t).Ordered() && Step(On(db, t), c) == On(Step(db, c), t)
  {
    if c.RevertToSnapshot? {
      RevertOn(db, t, c.id);
    } else {
      AdvanceOn(db, t, c);
    }
  }

  /******* Held hashes over a run *******/

  lemma {:induction false} UndoAllHeld(db: Db, js: seq<Entry>)
    requires HashesHeld(db) && forall e :: e in js && e.CodeChange? && e.prevHash != ZERO_HASH ==> db.Held(e.prevHash)
    ensures HashesHeld(db.UndoAll(js)) && forall h :: db.Held(h) ==> db.UndoAll(js).Held(h)
    decreases |js|
  {
    if js != [] {
      UndoAllHeld(db, js[1..]);
      UndoHeld(db.UndoAll(js[1..]), js[0]);
      assert db.UndoAll(js) == db.UndoAll(js[1..]).Undo(js[0]);
    }
  }

  lemma UndoHeld(db: Db, e: Entry)
    requires HashesHeld(db) && (e.CodeChange? && e.prevHash != ZERO_HASH ==> db.Held(e.prevHash))
    ensures HashesHeld(db.Undo(e)) && forall h :: db.Held(h) ==> db.Undo(e).Held(h)
  {
    var r := db.Undo(e);
    assert r.codes.Keys >= db.codes.Keys;
    forall h | db.Held(h) ensures r.Held(h) {}
    forall a ensures r.Base(a) == db.Base(a) {}
    forall a | a in r.accounts ensures a in db.accounts &&
      (r.accounts[a].codeHash == db.accounts[a].codeHash || (e.CodeChange? && r.accounts[a].codeHash == e.prevHash)) {}
  }

  lemma UpdateHeld(db: Db, c: Call, acc: AccountData, e: Entry)
    requires HashesHeld(db) && AccountCall(c) && Update(db, c) == Some((acc, e))
    ensures HashesHeld(Apply(db, c, acc, e))
  {
    var r := Apply(db, c, acc, e);
    UpdateShape(db, c, acc, e);
    assert e.CodeChange? ==> e.prevHash == db.Account(c.addr).codeHash;
    forall h | db.Held(h) ensures r.Held(h) {}
    forall a ensures r.Base(a) == db.Base(a) {}
  }

  lemma CallHeld(db: Db, c: Call)
    requires HashesHeld(db)
    ensures HashesHeld(Advance(db, c))
  {
    if AccountCall(c) {
      AccountCallIsUpdate(db, c);
      if Update(db, c).Some? {
        UpdateHeld(db, c, Update(db, c).value.0, Update(db, c).value.1);
      } else {
        LoadHeld(db, c.addr);
      }
    } else {
      OtherCallHeld(db, c);
    }
  }

  lemma LoadHeld(db: Db, a: Address)
    requires HashesHeld(db)
    ensures HashesHeld(db.Load(a))
  {
    var r := db.Load(a);
    forall b ensures r.Base(b) == db.Base(b) {}
    forall h ensures r.Held(h) == db.Held(h) {}
    forall b | b in r.accounts ensures r.accounts[b].codeHash != ZERO_HASH ==> r.Held(r.accounts[b].codeHash) {
      assert b in db.accounts || r.accounts[b] == db.Base(b);
    }
  }

  lemma OtherCallHeld(db: Db, c: Call)
    requires HashesHeld(db) && !AccountCall(c)
    ensures HashesHeld(Advance(db, c))
  {
    var r := Advance(db, c);
    var d := if c.Ask? && c.query.LoadsAccount() then db.Load(c.query.addr) else db;
    if c.Ask? && c.query.LoadsAccount() { LoadHeld(db, c.query.addr); }
    assert r.accounts == d.accounts && r.codes == d.codes && d.journal == db.journal;
    assert r.store == d.store && r.block == d.block && r.journal == db.journal + Added(db, c);
    hide Advance, Added, Db.Load;
    forall b ensures r.Base(b) == d.Base(b) {}
    forall h ensures r.Held(h) == d.Held(h) {}
    forall e | e in r.journal && e.CodeChange? ensures e in d.journal {
      if e in Added(db, c) { OthersAddNoCode(db, c, e); }
    }
  }

  lemma OthersAddNoCode(db: Db, c: Call, e: Entry)
    requires !AccountCall(c) && e in Added(db, c)
    ensures !e.CodeChange?
  {
    if AccessCall(c) {
      AccessCallKinds(db, c, e);
    } else {
      OtherCallKinds(db, c);
      assert e.CodeChange? ==> e.RestoresAccount(e.account);
    }
  }

  lemma StepHeld(db: Db, c: Call)
    requires db.Ordered() && HashesHeld(db)
    ensures HashesHeld(Step(db, c))
  {
    if c.RevertToSnapshot? {
      if db.Find(c.id).Some? {
        var k := db.revisions[db.Find(c.id).value].journalIndex;
        UndoAllHeld(db, db.journal[k..]);
        SameHeld(db.UndoAll(db.journal[k..]), Step(db, c));
      }
    } else if c.Snapshot? {
      SameHeld(db, Step(db, c));
    } else {
      CallHeld(db, c);
    }
  }

  lemma SameHeld(d: Db, r: Db)
    requires HashesHeld(d) && r.store == d.store && r.block == d.block && r.accounts == d.accounts && r.codes == d.codes
    requires r.journal <= d.journal
    ensures HashesHeld(r)
  {
    forall a ensures r.Base(a) == d.Base(a) {}
    forall e | e in r.journal ensures e in d.journal {}
    forall h ensures r.Held(h) == d.Held(h) {}
  }

  /** Executions over stores with the same inputs give the same answers and the same overlay. */
  lemma {:induction false} ExecuteOn(program: Program, db: Db, t: Store, heard: seq<Response>, steps: nat)
    requires db.Ordered() && SameInputs(db.store, t, db.block) && HashesHeld(db)
    ensures On(db, t).Ordered()
    ensures var r := Execute(program, db, heard, steps);
      HashesHeld(r.0) && Execute(program, On(db, t), heard, steps) == (On(r.0, t), r.1)
    decreases steps
  {
    hide Step, Respond, HashesHeld, SameInputs;
    if steps != 0 && program(heard).Some? {
      var c := program(heard).value;
      StepOn(db, t, c);
      RespondOn(db, t, c);
      StepHeld(db, c);
      ExecuteOn(program, Step(db, c), t, heard + [Respond(db, c)], steps - 1);
    }
  }

  lemma SelfInputs(s: Store, n: nat)
    ensures SameInputs(s, s, n)
  {
  }

  /******* Code stays what the store says *******/

  /** Code in the overlay and in undo records is the stored code where the store has any. */
  ghost predicate CodesAgree(db: Db) {
    && (forall h :: h != ZERO_HASH && h in db.codes && db.StoredCode(h) ==> db.codes[h] == db.store[CodeKey(h)].code)
    && (forall e :: e in db.journal && e.CodeChange? && e.prevHash != ZERO_HASH && db.StoredCode(e.prevHash) ==>
         e.prevCode == db.store[CodeKey(e.prevHash)].code)
  }

  lemma {:induction false} UndoAllAgree(db: Db, js: seq<Entry>)
    requires CodesAgree(db)
    requires forall e :: e in js ==> e in db.journal
    ensures CodesAgree(db.UndoAll(js))
    decreases |js|
  {
    if js != [] {
      UndoAllAgree(db, js[1..]);
      UndoAgree(db.UndoAll(js[1..]), js[0]);
      assert db.UndoAll(js) == db.UndoAll(js[1..]).Undo(js[0]);
    }
  }

  lemma UndoAgree(db: Db, e: Entry)
    requires CodesAgree(db) && e in db.journal
    ensures CodesAgree(db.Undo(e))
  {
    var r := db.Undo(e);
    forall h ensures r.StoredCode(h) == db.StoredCode(h) {}
    assert r.codes == if e.CodeChange? then db.codes[e.prevHash := e.prevCode] else db.codes;
  }

  lemma CallAgree(db: Db, c: Call)
    requires CodesAgree(db) && Legal(db, c)
    ensures CodesAgree(Advance(db, c))
  {
    var r := Advance(db, c);
    forall h ensures r.StoredCode(h) == db.StoredCode(h) {}
    assert r.codes == if c.SetCode? then db.codes[c.hash := c.code] else db.codes;
    assert r.journal == db.journal + Added(db, c);
    hide Advance, Added;
    forall e | e in r.journal && e.CodeChange? && e.prevHash != ZERO_HASH && r.StoredCode(e.prevHash)
      ensures e.prevCode == r.store[CodeKey(e.prevHash)].code
    {
      if e in Added(db, c) {
        AddedCode(db, c, e);
        assert db.Lookup(e.prevHash) == db.store[CodeKey(e.prevHash)].code;
      }
    }
  }

  lemma AddedCode(db: Db, c: Call, e: Entry)
    requires e in Added(db, c) && e.CodeChange?
    ensures e.prevHash == db.Account(e.account).codeHash && e.prevCode == db.Code(e.account)
  {
    if AccountCall(c) {
      AccountCallIsUpdate(db, c);
      if Update(db, c).Some? {
        assert Added(db, c) == [Update(db, c).value.1];
      }
    } else {
      OthersAddNoCode(db, c, e);
    }
  }

  lemma StepAgree(db: Db, c: Call)
    requires db.Ordered() && CodesAgree(db) && Legal(db, c)
    ensures CodesAgree(Step(db, c))
  {
    if c.RevertToSnapshot? {
      if db.Find(c.id).Some? {
        var k := db.revisions[db.Find(c.id).value].journalIndex;
        UndoAllAgree(db, db.journal[k..]);
        SameAgree(db.UndoAll(db.journal[k..]), Step(db, c));
      }
    } else if c.Snapshot? {
      SameAgree(db, Step(db, c));
    } else {
      CallAgree(db, c);
    }
  }

  lemma SameAgree(d: Db, r: Db)
    requires CodesAgree(d) && r.store == d.store && r.codes == d.codes && r.journal <= d.journal
    ensures CodesAgree(r)
  {
    forall h ensures r.StoredCode(h) == d.StoredCode(h) {}
    forall e | e in r.journal ensures e in d.journal {}
  }

  lemma {:induction false} ExecuteAgree(program: Program, db: Db, heard: seq<Response>, steps: nat)
    requires db.Ordered() && CodesAgree(db) && Collisionless(program, db, heard, steps)
    ensures CodesAgree(Execute(program, db, heard, steps).0)
    decreases steps
  {
    if steps != 0 && program(heard).Some? {
      var c := program(heard).value;
      StepAgree(db, c);
      ExecuteAgree(program, Step(db, c), heard + [Respond(db, c)], steps - 1);
    }
  }
}
