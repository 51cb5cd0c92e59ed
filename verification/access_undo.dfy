/**
 Undoing access-list changes. AddSlotToAccessList writes an address record when the address was
 already listed and none when it was not, so a revert restores the list under an exact condition
 that is stated here. AccessIntended is about the records its caller means to write.
 */
module AccessUndo {
  import opened Types
  import opened WorldState
  import opened Runs

  function Back(js: seq<Entry>, m: AccessMap): AccessMap
    decreases |js|
  {
    if js == [] then m else UndoAccess(Back(js[1..], m), js[0])
  }

  lemma {:induction false} UndoAllAccess(db: Db, js: seq<Entry>)
    ensures db.UndoAll(js).access == Back(js, db.access)
    decreases |js|
  {
    if js != [] {
      UndoAllAccess(db, js[1..]);
      assert db.UndoAll(js) == db.UndoAll(js[1..]).Undo(js[0]);
    }
  }

  /** An address survives unless an address record names it; its slots survive unless a slot record does. */
  lemma {:induction false} BackContents(js: seq<Entry>, m: AccessMap, a: Address)
    ensures a in Back(js, m) <==> a in m && AccessAddressChange(a) !in js
    ensures a in Back(js, m) ==> forall s :: s in Back(js, m)[a] <==> s in m[a] && AccessSlotChange(a, s) !in js
    decreases |js|
  {
    if js != [] {
      BackContents(js[1..], m, a);
      assert js == [js[0]] + js[1..];
    }
  }

  lemma {:induction false} BackConcat(js: seq<Entry>, ks: seq<Entry>, m: AccessMap)
    ensures Back(js + ks, m) == Back(js, Back(ks, m))
    decreases |js|
  {
    if js == [] {
      assert js + ks == ks;
    } else {
      assert (js + ks)[1..] == js[1..] + ks;
      BackConcat(js[1..], ks, m);
    }
  }

  /** What the list says of one address. */
  function EntryOf(m: AccessMap, a: Address): Option<set<Hash>> {
    if a in m then Some(m[a]) else None
  }

  /** A revert leaves exactly what no undone record names, whatever was listed when the snapshot was taken. */
  lemma RevertContents(db: Db, i: nat, a: Address)
    requires db.Ordered() && i < |db.revisions|
    ensures var m, js := db.RevertToSnapshot(db.revisions[i].id).access, db.journal[db.revisions[i].journalIndex..];
      && (a in m <==> a in db.access && AccessAddressChange(a) !in js)
      && (a in m ==> forall s :: s in m[a] <==> s in db.access[a] && AccessSlotChange(a, s) !in js)
  {
    var js := db.journal[db.revisions[i].journalIndex..];
    UndoAllAccess(db, js);
    BackContents(js, db.access, a);
    RevertById(db, i);
  }

  /******* The source's records *******/

  /** A listed address without an address record since then is still listed, with no slot fewer and no slot record. */
  predicate Kept(now: AccessMap, was: AccessMap, js: seq<Entry>, a: Address) {
    a in was && AccessAddressChange(a) !in js ==>
      a in now && was[a] <= now[a] && forall e :: e in js && e.AccessSlotChange? ==> e.address != a
  }

  /** What every live snapshot knows of address a, and every snapshot of those before it. */
  ghost predicate AccessTracked(t: Traced, a: Address) {
    && Aligned(t)
    && (forall i :: 0 <= i < |t.saved| ==>
         Kept(t.db.access, t.saved[i].access, t.db.journal[t.db.revisions[i].journalIndex..], a))
    && (forall i, j :: 0 <= i < j < |t.saved| ==>
         Kept(t.saved[j].access, t.saved[i].access,
              t.db.journal[t.db.revisions[i].journalIndex..t.db.revisions[j].journalIndex], a))
  }

  /** Since the snapshot, a has an address record exactly if it joined, and if it was listed it gained no slot. */
  predicate AccessRecoverable(now: AccessMap, was: AccessMap, js: seq<Entry>, a: Address) {
    && (a in was ==> AccessAddressChange(a) !in js && (a in now ==> now[a] <= was[a]))
    && (a in now && a !in was ==> AccessAddressChange(a) in js)
  }

  lemma BackExactness(now: AccessMap, was: AccessMap, js: seq<Entry>, a: Address)
    requires Kept(now, was, js, a)
    ensures EntryOf(Back(js, now), a) == EntryOf(was, a) <==> AccessRecoverable(now, was, js, a)
  {
    BackContents(js, now, a);
    if a in was && AccessAddressChange(a) !in js {
      assert forall s :: AccessSlotChange(a, s) !in js;
      assert Back(js, now)[a] == now[a];
      assert now[a] <= was[a] ==> now[a] == was[a];
    }
  }

  /** The condition of a revert to the i-th live snapshot, at a. */
  ghost predicate RightAt(t: Traced, i: nat, a: Address)
    requires Aligned(t) && i < |t.saved|
  {
    AccessRecoverable(t.db.access, t.saved[i].access, t.db.journal[t.db.revisions[i].journalIndex..], a)
  }

  lemma RevertRestoresAccess(t: Traced, i: nat, a: Address)
    requires AccessTracked(t, a) && i < |t.saved|
    ensures EntryOf(t.db.RevertTo(i).access, a) == EntryOf(t.saved[i].access, a) <==> RightAt(t, i, a)
  {
    var js := t.db.journal[t.db.revisions[i].journalIndex..];
    UndoAllAccess(t.db, js);
    BackExactness(t.db.access, t.saved[i].access, js, a);
  }

  /******* Runs *******/

  /** Lists only grow, slot by slot. */
  ghost predicate Grows(m: AccessMap, n: AccessMap) {
    forall a :: a in m ==> a in n && m[a] <= n[a]
  }

  lemma {:induction false} WarmAddressesGrows(m: AccessMap, warm: seq<Address>)
    ensures Grows(m, WarmAddresses(m, warm))
    decreases |warm|
  {
    if warm != [] {
      WarmAddressesGrows(WarmAddress(m, warm[0]), warm[1..]);
    }
  }

  lemma {:induction false} WarmSlotsGrows(m: AccessMap, a: Address, keys: seq<Hash>)
    ensures Grows(m, WarmSlots(m, a, keys))
    decreases |keys|
  {
    if keys != [] {
      WarmSlotsGrows(m[a := (if a in m then m[a] else {}) + {keys[0]}], a, keys[1..]);
    }
  }

  lemma {:induction false} WarmTuplesGrows(m: AccessMap, tuples: seq<AccessTuple>)
    ensures Grows(m, WarmTuples(m, tuples))
    decreases |tuples|
  {
    if tuples != [] {
      var n := WarmAddress(m, tuples[0].addr);
      WarmSlotsGrows(n, tuples[0].addr, tuples[0].keys);
      WarmTuplesGrows(WarmSlots(n, tuples[0].addr, tuples[0].keys), tuples[1..]);
    }
  }

  /** One forward call: the list grows, and an address that gets a slot record was absent or gets an address record. */
  ghost predicate Forward(m: AccessMap, n: AccessMap, js: seq<Entry>) {
    && Grows(m, n)
    && (forall e :: e in js && e.AccessSlotChange? && e.address in m ==> AccessAddressChange(e.address) in js)
  }

  lemma PrepareForward(db: Db, c: Call)
    requires c.Prepare?
    ensures Forward(db.access, AdvanceAccess(db, c).access, AdvanceAccess(db, c).journal[|db.journal|..])
  {
    var first := [c.sender] + (if c.dest.Some? then [c.dest.value] else []) + c.precompiles;
    WarmAddressesGrows(db.access, first);
    WarmTuplesGrows(WarmAddresses(db.access, first), c.tuples);
  }

  lemma TouchForward(db: Db, c: Call)
    requires c.AddAddressToAccessList? || c.AddSlotToAccessList?
    ensures Forward(db.access, AdvanceAccess(db, c).access, AdvanceAccess(db, c).journal[|db.journal|..])
  {
    var js := AdvanceAccess(db, c).journal[|db.journal|..];
    if c.AddSlotToAccessList? && c.addr in db.access {
      assert js[0] == AccessAddressChange(c.addr);
    }
  }

  lemma CallForward(db: Db, c: Call)
    ensures Forward(db.access, Advance(db, c).access, Added(db, c))
  {
    hide AdvanceAccount, AdvanceOther;
    if AccessCall(c) {
      if c.Prepare? { PrepareForward(db, c); } else { TouchForward(db, c); }
    } else if AccountCall(c) {
      AccountCallAddsNoSlot(db, c);
    } else {
      OtherCallAddsNoSlot(db, c);
    }
  }

  lemma AccountCallAddsNoSlot(db: Db, c: Call)
    requires AccountCall(c)
    ensures AdvanceAccount(db, c).access == db.access
    ensures forall e :: e in AdvanceAccount(db, c).journal[|db.journal|..] ==> !e.AccessSlotChange?
  {
    AccountCallIsUpdate(db, c);
    hide AdvanceAccount, Db.Account, Db.Empty, Db.Code, Db.Stored;
  }

  lemma OtherCallAddsNoSlot(db: Db, c: Call)
    requires !AccountCall(c) && !AccessCall(c)
    ensures forall e :: e in AdvanceOther(db, c).journal[|db.journal|..] ==> !e.AccessSlotChange?
  {
  }

  lemma KeptForward(was: AccessMap, m: AccessMap, n: AccessMap, js: seq<Entry>, ks: seq<Entry>, a: Address)
    requires Kept(m, was, js, a) && Forward(m, n, ks)
    ensures Kept(n, was, js + ks, a)
  {
  }

  /** The same entry is as good. */
  lemma KeptSame(was: AccessMap, m: AccessMap, n: AccessMap, js: seq<Entry>, a: Address)
    requires Kept(m, was, js, a) && EntryOf(n, a) == EntryOf(m, a)
    ensures Kept(n, was, js, a)
  {
  }

  /** The revert c, if it is one, is right at a. */
  ghost predicate RevertsAccessSoundly(t: Traced, c: Call, a: Address)
    requires Aligned(t)
  {
    c.RevertToSnapshot? && t.db.Find(c.id).Some? ==> RightAt(t, t.db.Find(c.id).value, a)
  }

  lemma RevertAccessTracked(t: Traced, c: Call, a: Address)
    requires AccessTracked(t, a) && RevertsAccessSoundly(t, c, a) && c.RevertToSnapshot?
    ensures AccessTracked(TStep(t, c), a)
  {
    if t.db.Find(c.id).Some? {
      var i := t.db.Find(c.id).value;
      var r, k := TStep(t, c), t.db.revisions[i].journalIndex;
      RevertRestoresAccess(t, i, a);
      assert EntryOf(r.db.access, a) == EntryOf(t.saved[i].access, a);
      hide Kept, EntryOf;
      forall j | 0 <= j < i
        ensures Kept(r.db.access, r.saved[j].access, r.db.journal[r.db.revisions[j].journalIndex..], a)
      {
        var kj := t.db.revisions[j].journalIndex;
        assert Kept(t.saved[i].access, t.saved[j].access, t.db.journal[kj..k], a);
        assert r.db.journal[kj..] == t.db.journal[kj..k];
        KeptSame(t.saved[j].access, t.saved[i].access, r.db.access, t.db.journal[kj..k], a);
      }
      forall j, l | 0 <= j < l < i
        ensures Kept(r.saved[l].access, r.saved[j].access,
                     r.db.journal[r.db.revisions[j].journalIndex..r.db.revisions[l].journalIndex], a)
      {
        var kj, kl := t.db.revisions[j].journalIndex, t.db.revisions[l].journalIndex;
        assert r.db.journal[kj..kl] == t.db.journal[kj..kl];
      }
    }
  }

  lemma SnapshotAccessTracked(t: Traced, a: Address)
    requires AccessTracked(t, a)
    ensures AccessTracked(TStep(t, Snapshot), a)
  {
    var r, n := TStep(t, Snapshot), |t.saved|;
    assert r.db.journal[|r.db.journal|..] == [];
    forall j | 0 <= j < n
      ensures Kept(r.saved[n].access, r.saved[j].access,
                   r.db.journal[r.db.revisions[j].journalIndex..r.db.revisions[n].journalIndex], a)
    {
      var kj := t.db.revisions[j].journalIndex;
      assert r.db.journal[kj..r.db.revisions[n].journalIndex] == t.db.journal[kj..];
    }
  }

  lemma CallAccessTracked(t: Traced, c: Call, a: Address)
    requires AccessTracked(t, a) && !c.Snapshot? && !c.RevertToSnapshot?
    ensures AccessTracked(TStep(t, c), a)
  {
    var r := TStep(t, c);
    CallForward(t.db, c);
    assert r.saved == t.saved && r.db == Advance(t.db, c);
    hide Advance, Kept, Forward;
    forall i | 0 <= i < |r.saved|
      ensures Kept(r.db.access, r.saved[i].access, r.db.journal[r.db.revisions[i].journalIndex..], a)
    {
      var k := t.db.revisions[i].journalIndex;
      assert r.db.journal[k..] == t.db.journal[k..] + Added(t.db, c);
      KeptForward(t.saved[i].access, t.db.access, r.db.access, t.db.journal[k..], Added(t.db, c), a);
    }
    forall i, j | 0 <= i < j < |r.saved|
      ensures Kept(r.saved[j].access, r.saved[i].access,
                   r.db.journal[r.db.revisions[i].journalIndex..r.db.revisions[j].journalIndex], a)
    {
      var ki, kj := t.db.revisions[i].journalIndex, t.db.revisions[j].journalIndex;
      assert r.db.journal[ki..kj] == t.db.journal[ki..kj];
    }
  }

  ghost predicate AccessSoundRun(t: Traced, cs: seq<Call>, a: Address)
    requires Aligned(t)
    decreases |cs|
  {
    cs != [] ==> RevertsAccessSoundly(t, cs[0], a) && AccessSoundRun(TStep(t, cs[0]), cs[1..], a)
  }

  lemma {:induction false} RunAccessTracked(t: Traced, cs: seq<Call>, a: Address)
    requires AccessTracked(t, a) && AccessSoundRun(t, cs, a)
    ensures AccessTracked(TRun(t, cs), a)
    decreases |cs|
  {
    if cs != [] {
      if cs[0].Snapshot? { SnapshotAccessTracked(t, a); }
      else if cs[0].RevertToSnapshot? { RevertAccessTracked(t, cs[0], a); }
      else { CallAccessTracked(t, cs[0], a); }
      RunAccessTracked(TStep(t, cs[0]), cs[1..], a);
    }
  }

  /**
   After any run whose earlier reverts were right at a, whatever they did to other addresses, the
   next revert to any live snapshot gives a its entry back exactly if it is right at a too.
   */
  lemma AccessRevertExactness(store: Store, block: nat, cs: seq<Call>, i: nat, a: Address)
    requires AccessSoundRun(Opened(store, block), cs, a) && i < |TRun(Opened(store, block), cs).saved|
    ensures var t := TRun(Opened(store, block), cs);
      EntryOf(t.db.RevertToSnapshot(t.db.revisions[i].id).access, a) == EntryOf(t.saved[i].access, a) <==>
        RightAt(t, i, a)
  {
    RunAccessTracked(Opened(store, block), cs, a);
    RevertRestoresAccess(TRun(Opened(store, block), cs), i, a);
    RevertById(TRun(Opened(store, block), cs).db, i);
  }

  lemma SameEntriesSameMap(m: AccessMap, n: AccessMap)
    requires forall a :: EntryOf(m, a) == EntryOf(n, a)
    ensures m == n
  {
    forall a ensures a in m <==> a in n { assert EntryOf(m, a) == EntryOf(n, a); }
    assert m.Keys == n.Keys;
    forall a | a in m ensures m[a] == n[a] { assert EntryOf(m, a) == EntryOf(n, a); }
  }

  /** The whole list comes back exactly if the revert is right at every address. */
  lemma WholeListExactness(store: Store, block: nat, cs: seq<Call>, i: nat)
    requires forall a :: AccessSoundRun(Opened(store, block), cs, a)
    requires i < |TRun(Opened(store, block), cs).saved|
    ensures var t := TRun(Opened(store, block), cs);
      t.db.RevertToSnapshot(t.db.revisions[i].id).access == t.saved[i].access <==> forall a :: RightAt(t, i, a)
  {
    var t := TRun(Opened(store, block), cs);
    var r := t.db.RevertToSnapshot(t.db.revisions[i].id);
    hide AccessSoundRun, RightAt, TRun, Db.RevertToSnapshot;
    forall a ensures EntryOf(r.access, a) == EntryOf(t.saved[i].access, a) <==> RightAt(t, i, a) {
      AccessRevertExactness(store, block, cs, i, a);
    }
    if forall a :: RightAt(t, i, a) {
      SameEntriesSameMap(r.access, t.saved[i].access);
    }
  }

  /** Touching one slot and going straight back never restores the list, whatever was on it. */
  lemma AddSlotIsNeverUndone(db: Db, a: Address, s: Hash)
    requires db.Ordered()
    ensures var r := db.Snapshot().AddSlotToAccessList(a, s);
      r.Ordered() && r.RevertToSnapshot(db.nextRevisionId).access != db.access
  {
    var r := db.Snapshot().AddSlotToAccessList(a, s);
    RevertById(r, |db.revisions|);
    var js := r.journal[|db.journal|..];
    UndoAllAccess(r, js);
    BackContents(js, r.access, a);
    if a in db.access {
      assert r.journal[|db.journal|] == AccessAddressChange(a);
      assert js[0] == AccessAddressChange(a);
    } else {
      assert js == [AccessSlotChange(a, s)];
    }
  }
}
