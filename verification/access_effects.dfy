/**
 What each call does to the access list: which addresses and slots it lists, and which records it leaves
 for a revert to undo.
 */
module AccessEffects {
  import opened Types
  import opened WorldState
  import opened Runs

  predicate InTuples(tuples: seq<AccessTuple>, a: Address) {
    exists t :: t in tuples && t.addr == a
  }

  /** The call puts a on the access list, unless it is there. */
  predicate Lists(c: Call, a: Address) {
    || c == AddAddressToAccessList(a)
    || (c.AddSlotToAccessList? && c.addr == a)
    || (c.Prepare? && (c.sender == a || c.dest == Some(a) || a in c.precompiles || InTuples(c.tuples, a)))
  }

  /** The call puts slot s of a on the access list. */
  predicate ListsSlot(c: Call, a: Address, s: Hash) {
    || c == AddSlotToAccessList(a, s)
    || (c.Prepare? && exists t :: t in c.tuples && t.addr == a && s in t.keys)
  }

  predicate Warm(m: AccessMap, a: Address, s: Hash) {
    a in m && s in m[a]
  }

  /******* Prepare *******/

  lemma {:induction false} WarmAddressesEffect(m: AccessMap, warm: seq<Address>, a: Address, s: Hash)
    ensures a in WarmAddresses(m, warm) <==> a in m || a in warm
    ensures Warm(WarmAddresses(m, warm), a, s) <==> Warm(m, a, s)
    decreases |warm|
  {
    if warm != [] {
      WarmAddressesEffect(WarmAddress(m, warm[0]), warm[1..], a, s);
    }
  }

  lemma {:induction false} WarmSlotsEffect(m: AccessMap, b: Address, keys: seq<Hash>, a: Address, s: Hash)
    requires b in m
    ensures a in WarmSlots(m, b, keys) <==> a in m
    ensures Warm(WarmSlots(m, b, keys), a, s) <==> Warm(m, a, s) || (a == b && s in keys)
    decreases |keys|
  {
    if keys != [] {
      WarmSlotsEffect(m[b := m[b] + {keys[0]}], b, keys[1..], a, s);
    }
  }

  lemma {:induction false} WarmTuplesEffect(m: AccessMap, tuples: seq<AccessTuple>, a: Address, s: Hash)
    ensures a in WarmTuples(m, tuples) <==> a in m || InTuples(tuples, a)
    ensures Warm(WarmTuples(m, tuples), a, s) <==>
        Warm(m, a, s) || exists t :: t in tuples && t.addr == a && s in t.keys
    decreases |tuples|
  {
    if tuples != [] {
      var t, rest := tuples[0], tuples[1..];
      var n := WarmAddress(m, t.addr);
      assert forall u :: u in tuples <==> u == t || u in rest;
      WarmSlotsEffect(n, t.addr, t.keys, a, s);
      WarmTuplesEffect(WarmSlots(n, t.addr, t.keys), rest, a, s);
    }
  }

  function First(c: Call): seq<Address>
    requires c.Prepare?
  {
    [c.sender] + (if c.dest.Some? then [c.dest.value] else []) + c.precompiles
  }

  lemma PrepareIsWarming(db: Db, c: Call)
    requires c.Prepare?
    ensures Advance(db, c).access == WarmTuples(WarmAddresses(db.access, First(c)), c.tuples)
  {
  }

  lemma FirstAre(c: Call, a: Address)
    requires c.Prepare?
    ensures a in First(c) <==> c.sender == a || c.dest == Some(a) || a in c.precompiles
  {
  }

  lemma PrepareEffect(db: Db, c: Call, a: Address, s: Hash)
    requires c.Prepare?
    ensures a in Advance(db, c).access <==> a in db.access || Lists(c, a)
    ensures Warm(Advance(db, c).access, a, s) <==> Warm(db.access, a, s) || ListsSlot(c, a, s)
  {
    hide Advance, First, WarmAddresses, WarmTuples, Warm;
    PrepareIsWarming(db, c);
    FirstAre(c, a);
    WarmAddressesEffect(db.access, First(c), a, s);
    WarmTuplesEffect(WarmAddresses(db.access, First(c)), c.tuples, a, s);
  }

  /******* Any call *******/

  lemma AddEffect(db: Db, c: Call, a: Address, s: Hash)
    requires c.AddAddressToAccessList? || c.AddSlotToAccessList?
    ensures a in Advance(db, c).access <==> a in db.access || Lists(c, a)
    ensures Warm(Advance(db, c).access, a, s) <==> Warm(db.access, a, s) || ListsSlot(c, a, s)
  {
  }

  lemma OthersListNothing(db: Db, c: Call, a: Address, s: Hash)
    requires !AccessCall(c)
    ensures Advance(db, c).access == db.access && !Lists(c, a) && !ListsSlot(c, a, s)
  {
    hide AdvanceAccount, AdvanceOther;
    if AccountCall(c) {
      AccountCallIsUpdate(db, c);
    }
  }

  /** After any call an address or slot is listed exactly if it was, or the call names it. */
  lemma AccessEffect(db: Db, c: Call, a: Address, s: Hash)
    ensures a in Advance(db, c).access <==> a in db.access || Lists(c, a)
    ensures Warm(Advance(db, c).access, a, s) <==> Warm(db.access, a, s) || ListsSlot(c, a, s)
  {
    assert AccessCall(c) ==> c.AddAddressToAccessList? || c.AddSlotToAccessList? || c.Prepare?;
    hide *;
    if c.Prepare? {
      PrepareEffect(db, c, a, s);
    } else if AccessCall(c) {
      AddEffect(db, c, a, s);
    } else {
      OthersListNothing(db, c, a, s);
    }
  }

  /******* The records *******/

  /** Only the two calls that list one thing leave records: an address record, or a slot record, or both. */
  lemma AddRecords(db: Db, c: Call)
    requires AccessCall(c)
    ensures Added(db, c) ==
      match c
      case AddAddressToAccessList(a) => if a in db.access then [] else [AccessAddressChange(a)]
      case AddSlotToAccessList(a, s) =>
        (if a in db.access then [AccessAddressChange(a)] else [])
        + (if Warm(db.access, a, s) then [] else [AccessSlotChange(a, s)])
      case _ => []
  {
    var r := AdvanceAccess(db, c);
    assert Added(db, c) == r.journal[|db.journal|..];
    hide Added, Advance, WarmTuples, WarmAddresses;
  }

  lemma OthersRecordNoListing(db: Db, c: Call, e: Entry)
    requires !AccessCall(c) && e in Added(db, c)
    ensures !e.AccessAddressChange? && !e.AccessSlotChange?
  {
    if AccountCall(c) {
      AccountCallIsUpdate(db, c);
      assert Update(db, c).Some? ==> Added(db, c) == [Update(db, c).value.1];
      hide AdvanceAccount, Added;
    } else {
      OtherCallKinds(db, c);
    }
  }

  /**
   What a revert will take off the list: an address newly listed on its own, and, as the source has it, an
   address that was listed before a slot of it was; a slot newly listed on its own.
   */
  lemma AccessRecords(db: Db, c: Call, a: Address, s: Hash)
    ensures AccessAddressChange(a) in Added(db, c) <==>
      (c == AddAddressToAccessList(a) && a !in db.access) || (c.AddSlotToAccessList? && c.addr == a && a in db.access)
    ensures AccessSlotChange(a, s) in Added(db, c) <==> c == AddSlotToAccessList(a, s) && !Warm(db.access, a, s)
  {
    hide Added, Advance, Warm;
    if AccessCall(c) {
      AddRecords(db, c);
    } else {
      assert !c.AddAddressToAccessList? && !c.AddSlotToAccessList?;
      if AccessAddressChange(a) in Added(db, c) { OthersRecordNoListing(db, c, AccessAddressChange(a)); }
      if AccessSlotChange(a, s) in Added(db, c) { OthersRecordNoListing(db, c, AccessSlotChange(a, s)); }
    }
  }
}
