/**
 The access list: an index from addresses to rows of slots. Deleting an address leaves its row
 behind; the map from listed addresses to their slots is what the rest of the world sees.
 */
module AccessLists {
  import opened Types
  import opened WorldState

  /** Every listed address has a row of its own. */
  ghost predicate WellIndexed(addresses: map<Address, nat>, slots: seq<set<Hash>>) {
    && (forall a :: a in addresses ==> addresses[a] < |slots|)
    && (forall a, b :: a in addresses && b in addresses && a != b ==> addresses[a] != addresses[b])
  }

  ghost function Rows(addresses: map<Address, nat>, slots: seq<set<Hash>>): AccessMap
    requires WellIndexed(addresses, slots)
  {
    map a | a in addresses :: slots[addresses[a]]
  }

  lemma NewRow(addresses: map<Address, nat>, slots: seq<set<Hash>>, a: Address)
    requires WellIndexed(addresses, slots) && a !in addresses
    ensures WellIndexed(addresses[a := |slots|], slots + [{}])
    ensures Rows(addresses[a := |slots|], slots + [{}]) == Rows(addresses, slots)[a := {}]
  {
  }

  lemma ChangedRow(addresses: map<Address, nat>, slots: seq<set<Hash>>, a: Address, row: set<Hash>)
    requires WellIndexed(addresses, slots) && a in addresses
    ensures WellIndexed(addresses, slots[addresses[a] := row])
    ensures Rows(addresses, slots[addresses[a] := row]) == Rows(addresses, slots)[a := row]
  {
  }

  lemma SameKeys(addresses: map<Address, nat>, slots: seq<set<Hash>>)
    requires WellIndexed(addresses, slots)
    ensures Rows(addresses, slots).Keys == addresses.Keys
  {
  }

  lemma RowAt(addresses: map<Address, nat>, slots: seq<set<Hash>>, a: Address)
    requires WellIndexed(addresses, slots) && a in addresses
    ensures addresses[a] < |slots| && a in Rows(addresses, slots) && Rows(addresses, slots)[a] == slots[addresses[a]]
  {
  }

  class AccessList {
    var addresses: map<Address, nat>
    var slots: seq<set<Hash>>

    constructor ()
      ensures Valid() && Model() == map[]
    {
      addresses := map[];
      slots := [];
    }

    ghost predicate Valid()
      reads this
    {
      WellIndexed(addresses, slots)
    }

    ghost function Model(): AccessMap
      reads this
      requires Valid()
    {
      Rows(addresses, slots)
    }

    method AddAddress(a: Address) returns (added: bool)
      requires Valid()
      modifies this
      ensures Valid() && Model() == WarmAddress(old(Model()), a)
      ensures added <==> a !in old(Model())
    {
      if a in addresses {
        return false;
      }
      NewRow(addresses, slots, a);
      addresses := addresses[a := |slots|];
      slots := slots + [{}];
      added := true;
    }

    /** The first answer is whether the address was listed before, not whether it is new. */
    method AddSlot(a: Address, slot: Hash) returns (present: bool, added: bool)
      requires Valid()
      modifies this
      ensures Valid()
      ensures present <==> a in old(Model())
      ensures added <==> a !in old(Model()) || slot !in old(Model())[a]
      ensures Model() == old(Model())[a := (if a in old(Model()) then old(Model())[a] else {}) + {slot}]
    {
      hide WellIndexed, Rows;
      assert forall b :: b in Model() <==> b in addresses by { SameKeys(addresses, slots); }
      present := a in addresses;
      if !present {
        NewRow(addresses, slots, a);
        addresses := addresses[a := |slots|];
        slots := slots + [{}];
      }
      RowAt(addresses, slots, a);
      var idx := addresses[a];
      added := slot !in slots[idx];
      if added {
        ChangedRow(addresses, slots, a, slots[idx] + {slot});
        slots := slots[idx := slots[idx] + {slot}];
      } else {
        assert slots[idx] + {slot} == slots[idx];
      }
    }

    method ContainsAddress(a: Address) returns (r: bool)
      requires Valid()
      ensures r <==> a in Model()
    {
      r := a in addresses;
    }

    method Contains(a: Address, slot: Hash) returns (listed: bool, warm: bool)
      requires Valid()
      ensures listed <==> a in Model()
      ensures warm <==> a in Model() && slot in Model()[a]
    {
      if a !in addresses {
        return false, false;
      }
      listed, warm := true, slot in slots[addresses[a]];
    }

    method DeleteAddress(a: Address)
      requires Valid()
      modifies this
      ensures Valid() && Model() == UndoAccess(old(Model()), AccessAddressChange(a))
    {
      addresses := addresses - {a};
    }

    method DeleteSlot(a: Address, slot: Hash)
      requires Valid()
      modifies this
      ensures Valid() && Model() == UndoAccess(old(Model()), AccessSlotChange(a, slot))
    {
      if a !in addresses {
        return;
      }
      var idx := addresses[a];
      slots := slots[idx := slots[idx] - {slot}];
    }

    /** Every listed address once, in any order, with exactly its slots. */
    method ToAccessList() returns (r: seq<AccessTuple>)
      requires Valid()
      ensures Lists(r, Model())
    {
      r := [];
      var left := addresses.Keys;
      ghost var done: AccessMap := map[];
      while left != {}
        invariant left <= addresses.Keys && done == map a | a in addresses && a !in left :: slots[addresses[a]]
        invariant Lists(r, done)
        decreases |left|
      {
        var a :| a in left;
        var keys := ListOf(slots[addresses[a]]);
        ListsMore(r, done, AccessTuple(a, keys), slots[addresses[a]]);
        r := r + [AccessTuple(a, keys)];
        left := left - {a};
        done := done[a := slots[addresses[a]]];
      }
      assert done == Model();
    }
  }

  /** List some addresses, one after the other. */
  method WarmAll(list: AccessList, addresses: seq<Address>)
    requires list.Valid()
    modifies list
    ensures list.Valid() && list.Model() == WarmAddresses(old(list.Model()), addresses)
  {
    for i := 0 to |addresses|
      invariant list.Valid() && WarmAddresses(list.Model(), addresses[i..]) ==
          WarmAddresses(old(list.Model()), addresses)
    {
      assert addresses[i..][1..] == addresses[i + 1..];
      var added := list.AddAddress(addresses[i]);
    }
  }

  method WarmKeys(list: AccessList, a: Address, keys: seq<Hash>)
    requires list.Valid()
    modifies list
    ensures list.Valid() && list.Model() == WarmSlots(old(list.Model()), a, keys)
  {
    for i := 0 to |keys|
      invariant list.Valid() && WarmSlots(list.Model(), a, keys[i..]) == WarmSlots(old(list.Model()), a, keys)
    {
      assert keys[i..][1..] == keys[i + 1..];
      var present, added := list.AddSlot(a, keys[i]);
    }
  }

  /** List the addresses and slots a transaction declares. */
  method WarmAllTuples(list: AccessList, tuples: seq<AccessTuple>)
    requires list.Valid()
    modifies list
    ensures list.Valid() && list.Model() == WarmTuples(old(list.Model()), tuples)
  {
    for i := 0 to |tuples|
      invariant list.Valid() && WarmTuples(list.Model(), tuples[i..]) == WarmTuples(old(list.Model()), tuples)
    {
      assert tuples[i..][1..] == tuples[i + 1..];
      var added := list.AddAddress(tuples[i].addr);
      WarmKeys(list, tuples[i].addr, tuples[i].keys);
    }
  }

  predicate NoRepeats<T(==)>(s: seq<T>) {
    forall i, j :: 0 <= i < j < |s| ==> s[i] != s[j]
  }

  /** The elements of a set in some order. */
  method ListOf(s: set<Hash>) returns (r: seq<Hash>)
    ensures NoRepeats(r) && forall h :: h in r <==> h in s
  {
    r := [];
    var left := s;
    while left != {}
      invariant left <= s && NoRepeats(r) && forall h :: h in r <==> h in s && h !in left
      decreases |left|
    {
      var h :| h in left;
      r := r + [h];
      left := left - {h};
    }
  }

  /** The tuples name each address of the map once, and no other, each with its slots without repeats. */
  ghost predicate Lists(r: seq<AccessTuple>, m: AccessMap) {
    && (forall i, j :: 0 <= i < j < |r| ==> r[i].addr != r[j].addr)
    && (forall i :: 0 <= i < |r| ==> r[i].addr in m && NoRepeats(r[i].keys) && forall h :: h in r[i].keys <==>
        h in m[r[i].addr])
    && (forall a :: a in m ==> Named(r, a))
  }

  predicate Named(r: seq<AccessTuple>, a: Address) {
    exists i :: 0 <= i < |r| && r[i].addr == a
  }

  lemma ListsMore(r: seq<AccessTuple>, m: AccessMap, t: AccessTuple, row: set<Hash>)
    requires Lists(r, m) && t.addr !in m && NoRepeats(t.keys) && forall h :: h in t.keys <==> h in row
    ensures Lists(r + [t], m[t.addr := row])
  {
    var q := r + [t];
    forall a | a in m[t.addr := row] ensures Named(q, a) {
      if a == t.addr {
        assert q[|r|].addr == a;
      } else {
        assert Named(r, a);
        var i :| 0 <= i < |r| && r[i].addr == a;
        assert q[i].addr == a;
      }
    }
  }

  /** Warming a tuple list from nothing rebuilds the map it lists. */
  lemma {:induction false} ListRoundTrip(r: seq<AccessTuple>, m: AccessMap)
    requires Lists(r, m)
    ensures WarmTuples(map[], r) == m
  {
    WarmListed(map[], r, m);
  }

  lemma {:induction false} WarmListed(done: AccessMap, r: seq<AccessTuple>, m: AccessMap)
    requires Lists(r, m) && done.Keys !! m.Keys
    ensures WarmTuples(done, r) == done + m
    decreases |r|
  {
    if r == [] {
      assert m == map[];
    } else {
      var t := r[0];
      var next, rest := done[t.addr := m[t.addr]], m - {t.addr};
      WarmTuple(done, t, m[t.addr]);
      ListsRest(r, m);
      WarmListed(next, r[1..], rest);
    }
  }

  lemma WarmTuple(done: AccessMap, t: AccessTuple, row: set<Hash>)
    requires t.addr !in done && forall h :: h in t.keys <==> h in row
    ensures WarmSlots(WarmAddress(done, t.addr), t.addr, t.keys) == done[t.addr := row]
  {
    WarmRow(WarmAddress(done, t.addr), t.addr, t.keys);
    assert {} + (set h | h in t.keys) == row;
  }

  lemma ListsRest(r: seq<AccessTuple>, m: AccessMap)
    requires r != [] && Lists(r, m)
    ensures Lists(r[1..], m - {r[0].addr})
  {
    forall a | a in m - {r[0].addr} ensures Named(r[1..], a) {
      assert Named(r, a);
      var i :| 0 <= i < |r| && r[i].addr == a;
      assert r[1..][i - 1].addr == a;
    }
  }

  lemma {:induction false} WarmRow(m: AccessMap, a: Address, keys: seq<Hash>)
    requires a in m
    ensures WarmSlots(m, a, keys) == m[a := m[a] + (set h | h in keys)]
    decreases |keys|
  {
    if keys == [] {
      assert m[a] + (set h | h in keys) == m[a];
    } else {
      var n := m[a := m[a] + {keys[0]}];
      WarmRow(n, a, keys[1..]);
      assert n[a] + (set h | h in keys[1..]) == m[a] + (set h | h in keys);
    }
  }
}
