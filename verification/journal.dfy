/** The journal object: the undo records of a block, and the index of the last record of each dirty account. */
module Journals {
  import opened Types
  import opened WorldState

  predicate Dirties(e: Entry, a: Address) {
    e.Dirtied() == Some(a)
  }

  /** d maps exactly the addresses of the records to the position of their last record. */
  ghost predicate IsDirtyIndex(d: map<Address, nat>, es: seq<Entry>) {
    && (forall a :: a in d ==> d[a] < |es| && Dirties(es[d[a]], a))
    && (forall i, a :: 0 <= i < |es| && Dirties(es[i], a) ==> a in d && i <= d[a])
  }

  /** There is only one such index, so keeping it up to date and rebuilding it agree. */
  lemma DirtyIndexIsUnique(d: map<Address, nat>, f: map<Address, nat>, es: seq<Entry>)
    requires IsDirtyIndex(d, es) && IsDirtyIndex(f, es)
    ensures d == f
  {
    assert d.Keys == f.Keys by {
      forall a ensures a in d <==> a in f {
        if a in d { assert Dirties(es[d[a]], a); }
        if a in f { assert Dirties(es[f[a]], a); }
      }
    }
    forall a | a in d ensures d[a] == f[a] {
      assert Dirties(es[d[a]], a) && Dirties(es[f[a]], a);
    }
  }

  class Journal {
    var entries: seq<Entry>
    var dirties: map<Address, nat>

    constructor ()
      ensures Valid() && entries == []
    {
      entries := [];
      dirties := map[];
    }

    ghost predicate Valid()
      reads this
    {
      IsDirtyIndex(dirties, entries)
    }

    method Append(e: Entry)
      requires Valid()
      modifies this
      ensures Valid() && entries == old(entries) + [e]
    {
      entries := entries + [e];
      var dirtied := e.Dirtied();
      if dirtied.Some? {
        dirties := dirties[dirtied.value := |entries| - 1];
      }
    }

    /** The second half of a revert: drop the undone records and rebuild the index. */
    method Truncate(snapshot: nat)
      requires snapshot <= |entries|
      modifies this
      ensures Valid() && entries == old(entries)[..snapshot]
    {
      entries := entries[..snapshot];
      dirties := map[];
      for i := 0 to |entries|
        invariant entries == old(entries)[..snapshot]
        invariant IsDirtyIndex(dirties, entries[..i])
      {
        assert entries[..i + 1] == entries[..i] + [entries[i]];
        var dirtied := entries[i].Dirtied();
        if dirtied.Some? {
          dirties := dirties[dirtied.value := i];
        }
      }
      assert entries[..|entries|] == entries;
    }

    method Length() returns (n: nat)
      ensures n == |entries|
    {
      n := |entries|;
    }
  }
}
