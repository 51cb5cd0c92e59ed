/** What a block can read of the store: the state keys of its parent, and code by hash. */
module BlockInputs {
  import opened Types

  predicate SameAt(s: Store, t: Store, k: Key) {
    (k in s <==> k in t) && (k in s ==> s[k] == t[k])
  }

  /** t serves block n the same state as s, and all the code s has. */
  ghost predicate SameInputs(s: Store, t: Store, n: nat) {
    && (forall a :: SameAt(s, t, AccountKey(n, a)))
    && (forall a, k :: SameAt(s, t, StorageKey(n, a, k)))
    && (forall h :: h != ZERO_HASH && HasCode(s, h) ==> SameAt(s, t, CodeKey(h)))
  }

  /** The record at block n, if any, refers to stored code. */
  predicate RecordReadable(s: Store, n: nat, a: Address) {
    var k := AccountKey(n, a);
    k in s && s[k].AccountDatum? && s[k].account.codeHash != ZERO_HASH ==> HasCode(s, s[k].account.codeHash)
  }

  ghost predicate Readable(s: Store, n: nat) {
    forall a :: RecordReadable(s, n, a)
  }

  ghost predicate NothingAbove(s: Store, n: nat) {
    && (forall m, a :: m > n ==> AccountKey(m, a) !in s)
    && (forall m, a, k :: m > n ==> StorageKey(m, a, k) !in s)
  }
}
