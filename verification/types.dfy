/** Values shared by every layer: words of the chain, stored records and the keys they live under. */
module Types {
  datatype Option<+T> = None | Some(value: T)

  /** A 20-byte account address. The value is below 2^160; only key printing needs the bound. */
  datatype Address = Address(value: nat)

  /** A 32-byte word. The value is below 2^256; only key printing needs the bound. */
  datatype Hash = Hash(value: nat)

  newtype Byte = b: int | 0 <= b < 256
  type Bytes = seq<Byte>

  const ZERO_HASH := Hash(0)
  /** The Keccak-256 digest of the empty string. */
  const EMPTY_CODE_HASH := Hash(0xc5d2460186f7233c927e7db2dcc703c0e500b653ca82273b7bfad8045d85a470)
  const TWO_64: nat := 0x1_0000_0000_0000_0000

  /** One storage slot of one account. */
  datatype Slot = Slot(addr: Address, key: Hash)

  datatype AccountData = AccountData(balance: int, nonce: nat, codeHash: Hash, root: Hash)

  const NEW_ACCOUNT := AccountData(0, 0, ZERO_HASH, ZERO_HASH)

  datatype Log = Log(data: Bytes, txHash: Hash, txIndex: nat, index: int)

  datatype Receipt =
    Receipt(success: bool, gasUsed: nat, cumulativeGasUsed: nat, txHash: Hash, index: nat, logs: seq<Log>)

  /** Every kind of key the service reads or writes. Block 0 stands for the "latest" alias. */
  datatype Key =
    | AccountKey(block: nat, addr: Address)
    | StorageKey(block: nat, addr: Address, slot: Hash)
    | CodeKey(codeHash: Hash)
    | RootKey(block: nat)
    | ReceiptKey(block: nat)
    | ExecProgressKey

  datatype Datum =
    | AccountDatum(account: AccountData)
    | WordDatum(word: Hash)
    | CodeDatum(code: Bytes)
    | ReceiptsDatum(receipts: seq<Receipt>)
    | HeightDatum(height: nat)

  type Store = map<Key, Datum>

  /******* Reading the store: exactly the key asked for, and only a value of its kind *******/

  function RecordAt(s: Store, n: nat, a: Address): Option<AccountData> {
    var k := AccountKey(n, a);
    if k in s && s[k].AccountDatum? then Some(s[k].account) else None
  }

  function WordAt(s: Store, n: nat, a: Address, key: Hash): Option<Hash> {
    var k := StorageKey(n, a, key);
    if k in s && s[k].WordDatum? then Some(s[k].word) else None
  }

  predicate HasCode(s: Store, h: Hash) {
    CodeKey(h) in s && s[CodeKey(h)].CodeDatum?
  }

  function CodeAt(s: Store, h: Hash): Option<Bytes> {
    if HasCode(s, h) then Some(s[CodeKey(h)].code) else None
  }

  /******* Writing it *******/

  /** s is base with any part of the values w written. */
  ghost predicate Partly(base: Store, s: Store, w: Store) {
    && base.Keys <= s.Keys
    && forall k :: k in s ==> (k in base && s[k] == base[k]) || (k in w && s[k] == w[k])
  }

  /******* Block numbers are 64-bit words *******/

  function NextBlock(n: nat): nat {
    (n + 1) % TWO_64
  }

  function Parent(n: nat): nat {
    (n + TWO_64 - 1) % TWO_64
  }

  lemma ParentOf(n: nat)
    requires n < TWO_64
    ensures NextBlock(Parent(n)) == n && (n > 0 ==> Parent(n) == n - 1)
  {
    if n > 0 {
      assert n + TWO_64 - 1 == (n - 1) + TWO_64;
    }
  }
}
