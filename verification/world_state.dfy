/**
 The journaled world state as a value: the overlay of one block over a frozen store.
 There are no caches and no aliasing here; module StateDb proves that the heap-based
 implementation computes exactly these functions.
 */
module WorldState {
  import opened Types

  /** An undo record. Each constructor carries what its revert method needs. */
  datatype Entry =
    | CreateObjectChange(account: Address)
    | SuicideChange(account: Address, wasSuicided: bool, prevBalance: int)
    | BalanceChange(account: Address, prevBalance: int)
    | NonceChange(account: Address, prevNonce: nat)
    | StorageChange(account: Address, key: Hash, prevValue: Hash)
    | CodeChange(account: Address, prevCode: Bytes, prevHash: Hash)
    | RefundChange(prevRefund: nat)
    | AddLogChange(txHash: Hash)
    | AddPreimageChange(hash: Hash)
    | AccessAddressChange(address: Address)
    | AccessSlotChange(address: Address, slot: Hash)
  {
    /** The account whose record the entry restores, for the kinds that touch an account record. */
    predicate RestoresAccount(a: Address) {
      match this
      case CreateObjectChange(b) => a == b
      case SuicideChange(b, _, _) => a == b
      case BalanceChange(b, _) => a == b
      case NonceChange(b, _) => a == b
      case CodeChange(b, _, _) => a == b
      case _ => false
    }

    function Dirtied(): Option<Address> {
      match this
      case CreateObjectChange(a) => Some(a)
      case SuicideChange(a, _, _) => Some(a)
      case BalanceChange(a, _) => Some(a)
      case NonceChange(a, _) => Some(a)
      case StorageChange(a, _, _) => Some(a)
      case CodeChange(a, _, _) => Some(a)
      case _ => None
    }
  }

  datatype Revision = Revision(id: nat, journalIndex: nat)

  /** One entry of a transaction's declared access list. */
  datatype AccessTuple = AccessTuple(addr: Address, keys: seq<Hash>)

  type AccessMap = map<Address, set<Hash>>

  datatype Db = Db(
    store: Store,
    block: nat,
    accounts: map<Address, AccountData>,
    storages: map<Slot, Hash>,
    codes: map<Hash, Bytes>,
    logs: map<Hash, seq<Log>>,
    logSize: int,
    suicides: set<Address>,
    preimages: map<Hash, Bytes>,
    refund: nat,
    access: AccessMap,
    journal: seq<Entry>,
    revisions: seq<Revision>,
    nextRevisionId: nat,
    txHash: Hash,
    txIndex: nat)
  {
    /******* Reads *******/

    function Stored(a: Address): Option<AccountData> {
      RecordAt(store, block, a)
    }

    /** The record a fresh database on the same store would show. */
    function Base(a: Address): AccountData {
      if Stored(a).Some? then Stored(a).value else NEW_ACCOUNT
    }

    function Account(a: Address): AccountData {
      if a in accounts then accounts[a] else Base(a)
    }

    function State(a: Address, k: Hash): Hash {
      if Slot(a, k) in storages then storages[Slot(a, k)]
      else if WordAt(store, block, a, k).Some? then WordAt(store, block, a, k).value
      else ZERO_HASH
    }

    predicate StoredCode(h: Hash) {
      HasCode(store, h)
    }

    predicate Held(h: Hash) {
      h in codes || StoredCode(h)
    }

    function Lookup(h: Hash): Bytes {
      if h in codes then codes[h]
      else if StoredCode(h) then store[CodeKey(h)].code
      else []
    }

    function Code(a: Address): Bytes {
      var h := Account(a).codeHash;
      if h == ZERO_HASH then [] else Lookup(h)
    }

    predicate Empty(a: Address) {
      Account(a).nonce == 0 && Account(a).balance == 0 && Account(a).codeHash == ZERO_HASH
    }

    predicate Exist(a: Address) {
      !Empty(a) || a in suicides
    }

    function LogsOf(h: Hash): seq<Log> {
      if h in logs then logs[h] else []
    }

    /******* Writes *******/

    /** Every account getter copies a stored record into the overlay; an absent one is not recorded. */
    function Load(a: Address): Db {
      if a in accounts || Stored(a).None? then this
      else this.(accounts := accounts[a := Stored(a).value])
    }

    function Put(a: Address, acc: AccountData, e: Entry): Db {
      this.(accounts := accounts[a := acc], journal := journal + [e])
    }

    function CreateAccount(a: Address): Db {
      if Empty(a) then Put(a, NEW_ACCOUNT, CreateObjectChange(a)) else Load(a)
    }

    function AddBalance(a: Address, amount: int): Db {
      var acc := Account(a);
      if amount == 0 then this
      else Put(a, acc.(balance := acc.balance + amount), BalanceChange(a, acc.balance))
    }

    function SubBalance(a: Address, amount: int): Db {
      AddBalance(a, -amount)
    }

    function SetNonce(a: Address, nonce: nat): Db {
      Put(a, Account(a).(nonce := nonce), NonceChange(a, Account(a).nonce))
    }

    /** The hash of the new code is passed along with it. */
    function SetCode(a: Address, code: Bytes, hash: Hash): Db {
      Put(a, Account(a).(codeHash := hash), CodeChange(a, Code(a), Account(a).codeHash))
        .(codes := codes[hash := code])
    }

    function SetState(a: Address, k: Hash, value: Hash): Db {
      if State(a, k) == value then this
      else this.(storages := storages[Slot(a, k) := value],
                 journal := journal + [StorageChange(a, k, State(a, k))])
    }

    function Suicide(a: Address): Db {
      Put(a, Account(a).(balance := 0), SuicideChange(a, a in suicides, Account(a).balance))
        .(suicides := suicides + {a})
    }

    function AddLog(data: Bytes): Db {
      var log := Log(data, txHash, txIndex, logSize);
      this.(logs := logs[txHash := LogsOf(txHash) + [log]], logSize := logSize + 1,
            journal := journal + [AddLogChange(txHash)])
    }

    /** The counter is an unsigned 64-bit word: adding wraps, subtracting saturates. */
    function AddRefund(gas: nat): Db {
      this.(refund := (refund + gas) % TWO_64, journal := journal + [RefundChange(refund)])
    }

    function SubRefund(gas: nat): Db {
      this.(refund := if gas > refund then 0 else refund - gas, journal := journal + [RefundChange(refund)])
    }

    function AddPreimage(h: Hash, data: Bytes): Db {
      if h in preimages then this
      else this.(preimages := preimages[h := data], journal := journal + [AddPreimageChange(h)])
    }

    function AddAddressToAccessList(a: Address): Db {
      if a in access then this
      else this.(access := access[a := {}], journal := journal + [AccessAddressChange(a)])
    }

    /** The address record is written when the address was already listed, as the source does. */
    function AddSlotToAccessList(a: Address, s: Hash): Db {
      var present := a in access;
      var row := if present then access[a] else {};
      this.(access := access[a := row + {s}],
            journal := journal + (if present then [AccessAddressChange(a)] else [])
                               + (if s in row then [] else [AccessSlotChange(a, s)]))
    }

    /** Start of a transaction: the given addresses and slots join the access list with no undo record. */
    function Prepare(sender: Address, dest: Option<Address>, precompiles: seq<Address>, tuples: seq<AccessTuple>): Db {
      var first := [sender] + (if dest.Some? then [dest.value] else []) + precompiles;
      this.(access := WarmTuples(WarmAddresses(access, first), tuples), txHash := ZERO_HASH, txIndex := 0)
    }

    function SetTxContext(h: Hash, i: nat): Db {
      this.(txHash := h, txIndex := i)
    }

    /******* Snapshots *******/

    function Snapshot(): Db {
      this.(revisions := revisions + [Revision(nextRevisionId, |journal|)], nextRevisionId := nextRevisionId + 1)
    }

    /** Effect of one undo record, field by field. A record that was dropped is not brought back. */
    function Undo(e: Entry): (d: Db)
      ensures d.store == store && d.block == block
      ensures d.journal == journal && d.revisions == revisions && d.nextRevisionId == nextRevisionId
    {
      this.(accounts := UndoAccounts(e),
            storages := if e.StorageChange? then storages[Slot(e.account, e.key) := e.prevValue] else storages,
            codes := if e.CodeChange? then codes[e.prevHash := e.prevCode] else codes,
            logs := if e.AddLogChange? then UndoLogs(e.txHash) else logs,
            logSize := if e.AddLogChange? then logSize - 1 else logSize,
            suicides := if e.SuicideChange? then UndoSuicides(e.account, e.wasSuicided) else suicides,
            preimages := if e.AddPreimageChange? then preimages - {e.hash} else preimages,
            refund := if e.RefundChange? then e.prevRefund else refund,
            access := UndoAccess(access, e))
    }

    function UndoAccounts(e: Entry): map<Address, AccountData> {
      match e
      case CreateObjectChange(a) => accounts - {a}
      case SuicideChange(a, _, prev) => if a in accounts then accounts[a := accounts[a].(balance := prev)] else accounts
      case BalanceChange(a, prev) => if a in accounts then accounts[a := accounts[a].(balance := prev)] else accounts
      case NonceChange(a, prev) => if a in accounts then accounts[a := accounts[a].(nonce := prev)] else accounts
      case CodeChange(a, _, prev) => if a in accounts then accounts[a := accounts[a].(codeHash := prev)] else accounts
      case _ => accounts
    }

    function UndoLogs(h: Hash): map<Hash, seq<Log>> {
      var l := LogsOf(h);
      if |l| <= 1 then logs - {h} else logs[h := l[..|l| - 1]]
    }

    function UndoSuicides(a: Address, was: bool): set<Address> {
      if was then suicides + {a} else suicides - {a}
    }

    /** Undo a journal suffix, newest record first. */
    function UndoAll(js: seq<Entry>): (d: Db)
      ensures d.store == store && d.block == block
      ensures d.journal == journal && d.revisions == revisions && d.nextRevisionId == nextRevisionId
      decreases |js|
    {
      if js == [] then this else UndoAll(js[1..]).Undo(js[0])
    }

    /** Revision ids grow and are below the next one; their journal marks grow and stay in the journal. */
    predicate Ordered() {
      OrderedRevisions(revisions, nextRevisionId, |journal|)
    }

    /** Return to the i-th live snapshot. */
    function RevertTo(i: nat): Db
      requires Ordered() && i < |revisions|
    {
      var k := revisions[i].journalIndex;
      UndoAll(journal[k..]).(journal := journal[..k], revisions := revisions[..i])
    }

    function Find(id: nat): Option<nat> {
      FindFrom(id, 0)
    }

    function FindFrom(id: nat, i: nat): (r: Option<nat>)
      ensures r.Some? ==> r.value < |revisions| && revisions[r.value].id == id
      decreases |revisions| - i
    {
      if i >= |revisions| then None
      else if revisions[i].id == id then Some(i)
      else FindFrom(id, i + 1)
    }

    /** An unknown id makes the source panic; nothing has been changed by then. */
    function RevertToSnapshot(id: nat): Db
      requires Ordered()
    {
      var i := Find(id);
      if i.None? then this else RevertTo(i.value)
    }
  }

  predicate OrderedRevisions(rs: seq<Revision>, nextId: nat, length: nat) {
    && (forall i :: 0 <= i < |rs| ==> rs[i].id < nextId && rs[i].journalIndex <= length)
    && (forall i, j :: 0 <= i < j < |rs| ==> rs[i].id < rs[j].id && rs[i].journalIndex <= rs[j].journalIndex)
  }

  function NewDb(store: Store, block: nat): Db {
    Db(store, block, map[], map[], map[], map[], 0, {}, map[], 0, map[], [], [], 0, ZERO_HASH, 0)
  }

  function UndoAccess(m: AccessMap, e: Entry): AccessMap {
    match e
    case AccessAddressChange(a) => m - {a}
    case AccessSlotChange(a, s) => if a in m then m[a := m[a] - {s}] else m
    case _ => m
  }

  function WarmAddress(m: AccessMap, a: Address): AccessMap {
    if a in m then m else m[a := {}]
  }

  function WarmAddresses(m: AccessMap, warm: seq<Address>): AccessMap
    decreases |warm|
  {
    if warm == [] then m else WarmAddresses(WarmAddress(m, warm[0]), warm[1..])
  }

  function WarmSlots(m: AccessMap, a: Address, keys: seq<Hash>): AccessMap
    decreases |keys|
  {
    if keys == [] then m
    else WarmSlots(m[a := (if a in m then m[a] else {}) + {keys[0]}], a, keys[1..])
  }

  function WarmTuples(m: AccessMap, tuples: seq<AccessTuple>): AccessMap
    decreases |tuples|
  {
    if tuples == [] then m
    else WarmTuples(WarmSlots(WarmAddress(m, tuples[0].addr), tuples[0].addr, tuples[0].keys), tuples[1..])
  }
}
