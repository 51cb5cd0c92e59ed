/**
 A transfer that a crash of block 1 pays twice, or to nobody. The program is that of a plain transfer
 with a fee; the account nonce and the payee's balance are what the replay reads of the latest alias.
 */
module FirstBlock {
  import opened Types
  import opened WorldState
  import opened Commit
  import opened BlockInputs
  import opened ExecutorSteps
  import opened BlockRuns
  import opened FirstInputs
  import opened Replay
  import R = Runs
  import T = Transactions

  /******* A transfer *******/

  const SENDER := Address(0x1000)
  const PAYEE := Address(0x2000)
  const COINBASE := Address(0x3000)
  const VALUE := 5
  const GAS: nat := 21000
  const FEE := 21000
  const GAS_LIMIT: nat := 30000000

  /**
   Check the nonce and the balance, buy the gas, prepare, count the nonce up, take a snapshot, create
   the payee if it does not exist, move the value, pay the fee.
   */
  function Transfer(heard: seq<Response>): Option<R.Call> {
    match |heard|
    case 0 => Some(R.Ask(R.GetNonce(SENDER)))
    case 1 => if heard[0] == Number(0) then Some(R.Ask(R.GetBalance(SENDER))) else None
    case 2 => if heard[1].Number? && heard[1].number >= VALUE + FEE then Some(R.SubBalance(SENDER, FEE)) else None
    case 3 => Some(R.Prepare(SENDER, Some(PAYEE), [], []))
    case 4 => Some(R.SetNonce(SENDER, 1))
    case 5 => Some(R.Snapshot)
    case 6 => Some(R.Ask(R.Exist(PAYEE)))
    case _ => Pay(if heard[6] == Flag(false) then |heard| - 1 else |heard|)
  }

  /** The last steps, where creating the payee does not count. */
  function Pay(n: nat): Option<R.Call> {
    match n
    case 6 => Some(R.CreateAccount(PAYEE))
    case 7 => Some(R.SubBalance(SENDER, VALUE))
    case 8 => Some(R.AddBalance(PAYEE, VALUE))
    case 9 => Some(R.AddBalance(COINBASE, FEE))
    case _ => None
  }

  function TransferVerdict(pool: nat, heard: seq<Response>): T.Verdict {
    if pool < GAS || |heard| < 3 then T.Rejected(pool) else T.Applied(GAS, false)
  }

  function TransferMessage(): T.Message {
    T.Message((pool: nat) => if pool < GAS then (heard: seq<Response>) => None else Transfer, 11, TransferVerdict)
  }

  const TRANSFER := T.Transaction(Hash(7), Some(TransferMessage()))

  function TransferChain(): Chain {
    (n: nat) => Block([TRANSFER], GAS_LIMIT)
  }

  function Account(balance: int, nonce: nat): AccountData {
    AccountData(balance, nonce, ZERO_HASH, ZERO_HASH)
  }

  type Accounts = map<Address, AccountData>

  /******* Following the program *******/

  /** A database over s at block 0 that holds exactly these accounts. */
  ghost predicate Holds(d: Db, s: Store, m: Accounts) {
    && d.Ordered() && d.store == s && d.block == 0 && d.accounts == m && d.storages == map[] && d.codes == map[]
    && d.suicides == {}
  }

  function In(s: Store, m: Accounts, a: Address): AccountData {
    if a in m then m[a] else if RecordAt(s, 0, a).Some? then RecordAt(s, 0, a).value else NEW_ACCOUNT
  }

  function LoadedIn(s: Store, m: Accounts, a: Address): Accounts {
    if a in m || RecordAt(s, 0, a).None? then m else m[a := RecordAt(s, 0, a).value]
  }

  /** What a call does to the accounts. */
  function Changed(s: Store, m: Accounts, c: R.Call): Accounts {
    match c
    case Ask(GetNonce(a)) => LoadedIn(s, m, a)
    case Ask(GetBalance(a)) => LoadedIn(s, m, a)
    case Ask(Exist(a)) => LoadedIn(s, m, a)
    case AddBalance(a, x) => if x == 0 then m else m[a := In(s, m, a).(balance := In(s, m, a).balance + x)]
    case SubBalance(a, x) => if x == 0 then m else m[a := In(s, m, a).(balance := In(s, m, a).balance - x)]
    case SetNonce(a, n) => m[a := In(s, m, a).(nonce := n)]
    case CreateAccount(a) => if In(s, m, a) == NEW_ACCOUNT then m[a := NEW_ACCOUNT] else LoadedIn(s, m, a)
    case _ => m
  }

  predicate Simple(c: R.Call) {
    || (c.Ask? && (c.query.GetNonce? || c.query.GetBalance? || c.query.Exist?))
    || c.AddBalance? || c.SubBalance? || c.SetNonce? || c.Prepare? || c.Snapshot?
  }

  lemma SimpleHolds(d: Db, s: Store, m: Accounts, c: R.Call)
    requires Holds(d, s, m) && Simple(c)
    ensures Holds(R.Step(d, c), s, Changed(s, m, c))
  {
    if R.AccountCall(c) {
      assert d.Account(c.addr) == In(s, m, c.addr);
      hide Db.Account;
    }
  }

  lemma CreateHolds(d: Db, s: Store, m: Accounts, a: Address)
    requires Holds(d, s, m) && In(s, m, a) == NEW_ACCOUNT
    ensures Holds(R.Step(d, R.CreateAccount(a)), s, m[a := NEW_ACCOUNT])
  {
    assert d.Account(a) == In(s, m, a);
    hide Db.Account;
  }

  /** One call of the program. */
  lemma Follow(d: Db, heard: seq<Response>, steps: nat, c: R.Call, s: Store, m: Accounts) returns (e: Db)
    requires Holds(d, s, m) && steps > 0 && Transfer(heard) == Some(c)
    requires Simple(c) || (c.CreateAccount? && In(s, m, c.addr) == NEW_ACCOUNT)
    ensures Holds(e, s, Changed(s, m, c)) && d.Ordered() && e.Ordered()
    ensures Execute(Transfer, d, heard, steps) == Execute(Transfer, e, heard + [Respond(d, c)], steps - 1)
  {
    e := R.Step(d, c);
    hide R.Step;
    if c.CreateAccount? { CreateHolds(d, s, m, c.addr); } else { SimpleHolds(d, s, m, c); }
    hide Transfer;
  }

  /******* The whole transfer *******/

  /** The sender is stored with balance b and a nonce, the payee with balance c or not at all, the fee account not. */
  predicate Ready(s: Store, b: int, nonce: nat, c: Option<int>) {
    && RecordAt(s, 0, SENDER) == Some(Account(b, nonce)) && RecordAt(s, 0, COINBASE).None?
    && RecordAt(s, 0, PAYEE) == if c.Some? then Some(Account(c.value, 0)) else None
  }

  /** The nonce is asked for; n steps are left. */
  lemma AskedNonce(d: Db, s: Store, b: int, nonce: nat, c: Option<int>, n: nat) returns (e: Db)
    requires Holds(d, s, map[]) && Ready(s, b, nonce, c)
    ensures Holds(e, s, map[SENDER := Account(b, nonce)]) && d.Ordered() && e.Ordered()
    ensures Execute(Transfer, d, [], n + 1) == Execute(Transfer, e, [Number(nonce)], n)
  {
    var call := R.Ask(R.GetNonce(SENDER));
    assert Respond(d, call) == Number(nonce);
    assert Changed(s, map[], call) == map[SENDER := Account(b, nonce)];
    hide Execute, Db.Ordered, Holds, Ready, Respond, Changed;
    e := Follow(d, [], n + 1, call, s, map[]);
    assert [] + [Number(nonce)] == [Number(nonce)];
  }

  /** The balance is asked for and the gas bought. */
  lemma BoughtGas(d: Db, s: Store, b: int, n: nat) returns (e: Db)
    requires Holds(d, s, map[SENDER := Account(b, 0)]) && b >= VALUE + FEE
    ensures Holds(e, s, map[SENDER := Account(b - FEE, 0)]) && d.Ordered() && e.Ordered()
    ensures Execute(Transfer, d, [Number(0)], n + 2) == Execute(Transfer, e, [Number(0), Number(b), Done], n)
  {
    var m := map[SENDER := Account(b, 0)];
    var ask, pay := R.Ask(R.GetBalance(SENDER)), R.SubBalance(SENDER, FEE);
    assert Respond(d, ask) == Number(b);
    assert Changed(s, m, ask) == m && Changed(s, m, pay) == map[SENDER := Account(b - FEE, 0)];
    hide Execute, Db.Ordered, Holds, Changed;
    var q := Follow(d, [Number(0)], n + 2, ask, s, m);
    assert [Number(0)] + [Number(b)] == [Number(0), Number(b)];
    e := Follow(q, [Number(0), Number(b)], n + 1, pay, s, m);
    assert [Number(0), Number(b)] + [Done] == [Number(0), Number(b), Done];
  }

  /** A call at one of the steps whose program depends on the number of answers only. */
  lemma Plain(d: Db, s: Store, m: Accounts, h: seq<Response>, c: R.Call, n: nat) returns (e: Db, after: seq<Response>)
    requires Holds(d, s, m) && 3 <= |h| <= 5 && Simple(c) && Transfer(h) == Some(c)
    ensures Holds(e, s, Changed(s, m, c)) && d.Ordered() && e.Ordered() && |after| == |h| + 1
    ensures Execute(Transfer, d, h, n + 1) == Execute(Transfer, e, after, n)
  {
    hide Execute, Db.Ordered, Holds, Changed, Respond, Transfer;
    e := Follow(d, h, n + 1, c, s, m);
    after := h + [Respond(d, c)];
  }

  /** Prepared, the nonce up, and a snapshot taken. */
  lemma Prepared(d: Db, s: Store, b: int, h: seq<Response>, n: nat) returns (e: Db, after: seq<Response>)
    requires Holds(d, s, map[SENDER := Account(b, 0)]) && |h| == 3
    ensures Holds(e, s, map[SENDER := Account(b, 1)]) && d.Ordered() && e.Ordered() && |after| == 6
    ensures Execute(Transfer, d, h, n + 3) == Execute(Transfer, e, after, n)
  {
    var m, m1 := map[SENDER := Account(b, 0)], map[SENDER := Account(b, 1)];
    var prepare, up := R.Prepare(SENDER, Some(PAYEE), [], []), R.SetNonce(SENDER, 1);
    assert Changed(s, m, prepare) == m && Changed(s, m, up) == m1 && Changed(s, m1, R.Snapshot) == m1;
    assert Transfer(h) == Some(prepare);
    assert forall x: seq<Response> :: |x| == 4 ==> Transfer(x) == Some(up);
    assert forall x: seq<Response> :: |x| == 5 ==> Transfer(x) == Some(R.Snapshot);
    hide Execute, Db.Ordered, Holds, Changed, Transfer, Account;
    e, after := Plain(d, s, m, h, prepare, n + 2);
    e, after := Plain(e, s, m, after, up, n + 1);
    e, after := Plain(e, s, m1, after, R.Snapshot, n);
  }

  lemma PayeeAsked(d: Db, s: Store, m: Accounts, c: Option<int>)
    requires Holds(d, s, m) && PAYEE !in m && (c.Some? ==> c.value > 0)
    requires RecordAt(s, 0, PAYEE) == if c.Some? then Some(Account(c.value, 0)) else None
    ensures Respond(d, R.Ask(R.Exist(PAYEE))) == Flag(c.Some?)
    ensures Changed(s, m, R.Ask(R.Exist(PAYEE))) == if c.Some? then m[PAYEE := Account(c.value, 0)] else m
    ensures c.None? ==> In(s, m, PAYEE) == NEW_ACCOUNT == Account(0, 0)
  {
  }

  /** Whether the payee exists is asked for. */
  lemma Asked(d: Db, s: Store, m: Accounts, c: Option<int>, h: seq<Response>, n: nat) returns (e: Db)
    requires Holds(d, s, m) && PAYEE !in m && (c.Some? ==> c.value > 0) && |h| == 6
    requires RecordAt(s, 0, PAYEE) == if c.Some? then Some(Account(c.value, 0)) else None
    ensures Holds(e, s, if c.Some? then m[PAYEE := Account(c.value, 0)] else m) && d.Ordered() && e.Ordered()
    ensures Execute(Transfer, d, h, n + 1) == Execute(Transfer, e, h + [Flag(c.Some?)], n)
  {
    PayeeAsked(d, s, m, c);
    hide Execute, Db.Ordered, Holds, Respond, Changed, RecordAt;
    e := Follow(d, h, n + 1, R.Ask(R.Exist(PAYEE)), s, m);
  }

  lemma NewIsEmpty()
    ensures NEW_ACCOUNT == Account(0, 0)
  {
  }

  /** Asked for, not found, and created. */
  lemma Absent(d: Db, s: Store, m: Accounts, h: seq<Response>, n: nat) returns (e: Db, after: seq<Response>)
    requires Holds(d, s, m) && PAYEE !in m && |h| == 6 && RecordAt(s, 0, PAYEE).None?
    ensures Holds(e, s, m[PAYEE := Account(0, 0)]) && d.Ordered() && e.Ordered()
    ensures |after| == 8 && after[6] == Flag(false) && Execute(Transfer, d, h, n + 2) == Execute(Transfer, e, after, n)
  {
    var asked := h + [Flag(false)];
    assert asked[6] == Flag(false) && Transfer(asked) == Some(R.CreateAccount(PAYEE));
    assert In(s, m, PAYEE) == NEW_ACCOUNT;
    hide Execute, Db.Ordered, Holds, In, RecordAt, Transfer;
    NewIsEmpty();
    e := Asked(d, s, m, None, h, n + 1);
    e := Created(e, s, asked, m, n);
    after := asked + [Done];
  }

  lemma Created(d: Db, s: Store, h: seq<Response>, m: Accounts, n: nat) returns (e: Db)
    requires Holds(d, s, m) && In(s, m, PAYEE) == NEW_ACCOUNT && Transfer(h) == Some(R.CreateAccount(PAYEE))
    ensures Holds(e, s, m[PAYEE := NEW_ACCOUNT]) && d.Ordered() && e.Ordered()
    ensures Execute(Transfer, d, h, n + 1) == Execute(Transfer, e, h + [Done], n)
  {
    hide Execute, Db.Ordered, Holds, Transfer;
    e := Follow(d, h, n + 1, R.CreateAccount(PAYEE), s, m);
  }

  /** The value moves and the fee is paid, to accounts that are loaded or not stored. */
  lemma Moved(d: Db, s: Store, h: seq<Response>, m: Accounts, b: int, c: int, n: nat)
      returns (e: Db, all: seq<Response>)
    requires Holds(d, s, m) && RecordAt(s, 0, COINBASE).None?
    requires m == map[SENDER := Account(b - FEE, 1), PAYEE := Account(c, 0)]
    requires |h| >= 7 && (if h[6] == Flag(false) then |h| == 8 else |h| == 7)
    ensures Holds(e, s, map[SENDER := Account(b - FEE - VALUE, 1), PAYEE := Account(c + VALUE, 0),
        COINBASE := Account(FEE, 0)])
    ensures d.Ordered() && Execute(Transfer, d, h, n + 3) == (e, all) && |all| == |h| + 3
  {
    var take, give, fee := R.SubBalance(SENDER, VALUE), R.AddBalance(PAYEE, VALUE), R.AddBalance(COINBASE, FEE);
    var m1 := Changed(s, m, take);
    assert m1 == map[SENDER := Account(b - FEE - VALUE, 1), PAYEE := Account(c, 0)];
    var m2 := Changed(s, m1, give);
    assert m2 == map[SENDER := Account(b - FEE - VALUE, 1), PAYEE := Account(c + VALUE, 0)];
    assert Changed(s, m2, fee) ==
      map[SENDER := Account(b - FEE - VALUE, 1), PAYEE := Account(c + VALUE, 0), COINBASE := Account(FEE, 0)];
    var h1, h2, h3 := h + [Done], h + [Done, Done], h + [Done, Done, Done];
    assert Transfer(h) == Some(take) && Transfer(h1) == Some(give) && Transfer(h2) == Some(fee) && Transfer(h3).None?;
    assert h1 + [Done] == h2 && h2 + [Done] == h3;
    hide Execute, Db.Ordered, Holds, Changed, Transfer;
    var q := Follow(d, h, n + 3, take, s, m);
    var r := Follow(q, h1, n + 2, give, s, m1);
    e := Follow(r, h2, n + 1, fee, s, m2);
    all := h3;
    Stops(e, all, n);
  }

  lemma Stops(d: Db, heard: seq<Response>, steps: nat)
    requires d.Ordered() && Transfer(heard).None?
    ensures Execute(Transfer, d, heard, steps) == (d, heard)
  {
  }

  /** The nonce fits and the balance is enough: value and fee move, whether or not the payee existed. */
  lemma TransferExecuted(d: Db, s: Store, b: int, c: Option<int>, n: nat) returns (e: Db, h: seq<Response>)
    requires Holds(d, s, map[]) && Ready(s, b, 0, c) && b >= VALUE + FEE && (c.Some? ==> c.value > 0) && n == 11
    ensures d.Ordered() && Execute(Transfer, d, [], n) == (e, h) && |h| >= 3
    ensures var had := if c.Some? then c.value else 0;
      Holds(e, s, map[SENDER := Account(b - FEE - VALUE, 1), PAYEE := Account(had + VALUE, 0),
          COINBASE := Account(FEE, 0)])
  {
    hide Execute, Db.Ordered, Holds, Transfer;
    e := AskedNonce(d, s, b, 0, c, n - 1);
    e := BoughtGas(e, s, b, n - 3);
    e, h := Prepared(e, s, b - FEE, [Number(0), Number(b), Done], n - 6);
    var m := map[SENDER := Account(b - FEE, 1)];
    if c.Some? {
      e := Asked(e, s, m, c, h, n - 7);
      e, h := Moved(e, s, h + [Flag(true)], m[PAYEE := Account(c.value, 0)], b, c.value, n - 10);
    } else {
      e, h := Absent(e, s, m, h, n - 8);
      e, h := Moved(e, s, h, m[PAYEE := Account(0, 0)], b, 0, n - 11);
    }
  }

  /** The nonce is used up: the transaction is rejected, and only the sender was looked at. */
  lemma TransferRejected(d: Db, s: Store, b: int, nonce: nat, c: Option<int>, n: nat) returns (e: Db)
    requires Holds(d, s, map[]) && Ready(s, b, nonce, c) && nonce > 0 && n > 0
    ensures d.Ordered() && Execute(Transfer, d, [], n) == (e, [Number(nonce)])
    ensures Holds(e, s, map[SENDER := Account(b, nonce)])
  {
    e := AskedNonce(d, s, b, nonce, c, n - 1);
    hide Execute, Db.Ordered, Holds;
    Stops(e, [Number(nonce)], n - 1);
  }

  /******* The block over a store *******/

  lemma EnteredHolds(s: Store)
    ensures Holds(T.Entered(NewDb(s, 0), TRANSFER.hash, 0), s, map[])
  {
  }

  /** What the one transaction of the block leaves behind. */
  function Result(s: Store): T.Tally {
    T.ApplyOne(T.Tally(NewDb(s, 0), GAS_LIMIT, 0, []), TRANSFER, 0)
  }

  lemma OutcomeIsResult(s: Store)
    ensures Outcome(TransferChain(), s, 1) == Result(s)
  {
    ParentOf(1);
    hide T.ApplyOne;
    assert T.ApplyFrom(Result(s), [TRANSFER], 1) == Result(s);
  }

  /** One receipt, and exactly these accounts. */
  ghost predicate Leaves(r: T.Tally, s: Store, m: Accounts, paid: bool) {
    Holds(r.db, s, m) && |r.receipts| == 1 && r.receipts[0].success == paid
  }

  lemma ResultIs(s: Store, e: Db, h: seq<Response>, m: Accounts)
    requires Execute(Transfer, T.Entered(NewDb(s, 0), TRANSFER.hash, 0), [], 11) == (e, h) && Holds(e, s, m)
    ensures Leaves(Result(s), s, m, |h| >= 3)
  {
    hide Execute, T.Entered, Transfer, Holds;
    var v := TransferVerdict(GAS_LIMIT, h);
    assert Result(s) == T.Settle(T.Tally(NewDb(s, 0), GAS_LIMIT, 0, []), e, TRANSFER.hash, 0, v);
  }

  lemma Paid(s: Store, b: int, c: Option<int>)
    requires Ready(s, b, 0, c) && b >= VALUE + FEE && (c.Some? ==> c.value > 0)
    ensures var had := if c.Some? then c.value else 0;
      Leaves(Result(s), s, map[SENDER := Account(b - FEE - VALUE, 1), PAYEE := Account(had + VALUE, 0),
                               COINBASE := Account(FEE, 0)], true)
  {
    EnteredHolds(s);
    hide Ready, T.Entered, Execute, Holds, Result, Leaves, Transfer;
    var e, h := TransferExecuted(T.Entered(NewDb(s, 0), TRANSFER.hash, 0), s, b, c, 11);
    var had := if c.Some? then c.value else 0;
    ResultIs(s, e, h, map[SENDER := Account(b - FEE - VALUE, 1), PAYEE := Account(had + VALUE, 0),
                          COINBASE := Account(FEE, 0)]);
  }

  lemma Unpaid(s: Store, b: int, nonce: nat, c: Option<int>)
    requires Ready(s, b, nonce, c) && nonce > 0
    ensures Leaves(Result(s), s, map[SENDER := Account(b, nonce)], false)
  {
    EnteredHolds(s);
    hide Ready, T.Entered, Execute, Holds, Result, Leaves, Transfer;
    var e := TransferRejected(T.Entered(NewDb(s, 0), TRANSFER.hash, 0), s, b, nonce, c, 11);
    ResultIs(s, e, [Number(nonce)], map[SENDER := Account(b, nonce)]);
  }

  /** Both keys of the given records, for block 1. */
  function Keys(accounts: Accounts): Store {
    map k | k in (set a | a in accounts :: AccountKey(1, a)) + (set a | a in accounts :: AccountKey(0, a)) ::
      AccountDatum(accounts[k.addr])
  }

  lemma WritesAreKeys(db: Db)
    requires db.block == 0 && db.storages == map[] && db.codes == map[]
    ensures CommitWrites(db) == Keys(db.accounts)
  {
    assert NextBlock(0) == 1;
    var w := Keys(db.accounts);
    forall k ensures SameAt(CommitWrites(db), w, k) {
      CommitWritesAt(db, k);
    }
    SameMap(CommitWrites(db), w);
  }

  lemma ProcessorAt1(s: Store, m: Accounts, paid: bool)
    requires Leaves(Result(s), s, m, paid)
    ensures var p := ProcessorOf(TransferChain());
      p.writes(s, 1) == Keys(m) && |p.receipts(s, 1)| == 1 && p.receipts(s, 1)[0].success == paid
  {
    OutcomeIsResult(s);
    WritesAreKeys(Result(s).db);
    hide Result, Outcome, CommitWrites, Keys;
  }

  /******* The chain meets what the step system assumes *******/

  lemma TransferWithinPool()
    ensures T.AllWithinPool([TRANSFER])
  {
  }

  lemma StepKeepsCodes(d: Db, c: R.Call)
    requires d.Ordered() && !c.SetCode? && !c.RevertToSnapshot?
    ensures R.Step(d, c).codes == d.codes
  {
    hide R.AdvanceAccount, R.AdvanceOther, R.AdvanceAccess;
  }

  lemma {:induction false} TransferBringsNoCode(d: Db, heard: seq<Response>, steps: nat)
    requires d.Ordered()
    ensures Execute(Transfer, d, heard, steps).0.codes == d.codes
    decreases steps
  {
    hide R.Step, Respond, Db.Ordered;
    if steps > 0 && Transfer(heard).Some? {
      var c := Transfer(heard).value;
      StepKeepsCodes(d, c);
      TransferBringsNoCode(R.Step(d, c), heard + [Respond(d, c)], steps - 1);
    }
  }

  lemma TransferCodes(s: Store, h: nat)
    ensures Outcome(TransferChain(), s, h).db.codes == map[]
  {
    var t := T.Tally(NewDb(s, Parent(h)), GAS_LIMIT, 0, []);
    TransferBringsNoCode(T.Entered(t.db, TRANSFER.hash, 0), [], 11);
    hide Execute, Parent;
    assert T.ApplyFrom(T.ApplyOne(t, TRANSFER, 0), [TRANSFER], 1) == T.ApplyOne(t, TRANSFER, 0);
  }

  lemma TransferCodeStays(s: Store, h: nat)
    ensures CodeStays(ProcessorOf(TransferChain()), s, h)
  {
    TransferCodes(s, h);
    hide Outcome, CommitWrites;
    var d := Outcome(TransferChain(), s, h).db;
    forall c ensures CodeKey(c) !in CommitWrites(d) { CommitWritesAt(d, CodeKey(c)); }
  }

  lemma TransferRunnable()
    ensures Runnable(ProcessorOf(TransferChain()), Funded())
  {
    var p := ProcessorOf(TransferChain());
    ProcessorOfReliable(TransferChain());
    hide ProcessorOf, Reliable, CodeStays;
    forall h: nat | 1 <= h < LAST ensures CodeStays(p, Ideal(p, Funded(), h), h + 1)
        { TransferCodeStays(Ideal(p, Funded(), h), h + 1); }
  }

  /******* A run that dies in the commit of block 1 *******/

  /** The sender can pay once, and nothing else is stored. */
  function Funded(): Store {
    map[AccountKey(0, SENDER) := AccountDatum(Account(VALUE + FEE, 0))]
  }

  function PaidOnce(): Accounts {
    map[SENDER := Account(0, 1), PAYEE := Account(VALUE, 0), COINBASE := Account(FEE, 0)]
  }

  /** Only the payee's latest key was written. */
  function PayeeWritten(): Store {
    Funded()[AccountKey(0, PAYEE) := AccountDatum(Account(VALUE, 0))]
  }

  /** Only the sender's latest key was written. */
  function SenderWritten(): Store {
    Funded()[AccountKey(0, SENDER) := AccountDatum(Account(0, 1))]
  }

  /** The uninterrupted block moves the value once. */
  lemma Uninterrupted()
    ensures ProcessorOf(TransferChain()).writes(Funded(), 1) == Keys(PaidOnce())
  {
    assert Ready(Funded(), VALUE + FEE, 0, None);
    hide Ready, Result, ProcessorOf, Keys, Funded, Leaves;
    Paid(Funded(), VALUE + FEE, None);
    ProcessorAt1(Funded(), PaidOnce(), true);
  }

  function PaidTwice(): Accounts {
    map[SENDER := Account(0, 1), PAYEE := Account(2 * VALUE, 0), COINBASE := Account(FEE, 0)]
  }

  lemma PaidAgain()
    ensures ProcessorOf(TransferChain()).writes(PayeeWritten(), 1) == Keys(PaidTwice())
  {
    assert Ready(PayeeWritten(), VALUE + FEE, 0, Some(VALUE));
    hide Ready, Result, ProcessorOf, Keys, PayeeWritten, Leaves;
    Paid(PayeeWritten(), VALUE + FEE, Some(VALUE));
    ProcessorAt1(PayeeWritten(), PaidTwice(), true);
  }

  function PaidNone(): Accounts {
    map[SENDER := Account(0, 1)]
  }

  lemma RejectedAgain()
    ensures ProcessorOf(TransferChain()).writes(SenderWritten(), 1) == Keys(PaidNone())
  {
    assert Ready(SenderWritten(), 0, 1, None);
    hide Ready, Result, ProcessorOf, Keys, SenderWritten, Leaves;
    Unpaid(SenderWritten(), 0, 1, None);
    ProcessorAt1(SenderWritten(), PaidNone(), false);
  }

  lemma HalvesArePart()
    ensures Partly(Funded(), PayeeWritten(), Keys(PaidOnce())) && Partly(Funded(), SenderWritten(), Keys(PaidOnce()))
    ensures Height(Funded()) == 0 && Height(PayeeWritten()) == 0 && Height(SenderWritten()) == 0
  {
  }

  /** The run in which the process dies when the store is half, and the next tick goes through. */
  ghost function Crashed(half: Store): seq<State> {
    CrashedRun(ProcessorOf(TransferChain()), Funded(), half)
  }

  function At1(s: Store, a: Address): AccountData {
    NewDb(s, 1).Account(a)
  }

  lemma KeysAt1(p: Processor, s: Store, m: Accounts, a: Address)
    requires AccountKey(1, a) !in s && p.writes(s, 1) == Keys(m)
    ensures At1(Finish(p, s, 1), a) == if a in m then m[a] else NEW_ACCOUNT
  {
  }

  /** The store an uninterrupted run of block 1 ends in. */
  ghost function Uncrashed(): Store {
    Ideal(ProcessorOf(TransferChain()), Funded(), 1)
  }

  lemma IdealBalances()
    ensures At1(Uncrashed(), SENDER) == Account(0, 1) && At1(Uncrashed(), PAYEE) == Account(VALUE, 0)
    ensures At1(Uncrashed(), COINBASE) == Account(FEE, 0)
  {
    var p := ProcessorOf(TransferChain());
    Uninterrupted();
    HalvesArePart();
    hide ProcessorOf, Partly, Keys, Finish;
    IdealOne(p, Funded());
    KeysAt1(p, Funded(), PaidOnce(), SENDER);
    KeysAt1(p, Funded(), PaidOnce(), PAYEE);
    KeysAt1(p, Funded(), PaidOnce(), COINBASE);
  }

  /** The service can take this run, and it ends in what the replay over half finished. */
  lemma RunFrom(half: Store)
    requires half == PayeeWritten() || half == SenderWritten()
    ensures var (p, ss) := (ProcessorOf(TransferChain()), Crashed(half));
      Runnable(p, Funded()) && IsRun(p, 1, ss) && Fresh(Funded(), ss[0]) && ss[|ss| - 1].store == Finish(p, half, 1)
  {
    var p := ProcessorOf(TransferChain());
    TransferRunnable();
    Uninterrupted();
    HalvesArePart();
    assert CouldLeave(p, Funded(), half);
    hide Runnable, ProcessorOf, IsRun, Keys, PayeeWritten, SenderWritten, CouldLeave, Partly, CrashedRun;
    CrashedRunIsRun(p, Funded(), half);
    CrashedRunLeaves(p, Funded(), half);
  }

  lemma BalancesTwice()
    ensures var s := Finish(ProcessorOf(TransferChain()), PayeeWritten(), 1);
      At1(s, SENDER) == Account(0, 1) && At1(s, PAYEE) == Account(2 * VALUE, 0) && At1(s, COINBASE) == Account(FEE, 0)
  {
    var p := ProcessorOf(TransferChain());
    PaidAgain();
    hide ProcessorOf, Keys, Finish, At1;
    KeysAt1(p, PayeeWritten(), PaidTwice(), SENDER);
    KeysAt1(p, PayeeWritten(), PaidTwice(), PAYEE);
    KeysAt1(p, PayeeWritten(), PaidTwice(), COINBASE);
  }

  /**
   The process dies when only the payee's latest key was written: replayed over the payee's new
   balance and the sender's old nonce, the transfer pays a second time.
   */
  lemma FirstBlockPaysTwice()
    ensures T.AllWithinPool([TRANSFER]) && Runnable(ProcessorOf(TransferChain()), Funded())
    ensures var ss := Crashed(PayeeWritten());
      && IsRun(ProcessorOf(TransferChain()), 1, ss) && Fresh(Funded(), ss[0])
      && var end := ss[|ss| - 1].store;
      && At1(Uncrashed(), SENDER) == Account(0, 1) == At1(end, SENDER)
      && At1(Uncrashed(), COINBASE) == Account(FEE, 0) == At1(end, COINBASE)
      && At1(Uncrashed(), PAYEE) == Account(VALUE, 0) && At1(end, PAYEE) == Account(2 * VALUE, 0)
  {
    TransferWithinPool();
    hide *;
    RunFrom(PayeeWritten());
    BalancesTwice();
    IdealBalances();
  }

  lemma BalancesLost()
    ensures var s := Finish(ProcessorOf(TransferChain()), SenderWritten(), 1);
      At1(s, SENDER) == Account(0, 1) && At1(s, PAYEE) == NEW_ACCOUNT && At1(s, COINBASE) == NEW_ACCOUNT
  {
    var p := ProcessorOf(TransferChain());
    RejectedAgain();
    hide ProcessorOf, Keys, Finish, At1;
    KeysAt1(p, SenderWritten(), PaidNone(), SENDER);
    KeysAt1(p, SenderWritten(), PaidNone(), PAYEE);
    KeysAt1(p, SenderWritten(), PaidNone(), COINBASE);
  }

  /**
   The process dies when only the sender's latest key was written: replayed over the sender's new
   nonce, the transfer is rejected; value and fee are gone and nobody has them.
   */
  lemma FirstBlockLosesPayment()
    ensures T.AllWithinPool([TRANSFER]) && Runnable(ProcessorOf(TransferChain()), Funded())
    ensures var ss := Crashed(SenderWritten());
      && IsRun(ProcessorOf(TransferChain()), 1, ss) && Fresh(Funded(), ss[0])
      && var end := ss[|ss| - 1].store;
      && At1(Uncrashed(), SENDER) == Account(0, 1) == At1(end, SENDER)
      && At1(Uncrashed(), COINBASE) == Account(FEE, 0) && At1(end, COINBASE) == NEW_ACCOUNT
      && At1(Uncrashed(), PAYEE) == Account(VALUE, 0) && At1(end, PAYEE) == NEW_ACCOUNT
  {
    TransferWithinPool();
    hide *;
    RunFrom(SenderWritten());
    BalancesLost();
    IdealBalances();
  }
}
