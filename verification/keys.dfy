/**
 The printed form of the keys. Different keys print differently, so the rest of the model may use
 keys as values. The casing of address digits (EIP-55, section "Implementation") is a parameter:
 any function of the address and the digit's place will do.
 */
module Keys {
  import opened Types

  type Casing = (Address, nat) -> bool

  function Digit(d: nat, upper: bool): char
    requires d < 16
  {
    if d < 10 then '0' + d as char
    else if upper then 'A' + (d - 10) as char
    else 'a' + (d - 10) as char
  }

  function DigitValue(c: char): nat {
    if '0' <= c <= '9' then c as int - '0' as int
    else if 'A' <= c <= 'F' then c as int - 'A' as int + 10
    else if 'a' <= c <= 'f' then c as int - 'a' as int + 10
    else 0
  }

  /** The low digits of v, a fixed number of them. */
  function FixedHex(v: nat, width: nat, upper: nat -> bool): string {
    if width == 0 then "" else FixedHex(v / 16, width - 1, upper) + [Digit(v % 16, upper(width - 1))]
  }

  function Decimal(n: nat): string {
    if n < 10 then [Digit(n, false)] else Decimal(n / 10) + [Digit(n % 10, false)]
  }

  function CasingOf(a: Address, casing: Casing): nat -> bool {
    (i: nat) => casing(a, i)
  }

  const LOWER: nat -> bool := (i: nat) => false

  function AddressHex(a: Address, casing: Casing): string {
    "0x" + FixedHex(a.value, 40, CasingOf(a, casing))
  }

  function HashHex(h: Hash): string {
    "0x" + FixedHex(h.value, 64, LOWER)
  }

  function Print(k: Key, casing: Casing): string {
    match k
    case AccountKey(n, a) =>
      if n == 0 then "st:latest:acc:" + AddressHex(a, casing)
      else "st:" + Decimal(n) + ":acc:" + AddressHex(a, casing)
    case StorageKey(n, a, h) =>
      if n == 0 then "st:latest:stor:" + AddressHex(a, casing) + ":" + HashHex(h)
      else "st:" + Decimal(n) + ":stor:" + AddressHex(a, casing) + ":" + HashHex(h)
    case CodeKey(h) => "st:code:" + HashHex(h)
    case RootKey(n) => "st:root:" + Decimal(n)
    case ReceiptKey(n) => "blk:rcpt:" + Decimal(n)
    case ExecProgressKey => "idx:exec:progress"
  }

  /** Addresses have 20 bytes and words 32. */
  predicate InRange(k: Key) {
    match k
    case AccountKey(_, a) => a.value < Power16(40)
    case StorageKey(_, a, h) => a.value < Power16(40) && h.value < Power16(64)
    case CodeKey(h) => h.value < Power16(64)
    case _ => true
  }

  function Power16(n: nat): nat {
    if n == 0 then 1 else 16 * Power16(n - 1)
  }

  /******* Numbers read back *******/

  function ReadNumber(s: string, base: nat): nat {
    if s == "" then 0 else base * ReadNumber(s[..|s| - 1], base) + DigitValue(s[|s| - 1])
  }

  lemma {:induction false} FixedHexReadsBack(v: nat, width: nat, upper: nat -> bool)
    requires v < Power16(width)
    ensures ReadNumber(FixedHex(v, width, upper), 16) == v && ':' !in FixedHex(v, width, upper)
    decreases width
  {
    if width > 0 {
      var s := FixedHex(v / 16, width - 1, upper);
      FixedHexReadsBack(v / 16, width - 1, upper);
      assert FixedHex(v, width, upper)[..|s|] == s;
    }
  }

  lemma {:induction false} DecimalReadsBack(n: nat)
    ensures ReadNumber(Decimal(n), 10) == n && ':' !in Decimal(n)
    ensures Decimal(n) != "" && '0' <= Decimal(n)[0] <= '9'
    decreases n
  {
    if n >= 10 {
      DecimalReadsBack(n / 10);
      assert Decimal(n)[..|Decimal(n / 10)|] == Decimal(n / 10);
    } else {
      assert Decimal(n)[..0] == "";
    }
  }

  lemma AddressHexInjective(a: Address, b: Address, casing: Casing)
    requires a.value < Power16(40) && b.value < Power16(40) && AddressHex(a, casing) == AddressHex(b, casing)
    ensures a == b
  {
    FixedHexReadsBack(a.value, 40, CasingOf(a, casing));
    FixedHexReadsBack(b.value, 40, CasingOf(b, casing));
    assert AddressHex(a, casing)[2..] == FixedHex(a.value, 40, CasingOf(a, casing));
    assert AddressHex(b, casing)[2..] == FixedHex(b.value, 40, CasingOf(b, casing));
  }

  lemma HashHexInjective(g: Hash, h: Hash)
    requires g.value < Power16(64) && h.value < Power16(64) && HashHex(g) == HashHex(h)
    ensures g == h
  {
    FixedHexReadsBack(g.value, 64, LOWER);
    FixedHexReadsBack(h.value, 64, LOWER);
    assert HashHex(g)[2..] == FixedHex(g.value, 64, LOWER);
    assert HashHex(h)[2..] == FixedHex(h.value, 64, LOWER);
  }

  /******* Colons *******/

  function Segments(k: Key, casing: Casing): seq<string> {
    match k
    case AccountKey(n, a) => ["st", Version(n), "acc", AddressHex(a, casing)]
    case StorageKey(n, a, h) => ["st", Version(n), "stor", AddressHex(a, casing), HashHex(h)]
    case CodeKey(h) => ["st", "code", HashHex(h)]
    case RootKey(n) => ["st", "root", Decimal(n)]
    case ReceiptKey(n) => ["blk", "rcpt", Decimal(n)]
    case ExecProgressKey => ["idx", "exec", "progress"]
  }

  function Version(n: nat): string {
    if n == 0 then "latest" else Decimal(n)
  }

  function Join(ss: seq<string>): string
    requires ss != []
  {
    if |ss| == 1 then ss[0] else ss[0] + ":" + Join(ss[1..])
  }

  /** The place of the first colon, or the length. */
  function Colon(s: string): nat {
    if s == "" || s[0] == ':' then 0 else 1 + Colon(s[1..])
  }

  lemma {:induction false} ColonAfter(a: string, x: string)
    requires ':' !in a
    ensures Colon(a) == |a| && Colon(a + ":" + x) == |a|
    decreases |a|
  {
    if a == "" {
      assert a + ":" + x == ":" + x;
    } else {
      ColonAfter(a[1..], x);
      assert (a + ":" + x)[1..] == a[1..] + ":" + x;
    }
  }

  lemma JoinColon(ss: seq<string>)
    requires ss != [] && ':' !in ss[0]
    ensures Colon(Join(ss)) == |ss[0]|
    ensures |ss| == 1 <==> Colon(Join(ss)) == |Join(ss)|
  {
    ColonAfter(ss[0], if |ss| == 1 then "" else Join(ss[1..]));
  }

  lemma {:induction false} JoinInjective(ss: seq<string>, ts: seq<string>)
    requires ss != [] && ts != [] && Join(ss) == Join(ts)
    requires forall i :: 0 <= i < |ss| ==> ':' !in ss[i]
    requires forall i :: 0 <= i < |ts| ==> ':' !in ts[i]
    ensures ss == ts
    decreases |ss|
  {
    JoinColon(ss);
    JoinColon(ts);
    var s, n := Join(ss), |ss[0]|;
    if |ss| == 1 {
      assert ss == [ss[0]] && ts == [ts[0]];
    } else {
      assert ss[0] == s[..n] && ts[0] == s[..n];
      assert Join(ss[1..]) == s[n + 1..] && Join(ts[1..]) == s[n + 1..];
      JoinInjective(ss[1..], ts[1..]);
      assert ss == [ss[0]] + ss[1..] && ts == [ts[0]] + ts[1..];
    }
  }

  lemma JoinMore(a: string, ss: seq<string>)
    requires ss != []
    ensures Join([a] + ss) == a + ":" + Join(ss)
  {
    assert ([a] + ss)[1..] == ss;
  }

  lemma JoinFew(a: string, b: string, c: string)
    ensures Join([a, b, c]) == a + ":" + b + ":" + c
  {
    JoinMore(b, [c]);
    JoinMore(a, [b, c]);
    assert [a, b, c] == [a] + [b, c] && [b, c] == [b] + [c];
    assert a + ":" + (b + ":" + c) == a + ":" + b + ":" + c;
  }

  lemma AccountPrintIsJoin(v: string, a: string)
    ensures Join(["st", v, "acc", a]) == "st:" + v + ":acc:" + a
  {
    JoinMore("st", [v, "acc", a]);
    JoinFew(v, "acc", a);
    assert ["st", v, "acc", a] == ["st"] + [v, "acc", a];
  }

  lemma StoragePrintIsJoin(v: string, a: string, h: string)
    ensures Join(["st", v, "stor", a, h]) == "st:" + v + ":stor:" + a + ":" + h
  {
    JoinMore("st", [v, "stor", a, h]);
    JoinMore(v, ["stor", a, h]);
    JoinFew("stor", a, h);
    assert ["st", v, "stor", a, h] == ["st"] + [v, "stor", a, h];
    assert [v, "stor", a, h] == [v] + ["stor", a, h];
  }

  lemma StatePrintIsJoin(k: Key, casing: Casing)
    requires k.AccountKey? || k.StorageKey?
    ensures Print(k, casing) == Join(Segments(k, casing))
  {
    assert "st:" + "latest" + ":acc:" == "st:latest:acc:";
    assert "st:" + "latest" + ":stor:" == "st:latest:stor:";
    if k.AccountKey? {
      AccountPrintIsJoin(Version(k.block), AddressHex(k.addr, casing));
    } else {
      StoragePrintIsJoin(Version(k.block), AddressHex(k.addr, casing), HashHex(k.slot));
    }
  }

  lemma PlainPrintIsJoin(k: Key, casing: Casing)
    requires !k.AccountKey? && !k.StorageKey?
    ensures Print(k, casing) == Join(Segments(k, casing))
  {
    match k
    case CodeKey(h) => JoinFew("st", "code", HashHex(h)); assert "st" + ":" + "code" + ":" == "st:code:";
    case RootKey(n) => JoinFew("st", "root", Decimal(n)); assert "st" + ":" + "root" + ":" == "st:root:";
    case ReceiptKey(n) => JoinFew("blk", "rcpt", Decimal(n)); assert "blk" + ":" + "rcpt" + ":" == "blk:rcpt:";
    case ExecProgressKey =>
      JoinFew("idx", "exec", "progress"); assert "idx" + ":" + "exec" + ":" + "progress" == "idx:exec:progress";
  }

  lemma PrintIsJoin(k: Key, casing: Casing)
    ensures Print(k, casing) == Join(Segments(k, casing))
  {
    if k.AccountKey? || k.StorageKey? { StatePrintIsJoin(k, casing); } else { PlainPrintIsJoin(k, casing); }
  }

  lemma AddressHasNoColon(a: Address, casing: Casing)
    requires a.value < Power16(40)
    ensures ':' !in AddressHex(a, casing)
  {
    FixedHexReadsBack(a.value, 40, CasingOf(a, casing));
  }

  lemma HashHasNoColon(h: Hash)
    requires h.value < Power16(64)
    ensures ':' !in HashHex(h)
  {
    FixedHexReadsBack(h.value, 64, LOWER);
  }

  lemma VersionHasNoColon(n: nat)
    ensures ':' !in Version(n) && Version(n) != "code" && Version(n) != "root"
  {
    DecimalReadsBack(n);
  }

  lemma SegmentsHaveNoColon(k: Key, casing: Casing)
    requires InRange(k)
    ensures forall i :: 0 <= i < |Segments(k, casing)| ==> ':' !in Segments(k, casing)[i]
  {
    match k
    case AccountKey(n, a) => VersionHasNoColon(n); AddressHasNoColon(a, casing);
    case StorageKey(n, a, h) => VersionHasNoColon(n); AddressHasNoColon(a, casing); HashHasNoColon(h);
    case CodeKey(h) => HashHasNoColon(h);
    case RootKey(n) => DecimalReadsBack(n);
    case ReceiptKey(n) => DecimalReadsBack(n);
    case ExecProgressKey =>
  }

  lemma VersionInjective(m: nat, n: nat)
    requires Version(m) == Version(n)
    ensures m == n
  {
    DecimalReadsBack(m);
    DecimalReadsBack(n);
  }

  lemma SegmentsInjective(j: Key, k: Key, casing: Casing)
    requires InRange(j) && InRange(k) && Segments(j, casing) == Segments(k, casing)
    ensures j == k
  {
    match j
    case AccountKey(m, a) =>
      VersionInjective(m, k.block);
      AddressHexInjective(a, k.addr, casing);
    case StorageKey(m, a, h) =>
      VersionInjective(m, k.block);
      AddressHexInjective(a, k.addr, casing);
      HashHexInjective(h, k.slot);
    case CodeKey(h) => HashHexInjective(h, k.codeHash);
    case RootKey(m) => DecimalReadsBack(m); DecimalReadsBack(k.block);
    case ReceiptKey(m) => DecimalReadsBack(m); DecimalReadsBack(k.block);
    case ExecProgressKey =>
  }

  /** Equal key strings come from equal kind, block, address and slot or hash. */
  lemma PrintInjective(j: Key, k: Key, casing: Casing)
    requires InRange(j) && InRange(k) && Print(j, casing) == Print(k, casing)
    ensures j == k
  {
    PrintIsJoin(j, casing);
    PrintIsJoin(k, casing);
    SegmentsHaveNoColon(j, casing);
    SegmentsHaveNoColon(k, casing);
    JoinInjective(Segments(j, casing), Segments(k, casing));
    SegmentsInjective(j, k, casing);
  }

  /******* How keys look *******/

  predicate LowerHex(c: char) {
    '0' <= c <= '9' || 'a' <= c <= 'f'
  }

  lemma {:induction false} FixedHexDigits(v: nat, width: nat, upper: nat -> bool)
    ensures |FixedHex(v, width, upper)| == width
    ensures (forall i :: !upper(i)) ==> forall j :: 0 <= j < width ==> LowerHex(FixedHex(v, width, upper)[j])
    decreases width
  {
    if width > 0 {
      FixedHexDigits(v / 16, width - 1, upper);
    }
  }

  /** A hash prints as 0x and 64 lower-case digits. */
  lemma HashHexLooks(h: Hash)
    ensures var s := HashHex(h); |s| == 66 && s[..2] == "0x" && forall j :: 2 <= j < 66 ==> LowerHex(s[j])
  {
    FixedHexDigits(h.value, 64, LOWER);
  }

  /** What a key of each kind begins with, the alias "latest" instead of block 0. */
  function Beginning(k: Key): string {
    match k
    case AccountKey(n, _) => "st:" + Version(n) + ":acc:0x"
    case StorageKey(n, _, _) => "st:" + Version(n) + ":stor:0x"
    case CodeKey(_) => "st:code:0x"
    case RootKey(n) => "st:root:" + Decimal(n)
    case ReceiptKey(n) => "blk:rcpt:" + Decimal(n)
    case ExecProgressKey => "idx:exec:progress"
  }

  /** Each kind prints its own words, then 40 digits of an address, 64 of a code hash, or both for a slot. */
  lemma PrintLooks(k: Key, casing: Casing)
    ensures Beginning(k) <= Print(k, casing)
    ensures |Print(k, casing)| == |Beginning(k)| +
      match k
      case AccountKey(_, _) => 40
      case StorageKey(_, _, _) => 40 + 1 + 66
      case CodeKey(_) => 64
      case _ => 0
  {
    match k
    case AccountKey(n, a) => AccountLooks(n, a, casing);
    case StorageKey(n, a, h) => StorageLooks(n, a, h, casing);
    case CodeKey(h) => FixedHexDigits(h.value, 64, LOWER); assert "st:code:" + "0x" == "st:code:0x";
    case RootKey(n) =>
    case ReceiptKey(n) =>
    case ExecProgressKey =>
  }

  lemma AccountLooks(n: nat, a: Address, casing: Casing)
    ensures Print(AccountKey(n, a), casing) ==
      "st:" + Version(n) + ":acc:0x" + FixedHex(a.value, 40, CasingOf(a, casing))
    ensures |FixedHex(a.value, 40, CasingOf(a, casing))| == 40
  {
    FixedHexDigits(a.value, 40, CasingOf(a, casing));
    assert "st:" + "latest" + ":acc:" == "st:latest:acc:" && ":acc:" + "0x" == ":acc:0x";
  }

  lemma StoragePrint(n: nat, a: Address, h: Hash, casing: Casing)
    ensures Print(StorageKey(n, a, h), casing) ==
      "st:" + Version(n) + ":stor:" + AddressHex(a, casing) + ":" + HashHex(h)
  {
    hide AddressHex, HashHex;
    assert "st:" + "latest" + ":stor:" == "st:latest:stor:";
  }

  lemma StorageLooks(n: nat, a: Address, h: Hash, casing: Casing)
    ensures Print(StorageKey(n, a, h), casing) ==
      "st:" + Version(n) + ":stor:0x" + FixedHex(a.value, 40, CasingOf(a, casing)) + ":" + HashHex(h)
    ensures |FixedHex(a.value, 40, CasingOf(a, casing))| == 40 && |HashHex(h)| == 66
  {
    StoragePrint(n, a, h, casing);
    FixedHexDigits(a.value, 40, CasingOf(a, casing));
    HashHexLooks(h);
    hide FixedHex, HashHex, CasingOf, LowerHex, Print, Version;
    assert ":stor:" + "0x" == ":stor:0x";
  }
}
