/**
 The access list with the records its caller means to write: an address record exactly when the
 address is newly listed. Scopes nest, and Prepare may come between them or inside them; it lists
 addresses and slots without a record.
 */
module AccessIntended {
  import opened Types
  import opened WorldState
  import opened AccessUndo

  datatype AccessStep =
    | AddAddress(addr: Address)
    | AddSlot(addr: Address, slot: Hash)
    | Prepare(first: seq<Address>, tuples: seq<AccessTuple>)
    | Mark
    | GoBack(level: nat)

  /** The list, its undo records, and for each open scope the mark and the list at that time. */
  datatype Scopes = Scopes(list: AccessMap, records: seq<Entry>, marks: seq<nat>, saved: seq<AccessMap>) {
    ghost predicate WellMarked() {
      && |marks| == |saved|
      && (forall i :: 0 <= i < |marks| ==> marks[i] <= |records|)
      && (forall i, j :: 0 <= i < j < |marks| ==> marks[i] <= marks[j])
    }
  }

  const NO_SCOPES := Scopes(map[], [], [], [])

  ghost function Intended(x: Scopes, c: AccessStep): (r: Scopes)
    requires x.WellMarked()
    ensures r.WellMarked()
  {
    match c
    case AddAddress(a) =>
      if a in x.list then x else x.(list := x.list[a := {}], records := x.records + [AccessAddressChange(a)])
    case AddSlot(a, s) =>
      var row := if a in x.list then x.list[a] else {};
      x.(list := x.list[a := row + {s}],
         records := x.records + (if a in x.list then [] else [AccessAddressChange(a)])
                              + (if s in row then [] else [AccessSlotChange(a, s)]))
    case Prepare(first, tuples) => x.(list := WarmTuples(WarmAddresses(x.list, first), tuples))
    case Mark => x.(marks := x.marks + [|x.records|], saved := x.saved + [x.list])
    case GoBack(i) =>
      if i >= |x.marks| then x
      else Scopes(Back(x.records[x.marks[i]..], x.list), x.records[..x.marks[i]], x.marks[..i], x.saved[..i])
  }

  ghost function IntendedRun(x: Scopes, cs: seq<AccessStep>): (r: Scopes)
    requires x.WellMarked()
    ensures r.WellMarked()
    decreases |cs|
  {
    if cs == [] then x else IntendedRun(Intended(x, cs[0]), cs[1..])
  }

  /******* What every step keeps, at one address *******/

  /** If a was listed then, its entry only grew, and no record since touches it. */
  ghost predicate Grown(now: AccessMap, was: AccessMap, js: seq<Entry>, a: Address) {
    a in was ==>
      && a in now && was[a] <= now[a]
      && AccessAddressChange(a) !in js && forall s :: s in was[a] ==> AccessSlotChange(a, s) !in js
  }

  /** What joined since, a itself or slots of it, has a record. */
  ghost predicate AllRecorded(now: AccessMap, was: AccessMap, js: seq<Entry>, a: Address) {
    && (a in now && a !in was ==> AccessAddressChange(a) in js)
    && (a in was && a in now ==> forall s :: s in now[a] && s !in was[a] ==> AccessSlotChange(a, s) in js)
  }

  /** Undoing gives back the entry of a exactly when what joined there has a record. */
  lemma GrownExactness(now: AccessMap, was: AccessMap, js: seq<Entry>, a: Address)
    requires Grown(now, was, js, a)
    ensures EntryOf(Back(js, now), a) == EntryOf(was, a) <==> AllRecorded(now, was, js, a)
  {
    BackContents(js, now, a);
    if a in was {
      var b := Back(js, now)[a];
      assert AllRecorded(now, was, js, a) ==> b == was[a];
      if b == was[a] {
        forall s | s in now[a] && s !in was[a] ensures AccessSlotChange(a, s) in js { assert s !in b; }
      }
    }
  }

  lemma GrownTwice(now: AccessMap, mid: AccessMap, was: AccessMap, js: seq<Entry>, ks: seq<Entry>, a: Address)
    requires Grown(mid, was, js, a) && Grown(now, mid, ks, a)
    ensures Grown(now, was, js + ks, a)
  {
  }

  lemma GrownSame(now: AccessMap, mid: AccessMap, was: AccessMap, js: seq<Entry>, a: Address)
    requires Grown(mid, was, js, a) && EntryOf(now, a) == EntryOf(mid, a)
    ensures Grown(now, was, js, a)
  {
  }

  /** Everything but going back lets the list grow. */
  lemma StepGrows(x: Scopes, c: AccessStep, a: Address)
    requires x.WellMarked() && !c.GoBack?
    ensures x.records <= Intended(x, c).records
    ensures Grown(Intended(x, c).list, x.list, Intended(x, c).records[|x.records|..], a)
  {
    if c.Prepare? {
      var n := WarmAddresses(x.list, c.first);
      WarmAddressesGrows(x.list, c.first);
      WarmTuplesGrows(n, c.tuples);
    }
  }

  /** Each open scope only saw the entry grow, and so did each scope opened inside it. */
  ghost predicate ScopesGrown(x: Scopes, a: Address) {
    && x.WellMarked()
    && (forall i :: 0 <= i < |x.marks| ==> Grown(x.list, x.saved[i], x.records[x.marks[i]..], a))
    && (forall i, j :: 0 <= i < j < |x.marks| ==> Grown(x.saved[j], x.saved[i], x.records[x.marks[i]..x.marks[j]], a))
  }

  /** Leaving a scope is right at a if what joined there has a record. */
  ghost predicate RightAt(x: Scopes, level: nat, a: Address)
    requires x.WellMarked() && level < |x.marks|
  {
    AllRecorded(x.list, x.saved[level], x.records[x.marks[level]..], a)
  }

  ghost predicate RightStep(x: Scopes, c: AccessStep, a: Address)
    requires x.WellMarked()
  {
    c.GoBack? && c.level < |x.marks| ==> RightAt(x, c.level, a)
  }

  lemma GoBackGrown(x: Scopes, c: AccessStep, a: Address)
    requires ScopesGrown(x, a) && c.GoBack? && c.level < |x.marks| && RightStep(x, c, a)
    ensures ScopesGrown(Intended(x, c), a) && EntryOf(Intended(x, c).list, a) == EntryOf(x.saved[c.level], a)
  {
    var r := Intended(x, c);
    GrownExactness(x.list, x.saved[c.level], x.records[x.marks[c.level]..], a);
    hide Grown, EntryOf;
    forall i | 0 <= i < |r.marks| ensures Grown(r.list, r.saved[i], r.records[r.marks[i]..], a) {
      assert r.records[r.marks[i]..] == x.records[x.marks[i]..x.marks[c.level]];
      GrownSame(r.list, x.saved[c.level], x.saved[i], x.records[x.marks[i]..x.marks[c.level]], a);
    }
    forall i, j | 0 <= i < j < |r.marks|
      ensures Grown(r.saved[j], r.saved[i], r.records[r.marks[i]..r.marks[j]], a)
    {
      assert r.records[r.marks[i]..r.marks[j]] == x.records[x.marks[i]..x.marks[j]];
    }
  }

  lemma NothingGrown(m: AccessMap, a: Address)
    ensures Grown(m, m, [], a)
  {
  }

  lemma MarkGrown(x: Scopes, a: Address)
    requires ScopesGrown(x, a)
    ensures ScopesGrown(Intended(x, Mark), a)
  {
    var r, n := Intended(x, Mark), |x.marks|;
    NothingGrown(x.list, a);
    hide Grown;
    assert r.records[|r.records|..] == [];
    forall i, j | 0 <= i < j < |r.marks|
      ensures Grown(r.saved[j], r.saved[i], r.records[r.marks[i]..r.marks[j]], a)
    {
      if j == n {
        assert r.records[r.marks[i]..r.marks[j]] == x.records[x.marks[i]..];
      }
    }
  }

  lemma ListingGrown(x: Scopes, c: AccessStep, a: Address)
    requires ScopesGrown(x, a) && !c.GoBack? && !c.Mark?
    ensures ScopesGrown(Intended(x, c), a)
  {
    StepGrows(x, c, a);
    var r := Intended(x, c);
    var js := r.records[|x.records|..];
    hide Grown;
    forall i | 0 <= i < |r.marks| ensures Grown(r.list, r.saved[i], r.records[r.marks[i]..], a) {
      assert r.records[r.marks[i]..] == x.records[x.marks[i]..] + js;
      GrownTwice(r.list, x.list, x.saved[i], x.records[x.marks[i]..], js, a);
    }
    forall i, j | 0 <= i < j < |r.marks|
      ensures Grown(r.saved[j], r.saved[i], r.records[r.marks[i]..r.marks[j]], a)
    {
      assert r.records[r.marks[i]..r.marks[j]] == x.records[x.marks[i]..x.marks[j]];
    }
  }

  lemma GoingBackGrown(x: Scopes, c: AccessStep, a: Address)
    requires ScopesGrown(x, a) && c.GoBack? && RightStep(x, c, a)
    ensures ScopesGrown(Intended(x, c), a)
  {
    if c.level < |x.marks| {
      GoBackGrown(x, c, a);
    }
  }

  lemma StepGrown(x: Scopes, c: AccessStep, a: Address)
    requires ScopesGrown(x, a) && RightStep(x, c, a)
    ensures ScopesGrown(Intended(x, c), a)
  {
    hide ScopesGrown, RightStep, Intended;
    if c.Mark? {
      MarkGrown(x, a);
    } else if !c.GoBack? {
      ListingGrown(x, c, a);
    } else {
      GoingBackGrown(x, c, a);
    }
  }

  ghost predicate RightRun(x: Scopes, cs: seq<AccessStep>, a: Address)
    requires x.WellMarked()
    decreases |cs|
  {
    cs != [] ==> RightStep(x, cs[0], a) && RightRun(Intended(x, cs[0]), cs[1..], a)
  }

  lemma {:induction false} RunGrown(x: Scopes, cs: seq<AccessStep>, a: Address)
    requires ScopesGrown(x, a) && RightRun(x, cs, a)
    ensures ScopesGrown(IntendedRun(x, cs), a)
    decreases |cs|
  {
    hide RightStep, Intended;
    if cs != [] {
      StepGrown(x, cs[0], a);
      RunGrown(Intended(x, cs[0]), cs[1..], a);
    }
  }

  /**
   After any run whose earlier returns were right at a, whatever they did to other addresses and with
   Prepare anywhere, leaving a scope gives a its entry back if and only if what joined there has a
   record: that is, if Prepare listed nothing new of a in the scope that was not undone in between.
   */
  lemma IntendedUndoExactness(cs: seq<AccessStep>, level: nat, a: Address)
    requires RightRun(NO_SCOPES, cs, a) && level < |IntendedRun(NO_SCOPES, cs).marks|
    ensures var x := IntendedRun(NO_SCOPES, cs);
      EntryOf(Intended(x, GoBack(level)).list, a) == EntryOf(x.saved[level], a) <==> RightAt(x, level, a)
  {
    var x := IntendedRun(NO_SCOPES, cs);
    RunGrown(NO_SCOPES, cs, a);
    GrownExactness(x.list, x.saved[level], x.records[x.marks[level]..], a);
  }

  /******* Scopes that no Prepare interrupts *******/

  /** From scope base on, what joined at a has a record. */
  ghost predicate RecordedFrom(x: Scopes, base: nat, a: Address) {
    && x.WellMarked()
    && (forall i :: base <= i < |x.marks| ==> AllRecorded(x.list, x.saved[i], x.records[x.marks[i]..], a))
    && (forall i, j :: base <= i < j < |x.marks| ==>
         AllRecorded(x.saved[j], x.saved[i], x.records[x.marks[i]..x.marks[j]], a))
  }

  /** The number of scopes that were open at the last Prepare. */
  function Base(x: Scopes, base: nat, c: AccessStep): nat {
    if c.Prepare? then |x.marks| else base
  }

  /** No scope that spans a Prepare is left. */
  ghost predicate InsideRun(x: Scopes, base: nat, cs: seq<AccessStep>)
    requires x.WellMarked()
    decreases |cs|
  {
    cs != [] ==>
      && (cs[0].GoBack? && cs[0].level < |x.marks| ==> cs[0].level >= base)
      && InsideRun(Intended(x, cs[0]), Base(x, base, cs[0]), cs[1..])
  }

  lemma AddRecorded(x: Scopes, c: AccessStep, was: AccessMap, js: seq<Entry>, a: Address)
    requires x.WellMarked() && (c.AddAddress? || c.AddSlot?)
    requires Grown(x.list, was, js, a) && AllRecorded(x.list, was, js, a)
    ensures var r := Intended(x, c); AllRecorded(r.list, was, js + r.records[|x.records|..], a)
  {
    var r := Intended(x, c);
    var ks := r.records[|x.records|..];
    if a in r.list && a !in x.list {
      assert ks[0] == AccessAddressChange(a);
    }
    if a in was && a in r.list {
      forall s | s in r.list[a] && s !in was[a] ensures AccessSlotChange(a, s) in js + ks {
        if s !in x.list[a] {
          assert ks[0] == AccessSlotChange(a, s);
        }
      }
    }
  }

  lemma ListingRecorded(x: Scopes, c: AccessStep, base: nat, a: Address)
    requires ScopesGrown(x, a) && RecordedFrom(x, base, a) && (c.AddAddress? || c.AddSlot?)
    ensures RecordedFrom(Intended(x, c), base, a)
  {
    var r := Intended(x, c);
    StepGrows(x, c, a);
    var js := r.records[|x.records|..];
    hide Grown, AllRecorded;
    forall i | base <= i < |r.marks| ensures AllRecorded(r.list, r.saved[i], r.records[r.marks[i]..], a) {
      assert r.records[r.marks[i]..] == x.records[x.marks[i]..] + js;
      AddRecorded(x, c, x.saved[i], x.records[x.marks[i]..], a);
    }
    forall i, j | base <= i < j < |r.marks|
      ensures AllRecorded(r.saved[j], r.saved[i], r.records[r.marks[i]..r.marks[j]], a)
    {
      assert r.records[r.marks[i]..r.marks[j]] == x.records[x.marks[i]..x.marks[j]];
    }
  }

  lemma NothingRecorded(m: AccessMap, a: Address)
    ensures AllRecorded(m, m, [], a)
  {
  }

  lemma RecordedSame(now: AccessMap, mid: AccessMap, was: AccessMap, js: seq<Entry>, a: Address)
    requires AllRecorded(mid, was, js, a) && EntryOf(now, a) == EntryOf(mid, a)
    ensures AllRecorded(now, was, js, a)
  {
  }

  lemma MarkRecorded(x: Scopes, base: nat, a: Address)
    requires RecordedFrom(x, base, a)
    ensures RecordedFrom(Intended(x, Mark), base, a)
  {
    var r, n := Intended(x, Mark), |x.marks|;
    NothingRecorded(x.list, a);
    hide AllRecorded;
    assert r.records[|r.records|..] == [];
    forall i, j | base <= i < j < |r.marks|
      ensures AllRecorded(r.saved[j], r.saved[i], r.records[r.marks[i]..r.marks[j]], a)
    {
      if j == n {
        assert r.records[r.marks[i]..r.marks[j]] == x.records[x.marks[i]..];
      }
    }
  }

  lemma GoBackRecorded(x: Scopes, c: AccessStep, base: nat, a: Address)
    requires ScopesGrown(x, a) && RecordedFrom(x, base, a) && c.GoBack? && c.level < |x.marks| && c.level >= base
    ensures RightStep(x, c, a) && RecordedFrom(Intended(x, c), base, a)
  {
    var r := Intended(x, c);
    assert RightStep(x, c, a);
    GoBackGrown(x, c, a);
    hide Grown, AllRecorded, EntryOf;
    forall i | base <= i < |r.marks| ensures AllRecorded(r.list, r.saved[i], r.records[r.marks[i]..], a) {
      assert r.records[r.marks[i]..] == x.records[x.marks[i]..x.marks[c.level]];
      RecordedSame(r.list, x.saved[c.level], x.saved[i], x.records[x.marks[i]..x.marks[c.level]], a);
    }
    forall i, j | base <= i < j < |r.marks|
      ensures AllRecorded(r.saved[j], r.saved[i], r.records[r.marks[i]..r.marks[j]], a)
    {
      assert r.records[r.marks[i]..r.marks[j]] == x.records[x.marks[i]..x.marks[j]];
    }
  }

  lemma StepRecorded(x: Scopes, c: AccessStep, base: nat, a: Address)
    requires ScopesGrown(x, a) && RecordedFrom(x, base, a) && (c.GoBack? && c.level < |x.marks| ==> c.level >= base)
    ensures RightStep(x, c, a) && RecordedFrom(Intended(x, c), Base(x, base, c), a)
  {
    if c.AddAddress? || c.AddSlot? {
      ListingRecorded(x, c, base, a);
    } else if c.Mark? {
      MarkRecorded(x, base, a);
    } else if c.GoBack? && c.level < |x.marks| {
      GoBackRecorded(x, c, base, a);
    }
  }

  lemma {:induction false} InsideIsRight(x: Scopes, base: nat, cs: seq<AccessStep>, a: Address)
    requires ScopesGrown(x, a) && RecordedFrom(x, base, a) && InsideRun(x, base, cs)
    ensures RightRun(x, cs, a)
    decreases |cs|
  {
    hide RecordedFrom, RightStep, Intended;
    if cs != [] {
      StepRecorded(x, cs[0], base, a);
      StepGrown(x, cs[0], a);
      InsideIsRight(Intended(x, cs[0]), Base(x, base, cs[0]), cs[1..], a);
    }
  }

  lemma {:induction false} RightToTheEnd(x: Scopes, cs: seq<AccessStep>, c: AccessStep, a: Address)
    requires x.WellMarked() && RightRun(x, cs + [c], a)
    ensures RightRun(x, cs, a) && RightStep(IntendedRun(x, cs), c, a)
    decreases |cs|
  {
    hide RightStep, Intended;
    if cs == [] {
      assert cs + [c] == [c];
    } else {
      assert (cs + [c])[1..] == cs[1..] + [c];
      RightToTheEnd(Intended(x, cs[0]), cs[1..], c, a);
    }
  }

  /**
   With the intended records, leaving any scope of any nesting restores exactly the list it began
   with, as long as no scope that spans a Prepare is left.
   */
  lemma IntendedAccessUndo(cs: seq<AccessStep>, level: nat)
    requires InsideRun(NO_SCOPES, 0, cs + [GoBack(level)]) && level < |IntendedRun(NO_SCOPES, cs).marks|
    ensures var x := IntendedRun(NO_SCOPES, cs); Intended(x, GoBack(level)).list == x.saved[level]
  {
    var x := IntendedRun(NO_SCOPES, cs);
    hide IntendedRun, Intended, InsideRun, RightRun, EntryOf;
    forall a ensures EntryOf(Intended(x, GoBack(level)).list, a) == EntryOf(x.saved[level], a) {
      NoScopesReady(a);
      InsideIsRight(NO_SCOPES, 0, cs + [GoBack(level)], a);
      RightToTheEnd(NO_SCOPES, cs, GoBack(level), a);
      IntendedUndoExactness(cs, level, a);
    }
    SameEntriesSameMap(Intended(x, GoBack(level)).list, x.saved[level]);
  }

  lemma NoScopesReady(a: Address)
    ensures ScopesGrown(NO_SCOPES, a) && RecordedFrom(NO_SCOPES, 0, a)
  {
  }

  /** Prepare between scopes, with none open, interrupts none. */
  ghost predicate PreparesBetween(x: Scopes, cs: seq<AccessStep>)
    requires x.WellMarked()
    decreases |cs|
  {
    cs != [] ==> (cs[0].Prepare? ==> x.marks == []) && PreparesBetween(Intended(x, cs[0]), cs[1..])
  }

  lemma {:induction false} BetweenIsInside(x: Scopes, cs: seq<AccessStep>)
    requires x.WellMarked() && PreparesBetween(x, cs)
    ensures InsideRun(x, 0, cs)
    decreases |cs|
  {
    hide Intended;
    if cs != [] {
      BetweenIsInside(Intended(x, cs[0]), cs[1..]);
    }
  }
}
