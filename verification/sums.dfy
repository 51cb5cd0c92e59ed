/** Sums over finite sets, for the accounting results. */
module Sums {
  ghost function SumOver<T(!new)>(s: set<T>, f: T -> int): int
    decreases |s|
  {
    if s == {} then 0
    else var x :| x in s; f(x) + SumOver(s - {x}, f)
  }

  lemma {:induction false} SumTake<T(!new)>(s: set<T>, f: T -> int, x: T)
    requires x in s
    ensures SumOver(s, f) == f(x) + SumOver(s - {x}, f)
    decreases |s|
  {
    var y :| y in s && SumOver(s, f) == f(y) + SumOver(s - {y}, f);
    if x != y {
      SumTake(s - {y}, f, x);
      SumTake(s - {x}, f, y);
      assert s - {y} - {x} == s - {x} - {y};
    }
  }

  lemma {:induction false} SumSame<T(!new)>(s: set<T>, f: T -> int, g: T -> int)
    requires forall x :: x in s ==> f(x) == g(x)
    ensures SumOver(s, f) == SumOver(s, g)
    decreases |s|
  {
    if s != {} {
      var x :| x in s;
      SumTake(s, f, x);
      SumTake(s, g, x);
      SumSame(s - {x}, f, g);
    }
  }

  /** Changing the summand at one element changes the sum by as much. */
  lemma SumBump<T(!new)>(s: set<T>, f: T -> int, g: T -> int, x: T)
    requires x in s && forall y :: y in s && y != x ==> f(y) == g(y)
    ensures SumOver(s, g) == SumOver(s, f) + g(x) - f(x)
  {
    SumTake(s, f, x);
    SumTake(s, g, x);
    SumSame(s - {x}, f, g);
  }

  lemma {:induction false} SumZero<T(!new)>(s: set<T>, f: T -> int)
    requires forall x :: x in s ==> f(x) == 0
    ensures SumOver(s, f) == 0
    decreases |s|
  {
    if s != {} {
      var x :| x in s;
      SumTake(s, f, x);
      SumZero(s - {x}, f);
    }
  }

  /** Elements that add nothing do not count. */
  lemma {:induction false} SumMore<T(!new)>(s: set<T>, t: set<T>, f: T -> int)
    requires s <= t && forall x :: x in t && x !in s ==> f(x) == 0
    ensures SumOver(s, f) == SumOver(t, f)
    decreases |t|
  {
    if s == t {
    } else {
      var x :| x in t && x !in s;
      SumTake(t, f, x);
      SumMore(s, t - {x}, f);
    }
  }
}
