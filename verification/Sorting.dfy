/**
 * The stable sort every list in the models is ordered by. The source sorts with the
 * stable sorts of its two languages, so what matters is stated of any comparator that
 * is a strict weak order: the result is sorted, holds the same elements, keeps ties in
 * their order, and is the only arrangement that does.
 */
module Sorting {
  import opened Prelude

  /** A strict weak order, the contract of every comparator the source passes. */
  ghost predicate StrictWeakOrder<T(!new)>(before: (T, T) -> bool) {
    && (forall x, y | before(x, y) :: !before(y, x))
    && (forall x, y, z | before(x, z) :: before(x, y) || before(y, z))
  }

  function Insert<T>(before: (T, T) -> bool, x: T, s: seq<T>): (r: seq<T>)
    ensures multiset(r) == multiset{x} + multiset(s)
  {
    if s == [] || !before(s[0], x) then [x] + s
    else
      assert s == [s[0]] + s[1..];
      [s[0]] + Insert(before, x, s[1..])
  }

  /** `s` sorted by `before`, elements it does not separate kept in their order. */
  function SortBy<T>(before: (T, T) -> bool, s: seq<T>): (r: seq<T>)
    ensures multiset(r) == multiset(s)
    ensures |r| == |s|
  {
    if s == [] then []
    else
      var rest := SortBy(before, s[1..]);
      var r := Insert(before, s[0], rest);
      assert s == [s[0]] + s[1..];
      assert |r| == |multiset(r)| && |s| == |multiset(s)|;
      r
  }

  ghost predicate Sorted<T>(before: (T, T) -> bool, s: seq<T>) {
    forall i, j | 0 <= i < j < |s| :: !before(s[j], s[i])
  }

  lemma {:induction false} SortedElements<T>(before: (T, T) -> bool, s: seq<T>)
    ensures Elements(SortBy(before, s)) == Elements(s)
  {
    var r := SortBy(before, s);
    assert forall x :: x in r <==> x in multiset(r);
    assert forall x :: x in s <==> x in multiset(s);
  }

  lemma {:induction false} InsertSorts<T(!new)>(before: (T, T) -> bool, x: T, s: seq<T>)
    requires StrictWeakOrder(before) && Sorted(before, s)
    ensures Sorted(before, Insert(before, x, s))
  {
    if s != [] && before(s[0], x) {
      InsertSorts(before, x, s[1..]);
      var rest := Insert(before, x, s[1..]);
      forall k | 0 <= k < |rest| ensures !before(rest[k], s[0]) {
        assert rest[k] in multiset(rest);
        assert rest[k] == x || rest[k] in s[1..];
      }
    } else if s != [] {
      forall k | 0 <= k < |s| ensures !before(s[k], x) {
        assert k == 0 || !before(s[k], s[0]);
      }
    }
  }

  lemma {:induction false} SortBySorts<T(!new)>(before: (T, T) -> bool, s: seq<T>)
    requires StrictWeakOrder(before)
    ensures Sorted(before, SortBy(before, s))
  {
    if s != [] {
      SortBySorts(before, s[1..]);
      InsertSorts(before, s[0], SortBy(before, s[1..]));
    }
  }

  // ---- Stability ----------------------------------------------------------------------

  /** The order a stable sort leaves: by `before`, ties by `earlier`. */
  predicate Precedes<T>(before: (T, T) -> bool, earlier: (T, T) -> bool, a: T, b: T) {
    before(a, b) || (!before(b, a) && earlier(a, b))
  }

  ghost predicate InOrder<T>(order: (T, T) -> bool, s: seq<T>) {
    forall i, j | 0 <= i < j < |s| :: order(s[i], s[j])
  }

  lemma {:induction false} InsertIsStable<T(!new)>(before: (T, T) -> bool, earlier: (T, T) -> bool, x: T, s: seq<T>)
    requires StrictWeakOrder(before)
    requires InOrder((a, b) => Precedes(before, earlier, a, b), s)
    requires forall y | y in s :: earlier(x, y)
    ensures InOrder((a, b) => Precedes(before, earlier, a, b), Insert(before, x, s))
  {
    if s != [] && before(s[0], x) {
      InsertIsStable(before, earlier, x, s[1..]);
      var rest := Insert(before, x, s[1..]);
      forall k | 0 <= k < |rest| ensures Precedes(before, earlier, s[0], rest[k]) {
        assert rest[k] in multiset(rest);
        assert rest[k] == x || rest[k] in s[1..];
      }
    } else {
      forall k | 0 <= k < |s| ensures Precedes(before, earlier, x, s[k]) {
        assert k == 0 || Precedes(before, earlier, s[0], s[k]);
      }
    }
  }

  /** Sorting a list that is in `earlier` order leaves ties in that order. */
  lemma {:induction false} SortIsStable<T(!new)>(before: (T, T) -> bool, earlier: (T, T) -> bool, s: seq<T>)
    requires StrictWeakOrder(before) && InOrder(earlier, s)
    ensures InOrder((a, b) => Precedes(before, earlier, a, b), SortBy(before, s))
  {
    if s != [] {
      SortIsStable(before, earlier, s[1..]);
      SortedElements(before, s[1..]);
      var rest := SortBy(before, s[1..]);
      forall y | y in rest ensures earlier(s[0], y) {
        assert y in Elements(rest);
        assert y in s[1..];
      }
      InsertIsStable(before, earlier, s[0], rest);
    }
  }

  /** An asymmetric order puts a set of elements in one sequence only. */
  lemma {:induction false} OrderIsUnique<T(!new)>(order: (T, T) -> bool, a: seq<T>, b: seq<T>)
    requires forall x, y | order(x, y) :: !order(y, x)
    requires InOrder(order, a) && InOrder(order, b) && Elements(a) == Elements(b)
    ensures a == b
  {
    if a == [] || b == [] {
      SomeElement(a);
      SomeElement(b);
    } else {
      assert a[0] in Elements(b) && b[0] in Elements(a);
      HeadIsFirst(order, a, b[0]);
      HeadIsFirst(order, b, a[0]);
      TailElements(order, a);
      TailElements(order, b);
      OrderIsUnique(order, a[1..], b[1..]);
      assert a == [a[0]] + a[1..] && b == [b[0]] + b[1..];
    }
  }

  lemma {:induction false} HeadIsFirst<T>(order: (T, T) -> bool, s: seq<T>, x: T)
    requires InOrder(order, s) && x in s
    ensures x == s[0] || order(s[0], x)
  {
  }

  lemma {:induction false} TailElements<T(!new)>(order: (T, T) -> bool, s: seq<T>)
    requires forall x, y | order(x, y) :: !order(y, x)
    requires InOrder(order, s) && s != []
    ensures Elements(s[1..]) == Elements(s) - {s[0]}
  {
    assert s == [s[0]] + s[1..];
    assert s[0] !in s[1..];
  }

  lemma {:induction false} SortOfSorted<T>(before: (T, T) -> bool, s: seq<T>)
    requires Sorted(before, s)
    ensures SortBy(before, s) == s
  {
    if s != [] {
      SortOfSorted(before, s[1..]);
    }
  }

  lemma {:induction false} MapCons<T, U>(f: T -> U, x: T, s: seq<T>)
    ensures Map(f, [x] + s) == [f(x)] + Map(f, s)
    ensures Map(f, [x] + s)[1..] == Map(f, s)
  {
    var all := Map(f, [x] + s);
    assert forall i | 0 <= i < |s| :: all[i + 1] == f(s[i]);
  }

  lemma {:induction false} InsertMapped<T, U>(
    before: (T, T) -> bool, after: (U, U) -> bool, f: T -> U, x: T, s: seq<T>)
    requires forall y | y in s :: before(y, x) == after(f(y), f(x))
    ensures Map(f, Insert(before, x, s)) == Insert(after, f(x), Map(f, s))
  {
    if s == [] {
      assert Map(f, [x]) == [f(x)];
    } else if before(s[0], x) {
      InsertMapped(before, after, f, x, s[1..]);
      assert s == [s[0]] + s[1..];
      MapCons(f, s[0], s[1..]);
      MapCons(f, s[0], Insert(before, x, s[1..]));
    } else {
      MapCons(f, x, s);
    }
  }

  /** Sorting does not see what the comparator does not. */
  lemma {:induction false} SortMapped<T, U>(before: (T, T) -> bool, after: (U, U) -> bool, f: T -> U, s: seq<T>)
    requires forall x, y | x in s && y in s :: before(x, y) == after(f(x), f(y))
    ensures Map(f, SortBy(before, s)) == SortBy(after, Map(f, s))
  {
    if s != [] {
      SortMapped(before, after, f, s[1..]);
      SortedElements(before, s[1..]);
      assert Map(f, s)[1..] == Map(f, s[1..]);
      forall y | y in SortBy(before, s[1..]) ensures before(y, s[0]) == after(f(y), f(s[0])) {
        assert y in Elements(s[1..]);
        assert y in s;
      }
      InsertMapped(before, after, f, s[0], SortBy(before, s[1..]));
    }
  }

  /** Of elements `before` does not separate, the new one comes first. */
  lemma {:induction false} FilterInserted<T>(before: (T, T) -> bool, tied: T -> bool, x: T, s: seq<T>)
    requires forall y | y in s && tied(x) && tied(y) :: !before(y, x)
    ensures Filter(tied, Insert(before, x, s)) == if tied(x) then [x] + Filter(tied, s) else Filter(tied, s)
  {
    if s == [] || !before(s[0], x) {
      assert ([x] + s)[1..] == s;
    } else {
      var rest := Insert(before, x, s[1..]);
      FilterInserted(before, tied, x, s[1..]);
      assert ([s[0]] + rest)[1..] == rest;
    }
  }

  /** Sorting keeps tied elements exactly as they were listed. */
  lemma {:induction false} SortKeepsTies<T>(before: (T, T) -> bool, tied: T -> bool, s: seq<T>)
    requires forall x, y | x in s && y in s && tied(x) && tied(y) :: !before(x, y)
    ensures Filter(tied, SortBy(before, s)) == Filter(tied, s)
  {
    if s != [] {
      SortKeepsTies(before, tied, s[1..]);
      SortedElements(before, s[1..]);
      forall y | y in SortBy(before, s[1..]) ensures y in s {
        assert y in Elements(s[1..]);
      }
      FilterInserted(before, tied, s[0], SortBy(before, s[1..]));
    }
  }

  lemma {:induction false} InsertNoRepeats<T>(before: (T, T) -> bool, x: T, s: seq<T>)
    requires NoRepeats(s) && x !in s
    ensures NoRepeats(Insert(before, x, s))
  {
    if s != [] && before(s[0], x) {
      InsertNoRepeats(before, x, s[1..]);
      var rest := Insert(before, x, s[1..]);
      forall k | 0 <= k < |rest| ensures rest[k] != s[0] {
        assert rest[k] in multiset(rest);
        assert rest[k] == x || rest[k] in s[1..];
      }
    }
  }

  lemma {:induction false} SortNoRepeats<T>(before: (T, T) -> bool, s: seq<T>)
    requires NoRepeats(s)
    ensures NoRepeats(SortBy(before, s))
  {
    if s != [] {
      SortNoRepeats(before, s[1..]);
      SortedElements(before, s[1..]);
      assert s[0] !in Elements(SortBy(before, s[1..]));
      InsertNoRepeats(before, s[0], SortBy(before, s[1..]));
    }
  }
}
