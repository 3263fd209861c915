/**
 * Sequence and option vocabulary shared by the models: filtering and mapping, first
 * positions, collapsing repeats onto their first occurrence, and the order the two
 * languages both put on identifiers. Nothing here is particular to one part of the
 * repository; what is stated of each function is what the models lean on.
 */
module Prelude {

  datatype Option<+T> = None | Some(value: T)

  datatype Result<+T, +E> = Ok(value: T) | Err(error: E)

  function Elements<T>(s: seq<T>): set<T> {
    set x | x in s
  }

  lemma {:induction false} SomeElement<T>(s: seq<T>)
    ensures s != [] <==> Elements(s) != {}
  {
    if s != [] {
      assert s[0] in Elements(s);
    }
  }

  ghost predicate NoRepeats<T>(s: seq<T>) {
    forall i, j | 0 <= i < j < |s| :: s[i] != s[j]
  }

  /** The elements of `s` satisfying `keep`, in order. */
  function Filter<T>(keep: T -> bool, s: seq<T>): (r: seq<T>)
    ensures forall x | x in r :: x in s && keep(x)
    ensures forall x | x in s && keep(x) :: x in r
    ensures |r| <= |s|
  {
    if s == [] then []
    else if keep(s[0]) then [s[0]] + Filter(keep, s[1..])
    else Filter(keep, s[1..])
  }

  function Map<T, U>(f: T -> U, s: seq<T>): (r: seq<U>)
    ensures |r| == |s|
    ensures forall i | 0 <= i < |s| :: r[i] == f(s[i])
  {
    seq(|s|, i requires 0 <= i < |s| => f(s[i]))
  }

  /** The first index holding `x`. */
  function Position<T(==)>(s: seq<T>, x: T): (i: nat)
    requires x in s
    ensures i < |s| && s[i] == x
    ensures forall k | 0 <= k < i :: s[k] != x
  {
    if s[0] == x then 0 else 1 + Position(s[1..], x)
  }

  /** `s` with repeats collapsed onto their first occurrence. */
  function Dedupe<T(==)>(s: seq<T>): (r: seq<T>)
    ensures Elements(r) == Elements(s)
    ensures NoRepeats(r)
  {
    if s == [] then []
    else
      var before := Dedupe(s[..|s| - 1]);
      var last := s[|s| - 1];
      assert s == s[..|s| - 1] + [last];
      assert Elements(s) == Elements(s[..|s| - 1]) + {last};
      assert last in before <==> last in Elements(before);
      if last in before then before
      else
        assert Elements(before + [last]) == Elements(before) + {last};
        before + [last]
  }

  lemma {:induction false} InConcat<T>(x: T, a: seq<T>, b: seq<T>)
    ensures x in a + b <==> x in a || x in b
  {
  }

  lemma {:induction false} PositionAppend<T>(s: seq<T>, last: T, x: T)
    requires x in s
    ensures Position(s + [last], x) == Position(s, x)
  {
    if s[0] != x {
      assert (s + [last])[1..] == s[1..] + [last];
      PositionAppend(s[1..], last, x);
    }
  }

  lemma {:induction false} PositionOfNew<T>(s: seq<T>, x: T)
    requires x !in s
    ensures Position(s + [x], x) == |s|
  {
    if s != [] {
      assert (s + [x])[1..] == s[1..] + [x];
      PositionOfNew(s[1..], x);
    }
  }

  /** Collapsing repeats keeps what is left in the order it was first met. */
  lemma {:induction false} DedupeKeepsFirst<T>(s: seq<T>)
    ensures forall x :: x in Dedupe(s) <==> x in s
    ensures Ascending(FirstPlace(s), Dedupe(s))
  {
    SameMembers(Dedupe(s), s);
    if s != [] {
      var init, last := s[..|s| - 1], s[|s| - 1];
      assert s == init + [last];
      DedupeKeepsFirst(init);
      var before := Dedupe(init);
      forall i | 0 <= i < |before| ensures FirstPlace(s)(before[i]) == FirstPlace(init)(before[i]) < |init| {
        assert before[i] in Elements(before) && before[i] in Elements(init);
        PositionAppend(init, last, before[i]);
      }
      assert last in Dedupe(init) <==> last in init;
      if last !in Dedupe(init) {
        PositionOfNew(init, last);
      }
    }
  }

  /** Where an element is first met. */
  function FirstPlace<T(==)>(s: seq<T>): T -> int {
    x => if x in s then Position(s, x) else |s|
  }

  lemma {:induction false} SameMembers<T>(a: seq<T>, b: seq<T>)
    requires Elements(a) == Elements(b)
    ensures forall x :: x in a <==> x in b
  {
    forall x ensures x in a <==> x in b {
      assert x in a <==> x in Elements(a);
      assert x in b <==> x in Elements(b);
    }
  }

  /** Of two kept elements the one met first in `s` is met first among the kept. */
  lemma {:induction false} FilterKeepsOrder<T>(keep: T -> bool, s: seq<T>, x: T, y: T)
    requires x in s && y in s && keep(x) && keep(y)
    ensures Position(Filter(keep, s), x) < Position(Filter(keep, s), y) <==> Position(s, x) < Position(s, y)
  {
    assert s == [s[0]] + s[1..];
    if s[0] != x && s[0] != y {
      FilterKeepsOrder(keep, s[1..], x, y);
    }
  }

  lemma {:induction false} ConcatAssociates<T>(a: seq<T>, b: seq<T>, c: seq<T>)
    ensures (a + b) + c == a + (b + c)
  {
  }

  lemma {:induction false} FilterConcat<T>(keep: T -> bool, s: seq<T>, t: seq<T>)
    ensures Filter(keep, s + t) == Filter(keep, s) + Filter(keep, t)
  {
    if s == [] {
      assert s + t == t;
    } else {
      var rest := Filter(keep, s[1..]);
      assert (s + t)[1..] == s[1..] + t;
      assert Filter(keep, (s + t)[1..]) == rest + Filter(keep, t) by {
        FilterConcat(keep, s[1..], t);
      }
      if keep(s[0]) {
        assert ([s[0]] + rest) + Filter(keep, t) == [s[0]] + (rest + Filter(keep, t));
      }
    }
  }

  lemma {:induction false} FilterCongruence<T>(p: T -> bool, q: T -> bool, s: seq<T>)
    requires forall x | x in s :: p(x) == q(x)
    ensures Filter(p, s) == Filter(q, s)
  {
    if s != [] {
      FilterCongruence(p, q, s[1..]);
    }
  }

  lemma {:induction false} FilterTwice<T>(p: T -> bool, q: T -> bool, s: seq<T>)
    requires forall x | x in s && q(x) :: p(x)
    ensures Filter(q, Filter(p, s)) == Filter(q, s)
  {
    if s != [] {
      FilterTwice(p, q, s[1..]);
      if p(s[0]) {
        assert ([s[0]] + Filter(p, s[1..]))[1..] == Filter(p, s[1..]);
      }
    }
  }

  ghost predicate Pairwise<T(!new), U(!new)>(rel: (T, U) -> bool, s: seq<T>, t: seq<U>) {
    |s| == |t| && forall i | 0 <= i < |s| :: rel(s[i], t[i])
  }

  /** Filters that agree on related elements keep related sequences related. */
  lemma {:induction false} FilterPairwise<T(!new), U(!new)>(
    rel: (T, U) -> bool, p: T -> bool, q: U -> bool, s: seq<T>, t: seq<U>)
    requires Pairwise(rel, s, t)
    requires forall i | 0 <= i < |s| :: p(s[i]) == q(t[i])
    ensures Pairwise(rel, Filter(p, s), Filter(q, t))
  {
    if s != [] {
      FilterPairwise(rel, p, q, s[1..], t[1..]);
      assert p(s[0]) == q(t[0]) && rel(s[0], t[0]);
      PairwiseCons(rel, s[0], t[0], Filter(p, s[1..]), Filter(q, t[1..]));
    }
  }

  lemma {:induction false} PairwiseCons<T(!new), U(!new)>(rel: (T, U) -> bool, x: T, y: U, s: seq<T>, t: seq<U>)
    requires rel(x, y) && Pairwise(rel, s, t)
    ensures Pairwise(rel, [x] + s, [y] + t)
  {
  }

  lemma {:induction false} FilterNoRepeats<T>(keep: T -> bool, s: seq<T>)
    requires NoRepeats(s)
    ensures NoRepeats(Filter(keep, s))
  {
    if s != [] {
      assert forall i, j | 0 <= i < j < |s[1..]| :: s[1..][i] == s[i + 1] && s[1..][j] == s[j + 1];
      FilterNoRepeats(keep, s[1..]);
      assert s[0] !in s[1..];
    }
  }

  /** `listed` is what `all` holds at the ascending positions `at`. */
  ghost predicate ListsAt<T>(listed: seq<T>, all: seq<T>, start: nat, at: seq<nat>) {
    && |at| == |listed|
    && (forall i, j | 0 <= i < j < |at| :: at[i] < at[j])
    && (forall i | 0 <= i < |at| :: start <= at[i] < |all| && all[at[i]] == listed[i])
  }

  ghost predicate AreAll<T>(all: seq<T>, keep: T -> bool, start: nat, at: seq<nat>) {
    forall j | start <= j < |all| :: keep(all[j]) <==> j in at
  }

  lemma {:induction false} ListsOneMore<T>(listed: seq<T>, all: seq<T>, keep: T -> bool, start: nat, at: seq<nat>)
    requires start < |all| && keep(all[start])
    requires ListsAt(listed, all, start + 1, at) && AreAll(all, keep, start + 1, at)
    ensures ListsAt([all[start]] + listed, all, start, [start] + at) && AreAll(all, keep, start, [start] + at)
  {
    forall j | start <= j < |all| ensures keep(all[j]) <==> j in [start] + at {
      InConcat(j, [start], at);
    }
  }

  /** A filter lists exactly the kept elements, each at its place. */
  lemma {:induction false} FilterLists<T>(keep: T -> bool, all: seq<T>, start: nat) returns (at: seq<nat>)
    requires start <= |all|
    ensures ListsAt(Filter(keep, all[start..]), all, start, at) && AreAll(all, keep, start, at)
    decreases |all| - start
  {
    at := [];
    if start < |all| {
      at := FilterLists(keep, all, start + 1);
      assert all[start..][1..] == all[start + 1..];
      if keep(all[start]) {
        ListsOneMore(Filter(keep, all[start + 1..]), all, keep, start, at);
        at := [start] + at;
      } else {
        assert start !in at;
      }
    }
  }

  /** The first kept element is the first element of `s` that is kept. */
  lemma {:induction false} FilterHead<T>(keep: T -> bool, s: seq<T>)
    requires Filter(keep, s) != []
    ensures var h := Filter(keep, s)[0];
            h in s && keep(h) && forall k | 0 <= k < Position(s, h) :: !keep(s[k])
  {
    var h := Filter(keep, s)[0];
    assert h in Filter(keep, s);
    if !keep(s[0]) {
      FilterHead(keep, s[1..]);
      forall k | 0 <= k < Position(s, h) ensures !keep(s[k]) {
        if k > 0 {
          assert s[k] == s[1..][k - 1];
        }
      }
    }
  }

  lemma {:induction false} FilterStartsAt<T>(keep: T -> bool, s: seq<T>, i: nat)
    requires i < |s| && keep(s[i]) && forall k | 0 <= k < i :: !keep(s[k])
    ensures Filter(keep, s) != [] && Filter(keep, s)[0] == s[i]
  {
    if i > 0 {
      assert !keep(s[0]);
      assert forall k | 0 <= k < i - 1 :: s[1..][k] == s[k + 1];
      FilterStartsAt(keep, s[1..], i - 1);
    }
  }

  lemma {:induction false} DedupeOfDistinct<T>(s: seq<T>)
    requires NoRepeats(s)
    ensures Dedupe(s) == s
  {
    if s != [] {
      DedupeOfDistinct(s[..|s| - 1]);
      assert s == s[..|s| - 1] + [s[|s| - 1]];
    }
  }

  lemma {:induction false} DistinctSize<T>(s: seq<T>)
    requires NoRepeats(s)
    ensures |Elements(s)| == |s|
  {
    if s != [] {
      var init, last := s[..|s| - 1], s[|s| - 1];
      DistinctSize(init);
      assert Elements(s) == Elements(init) + {last};
      assert last !in init;
    }
  }

  ghost predicate Ascending<T>(key: T -> int, s: seq<T>) {
    forall i, j | 0 <= i < j < |s| :: key(s[i]) < key(s[j])
  }

  /** Strictly ascending sequences with the same elements are the same sequence. */
  lemma {:induction false} AscendingIsUnique<T>(key: T -> int, a: seq<T>, b: seq<T>)
    requires Ascending(key, a) && Ascending(key, b)
    requires Elements(a) == Elements(b)
    ensures a == b
  {
    if a == [] {
      assert forall i | 0 <= i < |b| :: b[i] in Elements(b);
    } else {
      assert a[0] in Elements(b);
      LastsAgree(key, a, b);
      AscendingInit(key, a);
      AscendingInit(key, b);
      AscendingIsUnique(key, a[..|a| - 1], b[..|b| - 1]);
      assert a == a[..|a| - 1] + [a[|a| - 1]] && b == b[..|b| - 1] + [b[|b| - 1]];
    }
  }

  lemma {:induction false} LastsAgree<T>(key: T -> int, a: seq<T>, b: seq<T>)
    requires Ascending(key, a) && Ascending(key, b) && Elements(a) == Elements(b) && a != [] && b != []
    ensures a[|a| - 1] == b[|b| - 1]
  {
    var x, y := a[|a| - 1], b[|b| - 1];
    assert x in Elements(b) && y in Elements(a);
    LastIsLargest(key, a, y);
    LastIsLargest(key, b, x);
  }

  lemma {:induction false} LastIsLargest<T>(key: T -> int, s: seq<T>, x: T)
    requires Ascending(key, s) && x in s
    ensures x == s[|s| - 1] || key(x) < key(s[|s| - 1])
  {
  }

  lemma {:induction false} AscendingInit<T>(key: T -> int, s: seq<T>)
    requires Ascending(key, s) && s != []
    ensures Ascending(key, s[..|s| - 1])
    ensures Elements(s[..|s| - 1]) == Elements(s) - {s[|s| - 1]}
  {
    var init, last := s[..|s| - 1], s[|s| - 1];
    assert s == init + [last];
    assert last !in init;
  }

  /** Code-point order on identifiers: the `<` both languages apply to them. */
  predicate Less(a: string, b: string) {
    b != "" && (a == "" || a[0] < b[0] || (a[0] == b[0] && Less(a[1..], b[1..])))
  }

  lemma {:induction false} LessIrreflexive(a: string)
    ensures !Less(a, a)
  {
    if a != "" {
      LessIrreflexive(a[1..]);
    }
  }

  lemma {:induction false} LessTransitive(a: string, b: string, c: string)
    requires Less(a, b) && Less(b, c)
    ensures Less(a, c)
  {
    if a != "" && a[0] == b[0] == c[0] {
      LessTransitive(a[1..], b[1..], c[1..]);
    }
  }

  lemma {:induction false} LessTotal(a: string, b: string)
    ensures Less(a, b) || a == b || Less(b, a)
  {
    if a != "" && b != "" && a[0] == b[0] {
      LessTotal(a[1..], b[1..]);
      assert a == [a[0]] + a[1..] && b == [b[0]] + b[1..];
    }
  }

  lemma {:induction false} LessAsymmetric(a: string, b: string)
    requires Less(a, b)
    ensures !Less(b, a)
  {
    if Less(b, a) {
      LessTransitive(a, b, a);
      LessIrreflexive(a);
    }
  }
}
