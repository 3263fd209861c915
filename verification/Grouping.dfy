/** Grouping rows by a key, groups in the order their first rows come. */
module Grouping {
  import opened Prelude
  import opened Sorting

  datatype Group<T> = Group(key: string, rows: seq<T>)

  /** The keys present, first come first. */
  function KeysOf<T>(key: T -> string, rows: seq<T>): seq<string> {
    Dedupe(Map(key, rows))
  }

  lemma {:induction false} KeysCover<T>(key: T -> string, rows: seq<T>)
    ensures NoRepeats(KeysOf(key, rows))
    ensures forall r | r in rows :: key(r) in KeysOf(key, rows)
  {
    var all := Map(key, rows);
    forall r | r in rows ensures key(r) in KeysOf(key, rows) {
      assert all[Position(rows, r)] == key(r);
      assert key(r) in Elements(Dedupe(all));
    }
  }

  lemma {:induction false} KeyHasRow<T>(key: T -> string, rows: seq<T>, k: string) returns (r: T)
    requires k in KeysOf(key, rows)
    ensures r in rows && key(r) == k
  {
    var all := Map(key, rows);
    assert k in Elements(all);
    r := rows[Position(all, k)];
  }

  function Is<T>(key: T -> string, k: string): T -> bool {
    r => key(r) == k
  }

  function IsNot<T>(key: T -> string, k: string): T -> bool {
    r => key(r) != k
  }

  /** The rows whose key is `k`, in order. */
  function Having<T>(key: T -> string, k: string, rows: seq<T>): seq<T> {
    Filter(Is(key, k), rows)
  }

  function GroupsOf<T>(key: T -> string, rows: seq<T>): (groups: seq<Group<T>>)
    ensures |groups| == |KeysOf(key, rows)|
  {
    Map(k => Group(k, Having(key, k, rows)), KeysOf(key, rows))
  }

  lemma {:induction false} HavingAppend<T>(key: T -> string, k: string, rows: seq<T>, r: T)
    ensures Having(key, k, rows + [r]) == if key(r) == k then Having(key, k, rows) + [r] else Having(key, k, rows)
  {
    FilterConcat(Is(key, k), rows, [r]);
    assert [r][1..] == [];
  }

  lemma {:induction false} KeysAppend<T>(key: T -> string, rows: seq<T>, r: T)
    ensures KeysOf(key, rows + [r])
         == if key(r) in KeysOf(key, rows) then KeysOf(key, rows) else KeysOf(key, rows) + [key(r)]
  {
    var all := Map(key, rows + [r]);
    assert all[..|all| - 1] == Map(key, rows);
  }

  lemma {:induction false} HavingNone<T>(key: T -> string, k: string, rows: seq<T>)
    requires k !in KeysOf(key, rows)
    ensures Having(key, k, rows) == []
  {
    KeysCover(key, rows);
    assert forall r | r in Having(key, k, rows) :: key(r) in KeysOf(key, rows);
    assert Elements(Having(key, k, rows)) == {};
    SomeElement(Having(key, k, rows));
  }

  /** An insertion-ordered map holding the groups of the rows seen so far. */
  ghost predicate Buckets<T>(key: T -> string, seen: seq<T>, order: seq<string>, buckets: map<string, seq<T>>) {
    && order == KeysOf(key, seen)
    && (forall k :: k in buckets <==> k in order)
    && (forall k | k in buckets :: buckets[k] == Having(key, k, seen))
  }

  /** The map's entries in insertion order. */
  function Entries<T>(order: seq<string>, buckets: map<string, seq<T>>): seq<Group<T>>
    requires forall i | 0 <= i < |order| :: order[i] in buckets
  {
    seq(|order|, i requires 0 <= i < |order| => Group(order[i], buckets[order[i]]))
  }

  lemma {:induction false} EntriesAreGroups<T>(
    key: T -> string, rows: seq<T>, order: seq<string>, buckets: map<string, seq<T>>)
    requires Buckets(key, rows, order, buckets)
    ensures forall i | 0 <= i < |order| :: order[i] in buckets
    ensures Entries(order, buckets) == GroupsOf(key, rows)
  {
    forall i | 0 <= i < |order| ensures order[i] in buckets {
      assert order[i] in order;
    }
  }

  method AddRow<T>(key: T -> string, ghost seen: seq<T>, order: seq<string>, buckets: map<string, seq<T>>, r: T)
    returns (order': seq<string>, buckets': map<string, seq<T>>)
    requires Buckets(key, seen, order, buckets)
    ensures Buckets(key, seen + [r], order', buckets')
  {
    var k := key(r);
    KeysAppend(key, seen, r);
    forall other ensures Having(key, other, seen + [r])
                      == if k == other then Having(key, other, seen) + [r] else Having(key, other, seen) {
      HavingAppend(key, other, seen, r);
    }
    if k in buckets {
      order', buckets' := order, buckets[k := buckets[k] + [r]];
    } else {
      HavingNone(key, k, seen);
      order', buckets' := order + [k], buckets[k := [r]];
    }
  }

  /** One pass over the rows with an insertion-ordered map of buckets. */
  method GroupBy<T>(rows: seq<T>, key: T -> string) returns (groups: seq<Group<T>>)
    ensures groups == GroupsOf(key, rows)
  {
    var order: seq<string>, buckets: map<string, seq<T>> := [], map[];
    for i := 0 to |rows|
      invariant Buckets(key, rows[..i], order, buckets)
    {
      assert rows[..i + 1] == rows[..i] + [rows[i]];
      order, buckets := AddRow(key, rows[..i], order, buckets, rows[i]);
    }
    assert rows[..|rows|] == rows;
    EntriesAreGroups(key, rows, order, buckets);
    groups := Entries(order, buckets);
  }

  // ---- Splitting a sum over groups ---------------------------------------------------------

  function Sum<T>(weight: T -> int, rows: seq<T>): int {
    if rows == [] then 0 else weight(rows[0]) + Sum(weight, rows[1..])
  }

  lemma {:induction false} SumConcat<T>(weight: T -> int, a: seq<T>, b: seq<T>)
    ensures Sum(weight, a + b) == Sum(weight, a) + Sum(weight, b)
  {
    if a == [] {
      assert a + b == b;
    } else {
      assert (a + b)[1..] == a[1..] + b;
      SumConcat(weight, a[1..], b);
    }
  }

  lemma {:induction false} SumSplit<T>(weight: T -> int, key: T -> string, k: string, rows: seq<T>)
    ensures Sum(weight, rows) == Sum(weight, Having(key, k, rows)) + Sum(weight, Filter(IsNot(key, k), rows))
  {
    if rows != [] {
      SumSplit(weight, key, k, rows[1..]);
      var kept, rest := Having(key, k, rows[1..]), Filter(IsNot(key, k), rows[1..]);
      assert ([rows[0]] + kept)[1..] == kept && ([rows[0]] + rest)[1..] == rest;
    }
  }

  function After<T, U>(weight: U -> int, f: T -> U): T -> int {
    x => weight(f(x))
  }

  lemma {:induction false} SumMapped<T, U>(weight: U -> int, f: T -> U, s: seq<T>)
    ensures Sum(weight, Map(f, s)) == Sum(After(weight, f), s)
  {
    if s != [] {
      SumMapped(weight, f, s[1..]);
      assert Map(f, s)[1..] == Map(f, s[1..]);
    }
  }

  lemma {:induction false} SumCongruence<T>(v: T -> int, w: T -> int, s: seq<T>)
    requires forall x | x in s :: v(x) == w(x)
    ensures Sum(v, s) == Sum(w, s)
  {
    if s != [] {
      SumCongruence(v, w, s[1..]);
    }
  }

  /** What the rows under one key weigh. */
  function WeightOf<T>(weight: T -> int, key: T -> string, rows: seq<T>): string -> int {
    k => Sum(weight, Having(key, k, rows))
  }

  /** Weighing the rows group by group weighs them all, however the groups are listed. */
  lemma {:induction false} GroupsConserve<T>(weight: T -> int, key: T -> string, keys: seq<string>, rows: seq<T>)
    requires NoRepeats(keys) && forall r | r in rows :: key(r) in keys
    ensures Sum(WeightOf(weight, key, rows), keys) == Sum(weight, rows)
  {
    if keys == [] {
      SomeElement(rows);
    } else {
      var k0, rest := keys[0], Filter(IsNot(key, keys[0]), rows);
      forall r | r in rest ensures key(r) in keys[1..] {
        assert key(r) in keys && keys == [k0] + keys[1..];
      }
      GroupsConserve(weight, key, keys[1..], rest);
      forall k | k in keys[1..] ensures Having(key, k, rest) == Having(key, k, rows) {
        assert k != k0;
        FilterTwice(IsNot(key, k0), Is(key, k), rows);
      }
      SumCongruence(WeightOf(weight, key, rest), WeightOf(weight, key, rows), keys[1..]);
      SumSplit(weight, key, k0, rows);
    }
  }

  lemma {:induction false} SumInserted<T>(weight: T -> int, before: (T, T) -> bool, x: T, s: seq<T>)
    ensures Sum(weight, Insert(before, x, s)) == weight(x) + Sum(weight, s)
  {
    if s == [] || !before(s[0], x) {
      assert ([x] + s)[1..] == s;
    } else {
      SumInserted(weight, before, x, s[1..]);
      var rest := Insert(before, x, s[1..]);
      assert ([s[0]] + rest)[1..] == rest;
    }
  }

  lemma {:induction false} SumSorted<T>(weight: T -> int, before: (T, T) -> bool, s: seq<T>)
    ensures Sum(weight, SortBy(before, s)) == Sum(weight, s)
  {
    if s != [] {
      SumSorted(weight, before, s[1..]);
      SumInserted(weight, before, s[0], SortBy(before, s[1..]));
    }
  }
}
