/** The waterfall: bars that chain from zero and close on the net of all rows. */
module Waterfall {
  import opened Prelude
  import opened Sorting
  import opened Grouping
  import opened Breakdown
  import opened Drill

  datatype Kind = Increase | Decrease | Total

  datatype Bar = Bar(key: string, dim: Dimension, delta: int, start: int, end: int, kind: Kind)

  const TOTAL_KEY := "__total__"

  function AscendingKeys(collate: (string, string) -> bool, rows: seq<Row>, dim: Dimension): seq<string> {
    SortBy(collate, KeysOf(KeyOf(dim), rows))
  }

  function NetUnder(rows: seq<Row>, dim: Dimension): string -> int {
    WeightOf(AmountOf(), KeyOf(dim), rows)
  }

  /** One bar a key, each starting where the last ended and as tall as its key's net. */
  ghost predicate IsChain(bars: seq<Bar>, dim: Dimension, keys: seq<string>, net: string -> int) {
    |bars| == |keys|
    && forall i | 0 <= i < |bars| :: IsBar(bars[i], dim, keys[i], net(keys[i]), Footing(bars, i))
  }

  ghost predicate IsBar(bar: Bar, dim: Dimension, key: string, delta: int, start: int) {
    && bar.key == key && bar.dim == dim && bar.delta == delta
    && bar.start == start && bar.end == start + delta
    && bar.kind == if delta < 0 then Decrease else Increase
  }

  /** Where bar `i` starts: on the bar before it, the first on zero. */
  function Footing(bars: seq<Bar>, i: nat): int
    requires i <= |bars|
  {
    if i == 0 then 0 else bars[i - 1].end
  }

  function TotalBar(dim: Dimension, total: int): Bar {
    Bar(TOTAL_KEY, dim, total, 0, total, Total)
  }

  /** What a waterfall is: a chain over the keys present, ascending, closed by the net of all rows. */
  ghost predicate IsWaterfall(
    bars: seq<Bar>, collate: (string, string) -> bool, rows: seq<Row>, dim: Dimension) {
    if rows == [] then bars == []
    else
      && bars != []
      && IsChain(bars[..|bars| - 1], dim, AscendingKeys(collate, rows, dim), NetUnder(rows, dim))
      && bars[|bars| - 1] == TotalBar(dim, Net(rows))
  }

  function KeyBefore(collate: (string, string) -> bool): (Group<Row>, Group<Row>) -> bool {
    (a: Group<Row>, b: Group<Row>) => collate(a.key, b.key)
  }

  lemma {:induction false} SortedGroups(collate: (string, string) -> bool, rows: seq<Row>, dim: Dimension)
    ensures var groups := SortBy(KeyBefore(collate), GroupsOf(KeyOf(dim), rows));
            var keys := AscendingKeys(collate, rows, dim);
            |groups| == |keys|
            && forall i | 0 <= i < |keys| :: groups[i] == GroupUnder(KeyOf(dim), rows, keys[i])
  {
    var key, keys := KeyOf(dim), KeysOf(KeyOf(dim), rows);
    var build := k => GroupUnder(key, rows, k);
    assert GroupsOf(key, rows) == Map(build, keys);
    SortMapped(collate, KeyBefore(collate), build, keys);
  }

  lemma {:induction false} DeltasAddUp(collate: (string, string) -> bool, rows: seq<Row>, dim: Dimension)
    ensures Sum(NetUnder(rows, dim), AscendingKeys(collate, rows, dim)) == Net(rows)
  {
    var keys := KeysOf(KeyOf(dim), rows);
    KeysCover(KeyOf(dim), rows);
    SortNoRepeats(collate, keys);
    SortedElements(collate, keys);
    forall r | r in rows ensures KeyOf(dim)(r) in AscendingKeys(collate, rows, dim) {
      assert KeyOf(dim)(r) in Elements(keys);
    }
    GroupsConserve(AmountOf(), KeyOf(dim), AscendingKeys(collate, rows, dim), rows);
  }

  lemma {:induction false} SumNext(weight: string -> int, keys: seq<string>, i: nat)
    requires i < |keys|
    ensures Sum(weight, keys[..i + 1]) == Sum(weight, keys[..i]) + weight(keys[i])
  {
    assert keys[..i + 1] == keys[..i] + [keys[i]];
    SumConcat(weight, keys[..i], [keys[i]]);
    assert [keys[i]][1..] == [];
  }

  lemma {:induction false} ChainNext(
    bars: seq<Bar>, dim: Dimension, keys: seq<string>, net: string -> int, i: nat, bar: Bar)
    requires i < |keys| && IsChain(bars, dim, keys[..i], net)
    requires IsBar(bar, dim, keys[i], net(keys[i]), Footing(bars, i))
    ensures IsChain(bars + [bar], dim, keys[..i + 1], net)
  {
    var longer, more := bars + [bar], keys[..i + 1];
    forall k | 0 <= k <= i ensures IsBar(longer[k], dim, more[k], net(more[k]), Footing(longer, k)) {
      assert Footing(longer, k) == Footing(bars, k);
      if k < i {
        assert IsBar(bars[k], dim, keys[..i][k], net(keys[..i][k]), Footing(bars, k));
      }
    }
  }

  /** The groups' bars, one standing on another. */
  method Stack(dim: Dimension, groups: seq<Group<Row>>, ghost keys: seq<string>, ghost net: string -> int)
    returns (bars: seq<Bar>, running: int)
    requires |groups| == |keys|
    requires forall i | 0 <= i < |keys| :: groups[i].key == keys[i] && Net(groups[i].rows) == net(keys[i])
    ensures IsChain(bars, dim, keys, net) && running == Sum(net, keys)
  {
    bars, running := [], 0;
    for i := 0 to |groups|
      invariant IsChain(bars, dim, keys[..i], net) && running == Sum(net, keys[..i])
      invariant running == Footing(bars, i)
    {
      var delta := NetOf(groups[i].rows);
      var start := running;
      SumNext(net, keys, i);
      running := running + delta;
      var bar := Bar(groups[i].key, dim, delta, start, running, if delta < 0 then Decrease else Increase);
      ChainNext(bars, dim, keys, net, i, bar);
      bars := bars + [bar];
    }
    assert keys[..|keys|] == keys;
  }

  lemma {:induction false} NoKeysNoRows(collate: (string, string) -> bool, rows: seq<Row>, dim: Dimension)
    ensures AscendingKeys(collate, rows, dim) == [] <==> rows == []
  {
    KeysCover(KeyOf(dim), rows);
    SomeElement(rows);
    if rows != [] {
      assert KeyOf(dim)(rows[0]) in KeysOf(KeyOf(dim), rows);
    }
  }

  lemma {:induction false} Closed(
    collate: (string, string) -> bool, rows: seq<Row>, dim: Dimension, bars: seq<Bar>, keys: seq<string>)
    requires keys == AscendingKeys(collate, rows, dim) && rows != []
    requires IsChain(bars, dim, keys, NetUnder(rows, dim))
    ensures IsWaterfall(bars + [TotalBar(dim, Net(rows))], collate, rows, dim)
  {
    assert (bars + [TotalBar(dim, Net(rows))])[..|bars|] == bars;
  }

  lemma {:induction false} GroupsHoldTheNets(
    collate: (string, string) -> bool, rows: seq<Row>, dim: Dimension, groups: seq<Group<Row>>, keys: seq<string>)
    requires keys == AscendingKeys(collate, rows, dim)
    requires groups == SortBy(KeyBefore(collate), GroupsOf(KeyOf(dim), rows))
    ensures |groups| == |keys|
    ensures forall i | 0 <= i < |keys| ::
              groups[i].key == keys[i] && Net(groups[i].rows) == NetUnder(rows, dim)(keys[i])
  {
    SortedGroups(collate, rows, dim);
  }

  method Waterfall(collate: (string, string) -> bool, rows: seq<Row>, dim: Dimension) returns (bars: seq<Bar>)
    ensures IsWaterfall(bars, collate, rows, dim)
  {
    var groups := GroupBy(rows, KeyOf(dim));
    groups := SortBy(KeyBefore(collate), groups);
    ghost var keys, net := AscendingKeys(collate, rows, dim), NetUnder(rows, dim);
    GroupsHoldTheNets(collate, rows, dim, groups, keys);
    NoKeysNoRows(collate, rows, dim);
    if |groups| == 0 {
      return [];
    }
    var running;
    bars, running := Stack(dim, groups, keys, net);
    DeltasAddUp(collate, rows, dim);
    Closed(collate, rows, dim, bars, keys);
    bars := bars + [TotalBar(dim, running)];
  }

  // ---- Drilling a bar ------------------------------------------------------------------------

  /** A bar stands on some row. */
  lemma {:induction false} BarsHaveRows(
    collate: (string, string) -> bool, rows: seq<Row>, dim: Dimension, bars: seq<Bar>, i: nat)
    requires IsWaterfall(bars, collate, rows, dim) && i < |bars| - 1
    ensures Having(KeyOf(dim), bars[i].key, rows) != []
    ensures bars[i].delta == Net(Having(KeyOf(dim), bars[i].key, rows))
  {
    var keys, key := AscendingKeys(collate, rows, dim), bars[..|bars| - 1][i].key;
    SortedElements(collate, KeysOf(KeyOf(dim), rows));
    assert key in Elements(keys);
    assert key in KeysOf(KeyOf(dim), rows);
    var r := KeyHasRow(KeyOf(dim), rows, key);
    assert r in Having(KeyOf(dim), key, rows);
  }

  /**
   * Drilling into a bar draws a waterfall whose Total is that bar's delta, whatever mix
   * of drills and skips led here.
   */
  lemma {:induction false} DrilledTotalIsTheBarsDelta(
    collate: (string, string) -> bool, rows: seq<Row>, s: State, hierarchy: seq<Dimension>,
    bars: seq<Bar>, i: nat, drilled: seq<Bar>)
    requires CanDrillDown(s, hierarchy)
    requires IsWaterfall(bars, collate, Scoped(rows, s), hierarchy[Level(s)]) && i < |bars| - 1
    requires IsWaterfall(drilled, collate, Scoped(rows, DrillInto(s, hierarchy, bars[i].key)), hierarchy[Level(s) + 1])
    ensures drilled != [] && drilled[|drilled| - 1] == TotalBar(hierarchy[Level(s) + 1], bars[i].delta)
  {
    BarsHaveRows(collate, Scoped(rows, s), hierarchy[Level(s)], bars, i);
    DrillingNarrows(rows, s, hierarchy, bars[i].key);
  }
}
