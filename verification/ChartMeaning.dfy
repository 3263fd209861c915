/** What the waterfall and the pie say of the rows. */
module ChartMeaning {
  import opened Prelude
  import opened Sorting
  import opened Grouping
  import opened Breakdown
  import opened BreakdownMeaning
  import Waterfall
  import opened Pie

  // ---- The waterfall --------------------------------------------------------------------------

  /** A group's bar: as tall as the net of its rows, and falling when that is a loss. */
  ghost predicate BarSaysRows(bar: Waterfall.Bar, rows: seq<Row>, dim: Dimension) {
    && bar.dim == dim && bar.delta == Net(Under(rows, dim, bar.key))
    && bar.end == bar.start + bar.delta
    && (bar.kind == Waterfall.Decrease <==> bar.delta < 0) && bar.kind != Waterfall.Total
    && exists r | r in rows :: DimensionKey(r, dim) == bar.key
  }

  lemma {:induction false} BarsSayRows(
    collate: (string, string) -> bool, rows: seq<Row>, dim: Dimension, bars: seq<Waterfall.Bar>, i: nat)
    requires Waterfall.IsWaterfall(bars, collate, rows, dim) && i < |bars| - 1
    ensures BarSaysRows(bars[i], rows, dim)
    ensures bars[i].start == if i == 0 then 0 else bars[i - 1].end
  {
    Waterfall.BarsHaveRows(collate, rows, dim, bars, i);
    UnderIsHaving(rows, dim, bars[i].key);
    var chain := bars[..|bars| - 1];
    var keys, net := Waterfall.AscendingKeys(collate, rows, dim), Waterfall.NetUnder(rows, dim);
    assert Waterfall.IsBar(chain[i], dim, keys[i], net(keys[i]), Waterfall.Footing(chain, i));
    var having := Having(KeyOf(dim), bars[i].key, rows);
    assert having[0] in having;
  }

  /** Each group has one bar, the bars ascend by key, and the last is the total of all rows from zero. */
  lemma {:induction false} WaterfallSaysTheRows(
    collate: (string, string) -> bool, rows: seq<Row>, dim: Dimension, bars: seq<Waterfall.Bar>)
    requires StrictWeakOrder(collate) && Waterfall.IsWaterfall(bars, collate, rows, dim) && rows != []
    ensures bars != []
    ensures forall i, j | 0 <= i < j < |bars| - 1 :: bars[i].key != bars[j].key && !collate(bars[j].key, bars[i].key)
    ensures forall r | r in rows :: exists i | 0 <= i < |bars| - 1 :: bars[i].key == DimensionKey(r, dim)
    ensures bars[|bars| - 1] == Waterfall.Bar("__total__", dim, Net(rows), 0, Net(rows), Waterfall.Total)
  {
    var sorted := Waterfall.AscendingKeys(collate, rows, dim);
    AscendingKeysAre(collate, rows, dim, sorted);
    ChainKeys(bars[..|bars| - 1], dim, sorted, Waterfall.NetUnder(rows, dim));
    BarsFollowKeys(collate, rows, dim, bars, sorted);
  }

  lemma {:induction false} AscendingKeysAre(
    collate: (string, string) -> bool, rows: seq<Row>, dim: Dimension, sorted: seq<string>)
    requires StrictWeakOrder(collate) && sorted == Waterfall.AscendingKeys(collate, rows, dim)
    ensures NoRepeats(sorted) && Sorted(collate, sorted)
    ensures forall r | r in rows :: DimensionKey(r, dim) in sorted
  {
    var keys := KeysOf(KeyOf(dim), rows);
    KeysCover(KeyOf(dim), rows);
    SortBySorts(collate, keys);
    SortNoRepeats(collate, keys);
    SortedElements(collate, keys);
    forall r | r in rows ensures DimensionKey(r, dim) in sorted {
      assert KeyOf(dim)(r) in Elements(keys) && KeyOf(dim)(r) in Elements(sorted);
    }
  }

  lemma {:induction false} BarsFollowKeys(
    collate: (string, string) -> bool, rows: seq<Row>, dim: Dimension, bars: seq<Waterfall.Bar>, sorted: seq<string>)
    requires bars != [] && |sorted| == |bars| - 1 && forall i | 0 <= i < |sorted| :: bars[i].key == sorted[i]
    requires NoRepeats(sorted) && Sorted(collate, sorted) && forall r | r in rows :: DimensionKey(r, dim) in sorted
    ensures forall i, j | 0 <= i < j < |bars| - 1 :: bars[i].key != bars[j].key && !collate(bars[j].key, bars[i].key)
    ensures forall r | r in rows :: exists i | 0 <= i < |bars| - 1 :: bars[i].key == DimensionKey(r, dim)
  {
    forall r | r in rows ensures exists i | 0 <= i < |bars| - 1 :: bars[i].key == DimensionKey(r, dim) {
      var i := Position(sorted, DimensionKey(r, dim));
      assert bars[i].key == sorted[i];
    }
  }

  lemma {:induction false} ChainKeys(
    chain: seq<Waterfall.Bar>, dim: Dimension, keys: seq<string>, net: string -> int)
    requires Waterfall.IsChain(chain, dim, keys, net)
    ensures |chain| == |keys| && forall i | 0 <= i < |chain| :: chain[i].key == keys[i]
  {
    forall i: nat | i < |chain| ensures chain[i].key == keys[i] {
      assert Waterfall.IsBar(chain[i], dim, keys[i], net(keys[i]), Waterfall.Footing(chain, i));
    }
  }

  // ---- The pie --------------------------------------------------------------------------------

  /** Hundredths of a percent, to the nearest, halves up. */
  predicate IsNearest(pct: int, value: int, total: int) {
    total * (2 * pct - 1) <= 20000 * value < total * (2 * pct + 1)
  }

  lemma {:induction false} ShareIsNearest(value: int, total: int)
    requires total > 0
    ensures IsNearest(Pct(value, total), value, total)
  {
    var a, k := 20000 * value + total, 2 * total;
    var q := a / k;
    assert a == k * q + a % k;
    assert total * (2 * q - 1) == k * q - total && total * (2 * q + 1) == k * q + total;
  }

  /** The slice is a group that lost money, what it lost, and its share of what all such groups lost. */
  ghost predicate SliceSaysRows(s: Slice, rows: seq<Row>, dim: Dimension, total: int) {
    s.value > 0 && s.value == -Net(Under(rows, dim, s.key)) && IsNearest(s.pct, s.value, total)
  }

  lemma {:induction false} SpendFromGroup(rows: seq<Row>, dim: Dimension, spend: Spend)
    ensures spend in SpendIn(GroupsOf(KeyOf(dim), rows)) <==>
      spend.key in KeysOf(KeyOf(dim), rows) && spend.value > 0 && spend.value == -Net(Under(rows, dim, spend.key))
  {
    var groups, keys := GroupsOf(KeyOf(dim), rows), KeysOf(KeyOf(dim), rows);
    SpendIsTheLosses(groups, spend);
    UnderIsHaving(rows, dim, spend.key);
    forall g | g in groups ensures g.key in keys && g.rows == Having(KeyOf(dim), g.key, rows) {
      var i :| 0 <= i < |groups| && groups[i] == g;
      assert keys[i] in keys;
    }
    if spend.key in keys {
      var i := Position(keys, spend.key);
      assert groups[i] in groups && groups[i] == Group(keys[i], Having(KeyOf(dim), keys[i], rows));
    }
  }

  lemma {:induction false} SliceFromSpend(spend: seq<Spend>, s: Slice)
    ensures s in SlicesOf(spend) <==>
      exists p | p in spend :: s.key == p.key && s.value == p.value && s.pct == Pct(p.value, Sum(SpendOf(), spend))
  {
    var share := Share(Sum(SpendOf(), spend));
    var all := Map(share, spend);
    SortedElements(LargerFirst(), all);
    assert s in SlicesOf(spend) <==> s in Elements(SlicesOf(spend));
    assert s in all <==> s in Elements(all);
    if s in all {
      var i :| 0 <= i < |all| && all[i] == s;
      assert spend[i] in spend;
    }
    if p :| p in spend && s.key == p.key && s.value == p.value && s.pct == Pct(p.value, Sum(SpendOf(), spend)) {
      var i :| 0 <= i < |spend| && spend[i] == p;
      assert all[i] == s;
    }
  }

  /** The pie shows exactly the groups that lost money, each with what it lost and its share, largest first. */
  lemma {:induction false} PieSaysTheRows(rows: seq<Row>, dim: Dimension, slices: seq<Slice>, total: int)
    requires slices == SlicesOf(SpendIn(GroupsOf(KeyOf(dim), rows)))
    requires total == Sum(ValueOf(), slices)
    ensures forall s | s in slices :: SliceSaysRows(s, rows, dim, total)
    ensures forall r | r in rows && Net(Under(rows, dim, DimensionKey(r, dim))) < 0 ::
              exists s | s in slices :: s.key == DimensionKey(r, dim)
    ensures forall i, j | 0 <= i < j < |slices| :: slices[i].value >= slices[j].value
  {
    var spend := SpendIn(GroupsOf(KeyOf(dim), rows));
    SlicesSum(spend);
    forall s | s in slices ensures SliceSaysRows(s, rows, dim, total) {
      SliceIsOfGroup(rows, dim, spend, s);
    }
    forall r | r in rows && Net(Under(rows, dim, DimensionKey(r, dim))) < 0
      ensures exists s | s in slices :: s.key == DimensionKey(r, dim)
    {
      LossHasSlice(rows, dim, spend, r);
    }
    SlicesDescend(spend);
  }

  lemma {:induction false} SlicesDescend(spend: seq<Spend>)
    ensures var slices := SlicesOf(spend);
            forall i, j | 0 <= i < j < |slices| :: slices[i].value >= slices[j].value
  {
    SortBySorts(LargerFirst(), Map(Share(Sum(SpendOf(), spend)), spend));
    var slices := SlicesOf(spend);
    forall i, j | 0 <= i < j < |slices| ensures slices[i].value >= slices[j].value {
      assert !LargerFirst()(slices[j], slices[i]);
    }
  }

  lemma {:induction false} SliceIsOfGroup(rows: seq<Row>, dim: Dimension, spend: seq<Spend>, s: Slice)
    requires spend == SpendIn(GroupsOf(KeyOf(dim), rows)) && s in SlicesOf(spend)
    ensures SliceSaysRows(s, rows, dim, Sum(SpendOf(), spend))
  {
    SliceFromSpend(spend, s);
    var p :| p in spend && s.key == p.key && s.value == p.value && s.pct == Pct(p.value, Sum(SpendOf(), spend));
    SpendFromGroup(rows, dim, p);
    PositiveSum(spend);
    ShareIsNearest(s.value, Sum(SpendOf(), spend));
  }

  lemma {:induction false} LossHasSlice(rows: seq<Row>, dim: Dimension, spend: seq<Spend>, r: Row)
    requires spend == SpendIn(GroupsOf(KeyOf(dim), rows))
    requires r in rows && Net(Under(rows, dim, DimensionKey(r, dim))) < 0
    ensures exists s | s in SlicesOf(spend) :: s.key == DimensionKey(r, dim)
  {
    var p := Spend(DimensionKey(r, dim), -Net(Under(rows, dim, DimensionKey(r, dim))));
    KeysCover(KeyOf(dim), rows);
    assert KeyOf(dim)(r) == p.key;
    SpendFromGroup(rows, dim, p);
    SliceFromSpend(spend, Slice(p.key, p.value, Pct(p.value, Sum(SpendOf(), spend))));
  }

  /** What is folded away becomes one last slice, under its own key, with their money and shares. */
  lemma {:induction false} FoldedSliceIsTheRest(slices: seq<Slice>, limit: nat)
    requires |slices| > limit
    ensures var other := FoldToPalette(slices, limit)[limit];
            && other.key == "__other__"
            && other.value == Sum(ValueOf(), slices[limit..]) && other.pct == Sum(PctOf(), slices[limit..])
  {
  }

  // ---- Equal slices ---------------------------------------------------------------------------

  /** Where the rows first show a group. */
  function FirstShown(rows: seq<Row>, dim: Dimension): string -> int {
    FirstPlace(Map(KeyOf(dim), rows))
  }

  ghost predicate SpendAscends(spend: seq<Spend>, pos: string -> int) {
    forall i, j | 0 <= i < j < |spend| :: pos(spend[i].key) < pos(spend[j].key)
  }

  lemma {:induction false} SpendBefore(groups: seq<Group<Row>>, pos: string -> int, s: Spend)
    requires groups != [] && s in SpendIn(groups[..|groups| - 1])
    requires forall i, j | 0 <= i < j < |groups| :: pos(groups[i].key) < pos(groups[j].key)
    ensures pos(s.key) < pos(groups[|groups| - 1].key)
  {
    var init := groups[..|groups| - 1];
    SpendIsTheLosses(init, s);
    var g :| g in init && Net(g.rows) < 0 && s == Spend(g.key, -Net(g.rows));
    var k :| 0 <= k < |init| && init[k] == g;
    assert groups[k] == g;
  }

  lemma {:induction false} SpendFollowsGroups(groups: seq<Group<Row>>, pos: string -> int)
    requires forall i, j | 0 <= i < j < |groups| :: pos(groups[i].key) < pos(groups[j].key)
    ensures SpendAscends(SpendIn(groups), pos)
  {
    if groups != [] {
      var before := SpendIn(groups[..|groups| - 1]);
      SpendFollowsGroups(groups[..|groups| - 1], pos);
      forall i | 0 <= i < |before| ensures pos(before[i].key) < pos(groups[|groups| - 1].key) {
        assert before[i] in before;
        SpendBefore(groups, pos, before[i]);
      }
    }
  }

  function ShownEarlier(pos: string -> int): (Slice, Slice) -> bool {
    (a: Slice, b: Slice) => pos(a.key) < pos(b.key)
  }

  /** Slices of one size stand in the order the rows first show their groups. */
  lemma {:induction false} EqualSlicesKeepOrder(rows: seq<Row>, dim: Dimension, slices: seq<Slice>)
    requires slices == SlicesOf(SpendIn(GroupsOf(KeyOf(dim), rows)))
    ensures var pos := FirstShown(rows, dim);
            forall i, j | 0 <= i < j < |slices| && slices[i].value == slices[j].value ::
              pos(slices[i].key) < pos(slices[j].key)
  {
    var groups, pos := GroupsOf(KeyOf(dim), rows), FirstShown(rows, dim);
    DedupeKeepsFirst(Map(KeyOf(dim), rows));
    SpendFollowsGroups(groups, pos);
    TiesStayInOrder(SpendIn(groups), pos);
  }

  lemma {:induction false} TiesStayInOrder(spend: seq<Spend>, pos: string -> int)
    requires SpendAscends(spend, pos)
    ensures var slices := SlicesOf(spend);
            forall i, j | 0 <= i < j < |slices| && slices[i].value == slices[j].value ::
              pos(slices[i].key) < pos(slices[j].key)
  {
    var slices := SlicesOf(spend);
    SortIsStable(LargerFirst(), ShownEarlier(pos), Map(Share(Sum(SpendOf(), spend)), spend));
    forall i, j | 0 <= i < j < |slices| && slices[i].value == slices[j].value
      ensures pos(slices[i].key) < pos(slices[j].key)
    {
      assert Precedes(LargerFirst(), ShownEarlier(pos), slices[i], slices[j]);
    }
  }
}
