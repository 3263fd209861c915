/** The spending pie: shares rounded to hundredths of a percent, and the tail folded away. */
module Pie {
  import opened Prelude
  import opened Division
  import opened Sorting
  import opened Grouping
  import opened Breakdown

  /** `value` in cents, `pct` in hundredths of a percent. */
  datatype Slice = Slice(key: string, value: int, pct: int)

  datatype Spend = Spend(key: string, value: int)

  function ValueOf(): Slice -> int {
    (slice: Slice) => slice.value
  }

  function PctOf(): Slice -> int {
    (slice: Slice) => slice.pct
  }

  function SpendOf(): Spend -> int {
    (spend: Spend) => spend.value
  }

  /** `round2((value / total) * 100)`, halves up. */
  function Pct(value: int, total: int): int {
    if total <= 0 then 0 else (20000 * value + total) / (2 * total)
  }

  function Share(total: int): Spend -> Slice {
    (spend: Spend) => Slice(spend.key, spend.value, Pct(spend.value, total))
  }

  function LargerFirst(): (Slice, Slice) -> bool {
    (a: Slice, b: Slice) => a.value > b.value
  }

  /** The groups that lost money, with what they lost. */
  function SpendIn(groups: seq<Group<Row>>): (spend: seq<Spend>)
    ensures forall s | s in spend :: s.value > 0
  {
    if groups == [] then []
    else
      var init, last := SpendIn(groups[..|groups| - 1]), groups[|groups| - 1];
      if Net(last.rows) < 0 then init + [Spend(last.key, -Net(last.rows))] else init
  }

  function SlicesOf(spend: seq<Spend>): seq<Slice> {
    SortBy(LargerFirst(), Map(Share(Sum(SpendOf(), spend)), spend))
  }

  method PieSlices(rows: seq<Row>, dim: Dimension) returns (slices: seq<Slice>)
    ensures slices == SlicesOf(SpendIn(GroupsOf(KeyOf(dim), rows)))
  {
    var groups := GroupBy(rows, KeyOf(dim));
    var spend: seq<Spend> := [];
    for i := 0 to |groups|
      invariant spend == SpendIn(groups[..i])
    {
      var net := NetOf(groups[i].rows);
      assert groups[..i + 1][..i] == groups[..i];
      if net < 0 {
        spend := spend + [Spend(groups[i].key, -net)];
      }
    }
    assert groups[..|groups|] == groups;
    slices := SortBy(LargerFirst(), Map(Share(Sum(SpendOf(), spend)), spend));
  }

  // ---- Which groups are shown ------------------------------------------------------------------

  /** Exactly the groups whose net is negative have a slice, of what they lost. */
  lemma {:induction false} SpendIsTheLosses(groups: seq<Group<Row>>, s: Spend)
    ensures s in SpendIn(groups) <==> exists g | g in groups :: Net(g.rows) < 0 && s == Spend(g.key, -Net(g.rows))
  {
    if groups != [] {
      SpendIsTheLosses(groups[..|groups| - 1], s);
      assert groups == groups[..|groups| - 1] + [groups[|groups| - 1]];
    }
  }

  // ---- How far the shares miss 100 ----------------------------------------------------------

  /** What is left of a share after whole hundredths, in parts of the total. */
  function Remainder(value: int, total: int): int
    requires total > 0
  {
    10000 * value % total
  }

  /** By how much one rounded share overstates its value, in parts of the total. */
  function Excess(value: int, total: int): int
    requires total > 0
  {
    (if 2 * Remainder(value, total) >= total then total else 0) - Remainder(value, total)
  }

  function ExcessIn(total: int): Spend -> int
    requires total > 0
  {
    (spend: Spend) => Excess(spend.value, total)
  }

  function PctIn(total: int): Spend -> int {
    (spend: Spend) => Pct(spend.value, total)
  }

  lemma {:induction false} RoundedShare(v: int, total: int)
    requires total > 0
    ensures total * Pct(v, total) == 10000 * v + Excess(v, total)
    ensures -total <= 2 * Excess(v, total) <= total
  {
    var q, r := 10000 * v / total, 10000 * v % total;
    var up := if 2 * r >= total then 1 else 0;
    var rest := 2 * r + total - up * (2 * total);
    assert 10000 * v == total * q + r;
    assert 20000 * v + total == 2 * (total * q) + 2 * r + total;
    assert 2 * (total * q) == 2 * total * q;
    assert 2 * total * (q + up) == 2 * total * q + up * (2 * total);
    QuotientIs(20000 * v + total, 2 * total, q + up, rest);
    assert total * (q + up) == total * q + up * total;
  }

  lemma {:induction false} AddShares(total: int, pct: int, pcts: int, n: nat, lost: int, excess: int)
    requires total * pct == lost && total * pcts == excess
    ensures total * (pct + pcts) == lost + excess
    ensures (n + 1) * total == n * total + total
  {
  }

  lemma {:induction false} SharesAddUp(spend: seq<Spend>, total: int)
    requires total > 0
    ensures total * Sum(PctIn(total), spend) == 10000 * Sum(SpendOf(), spend) + Sum(ExcessIn(total), spend)
    ensures -(|spend| * total) <= 2 * Sum(ExcessIn(total), spend) <= |spend| * total
  {
    if spend != [] {
      var first, rest := spend[0].value, spend[1..];
      SharesAddUp(rest, total);
      RoundedShare(first, total);
      AddShares(total, Pct(first, total), Sum(PctIn(total), rest), |rest|, total * Pct(first, total),
        total * Sum(PctIn(total), rest));
    }
  }

  lemma {:induction false} Cancel(total: int, x: int, bound: int)
    requires total > 0 && -(bound * total) <= total * x <= bound * total
    ensures -bound <= x <= bound
  {
    assert total * (x - bound) == total * x - bound * total;
    assert total * (x + bound) == total * x + bound * total;
  }

  lemma {:induction false} Offset(total: int, pcts: int, excess: int, n: int)
    requires total > 0 && total * pcts == 10000 * total + excess && -(n * total) <= 2 * excess <= n * total
    ensures -n <= 2 * (pcts - 10000) <= n
    ensures pcts == 10000 <==> excess == 0
  {
    assert total * (2 * (pcts - 10000)) == 2 * (total * pcts) - 20000 * total;
    Cancel(total, 2 * (pcts - 10000), n);
    assert total * (pcts - 10000) == excess;
  }

  lemma {:induction false} PositiveSum(spend: seq<Spend>)
    requires spend != [] && forall s | s in spend :: s.value > 0
    ensures Sum(SpendOf(), spend) > 0
  {
    if |spend| > 1 {
      PositiveSum(spend[1..]);
    } else {
      assert spend[1..] == [];
    }
    assert spend[0] in spend;
  }

  lemma {:induction false} SlicesSum(spend: seq<Spend>)
    ensures |SlicesOf(spend)| == |spend|
    ensures Sum(ValueOf(), SlicesOf(spend)) == Sum(SpendOf(), spend)
    ensures Sum(PctOf(), SlicesOf(spend)) == Sum(PctIn(Sum(SpendOf(), spend)), spend)
  {
    var share := Share(Sum(SpendOf(), spend));
    SumSorted(ValueOf(), LargerFirst(), Map(share, spend));
    SumSorted(PctOf(), LargerFirst(), Map(share, spend));
    SumMapped(ValueOf(), share, spend);
    SumMapped(PctOf(), share, spend);
    SumCongruence(After(ValueOf(), share), SpendOf(), spend);
    SumCongruence(After(PctOf(), share), PctIn(Sum(SpendOf(), spend)), spend);
  }

  /**
   * The rounded shares of `k` slices miss 100% by at most `k` halves of a hundredth of
   * a percent, and they make 100% exactly when what rounding up added is what
   * rounding down took.
   */
  lemma {:induction false} SharesNearlyTotal100(groups: seq<Group<Row>>, spend: seq<Spend>, total: int)
    requires spend == SpendIn(groups) && spend != [] && total == Sum(SpendOf(), spend)
    ensures total > 0
    ensures -|spend| <= 2 * (Sum(PctOf(), SlicesOf(spend)) - 10000) <= |spend|
    ensures Sum(PctOf(), SlicesOf(spend)) == 10000 <==> Sum(ExcessIn(total), spend) == 0
  {
    PositiveSum(spend);
    SharesAddUp(spend, total);
    SlicesSum(spend);
    Offset(total, Sum(PctIn(total), spend), Sum(ExcessIn(total), spend), |spend|);
  }

  /** Three equal slices are shown as 33.33% each, 99.99% in all. */
  lemma {:induction false} ThreeEqualSlicesMiss100()
    ensures Sum(PctOf(), SlicesOf([Spend("a", 1), Spend("b", 1), Spend("c", 1)])) == 9999
  {
    var spend := [Spend("a", 1), Spend("b", 1), Spend("c", 1)];
    SlicesSum(spend);
    assert spend[1..] == [Spend("b", 1), Spend("c", 1)] && spend[1..][1..] == [Spend("c", 1)];
    assert spend[1..][1..][1..] == [];
    assert Sum(SpendOf(), spend[1..][1..]) == 1;
    assert Sum(SpendOf(), spend) == 3;
    assert Pct(1, 3) == 3333;
    assert Sum(PctIn(3), spend[1..][1..]) == 3333;
    assert Sum(PctIn(3), spend[1..]) == 6666;
  }

  // ---- Folding the tail -----------------------------------------------------------------------

  const FOLDED_KEY := "__other__"

  function FoldToPalette(slices: seq<Slice>, limit: nat): seq<Slice> {
    if |slices| <= limit then slices
    else
      var folded := slices[limit..];
      slices[..limit] + [Slice(FOLDED_KEY, Sum(ValueOf(), folded), Sum(PctOf(), folded))]
  }

  /** Folding keeps the slices before the limit as they are, and the money and the shares in all. */
  lemma {:induction false} FoldingConserves(slices: seq<Slice>, limit: nat)
    ensures |FoldToPalette(slices, limit)| == if |slices| <= limit then |slices| else limit + 1
    ensures Sum(ValueOf(), FoldToPalette(slices, limit)) == Sum(ValueOf(), slices)
    ensures Sum(PctOf(), FoldToPalette(slices, limit)) == Sum(PctOf(), slices)
    ensures forall i | 0 <= i < limit && i < |slices| :: FoldToPalette(slices, limit)[i] == slices[i]
  {
    if |slices| > limit {
      var kept, folded := slices[..limit], slices[limit..];
      var other := Slice(FOLDED_KEY, Sum(ValueOf(), folded), Sum(PctOf(), folded));
      assert slices == kept + folded && [other][1..] == [];
      SumConcat(ValueOf(), kept, folded);
      SumConcat(PctOf(), kept, folded);
      SumConcat(ValueOf(), kept, [other]);
      SumConcat(PctOf(), kept, [other]);
    }
  }

  /** Of a pie's slices, the ones kept are the largest. */
  lemma {:induction false} FoldingKeepsTheLargest(spend: seq<Spend>, limit: nat, slices: seq<Slice>)
    requires slices == SlicesOf(spend)
    ensures forall i, j | 0 <= i < limit <= j < |slices| :: slices[i].value >= slices[j].value
  {
    SortBySorts(LargerFirst(), Map(Share(Sum(SpendOf(), spend)), spend));
    forall i, j | 0 <= i < limit <= j < |slices| ensures slices[i].value >= slices[j].value {
      assert !LargerFirst()(slices[j], slices[i]);
    }
  }
}
