/** Reconstructing the balances an export leaves empty, in integer cents. */
module Balances {
  import opened Prelude

  // A stated balance is kept; an empty one is the running total shifted by the offset of
  // the nearest stated balance, the next one where there is one.

  /** One conformed row, as far as its money goes. A missing cell is None. */
  datatype Money = Money(debit: Option<int>, credit: Option<int>, balance: Option<int>)

  function Cents(cell: Option<int>): int {
    if cell.Some? then cell.value else 0
  }

  function Net(row: Money): int {
    Cents(row.debit) + Cents(row.credit)
  }

  /** The running total through row `i`. */
  function Running(rows: seq<Money>, i: int): int
    requires -1 <= i < |rows|
    decreases i + 1
  {
    if i == -1 then 0 else Running(rows, i - 1) + Net(rows[i])
  }

  predicate Stated(rows: seq<Money>, i: nat)
    requires i < |rows|
  {
    rows[i].balance.Some?
  }

  /** What a stated balance says the running total is off by. */
  function OffsetAt(rows: seq<Money>, i: nat): int
    requires i < |rows| && Stated(rows, i)
  {
    rows[i].balance.value - Running(rows, i)
  }

  /** The first stated row at or after `i`. */
  function NextStated(rows: seq<Money>, i: nat): (j: Option<nat>)
    requires i <= |rows|
    ensures j.Some? ==> i <= j.value < |rows| && Stated(rows, j.value)
    ensures j.Some? ==> forall k | i <= k < j.value :: !Stated(rows, k)
    ensures j.None? ==> forall k | i <= k < |rows| :: !Stated(rows, k)
    decreases |rows| - i
  {
    if i == |rows| then None
    else if Stated(rows, i) then Some(i)
    else NextStated(rows, i + 1)
  }

  /** The last stated row before `i`. */
  function LastStated(rows: seq<Money>, i: nat): (j: Option<nat>)
    requires i <= |rows|
    ensures j.Some? ==> j.value < i && Stated(rows, j.value)
    ensures j.Some? ==> forall k | j.value < k < i :: !Stated(rows, k)
    ensures j.None? ==> forall k | 0 <= k < i :: !Stated(rows, k)
  {
    if i == 0 then None
    else if Stated(rows, i - 1) then Some(i - 1)
    else LastStated(rows, i - 1)
  }

  /** `bfill` then `ffill`, and zero where nothing is stated at all. */
  function Offset(rows: seq<Money>, i: nat): int
    requires i < |rows|
  {
    var next, last := NextStated(rows, i), LastStated(rows, i);
    if next.Some? then OffsetAt(rows, next.value)
    else if last.Some? then OffsetAt(rows, last.value)
    else 0
  }

  function Filled(rows: seq<Money>, i: nat): int
    requires i < |rows|
  {
    if Stated(rows, i) then rows[i].balance.value else Running(rows, i) + Offset(rows, i)
  }

  function FillMissingBalances(rows: seq<Money>): (filled: seq<Money>)
    ensures |filled| == |rows|
  {
    seq(|rows|, i requires 0 <= i < |rows| => rows[i].(balance := Some(Filled(rows, i))))
  }

  /** The offset of the next stated row, where there is one. */
  function Backfilled(rows: seq<Money>, i: nat): Option<int>
    requires i < |rows|
  {
    var next := NextStated(rows, i);
    if next.Some? then Some(OffsetAt(rows, next.value)) else None
  }

  /** The offset of the nearest stated row, next before last. */
  function Nearest(rows: seq<Money>, i: nat): Option<int>
    requires i < |rows|
  {
    var next, last := NextStated(rows, i), LastStated(rows, i);
    if next.Some? then Some(OffsetAt(rows, next.value))
    else if last.Some? then Some(OffsetAt(rows, last.value))
    else None
  }

  method RunningTotals(rows: seq<Money>) returns (running: seq<int>)
    ensures |running| == |rows| && forall k | 0 <= k < |rows| :: running[k] == Running(rows, k)
  {
    running := [];
    var total := 0;
    for i := 0 to |rows|
      invariant total == Running(rows, i - 1)
      invariant |running| == i && forall k | 0 <= k < i :: running[k] == Running(rows, k)
    {
      total := total + Net(rows[i]);
      running := running + [total];
    }
  }

  /** `bfill` over the stated rows' offsets. */
  method Backfill(rows: seq<Money>, running: seq<int>) returns (offset: seq<Option<int>>)
    requires |running| == |rows| && forall k | 0 <= k < |rows| :: running[k] == Running(rows, k)
    ensures |offset| == |rows| && forall k | 0 <= k < |rows| :: offset[k] == Backfilled(rows, k)
  {
    offset := seq(|rows|, _ => None);
    for i := |rows| downto 0
      invariant |offset| == |rows| && forall k | i <= k < |rows| :: offset[k] == Backfilled(rows, k)
    {
      if rows[i].balance.Some? {
        offset := offset[i := Some(rows[i].balance.value - running[i])];
      } else if i + 1 < |rows| {
        offset := offset[i := offset[i + 1]];
      } else {
        offset := offset[i := None];
      }
    }
  }

  /** `ffill` over what is left. */
  method Forwardfill(rows: seq<Money>, backfilled: seq<Option<int>>) returns (offset: seq<Option<int>>)
    requires |backfilled| == |rows| && forall k | 0 <= k < |rows| :: backfilled[k] == Backfilled(rows, k)
    ensures |offset| == |rows| && forall k | 0 <= k < |rows| :: offset[k] == Nearest(rows, k)
  {
    offset := backfilled;
    for i := 0 to |rows|
      invariant |offset| == |rows|
      invariant forall k | 0 <= k < i :: offset[k] == Nearest(rows, k)
      invariant forall k | i <= k < |rows| :: offset[k] == Backfilled(rows, k)
    {
      if offset[i].None? && i > 0 {
        assert Stated(rows, i - 1) || NextStated(rows, i - 1) == NextStated(rows, i);
        offset := offset[i := offset[i - 1]];
      }
    }
  }

  /** The three passes over the columns give every row the offset of its nearest stated one. */
  method FillBalances(rows: seq<Money>) returns (filled: seq<Money>)
    ensures filled == FillMissingBalances(rows)
  {
    var running := RunningTotals(rows);
    var offset := Backfill(rows, running);
    offset := Forwardfill(rows, offset);
    filled := [];
    for i := 0 to |rows|
      invariant |filled| == i && forall k | 0 <= k < i :: filled[k] == rows[k].(balance := Some(Filled(rows, k)))
    {
      var balance := if rows[i].balance.Some? then rows[i].balance.value
                     else running[i] + (if offset[i].Some? then offset[i].value else 0);
      filled := filled + [rows[i].(balance := Some(balance))];
    }
  }

  // ---- A truthful export reconstructs exactly -----------------------------------------

  /** Every balance the export states is the true one, for an account opened at `opening`. */
  ghost predicate Truthful(rows: seq<Money>, opening: int) {
    forall i | 0 <= i < |rows| && Stated(rows, i) :: rows[i].balance.value == opening + Running(rows, i)
  }

  ghost predicate StatesSome(rows: seq<Money>) {
    exists i | 0 <= i < |rows| :: Stated(rows, i)
  }

  /** The reconstruction is the account's history. */
  ghost predicate Reconstructs(rows: seq<Money>, opening: int) {
    forall i | 0 <= i < |rows| :: FillMissingBalances(rows)[i].balance == Some(opening + Running(rows, i))
  }

  /**
   * Whichever rows were stated, as long as one is: every row gets its true balance
   * exactly when none of them lies. With none stated the balances run from zero.
   */
  lemma {:induction false} TruthReconstructsExactly(rows: seq<Money>, opening: int)
    ensures StatesSome(rows) ==> (Truthful(rows, opening) <==> Reconstructs(rows, opening))
    ensures !StatesSome(rows) ==> Reconstructs(rows, 0)
  {
    if Reconstructs(rows, opening) {
      forall i | 0 <= i < |rows| && Stated(rows, i) ensures rows[i].balance.value == opening + Running(rows, i) {
        assert FillMissingBalances(rows)[i].balance == Some(rows[i].balance.value);
      }
    }
  }

  // ---- Nothing stated is altered, and filling twice is filling once ----------------------

  lemma {:induction false} SameMoneySameRunning(rows: seq<Money>, other: seq<Money>, i: int)
    requires |rows| == |other| && -1 <= i < |rows|
    requires forall k | 0 <= k < |rows| :: Net(rows[k]) == Net(other[k])
    ensures Running(rows, i) == Running(other, i)
    decreases i + 1
  {
    if i >= 0 {
      SameMoneySameRunning(rows, other, i - 1);
    }
  }

  lemma {:induction false} StatedRowsAreKept(rows: seq<Money>)
    ensures forall i | 0 <= i < |rows| && Stated(rows, i) :: FillMissingBalances(rows)[i] == rows[i]
    ensures FillMissingBalances(FillMissingBalances(rows)) == FillMissingBalances(rows)
  {
    var filled := FillMissingBalances(rows);
    assert forall i | 0 <= i < |rows| :: Stated(filled, i) && FillMissingBalances(filled)[i] == filled[i];
  }

  // ---- Inconsistency stays local ------------------------------------------------------------

  /** The step equation can fail only just after a stated row. */
  lemma {:induction false} StepsHoldAfterUnstatedRows(rows: seq<Money>, i: nat)
    requires i + 1 < |rows| && !Stated(rows, i)
    ensures Filled(rows, i) + Net(rows[i + 1]) == Filled(rows, i + 1)
  {
    var next := NextStated(rows, i + 1);
    assert NextStated(rows, i) == next;
    if next.None? {
      assert LastStated(rows, i + 1) == LastStated(rows, i);
    }
  }

  /** Restating row `j` moves row `i`: itself, the empty rows up to it, or the empty tail after it. */
  ghost predicate Reaches(rows: seq<Money>, j: nat, i: nat)
    requires i < |rows| && j < |rows|
  {
    || i == j
    || (i < j && forall k | i <= k < j :: !Stated(rows, k))
    || (i > j && forall k | j < k < |rows| :: !Stated(rows, k))
  }

  lemma {:induction false} RestatingKeepsRunning(rows: seq<Money>, j: nat, value: int, i: int)
    requires j < |rows| && -1 <= i < |rows|
    ensures Running(rows[j := rows[j].(balance := Some(value))], i) == Running(rows, i)
  {
    SameMoneySameRunning(rows, rows[j := rows[j].(balance := Some(value))], i);
  }

  lemma {:induction false} RestatingKeepsNext(rows: seq<Money>, j: nat, value: int, i: nat)
    requires j < |rows| && Stated(rows, j) && i <= |rows|
    ensures NextStated(rows[j := rows[j].(balance := Some(value))], i) == NextStated(rows, i)
    decreases |rows| - i
  {
    if i < |rows| {
      RestatingKeepsNext(rows, j, value, i + 1);
    }
  }

  lemma {:induction false} RestatingKeepsLast(rows: seq<Money>, j: nat, value: int, i: nat)
    requires j < |rows| && Stated(rows, j) && i <= |rows|
    ensures LastStated(rows[j := rows[j].(balance := Some(value))], i) == LastStated(rows, i)
  {
    if i > 0 {
      RestatingKeepsLast(rows, j, value, i - 1);
    }
  }

  /**
   * Changing one stated balance by some cents changes by those cents the row
   * itself, the empty rows back to the previous stated one, and the empty tail if
   * it is the last stated; and no other row at all.
   */
  lemma {:induction false} InconsistencyStaysLocal(rows: seq<Money>, j: nat, value: int, i: nat)
    requires j < |rows| && Stated(rows, j) && i < |rows|
    ensures Filled(rows[j := rows[j].(balance := Some(value))], i) - Filled(rows, i)
         == if Reaches(rows, j, i) then value - rows[j].balance.value else 0
  {
    var restated := rows[j := rows[j].(balance := Some(value))];
    RestatingKeepsNext(rows, j, value, i);
    RestatingKeepsLast(rows, j, value, i);
    RestatingKeepsRunning(rows, j, value, i);
    var next, last := NextStated(rows, i), LastStated(rows, i);
    if next.Some? {
      RestatingKeepsRunning(rows, j, value, next.value);
    } else if last.Some? {
      RestatingKeepsRunning(rows, j, value, last.value);
    }
  }
}
