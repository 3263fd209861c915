/** A card's history across both exports, whole again. */
module CardHistory {
  import opened Prelude
  import opened Sorting
  import opened Calendar
  import opened Golden1Schema
  import opened Golden1File
  import opened CardLedger
  import opened AccountFrame
  import Balances

  /** An entry with the export it was written in; only the second says what is owed. */
  datatype Exported = First(entry: Entry) | Second(entry: Entry)

  function AllEntries(first: seq<Entry>, second: seq<Entry>): (all: seq<Exported>)
    ensures |all| == |first| + |second|
  {
    Map((e: Entry) => First(e), first) + Map((e: Entry) => Second(e), second)
  }

  predicate EntryBefore(x: Exported, y: Exported) {
    Before(x.entry.date, y.entry.date)
  }

  /** Both exports by date, entries of one day as the files list them, the first file before the second. */
  function History(first: seq<Entry>, second: seq<Entry>): (history: seq<Exported>)
    ensures |history| == |first| + |second|
    ensures multiset(history) == multiset(AllEntries(first, second))
  {
    SortBy(EntryBefore, AllEntries(first, second))
  }

  function OnDay(d: Date): Exported -> bool {
    (x: Exported) => x.entry.date == d
  }

  /** A history never steps back, and lists each day's entries as the two files do. */
  lemma {:induction false} HistoryIsByDate(first: seq<Entry>, second: seq<Entry>, day: Date)
    ensures Sorted(EntryBefore, History(first, second))
    ensures Filter(OnDay(day), History(first, second)) == Filter(OnDay(day), AllEntries(first, second))
  {
    SortBySorts(EntryBefore, AllEntries(first, second));
    SortKeepsTies(EntryBefore, OnDay(day), AllEntries(first, second));
  }

  /** The money one entry moves: what is paid out counts against what comes in. */
  function Moved(e: Entry): int {
    match (e.debit, e.credit)
    case (Some(debit), Some(credit)) => debit + credit
    case (Some(debit), None) => debit
    case (None, Some(credit)) => credit
    case (None, None) => 0
  }

  /** Money moved through entry `i`, in cents. */
  function NetThrough(history: seq<Exported>, i: int): int
    requires -1 <= i < |history|
    decreases i + 1
  {
    if i == -1 then 0
    else NetThrough(history, i - 1) + Moved(history[i].entry)
  }

  predicate StatesOwed(x: Exported) {
    x.Second? && x.entry.stated.Some?
  }

  /** What the second export says is owed is what is owed. */
  ghost predicate OwedIsTrue(history: seq<Exported>, opening: int) {
    forall i | 0 <= i < |history| && StatesOwed(history[i]) ::
      -history[i].entry.stated.value == opening + NetThrough(history, i)
  }

  ghost predicate OwedIsStated(second: seq<Entry>) {
    exists i | 0 <= i < |second| :: second[i].stated.Some?
  }

  // ---- The frame's rows are the history's --------------------------------------------------

  function RowOfEntry(x: Exported): LedgerRow {
    match x
    case First(e) => RowV1(e)
    case Second(e) => RowV2(e)
  }

  function RowsOf(first: seq<Entry>, second: seq<Entry>): (rows: seq<LedgerRow>)
    ensures |rows| == |first| + |second|
  {
    Map(RowV1, first) + Map(RowV2, second)
  }

  lemma {:induction false} RowsAreEntries(first: seq<Entry>, second: seq<Entry>)
    ensures RowsOf(first, second) == Map(RowOfEntry, AllEntries(first, second))
  {
  }

  /** Sorting the rows by date text puts them in the order of the history. */
  lemma {:induction false} RowsFollowHistory(first: seq<Entry>, second: seq<Entry>)
    ensures Chronological(RowsOf(first, second)) == Map(RowOfEntry, History(first, second))
  {
    RowsAreEntries(first, second);
    forall x: Exported, y: Exported
      ensures EntryBefore(x, y) == DatedBefore(RowOfEntry(x), RowOfEntry(y))
    {
      OrdersCoincide(x.entry.date, y.entry.date);
    }
    SortMapped(EntryBefore, DatedBefore, RowOfEntry, AllEntries(first, second));
  }

  lemma {:induction false} MoneyOfEntry(history: seq<Exported>, money: seq<Balances.Money>, i: nat)
    requires money == Map(MoneyOfRow, Map(RowOfEntry, history)) && i < |history|
    ensures var e := history[i].entry;
            money[i] == Balances.Money(e.debit, e.credit, if StatesOwed(history[i]) then Negate(e.stated) else None)
  {
  }

  lemma {:induction false} RunningIsNet(history: seq<Exported>, money: seq<Balances.Money>, i: int)
    requires money == Map(MoneyOfRow, Map(RowOfEntry, history)) && -1 <= i < |history|
    ensures Balances.Running(money, i) == NetThrough(history, i)
    decreases i + 1
  {
    if i >= 0 {
      RunningIsNet(history, money, i - 1);
      MoneyOfEntry(history, money, i);
    }
  }

  lemma {:induction false} SomeRowStates(first: seq<Entry>, second: seq<Entry>) returns (i: nat)
    requires OwedIsStated(second)
    ensures i < |first| + |second| && StatesOwed(History(first, second)[i])
  {
    var k :| 0 <= k < |second| && second[k].stated.Some?;
    var all, history := AllEntries(first, second), History(first, second);
    assert all[|first| + k] == Second(second[k]);
    assert Second(second[k]) in multiset(history);
    i :| 0 <= i < |history| && history[i] == Second(second[k]);
  }

  lemma {:induction false} OwedIsTruthful(history: seq<Exported>, money: seq<Balances.Money>, opening: int)
    requires money == Map(MoneyOfRow, Map(RowOfEntry, history)) && OwedIsTrue(history, opening)
    ensures Balances.Truthful(money, opening)
  {
    forall i | 0 <= i < |money| && Balances.Stated(money, i)
      ensures money[i].balance.value == opening + Balances.Running(money, i)
    {
      MoneyOfEntry(history, money, i);
      RunningIsNet(history, money, i);
    }
  }

  lemma {:induction false} MoneyIsTruthful(
    first: seq<Entry>, second: seq<Entry>, history: seq<Exported>, money: seq<Balances.Money>, opening: int)
    requires history == History(first, second) && money == Map(MoneyOfRow, Map(RowOfEntry, history))
    requires OwedIsTrue(history, opening) && OwedIsStated(second)
    ensures Balances.Truthful(money, opening) && Balances.StatesSome(money)
  {
    var k := SomeRowStates(first, second);
    MoneyOfEntry(history, money, k);
    assert Balances.Stated(money, k);
    OwedIsTruthful(history, money, opening);
  }

  lemma {:induction false} TrueBalance(history: seq<Exported>, money: seq<Balances.Money>, opening: int, i: nat)
    requires money == Map(MoneyOfRow, Map(RowOfEntry, history)) && i < |history|
    requires Balances.Truthful(money, opening) && Balances.StatesSome(money)
    ensures Balances.FillMissingBalances(money)[i].balance == Some(opening + NetThrough(history, i))
  {
    Balances.TruthReconstructsExactly(money, opening);
    RunningIsNet(history, money, i);
  }

  /** A published row is this entry, at this position, with this balance. */
  predicate Publishes(r: AccountRow, i: nat, e: Entry, balance: int) {
    && r.indx == i && r.dateSK == DateSK(e.date) && r.date == IsoText(e.date)
    && r.row.description == Text(e.description) && r.row.debit == e.debit && r.row.credit == e.credit
    && r.row.balance == Some(balance)
  }

  /** Every entry is published in order, with the balance the account had after it. */
  ghost predicate PublishesAll(frame: seq<AccountRow>, history: seq<Exported>, opening: int) {
    |frame| == |history|
    && forall i | 0 <= i < |frame| :: Publishes(frame[i], i, history[i].entry, opening + NetThrough(history, i))
  }

  lemma {:induction false} PublishedEntry(
    rows: seq<LedgerRow>, history: seq<Exported>, money: seq<Balances.Money>, opening: int, i: nat)
    requires Chronological(rows) == Map(RowOfEntry, history) && money == Map(MoneyOfRow, Map(RowOfEntry, history))
    requires Balances.Truthful(money, opening) && Balances.StatesSome(money) && i < |rows|
    ensures |rows| == |history|
    ensures Publishes(FrameRows(CREDIT_CARD, rows)[i], i, history[i].entry, opening + NetThrough(history, i))
  {
    FrameRowOf(CREDIT_CARD, rows, Map(RowOfEntry, history), i);
    TrueBalance(history, money, opening, i);
  }

  lemma {:induction false} EntriesArePublished(
    rows: seq<LedgerRow>, history: seq<Exported>, money: seq<Balances.Money>, opening: int)
    requires Chronological(rows) == Map(RowOfEntry, history) && money == Map(MoneyOfRow, Map(RowOfEntry, history))
    requires Balances.Truthful(money, opening) && Balances.StatesSome(money)
    ensures PublishesAll(FrameRows(CREDIT_CARD, rows), history, opening)
  {
    var frame := FrameRows(CREDIT_CARD, rows);
    assert |rows| == |history|;
    forall i: nat | i < |frame|
      ensures Publishes(frame[i], i, history[i].entry, opening + NetThrough(history, i))
    {
      PublishedEntry(rows, history, money, opening, i);
    }
  }

  lemma {:induction false} HistoryIsPublished(
    first: seq<Entry>, second: seq<Entry>, history: seq<Exported>, opening: int)
    requires history == History(first, second) && OwedIsTrue(history, opening) && OwedIsStated(second)
    ensures PublishesAll(FrameRows(CREDIT_CARD, RowsOf(first, second)), history, opening)
  {
    var money := Map(MoneyOfRow, Map(RowOfEntry, history));
    RowsFollowHistory(first, second);
    MoneyIsTruthful(first, second, history, money, opening);
    EntriesArePublished(RowsOf(first, second), history, money, opening);
  }

  // ---- Both files are read -----------------------------------------------------------------

  lemma {:induction false} TwoResults(results: seq<FileResult>, one: seq<LedgerRow>, two: seq<LedgerRow>)
    requires |results| == 2 && results[0] == Ok(one) && results[1] == Ok(two)
    ensures Concatenated(results) == Ok(one + two)
  {
    assert results[..1][..0] == [] && [] + one == one;
    assert Concatenated(results[..1]) == Ok(one);
  }

  lemma {:induction false} BothFilesAreRead(
    fold: string -> string, parse: (string, Cell) -> Option<Date>, write: Date -> string,
    first: seq<Entry>, second: seq<Entry>, one: File, two: File)
    requires Separates(fold) && ReadsBack(parse, write, first) && ReadsBack(parse, write, second)
    requires OneSided(second) && InDateOrder(second)
    requires one == FileV1(write, first) && two == FileV2(write, second)
    ensures Rectangular(one) && Rectangular(two)
    ensures Normalized(fold, parse, one, CREDIT_CARD) == Ok(Map(RowV1, first))
    ensures Normalized(fold, parse, two, CREDIT_CARD) == Ok(Map(RowV2, second))
  {
    FirstExportIsRead(fold, parse, write, first);
    SecondExportIsRead(fold, parse, write, second);
  }

  lemma {:induction false} TwoFilesAreDeclared(fold: string -> string, one: File, two: File)
    requires Separates(fold) && one.header == V1.header && two.header == V2.header
    ensures FirstUndeclared(fold, [one, two]) == None
  {
    DeclaredHeadersAreDetected(fold);
    assert [one, two][1..] == [two] && [two][1..] == [];
    assert FirstUndeclared(fold, []) == None;
    assert FirstUndeclared(fold, [two]) == None;
  }

  lemma {:induction false} TwoFileFrame(
    fold: string -> string, parse: (string, Cell) -> Option<Date>, one: File, two: File, account: string,
    rows1: seq<LedgerRow>, rows2: seq<LedgerRow>)
    requires Rectangular(one) && Rectangular(two)
    requires Normalized(fold, parse, one, account) == Ok(rows1)
    requires Normalized(fold, parse, two, account) == Ok(rows2)
    requires FirstUndeclared(fold, [one, two]) == None
    ensures AllRectangular([one, two])
    ensures Frame(fold, parse, [one, two], account) == Ok(FrameRows(account, rows1 + rows2))
  {
    TwoResults(FileResults(fold, parse, [one, two], account), rows1, rows2);
  }

  lemma {:induction false} HistoryIsRead(
    fold: string -> string, parse: (string, Cell) -> Option<Date>, write: Date -> string,
    first: seq<Entry>, second: seq<Entry>, one: File, two: File)
    requires Separates(fold) && ReadsBack(parse, write, first) && ReadsBack(parse, write, second)
    requires one == FileV1(write, first) && two == FileV2(write, second)
    requires OneSided(second) && InDateOrder(second)
    ensures AllRectangular([one, two])
    ensures Frame(fold, parse, [one, two], CREDIT_CARD) == Ok(FrameRows(CREDIT_CARD, RowsOf(first, second)))
  {
    BothFilesAreRead(fold, parse, write, first, second, one, two);
    TwoFilesAreDeclared(fold, one, two);
    TwoFileFrame(fold, parse, one, two, CREDIT_CARD, Map(RowV1, first), Map(RowV2, second));
  }

  /**
   * A card exported the old way, in whatever order and with no balance stated, and then
   * the new way, newest first and with what is owed on some rows: if what is stated is
   * true of the card's days, every entry of both files is published by date with the
   * balance the card had after it.
   */
  lemma {:induction false} HistoryIsWhole(
    fold: string -> string, parse: (string, Cell) -> Option<Date>, write: Date -> string,
    first: seq<Entry>, second: seq<Entry>, opening: int, one: File, two: File)
    requires Separates(fold) && ReadsBack(parse, write, first) && ReadsBack(parse, write, second)
    requires one == FileV1(write, first) && two == FileV2(write, second)
    requires OneSided(second) && InDateOrder(second)
    requires OwedIsTrue(History(first, second), opening) && OwedIsStated(second)
    ensures AllRectangular([one, two])
    ensures Frame(fold, parse, [one, two], CREDIT_CARD).Ok?
    ensures PublishesAll(Frame(fold, parse, [one, two], CREDIT_CARD).value, History(first, second), opening)
  {
    HistoryIsRead(fold, parse, write, first, second, one, two);
    HistoryIsPublished(first, second, History(first, second), opening);
  }
}
