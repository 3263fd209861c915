/** A deposit account's whole history, published true. */
module DepositHistory {
  import opened Prelude
  import opened Sorting
  import opened Calendar
  import opened Golden1Schema
  import opened Golden1File
  import opened CardLedger
  import opened DepositLedger
  import opened AccountFrame
  import Balances
  import CardHistory

  /** One file's worth of the account, and the layout it was exported in. */
  datatype Export = InFirst(ledger: seq<Entry>) | InSecond(ledger: seq<Entry>)

  /** An entry as one layout conforms it. */
  datatype Posted = Posted(entry: Entry, row: LedgerRow)

  function ExportFile(write: Date -> string, x: Export): (f: File)
    ensures Rectangular(f)
  {
    if x.InFirst? then DepositFileV1(write, x.ledger) else FileV2(write, x.ledger)
  }

  function PostV1(e: Entry): Posted {
    Posted(e, DepositV1(e))
  }

  function PostV2(e: Entry): Posted {
    Posted(e, DepositV2(e))
  }

  function PostedIn(x: Export): (posted: seq<Posted>)
    ensures |posted| == |x.ledger|
  {
    if x.InFirst? then Map(PostV1, x.ledger) else Map(PostV2, x.ledger)
  }

  /** Every export's entries, in the order the files come. */
  function AllPosted(exports: seq<Export>): seq<Posted> {
    if exports == [] then []
    else AllPosted(exports[..|exports| - 1]) + PostedIn(exports[|exports| - 1])
  }

  predicate PostedBefore(x: Posted, y: Posted) {
    Before(x.entry.date, y.entry.date)
  }

  /** All of them by date, entries of one day as the files list them. */
  function DepositHistory(exports: seq<Export>): seq<Posted> {
    SortBy(PostedBefore, AllPosted(exports))
  }

  /** Money moved through entry `i`, in cents. */
  function NetThrough(history: seq<Posted>, i: int): int
    requires -1 <= i < |history|
    decreases i + 1
  {
    if i == -1 then 0 else NetThrough(history, i - 1) + CardHistory.Moved(history[i].entry)
  }

  /** Every balance stated is what the account held. */
  ghost predicate StatedIsTrue(history: seq<Posted>, opening: int) {
    forall i | 0 <= i < |history| && history[i].entry.stated.Some? ::
      history[i].entry.stated.value == opening + NetThrough(history, i)
  }

  ghost predicate SomeStated(history: seq<Posted>) {
    exists i | 0 <= i < |history| :: history[i].entry.stated.Some?
  }

  function RowOfPosted(p: Posted): LedgerRow {
    p.row
  }

  /** Every post holds its own entry's date and money. */
  ghost predicate Faithful(p: Posted) {
    && p.row.date == p.entry.date && p.row.row.description == Text(p.entry.description)
    && p.row.row.debit == p.entry.debit && p.row.row.credit == p.entry.credit && p.row.row.balance == p.entry.stated
  }

  lemma {:induction false} AllAreFaithful(exports: seq<Export>)
    ensures forall p | p in AllPosted(exports) :: Faithful(p)
  {
    if exports != [] {
      AllAreFaithful(exports[..|exports| - 1]);
      forall p | p in PostedIn(exports[|exports| - 1]) ensures Faithful(p) {
      }
    }
  }

  lemma {:induction false} HistoryIsFaithful(exports: seq<Export>)
    ensures forall i | 0 <= i < |DepositHistory(exports)| :: Faithful(DepositHistory(exports)[i])
    ensures Chronological(Map(RowOfPosted, AllPosted(exports))) == Map(RowOfPosted, DepositHistory(exports))
  {
    var all, history := AllPosted(exports), DepositHistory(exports);
    AllAreFaithful(exports);
    SortedElements(PostedBefore, all);
    forall i | 0 <= i < |history| ensures Faithful(history[i]) {
      assert history[i] in Elements(history) && history[i] in Elements(all);
    }
    forall x, y | x in all && y in all ensures PostedBefore(x, y) == DatedBefore(RowOfPosted(x), RowOfPosted(y)) {
      assert Faithful(x) && Faithful(y);
      OrdersCoincide(x.entry.date, y.entry.date);
    }
    SortMapped(PostedBefore, DatedBefore, RowOfPosted, all);
  }

  // ---- Balances -----------------------------------------------------------------------------

  ghost predicate AllFaithful(history: seq<Posted>) {
    forall i | 0 <= i < |history| :: Faithful(history[i])
  }

  lemma {:induction false} MoneyOfPosted(history: seq<Posted>, money: seq<Balances.Money>, i: nat)
    requires AllFaithful(history) && money == Map(MoneyOfRow, Map(RowOfPosted, history)) && i < |history|
    ensures var e := history[i].entry; money[i] == Balances.Money(e.debit, e.credit, e.stated)
  {
    assert Faithful(history[i]);
  }

  lemma {:induction false} RunningIsNet(history: seq<Posted>, money: seq<Balances.Money>, i: int)
    requires AllFaithful(history) && money == Map(MoneyOfRow, Map(RowOfPosted, history)) && -1 <= i < |history|
    ensures Balances.Running(money, i) == NetThrough(history, i)
    decreases i + 1
  {
    if i >= 0 {
      RunningIsNet(history, money, i - 1);
      MoneyOfPosted(history, money, i);
    }
  }

  lemma {:induction false} MoneyIsTruthful(history: seq<Posted>, money: seq<Balances.Money>, opening: int)
    requires AllFaithful(history) && money == Map(MoneyOfRow, Map(RowOfPosted, history))
    requires StatedIsTrue(history, opening) && SomeStated(history)
    ensures Balances.Truthful(money, opening) && Balances.StatesSome(money)
  {
    forall i | 0 <= i < |money| && Balances.Stated(money, i)
      ensures money[i].balance.value == opening + Balances.Running(money, i)
    {
      MoneyOfPosted(history, money, i);
      RunningIsNet(history, money, i);
    }
    var k :| 0 <= k < |history| && history[k].entry.stated.Some?;
    MoneyOfPosted(history, money, k);
    assert Balances.Stated(money, k);
  }

  /** Every entry is published by date, with the balance the account had after it. */
  ghost predicate PublishesAll(frame: seq<AccountRow>, account: string, history: seq<Posted>, opening: int) {
    |frame| == |history|
    && forall i | 0 <= i < |frame| ::
         && CardHistory.Publishes(frame[i], i, history[i].entry, opening + NetThrough(history, i))
         && frame[i].account == account
  }

  lemma {:induction false} TrueBalance(history: seq<Posted>, money: seq<Balances.Money>, opening: int, i: nat)
    requires AllFaithful(history) && money == Map(MoneyOfRow, Map(RowOfPosted, history)) && i < |history|
    requires Balances.Truthful(money, opening) && Balances.StatesSome(money)
    ensures Balances.FillMissingBalances(money)[i].balance == Some(opening + NetThrough(history, i))
  {
    Balances.TruthReconstructsExactly(money, opening);
    RunningIsNet(history, money, i);
  }

  lemma {:induction false} PublishedPost(
    account: string, rows: seq<LedgerRow>, history: seq<Posted>, money: seq<Balances.Money>, opening: int, i: nat)
    requires AllFaithful(history) && Chronological(rows) == Map(RowOfPosted, history) && i < |rows|
    requires money == Map(MoneyOfRow, Map(RowOfPosted, history))
    requires Balances.Truthful(money, opening) && Balances.StatesSome(money)
    ensures |rows| == |history|
    ensures CardHistory.Publishes(FrameRows(account, rows)[i], i, history[i].entry, opening + NetThrough(history, i))
    ensures FrameRows(account, rows)[i].account == account
  {
    FrameRowOf(account, rows, Map(RowOfPosted, history), i);
    assert Faithful(history[i]);
    TrueBalance(history, money, opening, i);
  }

  lemma {:induction false} PostsArePublished(
    account: string, rows: seq<LedgerRow>, history: seq<Posted>, money: seq<Balances.Money>, opening: int)
    requires AllFaithful(history) && Chronological(rows) == Map(RowOfPosted, history)
    requires money == Map(MoneyOfRow, Map(RowOfPosted, history))
    requires Balances.Truthful(money, opening) && Balances.StatesSome(money)
    ensures PublishesAll(FrameRows(account, rows), account, history, opening)
  {
    var frame := FrameRows(account, rows);
    assert |rows| == |history|;
    forall i: nat | i < |frame|
      ensures CardHistory.Publishes(frame[i], i, history[i].entry, opening + NetThrough(history, i))
      ensures frame[i].account == account
    {
      PublishedPost(account, rows, history, money, opening, i);
    }
  }

  // ---- Reading the files ----------------------------------------------------------------------

  /** The export can be read: a second-layout file is one-sided and in date order. */
  ghost predicate Readable(parse: (string, Cell) -> Option<Date>, write: Date -> string, x: Export) {
    && ReadsBack(parse, write, x.ledger)
    && (x.InSecond? ==> OneSided(x.ledger) && InDateOrder(x.ledger))
  }

  function Files(write: Date -> string, exports: seq<Export>): (files: seq<File>)
    ensures |files| == |exports| && AllRectangular(files)
  {
    Map(x => ExportFile(write, x), exports)
  }

  lemma {:induction false} ExportIsRead(
    fold: string -> string, parse: (string, Cell) -> Option<Date>, write: Date -> string, account: string, x: Export)
    requires Separates(fold) && Readable(parse, write, x) && account != "CreditCard"
    ensures Normalized(fold, parse, ExportFile(write, x), account) == Ok(Map(RowOfPosted, PostedIn(x)))
    ensures DetectSchema(fold, ExportFile(write, x).header).Ok?
  {
    DeclaredHeadersAreDetected(fold);
    if x.InFirst? {
      FirstLayoutIsRead(fold, parse, write, account, x.ledger);
      assert Map(RowOfPosted, PostedIn(x)) == Map(DepositV1, x.ledger);
    } else {
      SecondLayoutIsRead(fold, parse, write, account, x.ledger);
      assert Map(RowOfPosted, PostedIn(x)) == Map(DepositV2, x.ledger);
    }
  }

  lemma {:induction false} NoneUndeclared(fold: string -> string, files: seq<File>)
    requires forall k | 0 <= k < |files| :: DetectSchema(fold, files[k].header).Ok?
    ensures FirstUndeclared(fold, files) == None
  {
    if files != [] {
      NoneUndeclared(fold, files[1..]);
    }
  }

  /** Each file's rows are its export's. */
  ghost predicate ReadAs(results: seq<FileResult>, exports: seq<Export>) {
    |results| == |exports|
    && forall k | 0 <= k < |results| :: results[k] == Ok(Map(RowOfPosted, PostedIn(exports[k])))
  }

  lemma {:induction false} FilesAreRead(results: seq<FileResult>, exports: seq<Export>)
    requires ReadAs(results, exports)
    ensures Concatenated(results) == Ok(Map(RowOfPosted, AllPosted(exports)))
  {
    if exports != [] {
      var n := |exports| - 1;
      FilesAreRead(results[..n], exports[..n]);
      var init, last := AllPosted(exports[..n]), PostedIn(exports[n]);
      assert Map(RowOfPosted, init + last) == Map(RowOfPosted, init) + Map(RowOfPosted, last);
    }
  }

  /** The frame of a deposit account's exports. */
  lemma {:induction false} ExportsAreFramed(
    fold: string -> string, parse: (string, Cell) -> Option<Date>, write: Date -> string, account: string,
    exports: seq<Export>, files: seq<File>)
    requires Separates(fold) && account != "CreditCard" && exports != [] && files == Files(write, exports)
    requires forall k | 0 <= k < |exports| :: Readable(parse, write, exports[k])
    ensures Frame(fold, parse, files, account)
         == Ok(FrameRows(account, Map(RowOfPosted, AllPosted(exports))))
  {
    var results := FileResults(fold, parse, files, account);
    forall k | 0 <= k < |exports|
      ensures results[k] == Ok(Map(RowOfPosted, PostedIn(exports[k])))
      ensures DetectSchema(fold, files[k].header).Ok?
    {
      ExportIsRead(fold, parse, write, account, exports[k]);
    }
    NoneUndeclared(fold, files);
    FilesAreRead(results, exports);
  }

  /**
   * Any exports of an account that is not the card, in either layout: if the balances they
   * state are true of the account's days, and at least one is stated, every entry of every
   * file is published by date with its own debit and credit and the account's true balance.
   */
  lemma {:induction false} DepositsArePublishedTrue(
    fold: string -> string, parse: (string, Cell) -> Option<Date>, write: Date -> string, account: string,
    exports: seq<Export>, files: seq<File>, opening: int)
    requires Separates(fold) && account != "CreditCard" && exports != [] && files == Files(write, exports)
    requires forall k | 0 <= k < |exports| :: Readable(parse, write, exports[k])
    requires StatedIsTrue(DepositHistory(exports), opening) && SomeStated(DepositHistory(exports))
    ensures Frame(fold, parse, files, account).Ok?
    ensures PublishesAll(Frame(fold, parse, files, account).value, account, DepositHistory(exports), opening)
  {
    var history := DepositHistory(exports);
    var money := Map(MoneyOfRow, Map(RowOfPosted, history));
    ExportsAreFramed(fold, parse, write, account, exports, files);
    HistoryIsFaithful(exports);
    MoneyIsTruthful(history, money, opening);
    PostsArePublished(account, Map(RowOfPosted, AllPosted(exports)), history, money, opening);
  }

  function OnDay(d: Date): Posted -> bool {
    (p: Posted) => p.entry.date == d
  }

  /** The history never steps back, holds every entry once, and lists each day's entries as the files do. */
  lemma {:induction false} DepositHistoryIsByDate(exports: seq<Export>, day: Date)
    ensures Sorted(PostedBefore, DepositHistory(exports))
    ensures multiset(DepositHistory(exports)) == multiset(AllPosted(exports))
    ensures Filter(OnDay(day), DepositHistory(exports)) == Filter(OnDay(day), AllPosted(exports))
  {
    SortBySorts(PostedBefore, AllPosted(exports));
    SortKeepsTies(PostedBefore, OnDay(day), AllPosted(exports));
  }
}
