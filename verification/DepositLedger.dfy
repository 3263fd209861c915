/** A deposit account's ledger, read back as it was printed. */
module DepositLedger {
  import opened Prelude
  import opened Calendar
  import opened Golden1Schema
  import opened Golden1File
  import opened CardLedger

  // Every account but the card states cash flow and what it holds, in either layout, so
  // conforming it changes no sign and no balance. The second layout is printed as the
  // card's is; the first differs, a card's being signed by its issuer.

  /** The first layout: the account's own signs and balances. */
  function PrintV1(write: Date -> string, e: Entry): (cells: seq<Cell>)
    ensures |cells| == |V1.header|
  {
    [Text(write(e.date)), e.reference, e.kind, Text(e.description), MoneyCell(e.debit), MoneyCell(e.credit), e.check,
     MoneyCell(e.stated)]
  }

  function PrintsV1(write: Date -> string, ledger: seq<Entry>): (rows: seq<seq<Cell>>)
    ensures |rows| == |ledger| && forall i | 0 <= i < |rows| :: |rows[i]| == |V1.header|
  {
    Map(e => PrintV1(write, e), ledger)
  }

  function DepositFileV1(write: Date -> string, ledger: seq<Entry>): (f: File)
    ensures Rectangular(f)
  {
    FileOf(V1.header, PrintsV1(write, ledger))
  }

  /** The entry as it stands. */
  function DepositV1(e: Entry): LedgerRow {
    LedgerRow(e.date,
      LegacyRow(e.reference, e.kind, Text(e.description), e.debit, e.credit, e.check, e.stated), "golden1.v1")
  }

  /** The entry as it stands, its direction derived and what the layout lacks left blank. */
  function DepositV2(e: Entry): LedgerRow {
    LedgerRow(e.date, PrintedV2(e), "golden1.v2")
  }

  lemma {:induction false} DepositConvention(version: string, account: string)
    requires account != "CreditCard"
    ensures ConventionFor(version, account) == Convention(CashFlow, Asset)
  {
  }

  lemma {:induction false} NothingRestated(r: LegacyRow)
    ensures CanonicalSigns(Convention(CashFlow, Asset), r) == r
  {
  }

  lemma {:induction false} PrintedCells(write: Date -> string, ledger: seq<Entry>, columns: Columns, i: nat)
    requires i < |ledger|
    requires forall c: LegacyColumn :: c in columns && columns[c] == Column(PrintsV1(write, ledger), IndexV1(c))
    ensures IsFrame(columns, |ledger|)
    ensures forall c: LegacyColumn :: columns[c][i] == PrintV1(write, ledger[i])[IndexV1(c)]
  {
  }

  lemma {:induction false} PrintedRow(write: Date -> string, ledger: seq<Entry>, columns: Columns, i: nat)
    requires i < |ledger|
    requires forall c: LegacyColumn :: c in columns && columns[c] == Column(PrintsV1(write, ledger), IndexV1(c))
    ensures IsFrame(columns, |ledger|)
    ensures columns[DateCol][i] == Text(write(ledger[i].date))
    ensures RowAt(columns, |ledger|, i) == DepositV1(ledger[i]).row
  {
    PrintedCells(write, ledger, columns, i);
  }

  lemma {:induction false} DepositFrameV1(
    parse: (string, Cell) -> Option<Date>, write: Date -> string, account: string, ledger: seq<Entry>,
    columns: Columns)
    requires account != "CreditCard" && ReadsBack(parse, write, ledger)
    requires forall c: LegacyColumn :: c in columns && columns[c] == Column(PrintsV1(write, ledger), IndexV1(c))
    ensures IsFrame(columns, |ledger|)
    ensures FrameOf(parse, V1, account, columns, |ledger|) == Ok(Map(DepositV1, ledger))
  {
    DepositConvention(V1.version, account);
    forall i | 0 <= i < |ledger|
      ensures columns[DateCol][i] == Text(write(ledger[i].date))
      ensures CanonicalSigns(ConventionFor(V1.version, account), RowAt(columns, |ledger|, i))
           == DepositV1(ledger[i]).row
    {
      PrintedRow(write, ledger, columns, i);
      NothingRestated(DepositV1(ledger[i]).row);
    }
    FrameFromRows(parse, V1, account, columns, Map(DepositV1, ledger));
  }

  /** The first layout is always read: every entry as it stands, in the order it is written. */
  lemma {:induction false} FirstLayoutIsRead(
    fold: string -> string, parse: (string, Cell) -> Option<Date>, write: Date -> string, account: string,
    ledger: seq<Entry>)
    requires Separates(fold) && ReadsBack(parse, write, ledger) && account != "CreditCard"
    ensures Normalized(fold, parse, DepositFileV1(write, ledger), account) == Ok(Map(DepositV1, ledger))
  {
    DeclaredHeadersAreDetected(fold);
    V1IsPlaced();
    ColumnsOfFirst(fold, V1, IndexV1, PrintsV1(write, ledger));
    var columns := LegacyColumns(fold, DepositFileV1(write, ledger), V1);
    NormalizedFrom(fold, parse, DepositFileV1(write, ledger), account, V1, columns);
    DepositFrameV1(parse, write, account, ledger, columns.value);
  }

  lemma {:induction false} DepositFrameV2(
    parse: (string, Cell) -> Option<Date>, write: Date -> string, account: string, newest: seq<Entry>,
    rows: seq<seq<Cell>>, columns: Columns)
    requires account != "CreditCard" && ReadsBack(parse, write, newest)
    requires rows == RowsV2(write, newest) && AreColumnsV2(newest, rows, columns)
    ensures FrameOf(parse, V2, account, columns, |rows|) == ToOldestFirst(V2.rowOrder, Map(DepositV2, newest))
  {
    DepositConvention(V2.version, account);
    forall i | 0 <= i < |newest|
      ensures columns[DateCol][i] == Text(write(newest[i].date))
      ensures CanonicalSigns(ConventionFor(V2.version, account), RowAt(columns, |rows|, i))
           == DepositV2(newest[i]).row
    {
      RowAtV2(write, newest, rows, columns, i);
      NothingRestated(PrintedV2(newest[i]));
    }
    FrameFromRows(parse, V2, account, columns, Map(DepositV2, newest));
  }

  /** The second is read exactly when no entry moves money both ways and the dates never step back. */
  lemma {:induction false} SecondLayoutIsRead(
    fold: string -> string, parse: (string, Cell) -> Option<Date>, write: Date -> string, account: string,
    ledger: seq<Entry>)
    requires Separates(fold) && ReadsBack(parse, write, ledger) && account != "CreditCard"
    ensures Normalized(fold, parse, FileV2(write, ledger), account)
         == if !OneSided(ledger) then Err(TwoSidedRow)
            else if !InDateOrder(ledger) then Err(NotNewestFirst)
            else Ok(Map(DepositV2, ledger))
  {
    DeclaredHeadersAreDetected(fold);
    V2IsPlaced();
    var newest := Reversed(ledger);
    var rows, columns := RowsV2(write, newest), LegacyColumns(fold, FileV2(write, ledger), V2);
    ColumnsOfV2(fold, write, newest, rows, columns);
    OneSidedReversed(ledger, newest);
    NormalizedFrom(fold, parse, FileV2(write, ledger), account, V2, columns);
    if OneSided(ledger) {
      DepositFrameOf(parse, write, account, ledger, rows, columns.value);
    }
  }

  lemma {:induction false} DepositFrameOf(
    parse: (string, Cell) -> Option<Date>, write: Date -> string, account: string, ledger: seq<Entry>,
    rows: seq<seq<Cell>>, columns: Columns)
    requires account != "CreditCard" && ReadsBack(parse, write, ledger)
    requires rows == RowsV2(write, Reversed(ledger)) && AreColumnsV2(Reversed(ledger), rows, columns)
    ensures FrameOf(parse, V2, account, columns, |rows|)
         == if InDateOrder(ledger) then Ok(Map(DepositV2, ledger)) else Err(NotNewestFirst)
  {
    V2IsNewestFirst();
    ReadsBackReversed(parse, write, ledger);
    DepositFrameV2(parse, write, account, Reversed(ledger), rows, columns);
    ReversedOrder(DepositV2, ledger, Map(DepositV2, Reversed(ledger)));
  }
}
