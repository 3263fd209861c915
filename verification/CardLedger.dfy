/**
 * One card ledger, written down by either export and read back the same. The first
 * export signs money as the issuer does and states no balance; the second signs it as
 * cash flow, lists it newest first and states what is owed. Both are printed here cell
 * by cell, so that conforming them can be shown to undo the printing.
 */
module CardLedger {
  import opened Prelude
  import opened Calendar
  import opened Golden1Schema
  import opened Golden1File

  /**
   * A transaction as it happened: money out negative, money in positive, what the bank
   * states after it where it does, a debt on a card and a holding elsewhere, and the cells
   * only one export or the other keeps.
   */
  datatype Entry = Entry(
    date: Date,
    description: string,
    debit: Option<int>,
    credit: Option<int>,
    stated: Option<int>,
    reference: Cell,
    kind: Cell,
    check: Cell,
    account: Cell,
    accountType: Cell,
    category: Cell)

  function MoneyCell(money: Option<int>): Cell {
    if money.Some? then Amount(money.value) else Blank
  }

  /** The first export: the issuer's signs, and a literal zero for every balance. */
  function CellsV1(write: Date -> string, e: Entry): (cells: seq<Cell>)
    ensures |cells| == |V1.header|
  {
    [Text(write(e.date)), e.reference, e.kind, Text(e.description), MoneyCell(Negate(e.debit)),
     MoneyCell(Negate(e.credit)), e.check, Amount(0)]
  }

  /** The second export: cash-flow signs, credit before debit, and the debt as the balance. */
  function CellsV2(write: Date -> string, e: Entry): (cells: seq<Cell>)
    ensures |cells| == |V2.header|
  {
    [Text(write(e.date)), e.account, e.accountType, Text(e.description), e.check, e.category,
     MoneyCell(e.credit), MoneyCell(e.debit), MoneyCell(e.stated)]
  }

  function Column(rows: seq<seq<Cell>>, k: nat): (column: seq<Cell>)
    requires forall i | 0 <= i < |rows| :: k < |rows[i]|
    ensures |column| == |rows|
  {
    seq(|rows|, i requires 0 <= i < |rows| => rows[i][k])
  }

  function FileOf(header: seq<string>, rows: seq<seq<Cell>>): (f: File)
    requires forall i | 0 <= i < |rows| :: |rows[i]| == |header|
    ensures Rectangular(f)
  {
    File(header, seq(|header|, k requires 0 <= k < |header| => Column(rows, k)), |rows|)
  }

  function RowsV1(write: Date -> string, ledger: seq<Entry>): (rows: seq<seq<Cell>>)
    ensures |rows| == |ledger| && forall i | 0 <= i < |rows| :: |rows[i]| == |V1.header|
  {
    Map(e => CellsV1(write, e), ledger)
  }

  function RowsV2(write: Date -> string, newest: seq<Entry>): (rows: seq<seq<Cell>>)
    ensures |rows| == |newest| && forall i | 0 <= i < |rows| :: |rows[i]| == |V2.header|
  {
    Map(e => CellsV2(write, e), newest)
  }

  function FileV1(write: Date -> string, ledger: seq<Entry>): (f: File)
    ensures Rectangular(f)
  {
    FileOf(V1.header, RowsV1(write, ledger))
  }

  function FileV2(write: Date -> string, ledger: seq<Entry>): (f: File)
    ensures Rectangular(f)
  {
    FileOf(V2.header, RowsV2(write, Reversed(ledger)))
  }

  /** What the pipeline should make of an entry read from the first export. */
  function RowV1(e: Entry): LedgerRow {
    LedgerRow(e.date, LegacyRow(e.reference, e.kind, Text(e.description), e.debit, e.credit, e.check, None),
      "golden1.v1")
  }

  function Direction(e: Entry): Cell {
    if e.credit.Some? then Text("CREDIT") else if e.debit.Some? then Text("DEBIT") else Blank
  }

  /** What it should make of one read from the second: a debt lowers net worth. */
  function RowV2(e: Entry): LedgerRow {
    LedgerRow(e.date,
      LegacyRow(Blank, Direction(e), Text(e.description), e.debit, e.credit, e.check, Negate(e.stated)), "golden1.v2")
  }

  ghost predicate OneSided(ledger: seq<Entry>) {
    forall i | 0 <= i < |ledger| :: ledger[i].debit.None? || ledger[i].credit.None?
  }

  ghost predicate InDateOrder(ledger: seq<Entry>) {
    forall i | 0 <= i < |ledger| - 1 :: !Before(ledger[i + 1].date, ledger[i].date)
  }

  /** The declared format reads back the ledger's dates as they were written. */
  ghost predicate ReadsBack(parse: (string, Cell) -> Option<Date>, write: Date -> string, ledger: seq<Entry>) {
    forall i | 0 <= i < |ledger| :: parse("%m/%d/%Y", Text(write(ledger[i].date))) == Some(ledger[i].date)
  }

  // ---- Reading a printed column back by its name ----------------------------------------

  lemma {:induction false} ColumnAt(fold: string -> string, header: seq<string>, k: nat)
    requires k < |header| && !HasDuplicates(fold, header)
    ensures ColumnIndex(fold, header, header[k]) == k
  {
    assert forall i | 0 <= i < k :: fold(header[i]) != fold(header[k]);
  }

  lemma {:induction false} SourceReadsBack(
    fold: string -> string, header: seq<string>, rows: seq<seq<Cell>>, source: ColumnSource, k: nat)
    requires forall i | 0 <= i < |rows| :: |rows[i]| == |header|
    requires k < |header| && !HasDuplicates(fold, header) && source == From(header[k])
    ensures SourceColumn(fold, FileOf(header, rows), source) == Column(rows, k)
  {
    ColumnAt(fold, header, k);
  }

  /** Where each export keeps each legacy column; `9` stands for nowhere. */
  function IndexV1(c: LegacyColumn): nat {
    match c
    case DateCol => 0
    case ReferenceCol => 1
    case TypeCol => 2
    case DescriptionCol => 3
    case DebitCol => 4
    case CreditCol => 5
    case CheckCol => 6
    case BalanceCol => 7
  }

  function IndexV2(c: LegacyColumn): nat {
    match c
    case DateCol => 0
    case ReferenceCol => 9
    case TypeCol => 9
    case DescriptionCol => 3
    case DebitCol => 7
    case CreditCol => 6
    case CheckCol => 4
    case BalanceCol => 8
  }

  lemma {:induction false} SourceOfV1(c: LegacyColumn)
    ensures c in V1.sources && V1.sources[c] == From(V1.header[IndexV1(c)])
  {
    match c
    case DateCol =>
    case ReferenceCol =>
    case TypeCol =>
    case DescriptionCol =>
    case DebitCol =>
    case CreditCol =>
    case CheckCol =>
    case BalanceCol =>
  }

  lemma {:induction false} SourceOfV2(c: LegacyColumn)
    ensures c in V2.sources
    ensures IndexV2(c) < 9 ==> V2.sources[c] == From(V2.header[IndexV2(c)])
    ensures c == TypeCol <==> V2.sources[c] == TypeFromMoney
    ensures c == ReferenceCol ==> V2.sources[c] == NotInSource
  {
    match c
    case DateCol =>
    case ReferenceCol =>
    case TypeCol =>
    case DescriptionCol =>
    case DebitCol =>
    case CreditCol =>
    case CheckCol =>
    case BalanceCol =>
  }

  /** `index` says where a schema's header keeps each column it has. */
  ghost predicate Places(spec: Schema, index: LegacyColumn -> nat) {
    forall c: LegacyColumn :: c in spec.sources && PlacesOne(spec.header, spec.sources[c], index(c))
  }

  predicate PlacesOne(header: seq<string>, source: ColumnSource, k: nat) {
    source.From? ==> k < |header| && source.name == header[k]
  }

  lemma {:induction false} ColumnsReadBack(
    fold: string -> string, spec: Schema, index: LegacyColumn -> nat, rows: seq<seq<Cell>>)
    requires WellDeclared(spec) && Places(spec, index) && !HasDuplicates(fold, spec.header)
    requires forall i | 0 <= i < |rows| :: |rows[i]| == |spec.header|
    ensures forall c: LegacyColumn | spec.sources[c].From? ::
              SourceColumn(fold, FileOf(spec.header, rows), spec.sources[c]) == Column(rows, index(c))
  {
    forall c: LegacyColumn | spec.sources[c].From?
      ensures SourceColumn(fold, FileOf(spec.header, rows), spec.sources[c]) == Column(rows, index(c))
    {
      assert PlacesOne(spec.header, spec.sources[c], index(c));
      SourceReadsBack(fold, spec.header, rows, spec.sources[c], index(c));
    }
  }

  lemma {:induction false} V1IsPlaced()
    ensures WellDeclared(V1) && Places(V1, IndexV1) && forall c: LegacyColumn :: V1.sources[c].From?
  {
    forall c: LegacyColumn
      ensures c in V1.sources && V1.sources[c] == From(V1.header[IndexV1(c)])
    {
      SourceOfV1(c);
    }
  }

  lemma {:induction false} V2IsPlaced()
    ensures WellDeclared(V2) && Places(V2, IndexV2)
    ensures V2.sources[TypeCol] == TypeFromMoney && V2.sources[ReferenceCol] == NotInSource
    ensures forall c: LegacyColumn | c != TypeCol && c != ReferenceCol :: V2.sources[c].From?
  {
    forall c: LegacyColumn
      ensures c in V2.sources && PlacesOne(V2.header, V2.sources[c], IndexV2(c))
      ensures c != TypeCol && c != ReferenceCol ==> V2.sources[c].From?
    {
      SourceOfV2(c);
    }
  }

  lemma {:induction false} ColumnsOfFirst(
    fold: string -> string, spec: Schema, index: LegacyColumn -> nat, rows: seq<seq<Cell>>)
    requires WellDeclared(spec) && Places(spec, index) && !HasDuplicates(fold, spec.header)
    requires forall i | 0 <= i < |rows| :: |rows[i]| == |spec.header|
    requires forall c: LegacyColumn :: spec.sources[c].From?
    ensures LegacyColumns(fold, FileOf(spec.header, rows), spec).Ok?
    ensures forall c: LegacyColumn ::
              LegacyColumns(fold, FileOf(spec.header, rows), spec).value[c] == Column(rows, index(c))
  {
    ColumnsReadBack(fold, spec, index, rows);
  }

  lemma {:induction false} CellsFromV1(write: Date -> string, ledger: seq<Entry>, columns: Columns, i: nat)
    requires i < |ledger|
    requires forall c: LegacyColumn :: c in columns && columns[c] == Column(RowsV1(write, ledger), IndexV1(c))
    ensures IsFrame(columns, |ledger|)
    ensures forall c: LegacyColumn :: columns[c][i] == CellsV1(write, ledger[i])[IndexV1(c)]
  {
  }

  lemma {:induction false} RowFromV1(write: Date -> string, ledger: seq<Entry>, columns: Columns, i: nat)
    requires i < |ledger|
    requires forall c: LegacyColumn :: c in columns && columns[c] == Column(RowsV1(write, ledger), IndexV1(c))
    ensures IsFrame(columns, |ledger|)
    ensures columns[DateCol][i] == Text(write(ledger[i].date))
    ensures CanonicalSigns(ConventionFor(V1.version, CREDIT_CARD), RowAt(columns, |ledger|, i)) == RowV1(ledger[i]).row
  {
    var e := ledger[i];
    CellsFromV1(write, ledger, columns, i);
    assert RowAt(columns, |ledger|, i)
        == LegacyRow(e.reference, e.kind, Text(e.description), Negate(e.debit), Negate(e.credit), e.check, Some(0));
  }

  lemma {:induction false} NormalizedFrom(
    fold: string -> string, parse: (string, Cell) -> Option<Date>, f: File, account: string, spec: Schema,
    columns: Result<Columns, FileError>)
    requires Rectangular(f) && WellDeclared(spec) && DetectSchema(fold, f.header) == Ok(spec)
    requires columns == LegacyColumns(fold, f, spec)
    ensures columns.Err? ==> Normalized(fold, parse, f, account) == Err(columns.error)
    ensures columns.Ok? ==>
              Normalized(fold, parse, f, account) == FrameOf(parse, spec, account, columns.value, f.count)
  {
  }

  /** The first export is always read, in the order it is written. */
  lemma {:induction false} FirstExportIsRead(
    fold: string -> string, parse: (string, Cell) -> Option<Date>, write: Date -> string, ledger: seq<Entry>)
    requires Separates(fold) && ReadsBack(parse, write, ledger)
    ensures Normalized(fold, parse, FileV1(write, ledger), CREDIT_CARD) == Ok(Map(RowV1, ledger))
  {
    DeclaredHeadersAreDetected(fold);
    V1IsPlaced();
    ColumnsOfFirst(fold, V1, IndexV1, RowsV1(write, ledger));
    var columns := LegacyColumns(fold, FileV1(write, ledger), V1);
    NormalizedFrom(fold, parse, FileV1(write, ledger), CREDIT_CARD, V1, columns);
    FrameOfV1(parse, write, ledger, columns.value);
  }

  lemma {:induction false} FrameFromRows(
    parse: (string, Cell) -> Option<Date>, spec: Schema, account: string, columns: Columns, rows: seq<LedgerRow>)
    requires IsFrame(columns, |rows|)
    requires forall i | 0 <= i < |rows| ::
               && parse(spec.dateFormat, columns[DateCol][i]) == Some(rows[i].date)
               && CanonicalSigns(ConventionFor(spec.version, account), RowAt(columns, |rows|, i)) == rows[i].row
               && rows[i].version == spec.version
    ensures FrameOf(parse, spec, account, columns, |rows|) == ToOldestFirst(spec.rowOrder, rows)
  {
    assert seq(|rows|, i requires 0 <= i < |rows| =>
      LedgerRow(parse(spec.dateFormat, columns[DateCol][i]).value,
        CanonicalSigns(ConventionFor(spec.version, account), RowAt(columns, |rows|, i)), spec.version)) == rows;
  }

  lemma {:induction false} FrameOfV1(
    parse: (string, Cell) -> Option<Date>, write: Date -> string, ledger: seq<Entry>, columns: Columns)
    requires ReadsBack(parse, write, ledger)
    requires forall c: LegacyColumn :: c in columns && columns[c] == Column(RowsV1(write, ledger), IndexV1(c))
    ensures IsFrame(columns, |ledger|)
    ensures FrameOf(parse, V1, CREDIT_CARD, columns, |ledger|) == Ok(Map(RowV1, ledger))
  {
    forall i | 0 <= i < |ledger|
      ensures columns[DateCol][i] == Text(write(ledger[i].date))
      ensures CanonicalSigns(ConventionFor(V1.version, CREDIT_CARD), RowAt(columns, |ledger|, i))
           == RowV1(ledger[i]).row
    {
      RowFromV1(write, ledger, columns, i);
    }
    FrameFromRows(parse, V1, CREDIT_CARD, columns, Map(RowV1, ledger));
  }

  // ---- The second export ------------------------------------------------------------------

  /** A layout with derived types, no references, and debits and credits where the second export has them. */
  ghost predicate IsSecondLayout(fold: string -> string, spec: Schema, index: LegacyColumn -> nat) {
    && WellDeclared(spec) && Places(spec, index) && !HasDuplicates(fold, spec.header)
    && spec.sources[TypeCol] == TypeFromMoney && spec.sources[ReferenceCol] == NotInSource
    && (forall c: LegacyColumn | c != TypeCol && c != ReferenceCol :: spec.sources[c].From?)
    && |spec.header| == 9 && index(DebitCol) == 7 && index(CreditCol) == 6
  }

  lemma {:induction false} V2IsSecondLayout(fold: string -> string)
    requires Separates(fold)
    ensures IsSecondLayout(fold, V2, IndexV2)
  {
    DeclaredHeadersAreDetected(fold);
    V2IsPlaced();
  }

  lemma {:induction false} ColumnsOfSecond(
    fold: string -> string, spec: Schema, index: LegacyColumn -> nat, rows: seq<seq<Cell>>,
    kind: Result<seq<Cell>, FileError>, r: Result<Columns, FileError>)
    requires IsSecondLayout(fold, spec, index) && forall i | 0 <= i < |rows| :: |rows[i]| == |spec.header|
    requires kind == Directions(Column(rows, 7), Column(rows, 6))
    requires r == LegacyColumns(fold, FileOf(spec.header, rows), spec)
    ensures kind.Err? ==> r == Err(kind.error)
    ensures kind.Ok? ==> r.Ok? && r.value[TypeCol] == kind.value && r.value[ReferenceCol] == Blanks(|rows|)
    ensures kind.Ok? ==> forall c: LegacyColumn | c != TypeCol && c != ReferenceCol ::
              r.value[c] == Column(rows, index(c))
  {
    ColumnsReadBack(fold, spec, index, rows);
  }

  lemma {:induction false} DirectionsOfV2(
    write: Date -> string, newest: seq<Entry>, rows: seq<seq<Cell>>, kind: Result<seq<Cell>, FileError>)
    requires rows == RowsV2(write, newest) && kind == Directions(Column(rows, 7), Column(rows, 6))
    ensures OneSided(newest) ==> kind == Ok(Map(Direction, newest))
    ensures !OneSided(newest) ==> kind == Err(TwoSidedRow)
  {
    var debit, credit := Column(rows, 7), Column(rows, 6);
    forall i | 0 <= i < |newest|
      ensures debit[i] == MoneyCell(newest[i].debit) && credit[i] == MoneyCell(newest[i].credit)
    {
      assert rows[i] == CellsV2(write, newest[i]);
    }
    if OneSided(newest) {
      assert kind.Ok?;
      assert kind.value == Map(Direction, newest);
    }
  }

  /** The columns the second export conforms to, once its directions are derived. */
  ghost predicate AreColumnsV2(newest: seq<Entry>, rows: seq<seq<Cell>>, columns: Columns)
    requires forall i | 0 <= i < |rows| :: |rows[i]| == |V2.header|
  {
    && IsFrame(columns, |rows|)
    && columns[TypeCol] == Map(Direction, newest)
    && columns[ReferenceCol] == Blanks(|rows|)
    && forall c: LegacyColumn | c != TypeCol && c != ReferenceCol :: columns[c] == Column(rows, IndexV2(c))
  }

  lemma {:induction false} CardConventionOfV2()
    ensures ConventionFor(V2.version, CREDIT_CARD) == Convention(CashFlow, Debt)
  {
    assert |V1.version| == |V2.version| && V1.version[|V1.version| - 1] != V2.version[|V1.version| - 1];
  }

  /** What the second layout holds of an entry, before its signs are restated. */
  function PrintedV2(e: Entry): LegacyRow {
    LegacyRow(Blank, Direction(e), Text(e.description), e.debit, e.credit, e.check, e.stated)
  }

  lemma {:induction false} RowAtV2(
    write: Date -> string, newest: seq<Entry>, rows: seq<seq<Cell>>, columns: Columns, i: nat)
    requires rows == RowsV2(write, newest) && i < |rows| && AreColumnsV2(newest, rows, columns)
    ensures columns[DateCol][i] == Text(write(newest[i].date))
    ensures RowAt(columns, |rows|, i) == PrintedV2(newest[i])
  {
    var e := newest[i];
    var cells := CellsV2(write, e);
    assert forall c: LegacyColumn | c != TypeCol && c != ReferenceCol :: columns[c][i] == cells[IndexV2(c)];
  }

  lemma {:induction false} FrameOfV2(
    parse: (string, Cell) -> Option<Date>, write: Date -> string, newest: seq<Entry>, rows: seq<seq<Cell>>,
    columns: Columns)
    requires ReadsBack(parse, write, newest) && rows == RowsV2(write, newest) && AreColumnsV2(newest, rows, columns)
    ensures FrameOf(parse, V2, CREDIT_CARD, columns, |rows|) == ToOldestFirst(V2.rowOrder, Map(RowV2, newest))
  {
    CardConventionOfV2();
    forall i | 0 <= i < |newest|
      ensures columns[DateCol][i] == Text(write(newest[i].date))
      ensures CanonicalSigns(Convention(CashFlow, Debt), RowAt(columns, |rows|, i)) == RowV2(newest[i]).row
    {
      RowAtV2(write, newest, rows, columns, i);
    }
    FrameFromRows(parse, V2, CREDIT_CARD, columns, Map(RowV2, newest));
  }

  lemma {:induction false} ColumnsOfV2(
    fold: string -> string, write: Date -> string, newest: seq<Entry>, rows: seq<seq<Cell>>,
    columns: Result<Columns, FileError>)
    requires Separates(fold) && WellDeclared(V2) && rows == RowsV2(write, newest)
    requires columns == LegacyColumns(fold, FileOf(V2.header, rows), V2)
    ensures OneSided(newest) ==> columns.Ok? && AreColumnsV2(newest, rows, columns.value)
    ensures !OneSided(newest) ==> columns == Err(TwoSidedRow)
  {
    V2IsSecondLayout(fold);
    var kind := Directions(Column(rows, 7), Column(rows, 6));
    DirectionsOfV2(write, newest, rows, kind);
    ColumnsOfSecond(fold, V2, IndexV2, rows, kind, columns);
  }

  lemma {:induction false} OneSidedReversed(ledger: seq<Entry>, newest: seq<Entry>)
    requires newest == Reversed(ledger)
    ensures OneSided(newest) <==> OneSided(ledger)
  {
    assert forall i | 0 <= i < |ledger| :: ledger[i] == newest[|ledger| - 1 - i];
  }

  lemma {:induction false} ReadsBackReversed(
    parse: (string, Cell) -> Option<Date>, write: Date -> string, ledger: seq<Entry>)
    requires ReadsBack(parse, write, ledger)
    ensures ReadsBack(parse, write, Reversed(ledger))
  {
  }

  lemma {:induction false} ReversedOrder(show: Entry -> LedgerRow, ledger: seq<Entry>, shown: seq<LedgerRow>)
    requires shown == Map(show, Reversed(ledger)) && forall e :: show(e).date == e.date
    ensures NewestFirst(shown) == InDateOrder(ledger)
    ensures Reversed(shown) == Map(show, ledger)
  {
    var n := |ledger|;
    assert forall i | 0 <= i < n :: shown[i].date == ledger[n - 1 - i].date;
    if NewestFirst(shown) {
      forall i | 0 <= i < n - 1 ensures !Before(ledger[i + 1].date, ledger[i].date) {
        assert !Before(shown[n - 2 - i].date, shown[n - 2 - i + 1].date);
      }
    }
    if InDateOrder(ledger) {
      forall i | 0 <= i < n - 1 ensures !Before(shown[i].date, shown[i + 1].date) {
        assert !Before(ledger[n - 2 - i + 1].date, ledger[n - 2 - i].date);
      }
    }
  }

  lemma {:induction false} V2IsNewestFirst()
    ensures V2.rowOrder == Descending
  {
  }

  /** The second export is read exactly when no entry moves money both ways and the dates never step back. */
  lemma {:induction false} SecondExportIsRead(
    fold: string -> string, parse: (string, Cell) -> Option<Date>, write: Date -> string, ledger: seq<Entry>)
    requires Separates(fold) && ReadsBack(parse, write, ledger)
    ensures Normalized(fold, parse, FileV2(write, ledger), CREDIT_CARD)
         == if !OneSided(ledger) then Err(TwoSidedRow)
            else if !InDateOrder(ledger) then Err(NotNewestFirst)
            else Ok(Map(RowV2, ledger))
  {
    DeclaredHeadersAreDetected(fold);
    V2IsPlaced();
    var newest := Reversed(ledger);
    var rows, columns := RowsV2(write, newest), LegacyColumns(fold, FileV2(write, ledger), V2);
    ColumnsOfV2(fold, write, newest, rows, columns);
    OneSidedReversed(ledger, newest);
    NormalizedFrom(fold, parse, FileV2(write, ledger), CREDIT_CARD, V2, columns);
    if OneSided(ledger) {
      CardFrameOf(parse, write, ledger, rows, columns.value);
    }
  }

  lemma {:induction false} CardFrameOf(
    parse: (string, Cell) -> Option<Date>, write: Date -> string, ledger: seq<Entry>, rows: seq<seq<Cell>>,
    columns: Columns)
    requires ReadsBack(parse, write, ledger)
    requires rows == RowsV2(write, Reversed(ledger)) && AreColumnsV2(Reversed(ledger), rows, columns)
    ensures FrameOf(parse, V2, CREDIT_CARD, columns, |rows|)
         == if InDateOrder(ledger) then Ok(Map(RowV2, ledger)) else Err(NotNewestFirst)
  {
    V2IsNewestFirst();
    ReadsBackReversed(parse, write, ledger);
    FrameOfV2(parse, write, Reversed(ledger), rows, columns);
    ReversedOrder(RowV2, ledger, Map(RowV2, Reversed(ledger)));
  }

  /**
   * A card ledger conforms to the same dates, descriptions, debits and credits, in the
   * same order, whichever export wrote it down; and where the second states what is
   * owed, it arrives as that much less net worth.
   */
  lemma {:induction false} BothExportsConformAlike(
    fold: string -> string, parse: (string, Cell) -> Option<Date>, write: Date -> string, ledger: seq<Entry>,
    first: Result<seq<LedgerRow>, FileError>, second: Result<seq<LedgerRow>, FileError>)
    requires Separates(fold) && ReadsBack(parse, write, ledger)
    requires first == Normalized(fold, parse, FileV1(write, ledger), CREDIT_CARD)
    requires second == Normalized(fold, parse, FileV2(write, ledger), CREDIT_CARD)
    ensures first.Ok? && |first.value| == |ledger|
    ensures second.Ok? <==> OneSided(ledger) && InDateOrder(ledger)
    ensures second.Ok? ==> |second.value| == |ledger|
    ensures second.Ok? ==> forall i | 0 <= i < |ledger| ::
              && first.value[i].date == second.value[i].date == ledger[i].date
              && first.value[i].row.description == second.value[i].row.description == Text(ledger[i].description)
              && first.value[i].row.debit == second.value[i].row.debit == ledger[i].debit
              && first.value[i].row.credit == second.value[i].row.credit == ledger[i].credit
              && first.value[i].row.balance == None
              && second.value[i].row.balance == Negate(ledger[i].stated)
  {
    FirstExportIsRead(fold, parse, write, ledger);
    SecondExportIsRead(fold, parse, write, ledger);
  }
}
