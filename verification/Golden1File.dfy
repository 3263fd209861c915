/** One Golden1 file conformed to the legacy columns. */
module Golden1File {
  import opened Prelude
  import opened Calendar
  import opened Golden1Schema

  // By name, restated to one sign convention, oldest row first.

  /** A parsed CSV cell; a blank one is missing, and $0.00 is not blank. */
  datatype Cell = Blank | Text(s: string) | Amount(cents: int)

  /** A parsed file, column by column under its header. */
  datatype File = File(header: seq<string>, columns: seq<seq<Cell>>, count: nat)

  ghost predicate Rectangular(f: File) {
    |f.columns| == |f.header| && forall k | 0 <= k < |f.columns| :: |f.columns[k]| == f.count
  }

  /** One row by legacy name, before and after its signs are restated; its date is parsed apart. */
  datatype LegacyRow = LegacyRow(
    reference: Cell,
    kind: Cell,
    description: Cell,
    debit: Option<int>,
    credit: Option<int>,
    check: Cell,
    balance: Option<int>)

  datatype LedgerRow = LedgerRow(date: Date, row: LegacyRow, version: string)

  datatype FileError = BadSchema(error: SchemaError) | TwoSidedRow | UnreadableDate | NotNewestFirst

  function MoneyOf(c: Cell): Option<int> {
    if c.Amount? then Some(c.cents) else None
  }

  /** The first column whose folded name is this one's. */
  function ColumnIndex(fold: string -> string, header: seq<string>, name: string): (i: nat)
    ensures i <= |header|
    ensures forall k | 0 <= k < i :: fold(header[k]) != fold(name)
    ensures i < |header| ==> fold(header[i]) == fold(name)
  {
    if header == [] || fold(header[0]) == fold(name) then 0 else 1 + ColumnIndex(fold, header[1..], name)
  }

  function ColumnNamed(fold: string -> string, f: File, name: string): (column: seq<Cell>)
    requires Rectangular(f)
    ensures |column| == f.count
  {
    var i := ColumnIndex(fold, f.header, name);
    if i < |f.header| then f.columns[i] else Blanks(f.count)
  }

  function Blanks(n: nat): seq<Cell> {
    seq(n, _ => Blank)
  }

  /** A legacy column before any is derived. */
  function SourceColumn(fold: string -> string, f: File, source: ColumnSource): (column: seq<Cell>)
    requires Rectangular(f)
    ensures |column| == f.count
  {
    if source.From? then ColumnNamed(fold, f, source.name) else Blanks(f.count)
  }

  predicate TwoSided(debit: seq<Cell>, credit: seq<Cell>)
    requires |debit| == |credit|
  {
    exists i | 0 <= i < |debit| :: debit[i] != Blank && credit[i] != Blank
  }

  /** The direction of each row by which money column is present; a moneyless row has none. */
  function Directions(debit: seq<Cell>, credit: seq<Cell>): (r: Result<seq<Cell>, FileError>)
    requires |debit| == |credit|
    ensures r.Ok? ==> |r.value| == |debit|
  {
    if TwoSided(debit, credit) then Err(TwoSidedRow)
    else Ok(seq(|debit|, i requires 0 <= i < |debit| =>
      if credit[i] != Blank then Text("CREDIT") else if debit[i] != Blank then Text("DEBIT") else Blank))
  }

  type Columns = map<LegacyColumn, seq<Cell>>

  ghost predicate IsFrame(columns: Columns, n: nat) {
    forall c: LegacyColumn :: c in columns && |columns[c]| == n
  }

  /** The eight legacy columns of one file, derived ones included. */
  ghost function LegacyColumns(fold: string -> string, f: File, spec: Schema): (r: Result<Columns, FileError>)
    requires Rectangular(f) && WellDeclared(spec)
    ensures r.Ok? ==> IsFrame(r.value, f.count)
  {
    var debit, credit := SourceColumn(fold, f, spec.sources[DebitCol]), SourceColumn(fold, f, spec.sources[CreditCol]);
    var kind := Directions(debit, credit);
    if (exists c: LegacyColumn :: spec.sources[c] == TypeFromMoney) && kind.Err? then Err(kind.error)
    else Ok(map c: LegacyColumn | true ::
      if spec.sources[c] == TypeFromMoney then kind.value else SourceColumn(fold, f, spec.sources[c]))
  }

  function RowAt(columns: Columns, n: nat, i: nat): LegacyRow
    requires IsFrame(columns, n) && i < n
  {
    LegacyRow(
      columns[ReferenceCol][i], columns[TypeCol][i], columns[DescriptionCol][i],
      MoneyOf(columns[DebitCol][i]), MoneyOf(columns[CreditCol][i]), columns[CheckCol][i],
      MoneyOf(columns[BalanceCol][i]))
  }

  function Negate(money: Option<int>): Option<int> {
    if money.Some? then Some(-money.value) else None
  }

  /** Money out negative, money in positive, and a balance signed towards net worth. */
  function CanonicalSigns(c: Convention, r: LegacyRow): LegacyRow {
    r.(debit := if c.money == CardLedger then Negate(r.debit) else r.debit,
       credit := if c.money == CardLedger then Negate(r.credit) else r.credit,
       balance := match c.balance
                  case Asset => r.balance
                  case Debt => Negate(r.balance)
                  case Unstated => None)
  }

  predicate NewestFirst(rows: seq<LedgerRow>) {
    forall i | 0 <= i < |rows| - 1 :: !Before(rows[i].date, rows[i + 1].date)
  }

  function Reversed<T>(s: seq<T>): (r: seq<T>)
    ensures |r| == |s|
    ensures forall i | 0 <= i < |s| :: r[i] == s[|s| - 1 - i]
  {
    seq(|s|, i requires 0 <= i < |s| => s[|s| - 1 - i])
  }

  /** A newest-first file that is not newest-first is refused; an oldest-first one is kept as exported. */
  function ToOldestFirst(order: RowOrder, rows: seq<LedgerRow>): Result<seq<LedgerRow>, FileError> {
    match order
    case Descending => if NewestFirst(rows) then Ok(Reversed(rows)) else Err(NotNewestFirst)
    case Ascending => Ok(rows)
  }

  /** The rows of one file once its columns are assembled. */
  function FrameOf(
    parse: (string, Cell) -> Option<Date>, spec: Schema, account: string, columns: Columns, n: nat)
    : Result<seq<LedgerRow>, FileError>
    requires IsFrame(columns, n)
  {
    var convention := ConventionFor(spec.version, account);
    if exists i | 0 <= i < n :: parse(spec.dateFormat, columns[DateCol][i]).None? then Err(UnreadableDate)
    else
      ToOldestFirst(spec.rowOrder, seq(n, i requires 0 <= i < n =>
        LedgerRow(parse(spec.dateFormat, columns[DateCol][i]).value,
          CanonicalSigns(convention, RowAt(columns, n, i)), spec.version)))
  }

  ghost function Normalized(
    fold: string -> string, parse: (string, Cell) -> Option<Date>, f: File, account: string)
    : Result<seq<LedgerRow>, FileError>
    requires Rectangular(f)
  {
    var spec := DetectSchema(fold, f.header);
    if spec.Err? then Err(BadSchema(spec.error))
    else
      DetectedIsDeclared(fold, f.header);
      var columns := LegacyColumns(fold, f, spec.value);
      if columns.Err? then Err(columns.error)
      else FrameOf(parse, spec.value, account, columns.value, f.count)
  }

  lemma {:induction false} DetectedIsDeclared(fold: string -> string, header: seq<string>)
    requires DetectSchema(fold, header).Ok?
    ensures DetectSchema(fold, header).value in SCHEMAS && WellDeclared(DetectSchema(fold, header).value)
  {
    SchemasAreWellDeclared();
    var matching := Filter((s: Schema) => MatchKey(fold, s.header) == MatchKey(fold, header), SCHEMAS);
    assert matching[0] in matching;
  }

  // ---- Assembly as the source runs it --------------------------------------------------

  /** The first loop over `LEGACY_COLUMNS`: copy what the file has, defer what it lacks. */
  method CopyColumns(fold: string -> string, f: File, spec: Schema)
    returns (byName: Columns, deferred: seq<LegacyColumn>)
    requires Rectangular(f) && WellDeclared(spec)
    ensures forall c: LegacyColumn :: c in byName <==> spec.sources[c] != TypeFromMoney
    ensures forall c: LegacyColumn :: c in deferred <==> spec.sources[c] == TypeFromMoney
    ensures forall c | c in byName :: byName[c] == SourceColumn(fold, f, spec.sources[c])
  {
    byName, deferred := map[], [];
    for i := 0 to |LEGACY_COLUMNS|
      invariant forall k | 0 <= k < i :: LEGACY_COLUMNS[k] in byName || LEGACY_COLUMNS[k] in deferred
      invariant forall c | c in deferred :: spec.sources[c] == TypeFromMoney
      invariant forall c | c in byName ::
        spec.sources[c] != TypeFromMoney && byName[c] == SourceColumn(fold, f, spec.sources[c])
    {
      var legacy := LEGACY_COLUMNS[i];
      var source := spec.sources[legacy];
      if source == TypeFromMoney {
        deferred := deferred + [legacy];
      } else {
        byName := byName[legacy := SourceColumn(fold, f, source)];
      }
    }
    forall c: LegacyColumn ensures c in byName || c in deferred {
      EveryColumnIsLegacy(c);
      var k :| 0 <= k < |LEGACY_COLUMNS| && LEGACY_COLUMNS[k] == c;
    }
  }

  /** The second loop: a derived column may read columns declared after it. */
  method DeriveColumns(copied: Columns, deferred: seq<LegacyColumn>) returns (r: Result<Columns, FileError>)
    requires DebitCol in copied && CreditCol in copied && |copied[DebitCol]| == |copied[CreditCol]|
    requires forall c | c in deferred :: c !in copied
    ensures r.Err? ==> deferred != [] && Directions(copied[DebitCol], copied[CreditCol]) == Err(r.error)
    ensures r.Ok? ==> forall c | c in r.value :: c in copied || c in deferred
    ensures r.Ok? ==> forall c | c in copied :: c in r.value && r.value[c] == copied[c]
    ensures r.Ok? ==> forall c | c in deferred ::
              c in r.value && Directions(copied[DebitCol], copied[CreditCol]) == Ok(r.value[c])
  {
    var byName := copied;
    ghost var kind0 := Directions(copied[DebitCol], copied[CreditCol]);
    for i := 0 to |deferred|
      invariant forall c | c in byName :: c in copied || c in deferred
      invariant forall c | c in copied :: c in byName && byName[c] == copied[c]
      invariant forall k | 0 <= k < i :: deferred[k] in byName && kind0 == Ok(byName[deferred[k]])
    {
      var kind := Directions(byName[DebitCol], byName[CreditCol]);
      if kind.Err? {
        return Err(kind.error);
      }
      assert deferred[i] in deferred;
      byName := byName[deferred[i] := kind.value];
    }
    return Ok(byName);
  }

  method AssembleColumns(fold: string -> string, f: File, spec: Schema) returns (r: Result<Columns, FileError>)
    requires Rectangular(f) && WellDeclared(spec)
    ensures r == LegacyColumns(fold, f, spec)
  {
    var byName, deferred := CopyColumns(fold, f, spec);
    r := DeriveColumns(byName, deferred);
    if r.Err? {
      assert deferred[0] in deferred;
    } else {
      assert deferred == [] || deferred[0] in deferred;
      assert LegacyColumns(fold, f, spec).Ok?;
      assert r.value == LegacyColumns(fold, f, spec).value;
    }
  }

  method NormalizeFile(fold: string -> string, parse: (string, Cell) -> Option<Date>, f: File, account: string)
    returns (r: Result<seq<LedgerRow>, FileError>)
    requires Rectangular(f)
    ensures r == Normalized(fold, parse, f, account)
  {
    var spec := DetectSchema(fold, f.header);
    if spec.Err? {
      return Err(BadSchema(spec.error));
    }
    DetectedIsDeclared(fold, f.header);
    var columns := AssembleColumns(fold, f, spec.value);
    if columns.Err? {
      return Err(columns.error);
    }
    r := FrameOf(parse, spec.value, account, columns.value, f.count);
  }

  // ---- Dates that cannot be read ---------------------------------------------------------

  lemma {:induction false} DatesAreUnderDate(fold: string -> string, f: File, spec: Schema)
    requires Rectangular(f) && WellDeclared(spec) && (spec == V1 || spec == V2) && LegacyColumns(fold, f, spec).Ok?
    ensures LegacyColumns(fold, f, spec).value[DateCol] == ColumnNamed(fold, f, "Date")
    ensures spec.dateFormat == "%m/%d/%Y"
  {
  }

  ghost predicate SomeUnreadable(parse: (string, Cell) -> Option<Date>, dates: seq<Cell>) {
    exists i | 0 <= i < |dates| :: parse("%m/%d/%Y", dates[i]).None?
  }

  lemma {:induction false} FrameUnreadable(
    parse: (string, Cell) -> Option<Date>, spec: Schema, account: string, columns: Columns, n: nat)
    requires IsFrame(columns, n) && spec.dateFormat == "%m/%d/%Y"
    ensures FrameOf(parse, spec, account, columns, n) == Err(UnreadableDate)
       <==> SomeUnreadable(parse, columns[DateCol])
  {
  }

  /** A file that conforms otherwise is refused as unreadable exactly when some cell under Date is no such date. */
  lemma {:induction false} UnreadableIffSomeDateIs(
    fold: string -> string, parse: (string, Cell) -> Option<Date>, f: File, account: string, spec: Schema)
    requires Rectangular(f) && WellDeclared(spec) && (spec == V1 || spec == V2)
    requires DetectSchema(fold, f.header) == Ok(spec) && LegacyColumns(fold, f, spec).Ok?
    ensures Normalized(fold, parse, f, account) == Err(UnreadableDate)
       <==> SomeUnreadable(parse, ColumnNamed(fold, f, "Date"))
  {
    DatesAreUnderDate(fold, f, spec);
    FrameUnreadable(parse, spec, account, LegacyColumns(fold, f, spec).value, f.count);
  }
}
