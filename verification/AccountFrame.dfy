/** One account: its files conformed, merged oldest first, and every balance filled in. */
module AccountFrame {
  import opened Prelude
  import opened Sorting
  import opened Calendar
  import opened Golden1Schema
  import opened Golden1File
  import Balances

  datatype AccountRow = AccountRow(
    indx: nat, dateSK: int, date: string, account: string, row: LegacyRow, version: string)

  datatype AccountError = NoFiles | InFile(error: FileError)

  /** Lexical order of the ISO dates. */
  predicate DatedBefore(a: LedgerRow, b: LedgerRow) {
    Less(IsoText(a.date), IsoText(b.date))
  }

  function Chronological(rows: seq<LedgerRow>): (r: seq<LedgerRow>)
    ensures |r| == |rows|
  {
    SortBy(DatedBefore, rows)
  }

  function MoneyOfRow(r: LedgerRow): Balances.Money {
    Balances.Money(r.row.debit, r.row.credit, r.row.balance)
  }

  /** One row as it is published: numbered, dated both ways, and with its balance. */
  function FrameRow(account: string, i: nat, r: LedgerRow, balance: Option<int>): AccountRow {
    AccountRow(i, DateSK(r.date), IsoText(r.date), account, r.row.(balance := balance), r.version)
  }

  /** The merged rows with balances filled and positions assigned. */
  function FrameRows(account: string, rows: seq<LedgerRow>): (frame: seq<AccountRow>)
    ensures |frame| == |rows|
  {
    var sorted := Chronological(rows);
    var filled := Balances.FillMissingBalances(Map(MoneyOfRow, sorted));
    seq(|rows|, i requires 0 <= i < |rows| => FrameRow(account, i, sorted[i], filled[i].balance))
  }

  function FirstUndeclared(fold: string -> string, files: seq<File>): Option<SchemaError> {
    if files == [] then None
    else if DetectSchema(fold, files[0].header).Err? then Some(DetectSchema(fold, files[0].header).error)
    else FirstUndeclared(fold, files[1..])
  }

  ghost predicate AllRectangular(files: seq<File>) {
    forall f | f in files :: Rectangular(f)
  }

  type FileResult = Result<seq<LedgerRow>, FileError>

  /** The files' rows end to end, or the first file's complaint. */
  function Concatenated(results: seq<FileResult>): FileResult {
    if results == [] then Ok([])
    else
      var init, last := Concatenated(results[..|results| - 1]), results[|results| - 1];
      if init.Err? then init else if last.Err? then last else Ok(init.value + last.value)
  }

  ghost function FileResults(
    fold: string -> string, parse: (string, Cell) -> Option<Date>, files: seq<File>, account: string)
    : (results: seq<FileResult>)
    requires AllRectangular(files)
    ensures |results| == |files|
  {
    seq(|files|, i requires 0 <= i < |files| => Normalized(fold, parse, files[i], account))
  }

  /** Undeclared schemas are reported before any file is read. */
  ghost function Frame(
    fold: string -> string, parse: (string, Cell) -> Option<Date>, files: seq<File>, account: string)
    : Result<seq<AccountRow>, AccountError>
    requires AllRectangular(files)
  {
    var undeclared := FirstUndeclared(fold, files);
    var merged := Concatenated(FileResults(fold, parse, files, account));
    if undeclared.Some? then Err(InFile(BadSchema(undeclared.value)))
    else if files == [] then Err(NoFiles)
    else if merged.Err? then Err(InFile(merged.error))
    else Ok(FrameRows(account, merged.value))
  }

  method RejectUndeclaredSchemas(fold: string -> string, files: seq<File>) returns (error: Option<SchemaError>)
    ensures error == FirstUndeclared(fold, files)
  {
    for i := 0 to |files|
      invariant FirstUndeclared(fold, files) == FirstUndeclared(fold, files[i..])
    {
      var spec := DetectSchema(fold, files[i].header);
      if spec.Err? {
        return Some(spec.error);
      }
      assert files[i..][1..] == files[i + 1..];
    }
    return None;
  }

  lemma {:induction false} ConcatenationStopsAtError(results: seq<FileResult>, i: nat)
    requires i <= |results|
    ensures Concatenated(results[..i]).Err? ==> Concatenated(results) == Concatenated(results[..i])
    decreases |results|
  {
    if i == |results| {
      assert results[..i] == results;
    } else {
      var init := results[..|results| - 1];
      assert init[..i] == results[..i];
      ConcatenationStopsAtError(init, i);
    }
  }

  lemma {:induction false} ConcatenateNext(results: seq<FileResult>, i: nat, rows: seq<LedgerRow>)
    requires i < |results| && Concatenated(results[..i]) == Ok(rows)
    ensures results[i].Err? ==> Concatenated(results) == results[i]
    ensures results[i].Ok? ==> Concatenated(results[..i + 1]) == Ok(rows + results[i].value)
  {
    var upTo := results[..i + 1];
    assert upTo[..|upTo| - 1] == results[..i];
    ConcatenationStopsAtError(results, i + 1);
  }

  /** `pd.concat` over the files, in the order the source lists them. */
  method MergeFiles(
    fold: string -> string, parse: (string, Cell) -> Option<Date>, files: seq<File>, account: string)
    returns (r: FileResult)
    requires AllRectangular(files)
    ensures r == Concatenated(FileResults(fold, parse, files, account))
  {
    var rows: seq<LedgerRow> := [];
    ghost var results := FileResults(fold, parse, files, account);
    for i := 0 to |files|
      invariant Concatenated(results[..i]) == Ok(rows)
    {
      var one := NormalizeFile(fold, parse, files[i], account);
      assert one == results[i];
      ConcatenateNext(results, i, rows);
      if one.Err? {
        return Err(one.error);
      }
      rows := rows + one.value;
    }
    assert results[..|files|] == results;
    return Ok(rows);
  }

  lemma {:induction false} FrameRowOf(account: string, rows: seq<LedgerRow>, sorted: seq<LedgerRow>, i: nat)
    requires sorted == Chronological(rows) && i < |rows|
    ensures FrameRows(account, rows)[i]
         == AccountRow(i, DateSK(sorted[i].date), IsoText(sorted[i].date), account,
              sorted[i].row.(balance := Balances.FillMissingBalances(Map(MoneyOfRow, sorted))[i].balance),
              sorted[i].version)
  {
  }

  method FinishAccount(account: string, rows: seq<LedgerRow>) returns (frame: seq<AccountRow>)
    ensures frame == FrameRows(account, rows)
  {
    var sorted := Chronological(rows);
    var filled := Balances.FillBalances(Map(MoneyOfRow, sorted));
    frame := [];
    for i := 0 to |sorted|
      invariant |frame| == i && forall k | 0 <= k < i :: frame[k] == FrameRow(account, k, sorted[k], filled[k].balance)
    {
      frame := frame + [FrameRow(account, i, sorted[i], filled[i].balance)];
    }
  }

  method ParseTransactions(
    fold: string -> string, parse: (string, Cell) -> Option<Date>, files: seq<File>, account: string)
    returns (r: Result<seq<AccountRow>, AccountError>)
    requires AllRectangular(files)
    ensures r == Frame(fold, parse, files, account)
  {
    var undeclared := RejectUndeclaredSchemas(fold, files);
    if undeclared.Some? {
      return Err(InFile(BadSchema(undeclared.value)));
    }
    if files == [] {
      return Err(NoFiles);
    }
    var merged := MergeFiles(fold, parse, files, account);
    if merged.Err? {
      return Err(InFile(merged.error));
    }
    var frame := FinishAccount(account, merged.value);
    return Ok(frame);
  }

  // ---- The order is the one stable merge ------------------------------------------------

  /** A row with the file it came from and its oldest-first position there. */
  datatype Sourced = Sourced(file: nat, position: nat, row: LedgerRow)

  function SourcedFile(file: nat, rows: seq<LedgerRow>): (s: seq<Sourced>)
    ensures |s| == |rows|
  {
    seq(|rows|, i requires 0 <= i < |rows| => Sourced(file, i, rows[i]))
  }

  function SourcedRows(files: seq<seq<LedgerRow>>): seq<Sourced> {
    if files == [] then []
    else SourcedRows(files[..|files| - 1]) + SourcedFile(|files| - 1, files[|files| - 1])
  }

  predicate Earlier(a: Sourced, b: Sourced) {
    a.file < b.file || (a.file == b.file && a.position < b.position)
  }

  predicate SourcedBefore(a: Sourced, b: Sourced) {
    DatedBefore(a.row, b.row)
  }

  /** By date, then by file, then by position in the file. */
  predicate MergeOrder(a: Sourced, b: Sourced) {
    Before(a.row.date, b.row.date) || (a.row.date == b.row.date && Earlier(a, b))
  }

  function RowOf(s: Sourced): LedgerRow {
    s.row
  }

  lemma {:induction false} SourcedRowsInOrder(files: seq<seq<LedgerRow>>)
    ensures InOrder(Earlier, SourcedRows(files))
    ensures forall s | s in SourcedRows(files) :: s.file < |files|
  {
    if files != [] {
      SourcedRowsInOrder(files[..|files| - 1]);
    }
  }

  lemma {:induction false} DatesAreWeaklyOrdered()
    ensures StrictWeakOrder(SourcedBefore)
  {
    forall x, y, z | SourcedBefore(x, z) ensures SourcedBefore(x, y) || SourcedBefore(y, z) {
      OrdersCoincide(x.row.date, y.row.date);
      OrdersCoincide(y.row.date, z.row.date);
      OrdersCoincide(x.row.date, z.row.date);
    }
    forall x, y | SourcedBefore(x, y) ensures !SourcedBefore(y, x) {
      LessAsymmetric(IsoText(x.row.date), IsoText(y.row.date));
    }
  }

  lemma {:induction false} MergeOrderIsStableOrder(a: Sourced, b: Sourced)
    ensures Precedes(SourcedBefore, Earlier, a, b) <==> MergeOrder(a, b)
  {
    OrdersCoincide(a.row.date, b.row.date);
    OrdersCoincide(b.row.date, a.row.date);
  }

  lemma {:induction false} StableMergeIsInOrder(files: seq<seq<LedgerRow>>)
    ensures InOrder(MergeOrder, SortBy(SourcedBefore, SourcedRows(files)))
  {
    var all := SourcedRows(files);
    SourcedRowsInOrder(files);
    DatesAreWeaklyOrdered();
    SortIsStable(SourcedBefore, Earlier, all);
    var order := SortBy(SourcedBefore, all);
    forall i, j | 0 <= i < j < |order| ensures MergeOrder(order[i], order[j]) {
      MergeOrderIsStableOrder(order[i], order[j]);
    }
  }

  lemma {:induction false} MergeOrderIsAsymmetric()
    ensures forall x, y | MergeOrder(x, y) :: !MergeOrder(y, x)
  {
  }

  /** Every row of every file once, by date, then file, then position in the file. */
  ghost predicate StableMerge(files: seq<seq<LedgerRow>>, merged: seq<Sourced>) {
    Elements(merged) == Elements(SourcedRows(files)) && InOrder(MergeOrder, merged)
  }

  /** Sorting by date text gives one. */
  lemma {:induction false} DateSortIsStableMerge(files: seq<seq<LedgerRow>>)
    ensures StableMerge(files, SortBy(SourcedBefore, SourcedRows(files)))
  {
    StableMergeIsInOrder(files);
    SortedElements(SourcedBefore, SourcedRows(files));
  }

  /** The source sorts rows by date text alone; any stable merge is what that sort leaves. */
  lemma {:induction false} OrderIsTheStableMerge(files: seq<seq<LedgerRow>>, merged: seq<Sourced>)
    requires StableMerge(files, merged)
    ensures merged == SortBy(SourcedBefore, SourcedRows(files))
    ensures multiset(merged) == multiset(SourcedRows(files))
    ensures Map(RowOf, merged) == Chronological(Map(RowOf, SourcedRows(files)))
  {
    var all := SourcedRows(files);
    DateSortIsStableMerge(files);
    MergeOrderIsAsymmetric();
    OrderIsUnique(MergeOrder, merged, SortBy(SourcedBefore, all));
    SortMapped(SourcedBefore, DatedBefore, RowOf, all);
  }

  lemma {:induction false} ConcatenatedIsSourced(results: seq<FileResult>, frames: seq<seq<LedgerRow>>)
    requires |frames| == |results| && forall k | 0 <= k < |results| :: results[k] == Ok(frames[k])
    ensures Concatenated(results) == Ok(Map(RowOf, SourcedRows(frames)))
  {
    if frames != [] {
      var n := |frames| - 1;
      var init, last := SourcedRows(frames[..n]), SourcedFile(n, frames[n]);
      ConcatenatedIsSourced(results[..n], frames[..n]);
      assert Map(RowOf, last) == frames[n];
      assert Map(RowOf, init + last) == Map(RowOf, init) + Map(RowOf, last);
    }
  }

  /** Row `i` of the frame is this merged row, numbered and dated. */
  predicate Shows(r: AccountRow, i: nat, s: Sourced) {
    && r.indx == i
    && r.dateSK == DateSK(s.row.date) && r.date == IsoText(s.row.date)
    && r.row.(balance := s.row.row.balance) == s.row.row && r.version == s.row.version
    && (s.row.row.balance.Some? ==> r.row.balance == s.row.row.balance)
  }

  lemma {:induction false} RowsShowTheirSources(account: string, order: seq<Sourced>, rows: seq<LedgerRow>, i: nat)
    requires Map(RowOf, order) == Chronological(rows) && i < |rows|
    ensures |order| == |rows| && Shows(FrameRows(account, rows)[i], i, order[i])
    ensures FrameRows(account, rows)[i].row.balance.Some?
  {
    assert Chronological(rows)[i] == order[i].row;
  }

  lemma {:induction false} KeysNeverStepBack(order: seq<Sourced>, frame: seq<AccountRow>)
    requires InOrder(MergeOrder, order) && |frame| == |order|
    requires forall i | 0 <= i < |frame| :: Shows(frame[i], i, order[i])
    ensures forall i, j | 0 <= i < j < |frame| :: frame[i].dateSK <= frame[j].dateSK
  {
    forall i, j | 0 <= i < j < |frame| ensures frame[i].dateSK <= frame[j].dateSK {
      assert MergeOrder(order[i], order[j]);
      OrdersCoincide(order[i].row.date, order[j].row.date);
      OrdersCoincide(order[j].row.date, order[i].row.date);
    }
  }

  lemma {:induction false} FrameShowsOrder(
    account: string, frames: seq<seq<LedgerRow>>, rows: seq<LedgerRow>, order: seq<Sourced>)
    requires rows == Map(RowOf, SourcedRows(frames)) && StableMerge(frames, order)
    ensures |rows| == |order|
    ensures forall i | 0 <= i < |rows| ::
              Shows(FrameRows(account, rows)[i], i, order[i]) && FrameRows(account, rows)[i].row.balance.Some?
  {
    OrderIsTheStableMerge(frames, order);
    forall i | 0 <= i < |rows|
      ensures Shows(FrameRows(account, rows)[i], i, order[i]) && FrameRows(account, rows)[i].row.balance.Some?
    {
      RowsShowTheirSources(account, order, rows, i);
    }
  }

  /**
   * There is one stable merge of the files, and the published frame is it: every row of
   * every file once, numbered from zero, its keys never stepping back and every balance
   * filled.
   */
  lemma {:induction false} FrameIsTheStableMerge(
    fold: string -> string, parse: (string, Cell) -> Option<Date>, files: seq<File>, account: string,
    frames: seq<seq<LedgerRow>>, frame: seq<AccountRow>)
    returns (order: seq<Sourced>)
    requires AllRectangular(files) && |frames| == |files|
    requires forall k | 0 <= k < |files| :: FileResults(fold, parse, files, account)[k] == Ok(frames[k])
    requires Frame(fold, parse, files, account) == Ok(frame)
    ensures StableMerge(frames, order) && forall other | StableMerge(frames, other) :: other == order
    ensures multiset(order) == multiset(SourcedRows(frames))
    ensures |frame| == |order| && forall i | 0 <= i < |frame| :: Shows(frame[i], i, order[i])
    ensures forall i | 0 <= i < |frame| :: frame[i].row.balance.Some?
    ensures forall i, j | 0 <= i < j < |frame| :: frame[i].dateSK <= frame[j].dateSK
  {
    order := SortBy(SourcedBefore, SourcedRows(frames));
    DateSortIsStableMerge(frames);
    forall other | StableMerge(frames, other) ensures other == order {
      OrderIsTheStableMerge(frames, other);
    }
    ConcatenatedIsSourced(FileResults(fold, parse, files, account), frames);
    FrameShowsOrder(account, frames, Map(RowOf, SourcedRows(frames)), order);
    KeysNeverStepBack(order, frame);
  }

  // ---- Refusals --------------------------------------------------------------------------

  /** The first file with no declared schema, if there is one. */
  ghost predicate IsFirstUndeclared(fold: string -> string, files: seq<File>, k: nat) {
    && k < |files| && DetectSchema(fold, files[k].header).Err?
    && forall j | 0 <= j < k :: DetectSchema(fold, files[j].header).Ok?
  }

  lemma {:induction false} UndeclaredIsFirst(fold: string -> string, files: seq<File>) returns (k: nat)
    ensures FirstUndeclared(fold, files).None? ==>
              forall j | 0 <= j < |files| :: DetectSchema(fold, files[j].header).Ok?
    ensures FirstUndeclared(fold, files).Some? ==>
              && IsFirstUndeclared(fold, files, k)
              && DetectSchema(fold, files[k].header) == Err(FirstUndeclared(fold, files).value)
  {
    k := 0;
    if files != [] && DetectSchema(fold, files[0].header).Ok? {
      var l := UndeclaredIsFirst(fold, files[1..]);
      k := l + 1;
      assert forall j | 0 < j < |files| :: files[j] == files[1..][j - 1];
    }
  }

  lemma {:induction false} ComplaintIsFirst(results: seq<FileResult>) returns (k: nat)
    ensures Concatenated(results).Ok? <==> forall j | 0 <= j < |results| :: results[j].Ok?
    ensures Concatenated(results).Err? ==>
              k < |results| && results[k] == Concatenated(results) && forall j | 0 <= j < k :: results[j].Ok?
  {
    k := 0;
    if results != [] {
      var n := |results| - 1;
      k := ComplaintIsFirst(results[..n]);
      assert forall j | 0 <= j < n :: results[..n][j] == results[j];
      if Concatenated(results[..n]).Ok? {
        k := n;
      }
    }
  }

  /**
   * An account is refused for its first file of an undeclared layout, before any file is
   * read; for having no files; and otherwise for the first file that cannot be conformed.
   */
  lemma {:induction false} RefusalIsTheFirst(
    fold: string -> string, parse: (string, Cell) -> Option<Date>, files: seq<File>, account: string)
    returns (k: nat)
    requires AllRectangular(files)
    ensures var r := Frame(fold, parse, files, account);
            && (r.Ok? <==>
                  && files != [] && (forall j | 0 <= j < |files| :: DetectSchema(fold, files[j].header).Ok?)
                  && forall j | 0 <= j < |files| :: FileResults(fold, parse, files, account)[j].Ok?)
            && (r.Err? ==>
                  || (&& IsFirstUndeclared(fold, files, k)
                      && r == Err(InFile(BadSchema(DetectSchema(fold, files[k].header).error))))
                  || (files == [] && r == Err(NoFiles))
                  || (&& k < |files| && (forall j | 0 <= j < |files| :: DetectSchema(fold, files[j].header).Ok?)
                      && (forall j | 0 <= j < k :: FileResults(fold, parse, files, account)[j].Ok?)
                      && FileResults(fold, parse, files, account)[k].Err?
                      && r == Err(InFile(FileResults(fold, parse, files, account)[k].error))))
  {
    var u := UndeclaredIsFirst(fold, files);
    var c := ComplaintIsFirst(FileResults(fold, parse, files, account));
    k := if FirstUndeclared(fold, files).Some? then u else c;
  }
}
