/** The CSV layouts Golden1 has exported, how a header selects one, and how each signs its money. */
module Golden1Schema {
  import opened Prelude

  /** The published shape every file is conformed to. */
  datatype LegacyColumn =
    | DateCol | ReferenceCol | TypeCol | DescriptionCol | DebitCol | CreditCol | CheckCol | BalanceCol

  const LEGACY_COLUMNS :=
    [DateCol, ReferenceCol, TypeCol, DescriptionCol, DebitCol, CreditCol, CheckCol, BalanceCol]

  /** Where one legacy column comes from. */
  datatype ColumnSource = From(name: string) | TypeFromMoney | NotInSource

  datatype RowOrder = Ascending | Descending

  datatype Schema = Schema(
    version: string,
    header: seq<string>,
    sources: map<LegacyColumn, ColumnSource>,
    dateFormat: string,
    rowOrder: RowOrder)

  const V1 := Schema(
    "golden1.v1",
    ["Date", "ReferenceNo.", "Type", "Description", "Debit", "Credit", "CheckNumber", "Balance"],
    map[
      DateCol := From("Date"),
      ReferenceCol := From("ReferenceNo."),
      TypeCol := From("Type"),
      DescriptionCol := From("Description"),
      DebitCol := From("Debit"),
      CreditCol := From("Credit"),
      CheckCol := From("CheckNumber"),
      BalanceCol := From("Balance")],
    "%m/%d/%Y",
    Ascending)

  const V2 := Schema(
    "golden1.v2",
    ["Date", "Account", "Account Type", "Description", "Check #", "Category", "Credit", "Debit", "Daily Balance"],
    map[
      DateCol := From("Date"),
      ReferenceCol := NotInSource,
      TypeCol := TypeFromMoney,
      DescriptionCol := From("Description"),
      DebitCol := From("Debit"),
      CreditCol := From("Credit"),
      CheckCol := From("Check #"),
      BalanceCol := From("Daily Balance")],
    "%m/%d/%Y",
    Descending)

  const SCHEMAS := [V1, V2]

  /** A declaration maps every legacy column, and derives none of the money it derives from. */
  ghost predicate WellDeclared(s: Schema) {
    && (forall c: LegacyColumn :: c in s.sources)
    && s.sources[DebitCol] != TypeFromMoney && s.sources[CreditCol] != TypeFromMoney
  }

  lemma {:induction false} SchemasAreWellDeclared()
    ensures forall s | s in SCHEMAS :: WellDeclared(s)
  {
    forall s, c: LegacyColumn | s in SCHEMAS ensures c in s.sources {
      match c
      case DateCol =>
      case ReferenceCol =>
      case TypeCol =>
      case DescriptionCol =>
      case DebitCol =>
      case CreditCol =>
      case CheckCol =>
      case BalanceCol =>
    }
  }

  lemma {:induction false} EveryColumnIsLegacy(c: LegacyColumn)
    ensures c in LEGACY_COLUMNS
  {
    match c
    case DateCol => assert LEGACY_COLUMNS[0] == c;
    case ReferenceCol => assert LEGACY_COLUMNS[1] == c;
    case TypeCol => assert LEGACY_COLUMNS[2] == c;
    case DescriptionCol => assert LEGACY_COLUMNS[3] == c;
    case DebitCol => assert LEGACY_COLUMNS[4] == c;
    case CreditCol => assert LEGACY_COLUMNS[5] == c;
    case CheckCol => assert LEGACY_COLUMNS[6] == c;
    case BalanceCol => assert LEGACY_COLUMNS[7] == c;
  }

  datatype SchemaError = UnknownSchema | AmbiguousSchema

  /** Column count and the set of folded names: the pair a header and a schema must agree on. */
  function MatchKey(fold: string -> string, header: seq<string>): (nat, set<string>) {
    (|header|, set name | name in header :: fold(name))
  }

  predicate HasDuplicates(fold: string -> string, header: seq<string>) {
    exists i, j | 0 <= i < j < |header| :: fold(header[i]) == fold(header[j])
  }

  /** The one declared schema whose column set is exactly the header's. */
  function DetectSchema(fold: string -> string, header: seq<string>): Result<Schema, SchemaError> {
    var matching := Filter((s: Schema) => MatchKey(fold, s.header) == MatchKey(fold, header), SCHEMAS);
    if HasDuplicates(fold, header) || matching == [] then Err(UnknownSchema)
    else if |matching| > 1 then Err(AmbiguousSchema)
    else Ok(matching[0])
  }

  datatype MoneySign = CashFlow | CardLedger

  datatype BalanceMeaning = Asset | Debt | Unstated

  datatype Convention = Convention(money: MoneySign, balance: BalanceMeaning)

  const CREDIT_CARD := "CreditCard"

  function ConventionFor(version: string, account: string): Convention {
    if version == V1.version && account == CREDIT_CARD then Convention(CardLedger, Unstated)
    else if version == V2.version && account == CREDIT_CARD then Convention(CashFlow, Debt)
    else Convention(CashFlow, Asset)
  }

  // ---- What detection guarantees ------------------------------------------------------

  /** Folding tells the declared names apart. */
  ghost predicate Separates(fold: string -> string) {
    forall a, b | a in V1.header + V2.header && b in V1.header + V2.header && fold(a) == fold(b) :: a == b
  }

  /** A detected schema's every named source column is one header cell, and only one. */
  lemma {:induction false} DetectedColumnIsUnique(fold: string -> string, header: seq<string>, name: string)
    requires DetectSchema(fold, header).Ok?
    requires From(name) in DetectSchema(fold, header).value.sources.Values
    ensures exists i | 0 <= i < |header| ::
              fold(header[i]) == fold(name) && forall j | 0 <= j < |header| && j != i :: fold(header[j]) != fold(name)
  {
    var schema := DetectSchema(fold, header).value;
    var matching := Filter((s: Schema) => MatchKey(fold, s.header) == MatchKey(fold, header), SCHEMAS);
    assert schema in matching;
    assert name in schema.header;
    assert fold(name) in MatchKey(fold, schema.header).1;
    assert fold(name) in MatchKey(fold, header).1;
    var i :| 0 <= i < |header| && fold(header[i]) == fold(name);
    forall j | 0 <= j < |header| && j != i ensures fold(header[j]) != fold(name) {
      if j < i {
        assert fold(header[j]) != fold(header[i]);
      } else {
        assert fold(header[i]) != fold(header[j]);
      }
    }
  }

  /** Each version's own header is recognised as that version. */
  lemma {:induction false} DeclaredHeadersAreDetected(fold: string -> string)
    requires Separates(fold)
    ensures DetectSchema(fold, V1.header) == Ok(V1)
    ensures DetectSchema(fold, V2.header) == Ok(V2)
  {
    assert |V1.header| == 8 && |V2.header| == 9;
    assert MatchKey(fold, V1.header).0 != MatchKey(fold, V2.header).0;
    NamesDiffer(V1.header);
    NamesDiffer(V2.header);
    NoDuplicates(fold, V1.header);
    NoDuplicates(fold, V2.header);
    var one := (s: Schema) => MatchKey(fold, s.header) == MatchKey(fold, V1.header);
    var two := (s: Schema) => MatchKey(fold, s.header) == MatchKey(fold, V2.header);
    assert Filter(one, SCHEMAS) == [V1] by {
      assert SCHEMAS[1..] == [V2] && [V2][1..] == [];
    }
    assert Filter(two, SCHEMAS) == [V2] by {
      assert SCHEMAS[1..] == [V2] && [V2][1..] == [];
    }
  }

  /** Length and initial already tell the names of one header apart. */
  lemma {:induction false} NamesDiffer(header: seq<string>)
    requires header == V1.header || header == V2.header
    ensures NoRepeats(header)
  {
    if header == V1.header {
      assert forall i, j | 0 <= i < j < 8 :: |header[i]| != |header[j]| || header[i][0] != header[j][0];
    } else {
      assert forall i, j | 0 <= i < j < 9 :: |header[i]| != |header[j]| || header[i][0] != header[j][0];
    }
  }

  lemma {:induction false} NoDuplicates(fold: string -> string, header: seq<string>)
    requires Separates(fold) && NoRepeats(header) && forall name | name in header :: name in V1.header + V2.header
    ensures !HasDuplicates(fold, header)
  {
    forall i, j | 0 <= i < j < |header| ensures fold(header[i]) != fold(header[j]) {
      assert header[i] in header && header[j] in header;
    }
  }

  /** Some of the names folds as this one does. */
  ghost predicate IsAmong(fold: string -> string, names: seq<string>, name: string) {
    exists i | 0 <= i < |names| :: fold(names[i]) == fold(name)
  }

  ghost predicate AreAmong(fold: string -> string, some: seq<string>, names: seq<string>) {
    forall i | 0 <= i < |some| :: IsAmong(fold, names, some[i])
  }

  /** The header has these names, however they are folded, and no other, none of them twice. */
  ghost predicate HasNames(fold: string -> string, header: seq<string>, names: seq<string>) {
    && |header| == |names| && AreAmong(fold, header, names) && AreAmong(fold, names, header)
    && !HasDuplicates(fold, header)
  }

  lemma {:induction false} FoldedAmong(fold: string -> string, some: seq<string>, names: seq<string>)
    ensures AreAmong(fold, some, names) <==> MatchKey(fold, some).1 <= MatchKey(fold, names).1
  {
    if AreAmong(fold, some, names) {
      forall x | x in MatchKey(fold, some).1 ensures x in MatchKey(fold, names).1 {
        var i :| 0 <= i < |some| && fold(some[i]) == x;
        assert IsAmong(fold, names, some[i]);
      }
    }
    if MatchKey(fold, some).1 <= MatchKey(fold, names).1 {
      forall i | 0 <= i < |some| ensures IsAmong(fold, names, some[i]) {
        assert some[i] in some;
        assert fold(some[i]) in MatchKey(fold, names).1;
      }
    }
  }

  lemma {:induction false} KeysAreNames(fold: string -> string, header: seq<string>, names: seq<string>)
    ensures !HasDuplicates(fold, header) && MatchKey(fold, names) == MatchKey(fold, header)
       <==> HasNames(fold, header, names)
  {
    FoldedAmong(fold, header, names);
    FoldedAmong(fold, names, header);
    var one, two := MatchKey(fold, header), MatchKey(fold, names);
    assert one.1 == two.1 <==> one.1 <= two.1 && two.1 <= one.1;
    assert one == two <==> one.0 == two.0 && one.1 == two.1;
  }

  /** A header is one version's exactly when it has that version's names; any other is unknown, never ambiguous. */
  lemma {:induction false} DetectionIsByNames(fold: string -> string, header: seq<string>)
    ensures DetectSchema(fold, header)
         == if HasNames(fold, header, V1.header) then Ok(V1)
            else if HasNames(fold, header, V2.header) then Ok(V2)
            else Err(UnknownSchema)
  {
    KeysAreNames(fold, header, V1.header);
    KeysAreNames(fold, header, V2.header);
    var matching := (s: Schema) => MatchKey(fold, s.header) == MatchKey(fold, header);
    assert SCHEMAS[1..] == [V2] && [V2][1..] == [];
    assert |V1.header| == 8 && |V2.header| == 9;
    assert !(matching(V1) && matching(V2));
    assert Filter(matching, [V2]) == if matching(V2) then [V2] else [];
  }
}
