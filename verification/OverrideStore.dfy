/** The admin override table, one standing assertion a pair. */
module OverrideStore {
  import opened Prelude
  import opened Sorting
  import opened Numerals
  import opened Ir
  import opened Inference

  // One row per unordered pair of entities per diagram, stored canonically ordered.

  datatype Diagram = Diagram(source: string, namespace: string)

  /** `manySideA` tells which end of the ordered pair is the referencing one. */
  datatype Row = Row(
    pk: nat,
    diagram: Diagram,
    entityA: string,
    entityB: string,
    columnsA: seq<string>,
    columnsB: seq<string>,
    manySideA: bool,
    action: string,
    cardinality: Cardinality,
    note: string)

  /** An assertion as the admin makes it: directed, un-normalised. */
  datatype Payload = Payload(
    sourceEntity: string,
    sourceColumns: seq<string>,
    targetEntity: string,
    targetColumns: seq<string>,
    action: string,
    cardinality: Cardinality,
    note: string)

  datatype Refusal =
    | UnknownSource | NoNamespaces | UnknownNamespace | UnknownOverride
    | UnknownAction | SelfPairRefused | SuppressWithColumns | MissingColumns | UnequalColumns | RepeatedPair
    | PairTaken

  function Status(r: Refusal): nat {
    match r
    case UnknownSource | UnknownNamespace | UnknownOverride => 404
    case PairTaken => 409
    case _ => 422
  }

  const JOIN := "join"
  const SUPPRESS := "suppress"

  // ---- Diagrams and ends -----------------------------------------------------------

  function ResolveDiagram(sources: map<string, seq<string>>, sourceId: string, namespace: Option<string>)
    : Result<Diagram, Refusal>
  {
    if sourceId !in sources then Err(UnknownSource)
    else if namespace.None? then
      if sources[sourceId] == [] then Err(NoNamespaces) else Ok(Diagram(sourceId, sources[sourceId][0]))
    else if namespace.value !in sources[sourceId] then Err(UnknownNamespace)
    else Ok(Diagram(sourceId, namespace.value))
  }

  /** No column pair is stated twice, compared without case. */
  predicate PairsDistinct(lower: string -> string, a: seq<string>, b: seq<string>)
    requires |a| == |b|
  {
    forall i, j | 0 <= i < j < |a| :: (lower(a[i]), lower(b[i])) != (lower(a[j]), lower(b[j]))
  }

  /** The first rule an assertion breaks, in the order the service checks them. */
  function EndsProblem(lower: string -> string, p: Payload): Option<Refusal> {
    if p.action != JOIN && p.action != SUPPRESS then Some(UnknownAction)
    else if p.sourceEntity == p.targetEntity then Some(SelfPairRefused)
    else if p.action == SUPPRESS then
      if p.sourceColumns != [] || p.targetColumns != [] then Some(SuppressWithColumns) else None
    else if p.sourceColumns == [] || p.targetColumns == [] then Some(MissingColumns)
    else if |p.sourceColumns| != |p.targetColumns| then Some(UnequalColumns)
    else if !PairsDistinct(lower, p.sourceColumns, p.targetColumns) then Some(RepeatedPair)
    else None
  }

  method RequireValidEnds(lower: string -> string, p: Payload) returns (problem: Option<Refusal>)
    ensures problem == EndsProblem(lower, p)
  {
    if p.action != JOIN && p.action != SUPPRESS {
      return Some(UnknownAction);
    }
    if p.sourceEntity == p.targetEntity {
      return Some(SelfPairRefused);
    }
    if p.action == SUPPRESS {
      return if p.sourceColumns != [] || p.targetColumns != [] then Some(SuppressWithColumns) else None;
    }
    if p.sourceColumns == [] || p.targetColumns == [] {
      return Some(MissingColumns);
    }
    if |p.sourceColumns| != |p.targetColumns| {
      return Some(UnequalColumns);
    }
    var seen: set<(string, string)> := {};
    for i := 0 to |p.sourceColumns|
      invariant seen == set k | 0 <= k < i :: (lower(p.sourceColumns[k]), lower(p.targetColumns[k]))
      invariant forall k, l | 0 <= k < l < i ::
        (lower(p.sourceColumns[k]), lower(p.targetColumns[k])) != (lower(p.sourceColumns[l]), lower(p.targetColumns[l]))
    {
      var pair := (lower(p.sourceColumns[i]), lower(p.targetColumns[i]));
      if pair in seen {
        return Some(RepeatedPair);
      }
      seen := seen + {pair};
    }
    return None;
  }

  // ---- Canonical storage --------------------------------------------------------------

  /** The payload as the row fields that store it; the ids must differ for the pair to be ordered. */
  function CanonicalRow(pk: nat, d: Diagram, p: Payload): (r: Row)
    ensures r.pk == pk && r.diagram == d
    ensures {r.entityA, r.entityB} == {p.sourceEntity, p.targetEntity}
  {
    if Less(p.sourceEntity, p.targetEntity) then
      Row(pk, d, p.sourceEntity, p.targetEntity, p.sourceColumns, p.targetColumns, true,
        p.action, p.cardinality, p.note)
    else
      Row(pk, d, p.targetEntity, p.sourceEntity, p.targetColumns, p.sourceColumns, false,
        p.action, p.cardinality, p.note)
  }

  /** The directed assertion a row stores. */
  function PayloadOf(r: Row): Payload {
    if r.manySideA then Payload(r.entityA, r.columnsA, r.entityB, r.columnsB, r.action, r.cardinality, r.note)
    else Payload(r.entityB, r.columnsB, r.entityA, r.columnsA, r.action, r.cardinality, r.note)
  }

  function EdgeId(pk: nat): string {
    "ovr:" + NatText(pk)
  }

  /** One stored row as the value inference consumes. */
  function OverrideToIr(r: Row): Override {
    var p := PayloadOf(r);
    Override(
      EdgeId(r.pk),
      End(p.sourceEntity, p.sourceColumns),
      End(p.targetEntity, p.targetColumns),
      if r.action == JOIN then Join else Suppress,
      r.cardinality,
      if r.note == "" then None else Some(r.note))
  }

  lemma {:induction false} EdgeIdsDiffer(a: nat, b: nat)
    requires EdgeId(a) == EdgeId(b)
    ensures a == b
  {
    assert EdgeId(a)[4..] == NatText(a) && EdgeId(b)[4..] == NatText(b);
    ValueOfNatText(a);
    ValueOfNatText(b);
  }

  /** Storage orders the pair and loses nothing of the direction. */
  lemma {:induction false} CanonicalKeepsThePayload(pk: nat, d: Diagram, p: Payload)
    ensures PayloadOf(CanonicalRow(pk, d, p)) == p
    ensures p.sourceEntity != p.targetEntity ==>
      var r := CanonicalRow(pk, d, p); Less(r.entityA, r.entityB)
  {
    LessTotal(p.sourceEntity, p.targetEntity);
  }

  /** The inverse, row first: re-storing what a well-ordered row asserts gives the row back. */
  lemma {:induction false} RestoringIsIdentity(r: Row)
    requires Less(r.entityA, r.entityB)
    ensures CanonicalRow(r.pk, r.diagram, PayloadOf(r)) == r
  {
    LessAsymmetric(r.entityA, r.entityB);
  }

  // ---- The table as a value --------------------------------------------------------------

  datatype Store = Store(rows: seq<Row>, nextId: nat)

  /** What every run of writes keeps. */
  ghost predicate WellFormed(lower: string -> string, s: Store) {
    && (forall r | r in s.rows ::
          r.pk < s.nextId && Less(r.entityA, r.entityB) && EndsProblem(lower, PayloadOf(r)).None?)
    && (forall i, j | 0 <= i < j < |s.rows| :: s.rows[i].pk != s.rows[j].pk && !SamePair(s.rows[i], s.rows[j]))
  }

  predicate SamePair(r: Row, t: Row) {
    r.diagram == t.diagram && r.entityA == t.entityA && r.entityB == t.entityB
  }

  /** The index of the first row satisfying `p`, or the length. */
  function IndexWhere(rows: seq<Row>, p: Row -> bool): (i: nat)
    ensures i <= |rows|
    ensures forall k | 0 <= k < i :: !p(rows[k])
    ensures i < |rows| ==> p(rows[i])
  {
    if rows == [] || p(rows[0]) then 0 else 1 + IndexWhere(rows[1..], p)
  }

  datatype Op = Save(payload: Payload) | Update(pk: nat, payload: Payload) | Delete(pk: nat)

  /** One write against one diagram: the table it leaves, or the refusal. */
  function Apply(lower: string -> string, s: Store, d: Diagram, op: Op): Result<Store, Refusal> {
    match op
    case Save(p) =>
      if EndsProblem(lower, p).Some? then Err(EndsProblem(lower, p).value) else Ok(Saved(s, d, p))
    case Update(pk, p) =>
      if EndsProblem(lower, p).Some? then Err(EndsProblem(lower, p).value) else Updated(s, d, pk, p)
    case Delete(pk) => Deleted(s, d, pk)
  }

  /** `update_or_create` on the pair. */
  function Saved(s: Store, d: Diagram, p: Payload): Store {
    var entry := CanonicalRow(s.nextId, d, p);
    var i := IndexWhere(s.rows, (r: Row) => SamePair(r, entry));
    if i < |s.rows| then Store(s.rows[i := entry.(pk := s.rows[i].pk)], s.nextId)
    else Store(s.rows + [entry], s.nextId + 1)
  }

  /** An edit in place, refused when another row owns the pair. */
  function Updated(s: Store, d: Diagram, pk: nat, p: Payload): Result<Store, Refusal> {
    var i := IndexWhere(s.rows, (r: Row) => r.pk == pk && r.diagram == d);
    var edited := CanonicalRow(pk, d, p);
    if i == |s.rows| then Err(UnknownOverride)
    else if exists r | r in s.rows :: SamePair(r, edited) && r.pk != pk then Err(PairTaken)
    else Ok(Store(s.rows[i := edited], s.nextId))
  }

  function Deleted(s: Store, d: Diagram, pk: nat): Result<Store, Refusal> {
    var i := IndexWhere(s.rows, (r: Row) => r.pk == pk && r.diagram == d);
    if i == |s.rows| then Err(UnknownOverride)
    else Ok(Store(s.rows[..i] + s.rows[i + 1..], s.nextId))
  }

  predicate RowBefore(r: Row, t: Row) {
    Less(r.entityA, t.entityA) || (r.entityA == t.entityA && Less(r.entityB, t.entityB))
  }

  /** One diagram's rows, in the table's declared ordering. */
  function RowsFor(s: Store, d: Diagram): seq<Row> {
    SortBy(RowBefore, Filter((r: Row) => r.diagram == d, s.rows))
  }

  function StoredOverrides(s: Store, d: Diagram): seq<Override> {
    Map(OverrideToIr, RowsFor(s, d))
  }

  // ---- Every write keeps the table well formed ---------------------------------------------

  lemma {:induction false} CanonicalIsValid(lower: string -> string, pk: nat, d: Diagram, p: Payload)
    requires EndsProblem(lower, p).None?
    ensures var r := CanonicalRow(pk, d, p);
            Less(r.entityA, r.entityB) && EndsProblem(lower, PayloadOf(r)).None?
  {
    CanonicalKeepsThePayload(pk, d, p);
  }

  lemma {:induction false} SaveKeepsWellFormed(lower: string -> string, s: Store, d: Diagram, p: Payload)
    requires WellFormed(lower, s) && EndsProblem(lower, p).None?
    ensures WellFormed(lower, Saved(s, d, p))
  {
    var entry := CanonicalRow(s.nextId, d, p);
    CanonicalIsValid(lower, s.nextId, d, p);
    var i := IndexWhere(s.rows, (r: Row) => SamePair(r, entry));
    if i < |s.rows| {
      var row := entry.(pk := s.rows[i].pk);
      assert PayloadOf(row) == PayloadOf(entry);
      assert s.rows[i] in s.rows;
      ReplaceKeeps(lower, s, i, row);
    } else {
      var after := Saved(s, d, p);
      forall r | r in after.rows
        ensures r.pk < after.nextId && Less(r.entityA, r.entityB) && EndsProblem(lower, PayloadOf(r)).None?
      {
        assert r in s.rows || r == entry;
      }
      forall k | 0 <= k < |s.rows| ensures s.rows[k].pk != entry.pk {
        assert s.rows[k] in s.rows;
      }
    }
  }

  /** Replacing one row by a valid one with its key, on a pair no other row holds. */
  lemma {:induction false} ReplaceKeeps(lower: string -> string, s: Store, i: nat, row: Row)
    requires WellFormed(lower, s) && i < |s.rows| && row.pk == s.rows[i].pk
    requires Less(row.entityA, row.entityB) && EndsProblem(lower, PayloadOf(row)).None?
    requires forall k | 0 <= k < |s.rows| && k != i :: !SamePair(s.rows[k], row)
    ensures WellFormed(lower, Store(s.rows[i := row], s.nextId))
  {
    var rows := s.rows[i := row];
    forall r | r in rows
      ensures r.pk < s.nextId && Less(r.entityA, r.entityB) && EndsProblem(lower, PayloadOf(r)).None?
    {
      var k :| 0 <= k < |rows| && rows[k] == r;
      assert s.rows[k] in s.rows;
    }
  }

  lemma {:induction false} UpdateKeepsWellFormed(lower: string -> string, s: Store, d: Diagram, pk: nat, p: Payload)
    requires WellFormed(lower, s) && EndsProblem(lower, p).None? && Updated(s, d, pk, p).Ok?
    ensures WellFormed(lower, Updated(s, d, pk, p).value)
  {
    var i := IndexWhere(s.rows, (r: Row) => r.pk == pk && r.diagram == d);
    var edited := CanonicalRow(pk, d, p);
    CanonicalIsValid(lower, pk, d, p);
    forall k | 0 <= k < |s.rows| && k != i ensures !SamePair(s.rows[k], edited) {
      assert s.rows[k] in s.rows;
      if k < i {
        assert s.rows[k].pk != s.rows[i].pk;
      }
    }
    ReplaceKeeps(lower, s, i, edited);
  }

  lemma {:induction false} DeleteKeepsWellFormed(lower: string -> string, s: Store, d: Diagram, pk: nat)
    requires WellFormed(lower, s) && Deleted(s, d, pk).Ok?
    ensures WellFormed(lower, Deleted(s, d, pk).value)
  {
    var i := IndexWhere(s.rows, (r: Row) => r.pk == pk && r.diagram == d);
    RemovalKeepsWellFormed(lower, s, i);
  }

  lemma {:induction false} RemovalKeepsWellFormed(lower: string -> string, s: Store, i: nat)
    requires WellFormed(lower, s) && i < |s.rows|
    ensures WellFormed(lower, Store(s.rows[..i] + s.rows[i + 1..], s.nextId))
  {
    var rows := s.rows[..i] + s.rows[i + 1..];
    forall k | 0 <= k < |rows| ensures rows[k] == s.rows[if k < i then k else k + 1] {
    }
    forall r | r in rows ensures r in s.rows {
      var k :| 0 <= k < |rows| && rows[k] == r;
    }
  }

  /** One write of any kind. */
  lemma {:induction false} ApplyKeepsWellFormed(lower: string -> string, s: Store, d: Diagram, op: Op)
    requires WellFormed(lower, s) && Apply(lower, s, d, op).Ok?
    ensures WellFormed(lower, Apply(lower, s, d, op).value)
  {
    match op
    case Save(p) => SaveKeepsWellFormed(lower, s, d, p);
    case Update(pk, p) => UpdateKeepsWellFormed(lower, s, d, pk, p);
    case Delete(pk) => DeleteKeepsWellFormed(lower, s, d, pk);
  }

  /** A run of writes, each against its own diagram; a refused one changes nothing. */
  ghost function RunAll(lower: string -> string, s: Store, ops: seq<(Diagram, Op)>): Store {
    if ops == [] then s
    else
      var before := RunAll(lower, s, ops[..|ops| - 1]);
      var r := Apply(lower, before, ops[|ops| - 1].0, ops[|ops| - 1].1);
      if r.Ok? then r.value else before
  }

  /** Whole runs: ordered pairs, valid ends, one row per pair per diagram, and keys never reused. */
  lemma {:induction false} RunsKeepWellFormed(lower: string -> string, s: Store, ops: seq<(Diagram, Op)>)
    requires WellFormed(lower, s)
    ensures WellFormed(lower, RunAll(lower, s, ops)) && s.nextId <= RunAll(lower, s, ops).nextId
  {
    if ops != [] {
      RunsKeepWellFormed(lower, s, ops[..|ops| - 1]);
      var before := RunAll(lower, s, ops[..|ops| - 1]);
      var (d, op) := ops[|ops| - 1];
      if Apply(lower, before, d, op).Ok? {
        ApplyKeepsWellFormed(lower, before, d, op);
      }
    }
  }

  // ---- What one write does, and what it leaves alone ------------------------------------------

  /** An edit keeps the row count, rewrites its own row and touches no other. */
  lemma {:induction false} UpdateTouchesOneRow(s: Store, d: Diagram, pk: nat, p: Payload)
    requires Updated(s, d, pk, p).Ok?
    ensures var after := Updated(s, d, pk, p).value;
            && |after.rows| == |s.rows| && after.nextId == s.nextId
            && exists i | 0 <= i < |s.rows| ::
                 && s.rows[i].pk == pk && s.rows[i].diagram == d
                 && after.rows[i].pk == pk && after.rows[i].diagram == d && PayloadOf(after.rows[i]) == p
                 && forall k | 0 <= k < |s.rows| && k != i :: after.rows[k] == s.rows[k]
  {
    var i := IndexWhere(s.rows, (r: Row) => r.pk == pk && r.diagram == d);
    CanonicalKeepsThePayload(pk, d, p);
    assert s.rows[i].pk == pk;
  }

  /** After a save the pair holds the assertion, whichever way round it was stated before. */
  lemma {:induction false} SaveAssertsThePair(lower: string -> string, s: Store, d: Diagram, p: Payload)
    requires WellFormed(lower, s) && EndsProblem(lower, p).None?
    ensures var after := Saved(s, d, p);
            && (exists r | r in after.rows :: r.diagram == d && PayloadOf(r) == p)
            && forall r | r in after.rows && r.diagram == d
                 && {r.entityA, r.entityB} == {p.sourceEntity, p.targetEntity} :: PayloadOf(r) == p
  {
    var entry := CanonicalRow(s.nextId, d, p);
    var i := IndexWhere(s.rows, (r: Row) => SamePair(r, entry));
    var after := Saved(s, d, p);
    CanonicalIsValid(lower, s.nextId, d, p);
    CanonicalKeepsThePayload(s.nextId, d, p);
    SaveKeepsWellFormed(lower, s, d, p);
    var row := after.rows[i];
    assert row in after.rows && SamePair(row, entry) && PayloadOf(row) == p;
    forall r | r in after.rows && r.diagram == d
      && {r.entityA, r.entityB} == {p.sourceEntity, p.targetEntity}
      ensures r == row
    {
      SameEndsSamePair(r, row);
    }
  }

  /** Ordered pairs over the same two entities are the same pair. */
  lemma {:induction false} SameEndsSamePair(r: Row, t: Row)
    requires Less(r.entityA, r.entityB) && Less(t.entityA, t.entityB)
    requires r.diagram == t.diagram && {r.entityA, r.entityB} == {t.entityA, t.entityB}
    ensures SamePair(r, t)
  {
    LessAsymmetric(r.entityA, r.entityB);
    LessIrreflexive(r.entityA);
    LessIrreflexive(t.entityA);
    assert r.entityA in {t.entityA, t.entityB} && r.entityB in {t.entityA, t.entityB};
    assert t.entityA in {r.entityA, r.entityB} && t.entityB in {r.entityA, r.entityB};
  }

  /** Saving the same assertion twice is saving it once. */
  lemma {:induction false} SaveIsIdempotent(s: Store, d: Diagram, p: Payload)
    ensures Saved(Saved(s, d, p), d, p) == Saved(s, d, p)
  {
    var once := Saved(s, d, p);
    var entry := CanonicalRow(s.nextId, d, p);
    var again := CanonicalRow(once.nextId, d, p);
    var i := IndexWhere(s.rows, (r: Row) => SamePair(r, entry));
    var j := IndexWhere(once.rows, (r: Row) => SamePair(r, again));
    assert forall k | 0 <= k < i :: once.rows[k] == s.rows[k];
    assert SamePair(once.rows[i], again);
    assert i == j;
  }

  lemma {:induction false} SkipHead(keep: Row -> bool, row: Row, rest: seq<Row>)
    requires !keep(row)
    ensures Filter(keep, [row] + rest) == Filter(keep, rest)
  {
    assert ([row] + rest)[1..] == rest;
  }

  lemma {:induction false} FilterDrop(keep: Row -> bool, before: seq<Row>, row: Row, after: seq<Row>)
    requires !keep(row)
    ensures Filter(keep, before + ([row] + after)) == Filter(keep, before + after)
  {
    FilterConcat(keep, before, [row] + after);
    FilterConcat(keep, before, after);
    SkipHead(keep, row, after);
  }

  lemma {:induction false} FilterReplace(keep: Row -> bool, rows: seq<Row>, i: nat, row: Row)
    requires i < |rows| && !keep(rows[i]) && !keep(row)
    ensures Filter(keep, rows[i := row]) == Filter(keep, rows)
  {
    var before, after := rows[..i], rows[i + 1..];
    assert rows == before + ([rows[i]] + after);
    assert rows[i := row] == before + ([row] + after);
    FilterDrop(keep, before, rows[i], after);
    FilterDrop(keep, before, row, after);
  }

  lemma {:induction false} FilterRemove(keep: Row -> bool, rows: seq<Row>, i: nat)
    requires i < |rows| && !keep(rows[i])
    ensures Filter(keep, rows[..i] + rows[i + 1..]) == Filter(keep, rows)
  {
    var before, after := rows[..i], rows[i + 1..];
    assert rows == before + ([rows[i]] + after);
    FilterDrop(keep, before, rows[i], after);
  }

  lemma {:induction false} SaveKeepsOthers(s: Store, d: Diagram, p: Payload, keep: Row -> bool)
    requires forall r: Row | r.diagram == d :: !keep(r)
    ensures Filter(keep, Saved(s, d, p).rows) == Filter(keep, s.rows)
  {
    var entry := CanonicalRow(s.nextId, d, p);
    var i := IndexWhere(s.rows, (r: Row) => SamePair(r, entry));
    if i < |s.rows| {
      FilterReplace(keep, s.rows, i, entry.(pk := s.rows[i].pk));
    } else {
      FilterConcat(keep, s.rows, [entry]);
      SkipHead(keep, entry, []);
    }
  }

  /** A write against one diagram leaves every other diagram's rows as they were. */
  lemma {:induction false} OtherDiagramsUntouched(lower: string -> string, s: Store, d: Diagram, op: Op, other: Diagram)
    requires Apply(lower, s, d, op).Ok? && other != d
    ensures RowsFor(Apply(lower, s, d, op).value, other) == RowsFor(s, other)
  {
    var keep := (r: Row) => r.diagram == other;
    match op
    case Save(p) =>
      SaveKeepsOthers(s, d, p, keep);
    case Update(pk, p) =>
      var i := IndexWhere(s.rows, (r: Row) => r.pk == pk && r.diagram == d);
      FilterReplace(keep, s.rows, i, CanonicalRow(pk, d, p));
    case Delete(pk) =>
      var i := IndexWhere(s.rows, (r: Row) => r.pk == pk && r.diagram == d);
      FilterRemove(keep, s.rows, i);
  }
}
