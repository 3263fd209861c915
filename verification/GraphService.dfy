/** The two ways one override is read: drawn and listed. */
module GraphService {
  import opened Prelude
  import opened Sorting
  import opened Ir
  import opened Inference
  import opened PairOwnership
  import opened OverrideStore
  import opened GraphCache

  // The diagram draws what inference made of an override when the served graph was built,
  // perhaps out of the cache; the admin list resolves the stored row again, against the
  // entities of that same graph.

  /** The graph inference gives right now, overrides applied. */
  function FreshGraph(nm: Naming, store: Store, d: Diagram, capture: Capture, now: int): SchemaGraph {
    SchemaGraph(capture.dialect, now, capture.entities,
      Infer(nm, capture.entities, capture.declared, StoredOverrides(store, d)))
  }

  function OmniErd(nm: Naming): Backend {
    Backend(
      (store: Store, d: Diagram, capture: Capture, now: int) => FreshGraph(nm, store, d, capture, now),
      (store: Store, d: Diagram, op: Op) => Apply(nm.lower, store, d, op))
  }

  // ---- The diagram and the admin list ---------------------------------------------------

  /** The status `list_overrides` gives a row: read against the entities of the served graph. */
  function ListedStatus(nm: Naming, r: Row, graph: SchemaGraph): Option<Problem> {
    match ResolveOverride(nm, OverrideToIr(r), ById(graph.entities))
    case Ok(_) => None
    case Err(problem) => Some(problem)
  }

  ghost predicate DrawsOverride(graph: SchemaGraph, pk: nat) {
    exists e | e in graph.relationships :: e.origin == AdminOverride && e.id == EdgeId(pk)
  }

  ghost predicate OnlyWrites(events: seq<Event>, w: nat) {
    forall e | e in events && e.Write? :: e.worker == w
  }

  /** Introspectors report constraints, never admin edges. */
  ghost predicate CapturesDeclare(states: seq<System>) {
    forall s | s in states :: forall d | d in s.catalog :: forall r | r in s.catalog[d].declared :: r.origin == Declared
  }

  lemma {:induction false} StepKeepsWellFormed(nm: Naming, s: System, e: Event)
    requires WellFormed(nm.lower, s.store)
    ensures WellFormed(nm.lower, Step(OmniErd(nm), s, e).store)
  {
    if e.Write? && Apply(nm.lower, s.store, e.diagram, e.op).Ok? {
      ApplyKeepsWellFormed(nm.lower, s.store, e.diagram, e.op);
    }
  }

  lemma {:induction false} StoreStaysWellFormed(nm: Naming, states: seq<System>, events: seq<Event>, n: nat)
    requires IsRun(OmniErd(nm), states, events) && n < |states| && WellFormed(nm.lower, states[0].store)
    ensures WellFormed(nm.lower, states[n].store)
  {
    if n > 0 {
      StoreStaysWellFormed(nm, states, events, n - 1);
      StepKeepsWellFormed(nm, states[n - 1], events[n - 1]);
    }
  }

  lemma {:induction false} StepKeepsRows(nm: Naming, s: System, e: Event, w: nat, d: Diagram)
    requires !WritesTo(OmniErd(nm), s, e, w, d) && (e.Write? ==> e.worker == w)
    ensures RowsFor(Step(OmniErd(nm), s, e).store, d) == RowsFor(s.store, d)
  {
    if e.Write? && Apply(nm.lower, s.store, e.diagram, e.op).Ok? {
      OtherDiagramsUntouched(nm.lower, s.store, e.diagram, e.op, d);
    }
  }

  lemma {:induction false} EventKeepsRows(
    nm: Naming, states: seq<System>, events: seq<Event>, k: nat, w: nat, d: Diagram)
    requires IsRun(OmniErd(nm), states, events) && OnlyWrites(events, w) && k < |events|
    requires !WritesTo(OmniErd(nm), states[k], events[k], w, d)
    ensures RowsFor(states[k + 1].store, d) == RowsFor(states[k].store, d)
  {
    assert events[k] in events;
    StepKeepsRows(nm, states[k], events[k], w, d);
  }

  lemma {:induction false} NeverChanges<T>(values: seq<T>, m: nat, n: nat)
    requires m <= n < |values| && forall k | m <= k < n :: values[k + 1] == values[k]
    ensures values[n] == values[m]
    decreases n
  {
    if m < n {
      NeverChanges(values, m, n - 1);
      assert values[n - 1 + 1] == values[n - 1];
    }
  }

  function RowsIn(d: Diagram): System -> seq<Row> {
    (s: System) => RowsFor(s.store, d)
  }

  /** With one writing worker, a span without its writes is a span without any. */
  lemma {:induction false} OverridesUnchanged(
    nm: Naming, states: seq<System>, events: seq<Event>, m: nat, n: nat, w: nat, d: Diagram)
    requires IsRun(OmniErd(nm), states, events) && OnlyWrites(events, w) && m <= n < |states|
    requires forall k | m <= k < n :: !WritesTo(OmniErd(nm), states[k], events[k], w, d)
    ensures RowsFor(states[n].store, d) == RowsFor(states[m].store, d)
  {
    var tables := Map(RowsIn(d), states);
    forall k | m <= k < n ensures tables[k + 1] == tables[k] {
      EventKeepsRows(nm, states, events, k, w, d);
    }
    NeverChanges(tables, m, n);
  }

  lemma {:induction false} RowsForMembers(s: Store, d: Diagram, r: Row)
    ensures r in RowsFor(s, d) <==> r in s.rows && r.diagram == d
  {
    var mine := Filter((r: Row) => r.diagram == d, s.rows);
    SortedElements(RowBefore, mine);
    assert r in RowsFor(s, d) <==> r in Elements(RowsFor(s, d));
    assert r in mine <==> r in Elements(mine);
  }

  lemma {:induction false} KeysIdentifyRows(lower: string -> string, s: Store, r: Row, t: Row)
    requires WellFormed(lower, s) && r in s.rows && t in s.rows && r.pk == t.pk
    ensures r == t
  {
  }

  lemma {:induction false} RowIsAnOverride(rows: seq<Row>, row: Row)
    requires row in rows
    ensures OverrideToIr(row) in Map(OverrideToIr, rows)
  {
    var k :| 0 <= k < |rows| && rows[k] == row;
    assert Map(OverrideToIr, rows)[k] == OverrideToIr(row);
  }

  lemma {:induction false} DrawnFrom(
    nm: Naming, byId: map<string, Entity>, overrides: seq<Override>, edges: seq<Relationship>, e: Relationship)
    returns (o: Override)
    requires DrawsExactly(nm, byId, overrides, edges) && e in edges && e.origin == AdminOverride
    ensures o in overrides && o.id == e.id && o.action == Join && ResolveOverride(nm, o, byId).Ok?
  {
    o :| o in overrides && o.action == Join && ResolveOverride(nm, o, byId) == Ok(e);
  }

  lemma {:induction false} FittingRowIsDrawn(
    nm: Naming, byId: map<string, Entity>, rows: seq<Row>, edges: seq<Relationship>, row: Row)
    returns (e: Relationship)
    requires row in rows && row.action == JOIN && DrawsExactly(nm, byId, Map(OverrideToIr, rows), edges)
    requires ResolveOverride(nm, OverrideToIr(row), byId).Ok?
    ensures e in edges && e.origin == AdminOverride && e.id == EdgeId(row.pk)
  {
    RowIsAnOverride(rows, row);
    e := ResolveOverride(nm, OverrideToIr(row), byId).value;
  }

  /** The row joins its pair, and fits the catalog. */
  ghost predicate JoinFits(nm: Naming, byId: map<string, Entity>, row: Row) {
    row.action == JOIN && ResolveOverride(nm, OverrideToIr(row), byId).Ok?
  }

  /** The row with this key did, among these rows. */
  ghost predicate KeyFits(nm: Naming, byId: map<string, Entity>, rows: seq<Row>, pk: nat) {
    exists t | t in rows :: t.pk == pk && JoinFits(nm, byId, t)
  }

  /** The override drawn with this key comes from the row that has it. */
  lemma {:induction false} DrawnRow(
    nm: Naming, byId: map<string, Entity>, rows: seq<Row>, edges: seq<Relationship>, pk: nat, e: Relationship)
    requires DrawsExactly(nm, byId, Map(OverrideToIr, rows), edges)
    requires e in edges && e.origin == AdminOverride && e.id == EdgeId(pk)
    ensures KeyFits(nm, byId, rows, pk)
  {
    var o := DrawnFrom(nm, byId, Map(OverrideToIr, rows), edges, e);
    var k :| 0 <= k < |rows| && Map(OverrideToIr, rows)[k] == o;
    EdgeIdsDiffer(rows[k].pk, pk);
    assert rows[k] in rows;
  }

  /** A key's edge is drawn exactly when the table the graph was built from held a fitting join under it. */
  lemma {:induction false} DrawnIffStoredThen(nm: Naming, rows: seq<Row>, graph: SchemaGraph, pk: nat)
    requires DrawsExactly(nm, ById(graph.entities), Map(OverrideToIr, rows), graph.relationships)
    ensures DrawsOverride(graph, pk) <==> KeyFits(nm, ById(graph.entities), rows, pk)
  {
    var byId := ById(graph.entities);
    if DrawsOverride(graph, pk) {
      var e :| e in graph.relationships && e.origin == AdminOverride && e.id == EdgeId(pk);
      DrawnRow(nm, byId, rows, graph.relationships, pk, e);
    }
    if KeyFits(nm, byId, rows, pk) {
      var t :| t in rows && t.pk == pk && JoinFits(nm, byId, t);
      var e := FittingRowIsDrawn(nm, byId, rows, graph.relationships, t);
    }
  }

  lemma {:induction false} ServedGraphDraws(
    nm: Naming, states: seq<System>, events: seq<Event>, m: nat, n: nat, w: nat, d: Diagram, graph: SchemaGraph)
    requires IsRun(OmniErd(nm), states, events) && RecentlyBuilt(OmniErd(nm), states, events, m, n, w, d, graph)
    requires CapturesDeclare(states)
    ensures DrawsExactly(nm, ById(graph.entities), StoredOverrides(states[m].store, d), graph.relationships)
  {
    assert states[m] in states;
    var capture := states[m].catalog[d];
    InferDrawsExactly(nm, capture.entities, capture.declared, StoredOverrides(states[m].store, d));
  }

  /**
   * Whoever writes: the served graph was built at some instant under a minute ago, and
   * the list and the diagram agree about a join exactly when it fits now as its key's
   * row did then. A key with no row then, or with a row that did not join, did not fit.
   */
  lemma {:induction false} DiagramAndListAgreeIff(
    nm: Naming, states: seq<System>, events: seq<Event>, n: nat, w: nat, d: Diagram, graph: SchemaGraph, row: Row)
    returns (m: nat)
    requires IsRun(OmniErd(nm), states, events) && n < |states| && CapturesDeclare(states)
    requires ServedAt(OmniErd(nm), states[n], w, d) == Some(graph)
    requires row in RowsFor(states[n].store, d) && row.action == JOIN
    ensures RecentlyBuilt(OmniErd(nm), states, events, m, n, w, d, graph)
    ensures (ListedStatus(nm, row, graph).None? <==> DrawsOverride(graph, row.pk))
       <==> (JoinFits(nm, ById(graph.entities), row)
        <==> KeyFits(nm, ById(graph.entities), RowsFor(states[m].store, d), row.pk))
  {
    ServedGraphsAreRecent(OmniErd(nm), states, events, n, w, d, graph);
    m :| RecentlyBuilt(OmniErd(nm), states, events, m, n, w, d, graph);
    ServedGraphDraws(nm, states, events, m, n, w, d, graph);
    DrawnIffStoredThen(nm, RowsFor(states[m].store, d), graph, row.pk);
  }

  /** In a table that holds the row, its key's row is that row. */
  lemma {:induction false} StoredRowFits(
    nm: Naming, byId: map<string, Entity>, store: Store, d: Diagram, row: Row)
    requires WellFormed(nm.lower, store) && row in RowsFor(store, d)
    ensures KeyFits(nm, byId, RowsFor(store, d), row.pk) <==> JoinFits(nm, byId, row)
  {
    forall t | t in RowsFor(store, d) && t.pk == row.pk ensures t == row {
      RowsForMembers(store, d, t);
      RowsForMembers(store, d, row);
      KeysIdentifyRows(nm.lower, store, t, row);
    }
  }

  /**
   * Where one worker does all the writing, its rows are still those the graph was built
   * from, so a join is listed active exactly when its edge is drawn, though the graph
   * may come from the cache.
   */
  lemma {:induction false} DiagramAndListAgree(
    nm: Naming, states: seq<System>, events: seq<Event>, n: nat, w: nat, d: Diagram, graph: SchemaGraph, row: Row)
    requires IsRun(OmniErd(nm), states, events) && n < |states| && WellFormed(nm.lower, states[0].store)
    requires OnlyWrites(events, w) && CapturesDeclare(states)
    requires ServedAt(OmniErd(nm), states[n], w, d) == Some(graph)
    requires row in RowsFor(states[n].store, d) && row.action == JOIN
    ensures ListedStatus(nm, row, graph).None? <==> DrawsOverride(graph, row.pk)
  {
    var m := DiagramAndListAgreeIff(nm, states, events, n, w, d, graph, row);
    OverridesUnchanged(nm, states, events, m, n, w, d);
    StoreStaysWellFormed(nm, states, events, m);
    StoredRowFits(nm, ById(graph.entities), states[m].store, d, row);
  }

  // ---- Suppressed pairs ------------------------------------------------------------------

  function PairOfRow(r: Row): set<string> {
    {r.entityA, r.entityB}
  }

  lemma {:induction false} RowNamesItsPair(r: Row)
    ensures Names(OverrideToIr(r), PairOfRow(r))
  {
  }

  lemma {:induction false} OnePairOneRow(lower: string -> string, s: Store, d: Diagram, r: Row, t: Row)
    requires WellFormed(lower, s) && r in RowsFor(s, d) && t in RowsFor(s, d) && PairOfRow(r) == PairOfRow(t)
    ensures r == t
  {
    RowsForMembers(s, d, r);
    RowsForMembers(s, d, t);
    SameEndsSamePair(r, t);
  }

  lemma {:induction false} NoJoinBesideSuppression(
    lower: string -> string, store: Store, d: Diagram, row: Row, j: Override)
    requires WellFormed(lower, store) && row in RowsFor(store, d) && row.action == SUPPRESS
    requires j in StoredOverrides(store, d) && Names(j, PairOfRow(row))
    ensures j.action == Suppress
  {
    var k :| 0 <= k < |RowsFor(store, d)| && StoredOverrides(store, d)[k] == j;
    RowNamesItsPair(RowsFor(store, d)[k]);
    OnePairOneRow(lower, store, d, row, RowsFor(store, d)[k]);
  }

  /** A well-formed table never draws a pair it suppresses. */
  lemma {:induction false} SuppressedRowIsNotDrawn(nm: Naming, store: Store, d: Diagram, capture: Capture, row: Row)
    requires WellFormed(nm.lower, store) && row in RowsFor(store, d) && row.action == SUPPRESS
    requires ResolveOverride(nm, OverrideToIr(row), ById(capture.entities)).Ok?
    ensures PairOfRow(row)
         !in PairsOf(Infer(nm, capture.entities, capture.declared, StoredOverrides(store, d)))
  {
    var overrides := StoredOverrides(store, d);
    RowIsAnOverride(RowsFor(store, d), row);
    RowNamesItsPair(row);
    SuppressedPairIsDrawnIff(nm, capture.entities, capture.declared, overrides, OverrideToIr(row));
    forall j | j in overrides && Names(j, PairOfRow(row)) ensures j.action == Suppress {
      NoJoinBesideSuppression(nm.lower, store, d, row, j);
    }
  }

  /** In the served graph, no row of the table it was built from that suppresses a pair and fits is defied. */
  ghost predicate Honours(nm: Naming, graph: SchemaGraph, rows: seq<Row>) {
    forall r | r in rows && r.action == SUPPRESS && ResolveOverride(nm, OverrideToIr(r), ById(graph.entities)).Ok? ::
      PairOfRow(r) !in PairsOf(graph.relationships)
  }

  lemma {:induction false} FreshGraphHonours(nm: Naming, store: Store, d: Diagram, capture: Capture, now: int)
    requires WellFormed(nm.lower, store)
    ensures Honours(nm, FreshGraph(nm, store, d, capture, now), RowsFor(store, d))
  {
    var graph := FreshGraph(nm, store, d, capture, now);
    forall r | r in RowsFor(store, d) && r.action == SUPPRESS
      && ResolveOverride(nm, OverrideToIr(r), ById(graph.entities)).Ok?
      ensures PairOfRow(r) !in PairsOf(graph.relationships)
    {
      SuppressedRowIsNotDrawn(nm, store, d, capture, r);
    }
  }

  /**
   * In every run each served graph leaves out every pair suppressed when it was built,
   * under a minute ago; with one worker writing, every pair suppressed now.
   */
  lemma {:induction false} SuppressedPairsStayOff(
    nm: Naming, states: seq<System>, events: seq<Event>, n: nat, w: nat, d: Diagram, graph: SchemaGraph)
    returns (m: nat)
    requires IsRun(OmniErd(nm), states, events) && n < |states| && WellFormed(nm.lower, states[0].store)
    requires ServedAt(OmniErd(nm), states[n], w, d) == Some(graph)
    ensures RecentlyBuilt(OmniErd(nm), states, events, m, n, w, d, graph)
    ensures Honours(nm, graph, RowsFor(states[m].store, d))
    ensures OnlyWrites(events, w) ==> Honours(nm, graph, RowsFor(states[n].store, d))
  {
    ServedGraphsAreRecent(OmniErd(nm), states, events, n, w, d, graph);
    m :| RecentlyBuilt(OmniErd(nm), states, events, m, n, w, d, graph);
    StoreStaysWellFormed(nm, states, events, m);
    FreshGraphHonours(nm, states[m].store, d, states[m].catalog[d], states[m].clock);
    if OnlyWrites(events, w) {
      OverridesUnchanged(nm, states, events, m, n, w, d);
    }
  }

  // ---- A second worker -------------------------------------------------------------------

  /**
   * With two workers the agreement can fail: a worker that cached the graph just
   * before a sibling saved a join lists that join as active without drawing it.
   */
  lemma {:induction false} SiblingWorkerLagsBehind(nm: Naming, d: Diagram, capture: Capture, p: Payload, now: int)
    requires EndsProblem(nm.lower, p).None? && p.action == JOIN
    requires ResolveOverride(nm, OverrideToIr(CanonicalRow(0, d, p)), ById(capture.entities)).Ok?
    requires forall r | r in capture.declared :: r.origin == Declared
    ensures var s := ReadThenWrite(OmniErd(nm), Store([], 0), d, capture, now, Save(p));
            var row, served := CanonicalRow(0, d, p), ServedAt(OmniErd(nm), s, 1, d);
            && row in RowsFor(s.store, d)
            && served.Some?
            && ListedStatus(nm, row, served.value).None?
            && !DrawsOverride(served.value, row.pk)
  {
    var b, after := OmniErd(nm), Store([CanonicalRow(0, d, p)], 1);
    FirstSave(nm, d, p);
    SiblingServesTheOldGraph(b, Store([], 0), d, capture, now, Save(p), after);
    var graph := b.build(Store([], 0), d, capture, now);
    BuildKeepsEntities(nm, Store([], 0), d, capture, now);
    EmptyStoreDrawsNothing(nm, d, capture, now);
    FittingRowIsListed(nm, capture, CanonicalRow(0, d, p), graph);
  }

  lemma {:induction false} FirstSave(nm: Naming, d: Diagram, p: Payload)
    requires EndsProblem(nm.lower, p).None?
    ensures OmniErd(nm).apply(Store([], 0), d, Save(p)) == Ok(Store([CanonicalRow(0, d, p)], 1))
    ensures CanonicalRow(0, d, p) in RowsFor(Store([CanonicalRow(0, d, p)], 1), d)
  {
    assert [] + [CanonicalRow(0, d, p)] == [CanonicalRow(0, d, p)];
    RowsForMembers(Store([CanonicalRow(0, d, p)], 1), d, CanonicalRow(0, d, p));
  }

  lemma {:induction false} BuildKeepsEntities(nm: Naming, store: Store, d: Diagram, capture: Capture, now: int)
    ensures OmniErd(nm).build(store, d, capture, now).entities == capture.entities
  {
  }

  lemma {:induction false} FittingRowIsListed(nm: Naming, capture: Capture, row: Row, graph: SchemaGraph)
    requires graph.entities == capture.entities
    requires ResolveOverride(nm, OverrideToIr(row), ById(capture.entities)).Ok?
    ensures ListedStatus(nm, row, graph).None?
  {
  }

  lemma {:induction false} EmptyStoreDrawsNothing(nm: Naming, d: Diagram, capture: Capture, now: int)
    requires forall r | r in capture.declared :: r.origin == Declared
    ensures forall pk :: !DrawsOverride(OmniErd(nm).build(Store([], 0), d, capture, now), pk)
  {
    InferDrawsExactly(nm, capture.entities, capture.declared, StoredOverrides(Store([], 0), d));
    assert StoredOverrides(Store([], 0), d) == [];
  }
}
