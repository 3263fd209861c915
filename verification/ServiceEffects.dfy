/** What a write changes on the diagram. */
module ServiceEffects {
  import opened Prelude
  import opened Ir
  import opened Inference
  import opened PairOwnership
  import opened CatalogClaims
  import opened OverrideStore
  import opened StoreWrites
  import opened GraphCache
  import opened GraphService

  ghost predicate OnlyDeclares(capture: Capture) {
    forall r | r in capture.declared :: r.origin == Declared
  }

  /** The state after one worker's accepted write. */
  function AfterWrite(nm: Naming, s: System, w: nat, d: Diagram, op: Op): System {
    Step(OmniErd(nm), s, Write(w, d, op))
  }

  /** The worker that wrote serves what the table says now, the copy it had gone. */
  lemma {:induction false} WriterServesAfresh(nm: Naming, s: System, w: nat, d: Diagram, op: Op, after: Store)
    requires Apply(nm.lower, s.store, d, op) == Ok(after) && d in s.catalog
    ensures AfterWrite(nm, s, w, d, op).store == after
    ensures ServedAt(OmniErd(nm), AfterWrite(nm, s, w, d, op), w, d)
         == Some(FreshGraph(nm, after, d, s.catalog[d], s.clock))
  {
  }

  // ---- Deleting ---------------------------------------------------------------------------

  lemma {:induction false} NoKeyNoEdge(nm: Naming, store: Store, d: Diagram, capture: Capture, now: int, pk: nat)
    requires OnlyDeclares(capture) && forall r | r in store.rows :: r.pk != pk
    ensures !DrawsOverride(FreshGraph(nm, store, d, capture, now), pk)
    ensures forall r | r in RowsFor(store, d) :: r.pk != pk
  {
    var graph := FreshGraph(nm, store, d, capture, now);
    InferDrawsExactly(nm, capture.entities, capture.declared, StoredOverrides(store, d));
    DrawnIffStoredThen(nm, RowsFor(store, d), graph, pk);
    forall r | r in RowsFor(store, d) ensures r.pk != pk {
      RowsForMembers(store, d, r);
    }
  }

  /** A deleted override is neither listed nor drawn by the worker that deleted it. */
  lemma {:induction false} DeletedIsGone(nm: Naming, s: System, w: nat, d: Diagram, pk: nat, graph: SchemaGraph)
    requires WellFormed(nm.lower, s.store) && HasRow(s.store.rows, d, pk)
    requires d in s.catalog && OnlyDeclares(s.catalog[d])
    requires ServedAt(OmniErd(nm), AfterWrite(nm, s, w, d, Delete(pk)), w, d) == Some(graph)
    ensures forall r | r in RowsFor(AfterWrite(nm, s, w, d, Delete(pk)).store, d) :: r.pk != pk
    ensures !DrawsOverride(graph, pk)
  {
    DeleteRemovesItsRow(nm.lower, s.store, d, pk);
    var after := Apply(nm.lower, s.store, d, Delete(pk)).value;
    WriterServesAfresh(nm, s, w, d, Delete(pk), after);
    NoKeyNoEdge(nm, after, d, s.catalog[d], s.clock, pk);
  }

  // ---- Saving -----------------------------------------------------------------------------

  /** The catalog has what the assertion names. */
  ghost predicate AssertionFits(nm: Naming, entities: seq<Entity>, p: Payload) {
    && p.sourceEntity in ById(entities) && p.targetEntity in ById(entities)
    && HasColumns(nm, entities, End(p.sourceEntity, p.sourceColumns))
    && HasColumns(nm, entities, End(p.targetEntity, p.targetColumns))
  }

  /** The edge runs as the assertion does, in the catalog's spelling, with its cardinality and note. */
  ghost predicate SaysAssertion(nm: Naming, entities: seq<Entity>, p: Payload, e: Relationship) {
    && IsEndOf(nm, entities, End(p.sourceEntity, p.sourceColumns), e.source)
    && IsEndOf(nm, entities, End(p.targetEntity, p.targetColumns), e.target)
    && e.cardinality == p.cardinality && e.origin == AdminOverride && e.confidence == 1.0
    && e.note == if p.note == "" then None else Some(p.note)
  }

  lemma {:induction false} SavedRow(lower: string -> string, s: Store, d: Diagram, p: Payload) returns (row: Row)
    requires WellFormed(lower, s) && IsAssertion(lower, p)
    ensures Apply(lower, s, d, Save(p)).Ok?
    ensures row in RowsFor(Apply(lower, s, d, Save(p)).value, d) && Stores(row, d, p)
    ensures WellFormed(lower, Apply(lower, s, d, Save(p)).value)
  {
    SaveRewritesOrAdds(lower, s, d, p);
    var after := Apply(lower, s, d, Save(p)).value;
    ApplyKeepsWellFormed(lower, s, d, Save(p));
    if exists r | r in s.rows :: Covers(r, d, p.sourceEntity, p.targetEntity) {
      var i: nat :| Rewrites(s.rows, after.rows, i, d, p) && Covers(s.rows[i], d, p.sourceEntity, p.targetEntity);
      row := after.rows[i];
    } else {
      row := after.rows[|s.rows|];
    }
    assert row in after.rows;
    RowsForMembers(after, d, row);
  }

  lemma {:induction false} StoredJoinReads(nm: Naming, entities: seq<Entity>, row: Row, d: Diagram, p: Payload)
    requires Stores(row, d, p) && IsAssertion(nm.lower, p) && p.action == "join" && AssertionFits(nm, entities, p)
    ensures ResolveOverride(nm, OverrideToIr(row), ById(entities)).Ok?
    ensures SaysAssertion(nm, entities, p, ResolveOverride(nm, OverrideToIr(row), ById(entities)).value)
  {
    StoredIsAsserted(row, d, p);
    OverrideIsReadAsStated(nm, entities, OverrideToIr(row));
  }

  lemma {:induction false} OnlyTheRowsEdge(
    nm: Naming, store: Store, d: Diagram, entities: seq<Entity>, declared: seq<Relationship>, row: Row, e: Relationship)
    requires WellFormed(nm.lower, store) && row in RowsFor(store, d)
    requires ResolveOverride(nm, OverrideToIr(row), ById(entities)).Ok?
    requires e in Infer(nm, entities, declared, StoredOverrides(store, d)) && PairOf(e) == PairOfRow(row)
    ensures ResolveOverride(nm, OverrideToIr(row), ById(entities)) == Ok(e)
  {
    var overrides := StoredOverrides(store, d);
    var t := TiersOf(nm, entities, declared, overrides);
    RowIsAnOverride(RowsFor(store, d), row);
    RowNamesItsPair(row);
    OverriddenElsewhere(nm, entities, declared, overrides, OverrideToIr(row));
    assert PairOf(e) !in PairsOf(t.declared) && PairOf(e) !in PairsOf(t.inferred);
    assert e in t.asserted;
    AssertedIffFits(nm, entities, overrides, e);
    var j :| j in overrides && j.action == Join && ResolveOverride(nm, j, ById(entities)) == Ok(e);
    ResolvedPair(nm, j, ById(entities));
    SamePairSameRow(nm.lower, store, d, row, j);
  }

  /** A pair an override that fits speaks about is left to the overrides. */
  lemma {:induction false} OverriddenElsewhere(
    nm: Naming, entities: seq<Entity>, declared: seq<Relationship>, overrides: seq<Override>, o: Override)
    requires o in overrides && ResolveOverride(nm, o, ById(entities)).Ok?
    ensures var t := TiersOf(nm, entities, declared, overrides);
            {o.source.entity, o.target.entity} !in PairsOf(t.declared) + PairsOf(t.inferred)
  {
    var applied := Applied(nm, overrides, ById(entities));
    ResolvedPair(nm, o, ById(entities));
    assert (o, ResolveOverride(nm, o, ById(entities)).value) in applied;
    var t := TiersOf(nm, entities, declared, overrides);
    OffersSettle(OverriddenPairs(applied) + PairsOf(t.declared), GuessesFor(nm, entities));
  }

  lemma {:induction false} SamePairSameRow(lower: string -> string, store: Store, d: Diagram, row: Row, j: Override)
    requires WellFormed(lower, store) && row in RowsFor(store, d)
    requires j in StoredOverrides(store, d) && Names(j, PairOfRow(row))
    ensures j == OverrideToIr(row)
  {
    var k :| 0 <= k < |RowsFor(store, d)| && StoredOverrides(store, d)[k] == j;
    RowNamesItsPair(RowsFor(store, d)[k]);
    OnePairOneRow(lower, store, d, row, RowsFor(store, d)[k]);
  }

  /**
   * A saved join that fits is at once the one edge its worker draws between its tables: it
   * runs from the source to the target as stated, columns in the catalog's spelling.
   */
  lemma {:induction false} SavedJoinIsDrawn(
    nm: Naming, s: System, w: nat, d: Diagram, p: Payload, graph: SchemaGraph)
    returns (drawn: Relationship)
    requires WellFormed(nm.lower, s.store) && IsAssertion(nm.lower, p) && p.action == "join"
    requires d in s.catalog && AssertionFits(nm, s.catalog[d].entities, p)
    requires ServedAt(OmniErd(nm), AfterWrite(nm, s, w, d, Save(p)), w, d) == Some(graph)
    ensures SaysAssertion(nm, s.catalog[d].entities, p, drawn)
    ensures forall e | e in graph.relationships && PairOf(e) == {p.sourceEntity, p.targetEntity} :: e == drawn
    ensures drawn in graph.relationships
  {
    var row := SavedRow(nm.lower, s.store, d, p);
    var after := Apply(nm.lower, s.store, d, Save(p)).value;
    WriterServesAfresh(nm, s, w, d, Save(p), after);
    drawn := StoredJoinIsTheEdge(nm, after, d, s.catalog[d], row, p);
  }

  lemma {:induction false} StoredJoinIsTheEdge(
    nm: Naming, store: Store, d: Diagram, capture: Capture, row: Row, p: Payload)
    returns (drawn: Relationship)
    requires WellFormed(nm.lower, store) && row in RowsFor(store, d) && Stores(row, d, p)
    requires IsAssertion(nm.lower, p) && p.action == "join" && AssertionFits(nm, capture.entities, p)
    ensures SaysAssertion(nm, capture.entities, p, drawn)
    ensures var edges := Infer(nm, capture.entities, capture.declared, StoredOverrides(store, d));
            drawn in edges && forall e | e in edges && PairOf(e) == {p.sourceEntity, p.targetEntity} :: e == drawn
  {
    StoredJoinReads(nm, capture.entities, row, d, p);
    drawn := ResolveOverride(nm, OverrideToIr(row), ById(capture.entities)).value;
    JoinIsDrawn(nm, store, d, capture, row, p, drawn);
    PairOfStored(row, d, p);
    NoOtherEdge(nm, store, d, capture, row, PairOfRow(row), drawn);
  }

  lemma {:induction false} PairOfStored(row: Row, d: Diagram, p: Payload)
    requires Stores(row, d, p)
    ensures PairOfRow(row) == {p.sourceEntity, p.targetEntity}
  {
  }

  lemma {:induction false} NoOtherEdge(
    nm: Naming, store: Store, d: Diagram, capture: Capture, row: Row, pair: set<string>, drawn: Relationship)
    requires WellFormed(nm.lower, store) && row in RowsFor(store, d) && pair == PairOfRow(row)
    requires ResolveOverride(nm, OverrideToIr(row), ById(capture.entities)) == Ok(drawn)
    ensures forall e | e in Infer(nm, capture.entities, capture.declared, StoredOverrides(store, d))
              && PairOf(e) == pair :: e == drawn
  {
    forall e | e in Infer(nm, capture.entities, capture.declared, StoredOverrides(store, d)) && PairOf(e) == pair
      ensures e == drawn
    {
      OnlyTheRowsEdge(nm, store, d, capture.entities, capture.declared, row, e);
    }
  }

  lemma {:induction false} JoinIsDrawn(
    nm: Naming, store: Store, d: Diagram, capture: Capture, row: Row, p: Payload, drawn: Relationship)
    requires row in RowsFor(store, d) && Stores(row, d, p) && p.action == "join"
    requires ResolveOverride(nm, OverrideToIr(row), ById(capture.entities)) == Ok(drawn)
    ensures drawn in Infer(nm, capture.entities, capture.declared, StoredOverrides(store, d))
  {
    StoredIsAsserted(row, d, p);
    RowIsAnOverride(RowsFor(store, d), row);
    AssertedIffFits(nm, capture.entities, StoredOverrides(store, d), drawn);
  }

  // ---- Listing ----------------------------------------------------------------------------

  /** The list calls a row active exactly when what it states fits, and otherwise says what is wrong first. */
  lemma {:induction false} ListSaysWhatIsWrong(nm: Naming, row: Row, d: Diagram, p: Payload, graph: SchemaGraph)
    requires Stores(row, d, p)
    ensures ListedStatus(nm, row, graph).None? <==>
              p.sourceEntity != p.targetEntity && AssertionFits(nm, graph.entities, p)
    ensures ListedStatus(nm, row, graph).Some? ==>
              IsWrong(nm, graph.entities, OverrideToIr(row), ListedStatus(nm, row, graph).value)
  {
    StoredIsAsserted(row, d, p);
    OverrideIsReadAsStated(nm, graph.entities, OverrideToIr(row));
  }

  /** A graph built now is of what was captured, dated now. */
  lemma {:induction false} GraphCarriesItsCapture(nm: Naming, store: Store, d: Diagram, capture: Capture, now: int)
    ensures var graph := FreshGraph(nm, store, d, capture, now);
            graph.dialect == capture.dialect && graph.entities == capture.entities && graph.capturedAt == now
  {
  }
}
