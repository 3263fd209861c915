/** The runnable SELECT for a selection, with everything it leaves out reported. */
module BuildSelect {
  import opened Prelude
  import opened Ir
  import opened JoinGraph
  import opened JoinPlan
  import opened Bridges
  import opened SqlScan
  import opened SqlText
  import opened SqlReader

  datatype WarningCode = EmptySelection | UnknownEntity | Disconnected

  datatype Warning = Warning(code: WarningCode, entityIds: seq<string>)

  datatype GeneratedSelect = GeneratedSelect(
    sql: Option<string>,
    warnings: seq<Warning>,
    included: seq<string>,
    excluded: seq<string>,
    joinGroups: seq<seq<string>>,
    suggestedBridges: seq<BridgeCandidate>,
    remedyBridge: Option<BridgeCandidate>)

  /** The ids of a selection the diagram holds, repeats collapsed. */
  function PickedOf(graph: SchemaGraph, selectedIds: seq<string>): (picked: seq<string>)
    ensures NoRepeats(picked)
    ensures forall id | id in picked :: id in ById(graph.entities) && id in selectedIds
  {
    var byId := ById(graph.entities);
    var known := Filter(id => id in byId, selectedIds);
    var picked := Dedupe(known);
    assert forall id | id in picked :: id in Elements(known);
    picked
  }

  function Unknown(graph: SchemaGraph): string -> bool {
    id => id !in ById(graph.entities)
  }

  function EarlyWarnings(graph: SchemaGraph, selectedIds: seq<string>): seq<Warning> {
    var missing := Filter(Unknown(graph), selectedIds);
    (if selectedIds == [] then [Warning(EmptySelection, [])] else []) +
    (if missing != [] then [Warning(UnknownEntity, missing)] else [])
  }

  /** Every plan over known picks can be printed: its ids resolve and its clauses pair up. */
  lemma {:induction false} PlanIsPrintable(graph: SchemaGraph, picked: seq<string>)
    requires picked != [] && NoRepeats(picked)
    requires forall id | id in picked :: id in ById(graph.entities)
    ensures var p := PlanOf(graph.relationships, picked);
            Printable(ById(graph.entities), p.included, p.steps)
  {
    var rels, p := graph.relationships, PlanOf(graph.relationships, picked);
    PlanIsSpanningTree(rels, picked);
    forall x | x in p.included ensures x in ById(graph.entities) {
      assert x in Elements(p.included);
    }
    forall s | s in p.steps ensures s.entityId in ById(graph.entities) && 0 < |s.on.anchor| == |s.on.joined| {
      var k :| 0 <= k < |p.steps| && p.steps[k] == s;
      ClauseIsUsable(rels, p.included[s.anchorIndex], p.included[k + 1]);
    }
  }

  /** What one plan says, in the diagram's own names. */
  ghost function PlanStatement(graph: SchemaGraph, picked: seq<string>): (s: Statement)
    requires picked != [] && NoRepeats(picked)
    requires forall id | id in picked :: id in ById(graph.entities)
    ensures Readable(s)
  {
    PlanIsPrintable(graph, picked);
    var p := PlanOf(graph.relationships, picked);
    StatementOf(ById(graph.entities), p.included, p.steps)
  }

  function Outside(included: seq<string>): string -> bool {
    id => id !in included
  }

  ghost function SelectOf(graph: SchemaGraph, selectedIds: seq<string>): GeneratedSelect {
    var picked := PickedOf(graph, selectedIds);
    var early := EarlyWarnings(graph, selectedIds);
    if picked == [] then GeneratedSelect(None, early, [], selectedIds, [], [], None)
    else
      var p, a := PlanOf(graph.relationships, picked), Analysis(graph, picked);
      GeneratedSelect(
        Some(SqlOf(QuoteFor(graph.dialect), PlanStatement(graph, picked))),
        early + (if p.unreached != [] then [Warning(Disconnected, p.unreached)] else []),
        p.included,
        Filter(Outside(p.included), selectedIds),
        a.groups,
        a.bridges,
        a.remedy)
  }

  method WarnEarly(graph: SchemaGraph, selectedIds: seq<string>) returns (warnings: seq<Warning>)
    ensures warnings == EarlyWarnings(graph, selectedIds)
  {
    var missing := Filter(Unknown(graph), selectedIds);
    warnings := [];
    if |selectedIds| == 0 {
      warnings := warnings + [Warning(EmptySelection, [])];
    }
    if |missing| > 0 {
      warnings := warnings + [Warning(UnknownEntity, missing)];
    }
  }

  method BuildSelect(graph: SchemaGraph, selectedIds: seq<string>) returns (r: GeneratedSelect)
    ensures r == SelectOf(graph, selectedIds)
  {
    var byId := ById(graph.entities);
    var picked := PickedOf(graph, selectedIds);
    var warnings := WarnEarly(graph, selectedIds);
    if |picked| == 0 {
      return GeneratedSelect(None, warnings, [], selectedIds, [], [], None);
    }

    var plan := PlanJoins(graph.relationships, picked);
    var analysis := AnalyzeJoins(graph, picked);
    if |plan.unreached| > 0 {
      warnings := warnings + [Warning(Disconnected, plan.unreached)];
    }
    assert Printable(byId, plan.included, plan.steps) by { PlanIsPrintable(graph, picked); }
    var sql := RenderSelect(byId, QuoteFor(graph.dialect), plan.included, plan.steps);
    r := GeneratedSelect(
      Some(sql), warnings, plan.included, Filter(Outside(plan.included), selectedIds),
      analysis.groups, analysis.bridges, analysis.remedy);
  }

  /** Some warning of this kind was given. */
  ghost predicate Warns(warnings: seq<Warning>, code: WarningCode) {
    exists w | w in warnings :: w.code == code
  }

  ghost predicate IsKnown(graph: SchemaGraph, id: string) {
    exists e | e in graph.entities :: e.id == id
  }

  /** The ids the diagram does not hold, each as often as selected and in that order. */
  ghost predicate ListsUnknown(graph: SchemaGraph, selectedIds: seq<string>, ids: seq<string>) {
    exists at :: ListsAt(ids, selectedIds, 0, at)
      && forall j | 0 <= j < |selectedIds| :: j in at <==> !IsKnown(graph, selectedIds[j])
  }

  lemma {:induction false} UnknownAreListed(graph: SchemaGraph, selectedIds: seq<string>)
    ensures ListsUnknown(graph, selectedIds, Filter(Unknown(graph), selectedIds))
  {
    var at := FilterLists(Unknown(graph), selectedIds, 0);
    assert selectedIds[0..] == selectedIds;
    assert forall j | 0 <= j < |selectedIds| :: j in at <==> !IsKnown(graph, selectedIds[j]);
  }

  lemma {:induction false} UnknownIffMissing(graph: SchemaGraph, selectedIds: seq<string>)
    ensures Filter(Unknown(graph), selectedIds) != []
       <==> exists id | id in selectedIds :: !IsKnown(graph, id)
  {
    var missing := Filter(Unknown(graph), selectedIds);
    if missing != [] {
      assert missing[0] in missing;
    }
    if id :| id in selectedIds && !IsKnown(graph, id) {
      assert id in missing;
    }
  }

  lemma {:induction false} EarlyWarningsGiven(early: seq<Warning>, empty: bool, missing: seq<string>)
    requires early == (if empty then [Warning(EmptySelection, [])] else [])
                    + (if missing != [] then [Warning(UnknownEntity, missing)] else [])
    ensures Warns(early, EmptySelection) <==> empty
    ensures Warns(early, UnknownEntity) <==> missing != []
    ensures !Warns(early, Disconnected)
    ensures forall w | w in early && w.code == UnknownEntity :: w.entityIds == missing
  {
    if empty {
      assert early[0] in early;
    }
    if missing != [] {
      assert early[|early| - 1] in early;
    }
  }

  /**
   * What a caller learns before any planning: an empty selection is warned about exactly
   * when nothing was selected, unknown ids exactly when the diagram lacks one, and then
   * the warning lists exactly those.
   */
  lemma {:induction false} EarlyWarningsAreExact(graph: SchemaGraph, selectedIds: seq<string>, early: seq<Warning>)
    requires early == EarlyWarnings(graph, selectedIds)
    ensures Warns(early, EmptySelection) <==> selectedIds == []
    ensures Warns(early, UnknownEntity) <==> exists id | id in selectedIds :: !IsKnown(graph, id)
    ensures !Warns(early, Disconnected)
    ensures forall w | w in early && w.code == UnknownEntity :: ListsUnknown(graph, selectedIds, w.entityIds)
  {
    UnknownAreListed(graph, selectedIds);
    UnknownIffMissing(graph, selectedIds);
    EarlyWarningsGiven(early, selectedIds == [], Filter(Unknown(graph), selectedIds));
  }

  /**
   * Nothing is silently absent: the first group is what the statement holds, and
   * a disconnected warning names exactly the picks outside it.
   */
  lemma {:induction false} NothingSilentlyAbsent(graph: SchemaGraph, selectedIds: seq<string>)
    requires PickedOf(graph, selectedIds) != []
    ensures var r, picked := SelectOf(graph, selectedIds), PickedOf(graph, selectedIds);
            && r.joinGroups != [] && Elements(r.joinGroups[0]) == Elements(r.included)
            && r.included != [] && r.included[0] == picked[0]
            && r.warnings == EarlyWarnings(graph, selectedIds) +
                 if |r.joinGroups| == 1 then []
                 else [Warning(Disconnected, Filter(id => id !in r.included, picked))]
  {
    var picked := PickedOf(graph, selectedIds);
    PlannerAgreesWithGroups(graph.relationships, picked);
    AllReachedIffOneGroup(graph.relationships, picked);
    PlanIsSpanningTree(graph.relationships, picked);
  }

  /** The text says the plan: reading it gives back every table, anchor and column pair. */
  lemma {:induction false} TextSaysThePlan(graph: SchemaGraph, selectedIds: seq<string>)
    requires PickedOf(graph, selectedIds) != []
    ensures SelectOf(graph, selectedIds).sql.Some?
    ensures ReadStatement(QuoteFor(graph.dialect), SelectOf(graph, selectedIds).sql.value)
         == Some(PlanStatement(graph, PickedOf(graph, selectedIds)))
  {
    SqlReadsBack(QuoteFor(graph.dialect), PlanStatement(graph, PickedOf(graph, selectedIds)));
  }

  lemma {:induction false} AddToSelection(graph: SchemaGraph, selectedIds: seq<string>, id: string)
    requires id in ById(graph.entities) && id !in PickedOf(graph, selectedIds)
    ensures PickedOf(graph, selectedIds + [id]) == PickedOf(graph, selectedIds) + [id]
  {
    var byId := ById(graph.entities);
    var known, more := Filter(i => i in byId, selectedIds), Filter(i => i in byId, selectedIds + [id]);
    FilterConcat(i => i in byId, selectedIds, [id]);
    assert more == known + [id] && more[..|more| - 1] == known;
  }

  /** The offer is kept: adding the remedy reaches the groups it names, and a pick that was out. */
  lemma {:induction false} RemedyKeepsItsPromise(graph: SchemaGraph, selectedIds: seq<string>)
    requires SelectOf(graph, selectedIds).remedyBridge.Some?
    ensures var r := SelectOf(graph, selectedIds);
            var b := r.remedyBridge.value;
            var r' := SelectOf(graph, selectedIds + [b.entityId]);
            && Elements(r'.included) == {b.entityId} + Members(r.joinGroups, b.connectsGroups)
            && Elements(r.included) < Elements(r'.included)
            && exists x | x in r.excluded :: x in PickedOf(graph, selectedIds) && x in r'.included
  {
    var rels, picked := graph.relationships, PickedOf(graph, selectedIds);
    var b := SelectOf(graph, selectedIds).remedyBridge.value;
    RemedyReachesItsGroups(graph, picked);
    BridgesAreTheConnectors(graph, picked, b);
    AddToSelection(graph, selectedIds, b.entityId);
    IncludedAfterAppending(rels, picked, b.entityId);
    HelpsIffRootBridge(rels, picked, b.entityId);
    PlanIsSpanningTree(rels, picked);
    RemedyIsNew(graph, selectedIds, b);
  }

  lemma {:induction false} RemedyIsNew(graph: SchemaGraph, selectedIds: seq<string>, b: BridgeCandidate)
    requires PickedOf(graph, selectedIds) != []
    requires BringsIn(graph.relationships, PickedOf(graph, selectedIds), b.entityId)
    ensures exists x | x in SelectOf(graph, selectedIds).excluded ::
              && x in PickedOf(graph, selectedIds)
              && x in PlanOf(graph.relationships, PickedOf(graph, selectedIds) + [b.entityId]).included
  {
  }

  /** With no remedy offered, no single table of the diagram would bring in an excluded pick. */
  lemma {:induction false} NoRemedyMeansNone(graph: SchemaGraph, selectedIds: seq<string>, e: Entity)
    requires SelectOf(graph, selectedIds).remedyBridge.None? && PickedOf(graph, selectedIds) != []
    requires e in graph.entities && e.id !in PickedOf(graph, selectedIds)
    ensures var r, r' := SelectOf(graph, selectedIds), SelectOf(graph, selectedIds + [e.id]);
            forall x | x in PickedOf(graph, selectedIds) && x !in r.included :: x !in r'.included
  {
    var picked := PickedOf(graph, selectedIds);
    AddToSelection(graph, selectedIds, e.id);
    RemedyExistsIffSomeTableHelps(graph, picked);
    assert !BringsIn(graph.relationships, picked, e.id);
  }

  /** Adding a table that misses the root group leaves the SQL byte for byte the same. */
  lemma {:induction false} StrangerLeavesSqlAlone(graph: SchemaGraph, selectedIds: seq<string>, id: string)
    requires PickedOf(graph, selectedIds) != []
    requires id in ById(graph.entities) && id !in PickedOf(graph, selectedIds)
    requires !AnyJoins(graph.relationships, SelectOf(graph, selectedIds).joinGroups[0], id)
    ensures var r, r' := SelectOf(graph, selectedIds), SelectOf(graph, selectedIds + [id]);
            r'.sql == r.sql && r'.included == r.included
  {
    AddToSelection(graph, selectedIds, id);
    StrangerChangesNothing(graph.relationships, PickedOf(graph, selectedIds), id);
  }
}
