/** What a generated SELECT says of the diagram. */
module SelectMeaning {
  import opened Prelude
  import opened Ir
  import opened JoinGraph
  import opened JoinPlan
  import opened Bridges
  import opened SqlScan
  import opened SqlText
  import opened SqlReader
  import opened BuildSelect

  // Said in the diagram's own entities and relationship ends, and in characters, so that
  // nothing here depends on how the builder or the printer is written.

  /** The table is the entity of the diagram with this id, the last if it has several. */
  ghost predicate IsTableOf(graph: SchemaGraph, id: string, t: Table) {
    exists k: nat :: IsLastWith(graph.entities, id, k)
      && t.namespace == graph.entities[k].namespace && t.name == graph.entities[k].name
  }

  /** Position by position, a column of one list and the column of the other. */
  predicate Zips(xs: seq<string>, ys: seq<string>, pairs: seq<(string, string)>) {
    0 < |xs| == |ys| == |pairs| && forall i | 0 <= i < |pairs| :: pairs[i].0 == xs[i] && pairs[i].1 == ys[i]
  }

  /** The pairs are the columns of the relationship's two ends, the anchor's first. */
  predicate PairsItsEnds(r: Relationship, anchorId: string, joinedId: string, pairs: seq<(string, string)>) {
    || (r.source.entity == anchorId && r.target.entity == joinedId && Zips(r.source.columns, r.target.columns, pairs))
    || (r.target.entity == anchorId && r.source.entity == joinedId && Zips(r.target.columns, r.source.columns, pairs))
  }

  /** They are those of the first relationship that joins the two at all. */
  ghost predicate PairsFirstOffer(
    rels: seq<Relationship>, anchorId: string, joinedId: string, pairs: seq<(string, string)>)
  {
    exists k | 0 <= k < |rels| ::
      PairsItsEnds(rels[k], anchorId, joinedId, pairs) && forall j | 0 <= j < k :: !Offers(rels[j], anchorId, joinedId)
  }

  /** Join `k` is table `k + 1`, on the columns it shares with the earliest table it can join. */
  ghost predicate IsJoinOf(graph: SchemaGraph, included: seq<string>, k: nat, j: JoinedTable)
    requires k + 1 < |included|
  {
    && IsTableOf(graph, included[k + 1], j.table)
    && j.anchor <= k
    && PairsFirstOffer(graph.relationships, included[j.anchor], included[k + 1], j.pairs)
    && forall m, r | 0 <= m < j.anchor && r in graph.relationships :: !Offers(r, included[m], included[k + 1])
  }

  lemma {:induction false} EntityIsTable(graph: SchemaGraph, id: string)
    requires id in ById(graph.entities)
    ensures IsTableOf(graph, id, TableOf(ById(graph.entities), id))
  {
    var k := ByIdKeepsTheLast(graph.entities, id);
  }

  lemma {:induction false} ClausePairs(
    rels: seq<Relationship>, a: string, b: string, on: JoinOn, pairs: seq<(string, string)>)
    requires FirstOn(rels, a, b) == Some(on) && Zips(on.anchor, on.joined, pairs)
    ensures PairsFirstOffer(rels, a, b, pairs)
  {
    FirstOnIsFirstOffer(rels, a, b);
    var k :| 0 <= k < |rels| && JoinsOn(rels[k], a, b, on) && forall j | 0 <= j < k :: !Offers(rels[j], a, b);
    assert PairsItsEnds(rels[k], a, b, pairs);
  }

  lemma {:induction false} StepSaysItsJoin(
    graph: SchemaGraph, included: seq<string>, steps: seq<JoinStep>, k: nat)
    requires IsTree(graph.relationships, included, steps) && k < |steps|
    requires Printable(ById(graph.entities), included, steps)
    ensures IsJoinOf(graph, included, k, StatementOf(ById(graph.entities), included, steps).joins[k])
  {
    var rels, step := graph.relationships, steps[k];
    assert step in steps;
    var j := StatementOf(ById(graph.entities), included, steps).joins[k];
    EntityIsTable(graph, step.entityId);
    assert Zips(step.on.anchor, step.on.joined, j.pairs);
    ClausePairs(rels, included[step.anchorIndex], included[k + 1], step.on, j.pairs);
    forall m, r | 0 <= m < j.anchor && r in rels ensures !Offers(r, included[m], included[k + 1]) {
      FirstOnIsFirstOffer(rels, included[m], included[k + 1]);
    }
  }

  /**
   * The statement names each included table as the diagram does, and joins each on the
   * columns, its own and its anchor's, of the first relationship between the two.
   */
  lemma {:induction false} StatementSaysTheDiagram(graph: SchemaGraph, picked: seq<string>)
    requires picked != [] && NoRepeats(picked) && forall id | id in picked :: id in ById(graph.entities)
    ensures var p, s := PlanOf(graph.relationships, picked), PlanStatement(graph, picked);
            && p.included != [] && IsTableOf(graph, p.included[0], s.root)
            && |s.joins| == |p.included| - 1
            && forall k | 0 <= k < |s.joins| :: IsJoinOf(graph, p.included, k, s.joins[k])
  {
    var p := PlanOf(graph.relationships, picked);
    PlanIsSpanningTree(graph.relationships, picked);
    PlanIsPrintable(graph, picked);
    EntityIsTable(graph, p.included[0]);
    forall k: nat | k < |p.steps| ensures IsJoinOf(graph, p.included, k, PlanStatement(graph, picked).joins[k]) {
      StepSaysItsJoin(graph, p.included, p.steps, k);
    }
  }

  /** So does the text, read back. */
  lemma {:induction false} TextSaysTheDiagram(graph: SchemaGraph, selectedIds: seq<string>) returns (s: Statement)
    requires PickedOf(graph, selectedIds) != []
    ensures var r := SelectOf(graph, selectedIds);
            && r.sql.Some? && ReadStatement(QuoteFor(graph.dialect), r.sql.value) == Some(s)
            && r.included != [] && IsTableOf(graph, r.included[0], s.root) && |s.joins| == |r.included| - 1
            && forall k | 0 <= k < |s.joins| :: IsJoinOf(graph, r.included, k, s.joins[k])
  {
    s := PlanStatement(graph, PickedOf(graph, selectedIds));
    TextSaysThePlan(graph, selectedIds);
    StatementSaysTheDiagram(graph, PickedOf(graph, selectedIds));
  }

  // ---- What is selected, and what is left out -----------------------------------------------

  /** The picks are the known ids of the selection, once each, in the order they were selected. */
  lemma {:induction false} PicksAreFirstMentions(graph: SchemaGraph, selectedIds: seq<string>, picked: seq<string>)
    requires picked == PickedOf(graph, selectedIds)
    ensures NoRepeats(picked)
    ensures forall id :: id in picked <==> id in selectedIds && IsKnown(graph, id)
    ensures forall i, j | 0 <= i < j < |picked| :: Position(selectedIds, picked[i]) < Position(selectedIds, picked[j])
  {
    var byId := ById(graph.entities);
    var known := Filter(id => id in byId, selectedIds);
    DedupeKeepsFirst(known);
    forall i, j | 0 <= i < j < |picked| ensures Position(selectedIds, picked[i]) < Position(selectedIds, picked[j]) {
      assert picked[i] in known && picked[j] in known;
      assert FirstPlace(known)(picked[i]) < FirstPlace(known)(picked[j]);
      FilterKeepsOrder(id => id in byId, selectedIds, picked[i], picked[j]);
    }
  }

  /** The ids that did not make it into the statement, each as often as selected and in that order. */
  ghost predicate ListsExcluded(selectedIds: seq<string>, included: seq<string>, excluded: seq<string>) {
    exists at :: ListsAt(excluded, selectedIds, 0, at)
      && forall j | 0 <= j < |selectedIds| :: j in at <==> selectedIds[j] !in included
  }

  /** What is reported excluded is everything selected that is not included, whatever the reason. */
  lemma {:induction false} ExcludedIsTheRest(graph: SchemaGraph, selectedIds: seq<string>, r: GeneratedSelect)
    requires r == SelectOf(graph, selectedIds)
    ensures ListsExcluded(selectedIds, r.included, r.excluded)
    ensures r.sql.None? <==> r.included == []
    ensures r.included == [] <==> forall id | id in selectedIds :: !IsKnown(graph, id)
  {
    var picked := PickedOf(graph, selectedIds);
    assert selectedIds[0..] == selectedIds;
    PicksAreFirstMentions(graph, selectedIds, picked);
    if picked != [] {
      var at := FilterLists(Outside(r.included), selectedIds, 0);
      PlanIsSpanningTree(graph.relationships, picked);
      assert picked[0] in selectedIds && IsKnown(graph, picked[0]);
    } else {
      AllAreListed(selectedIds);
    }
  }

  lemma {:induction false} AllAreListed(selectedIds: seq<string>)
    ensures ListsExcluded(selectedIds, [], selectedIds)
  {
    var at := FilterLists(id => true, selectedIds, 0);
    var all := seq(|selectedIds|, i requires 0 <= i < |selectedIds| => i);
    assert ListsAt(selectedIds, selectedIds, 0, all);
    forall j | 0 <= j < |selectedIds| ensures j in all {
      assert all[j] == j;
    }
  }

  // ---- What is offered --------------------------------------------------------------------

  /** Some relationship joins the entity to a member of the group. */
  ghost predicate JoinsGroup(rels: seq<Relationship>, group: seq<string>, id: string) {
    exists m, r | m in group && r in rels :: Offers(r, m, id)
  }

  lemma {:induction false} AnyJoinsIsRelated(rels: seq<Relationship>, group: seq<string>, id: string)
    ensures AnyJoins(rels, group, id) <==> JoinsGroup(rels, group, id)
  {
    forall m | m in group ensures Joins(rels, m, id) <==> exists r | r in rels :: Offers(r, m, id) {
      FirstOnIsFirstOffer(rels, m, id);
    }
  }

  /** The offer is an unpicked entity of the diagram, under its own name, with the groups it is related to. */
  ghost predicate IsOffer(graph: SchemaGraph, groups: seq<seq<string>>, picked: seq<string>, b: BridgeCandidate) {
    && (exists e | e in graph.entities :: e.id == b.entityId && e.name == b.name && e.id !in picked)
    && |b.connectsGroups| > 1
    && (forall i, j | 0 <= i < j < |b.connectsGroups| :: b.connectsGroups[i] < b.connectsGroups[j])
    && (forall i :: i in b.connectsGroups <==>
          0 <= i < |groups| && JoinsGroup(graph.relationships, groups[i], b.entityId))
  }

  lemma {:induction false} OffersAreEntities(
    graph: SchemaGraph, picked: seq<string>, groups: seq<seq<string>>, b: BridgeCandidate)
    requires groups == GroupsOf(graph.relationships, picked) && b in RankBridges(graph, groups, picked)
    ensures IsOffer(graph, groups, picked, b)
  {
    BridgesAreTheConnectors(graph, picked, b);
    forall i | 0 <= i < |groups|
      ensures AnyJoins(graph.relationships, groups[i], b.entityId)
         <==> JoinsGroup(graph.relationships, groups[i], b.entityId)
    {
      AnyJoinsIsRelated(graph.relationships, groups[i], b.entityId);
    }
  }

  /** More groups connected first, then those that touch the first group, then by id. */
  predicate RanksBefore(a: BridgeCandidate, b: BridgeCandidate) {
    || |a.connectsGroups| > |b.connectsGroups|
    || (|a.connectsGroups| == |b.connectsGroups|
        && (|| (0 in a.connectsGroups && 0 !in b.connectsGroups)
            || ((0 in a.connectsGroups <==> 0 in b.connectsGroups) && !Less(b.entityId, a.entityId))))
  }

  /** The offers are ranked, and the remedy is the first of them that touches the statement's own group. */
  lemma {:induction false} OffersAreRanked(graph: SchemaGraph, picked: seq<string>, a: JoinAnalysis)
    requires a == Analysis(graph, picked)
    ensures forall b | b in a.bridges :: IsOffer(graph, a.groups, picked, b)
    ensures forall i, j | 0 <= i < j < |a.bridges| :: RanksBefore(a.bridges[i], a.bridges[j])
    ensures a.remedy.None? <==> forall b | b in a.bridges :: 0 !in b.connectsGroups
    ensures a.remedy.Some? ==> exists k | 0 <= k < |a.bridges| ::
              && a.bridges[k] == a.remedy.value && 0 in a.remedy.value.connectsGroups
              && forall j | 0 <= j < k :: 0 !in a.bridges[j].connectsGroups
  {
    forall b | b in a.bridges ensures IsOffer(graph, a.groups, picked, b) {
      OffersAreEntities(graph, picked, a.groups, b);
    }
    RankingIsSorted(graph, a.groups, picked);
  }

  // ---- The text itself ------------------------------------------------------------------------

  /** An identifier is quoted as it stands, except that a quote inside it is doubled. */
  lemma {:induction false} QuotingIsDoubling(q: char, a: string, b: string)
    ensures Quote(q, a) == [q] + Escape(q, a) + [q]
    ensures Escape(q, [q]) == [q, q]
    ensures q !in a ==> Escape(q, a) == a
    ensures Escape(q, a + b) == Escape(q, a) + Escape(q, b)
  {
    assert [q][1..] == "";
    if a == "" {
      assert a + b == b;
    } else {
      QuotingIsDoubling(q, a[1..], b);
      assert (a + b)[1..] == a[1..] + b;
      assert a == [a[0]] + a[1..];
    }
  }

  lemma {:induction false} SmallAliases()
    ensures Alias(1) == "t1" && Alias(2) == "t2"
  {
    assert "t" + "1" == "t1" && "t" + "2" == "t2";
  }

  /** A statement of two tables, character for character. */
  lemma {:induction false} TwoTableText(q: char, root: Table, joined: Table, p: (string, string), r: (string, string))
    ensures Lines(q, Statement(root, [JoinedTable(joined, 0, [p, r])]))
         == ["SELECT *",
             "FROM " + (Quote(q, root.namespace) + "." + Quote(q, root.name)) + " t1",
             "JOIN " + (Quote(q, joined.namespace) + "." + Quote(q, joined.name)) + " t2 ON "
             + ("t1." + Quote(q, p.0) + " = t2." + Quote(q, p.1)
                + (" AND " + ("t1." + Quote(q, r.0) + " = t2." + Quote(q, r.1))))]
  {
    var s := Statement(root, [JoinedTable(joined, 0, [p, r])]);
    OnIsText(q, p, r);
    HeadIsText(q, joined);
    assert Lines(q, s)[2] == JoinLine(q, 2, s.joins[0]);
  }

  lemma {:induction false} OnIsText(q: char, p: (string, string), r: (string, string))
    ensures OnText(q, 1, 2, [p, r])
         == "t1." + Quote(q, p.0) + " = t2." + Quote(q, p.1)
          + (" AND " + ("t1." + Quote(q, r.0) + " = t2." + Quote(q, r.1)))
  {
    PairIsText(q, p);
    PairIsText(q, r);
    var texts := Map(pair => PairText(q, 1, 2, pair), [p, r]);
    assert texts == [PairText(q, 1, 2, p), PairText(q, 1, 2, r)] && texts[1..] == [PairText(q, 1, 2, r)];
    assert JoinWith(" AND ", texts) == texts[0] + (" AND " + JoinWith(" AND ", texts[1..]));
  }

  lemma {:induction false} HeadIsText(q: char, t: Table)
    ensures JoinHead(q, 2, t) == "JOIN " + (Quote(q, t.namespace) + "." + Quote(q, t.name)) + " t2 ON "
  {
    SmallAliases();
    assert " " + "t2" + " ON " == " t2 ON ";
  }

  lemma {:induction false} PairIsText(q: char, p: (string, string))
    ensures PairText(q, 1, 2, p) == "t1." + Quote(q, p.0) + " = t2." + Quote(q, p.1)
  {
    SmallAliases();
    assert "t1" + "." == "t1.";
    assert " = " + "t2" + "." == " = t2.";
    var head := "t1." + Quote(q, p.0);
    assert head + " = " + "t2" + "." == head + " = t2.";
  }
}
