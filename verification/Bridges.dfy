/** Unpicked tables that would merge join groups, and the one worth offering. */
module Bridges {
  import opened Prelude
  import opened Sorting
  import opened Ir
  import opened JoinGraph
  import opened JoinPlan

  // Adding the one offered is proved to reach exactly the groups it names, and adding any
  // table that misses the root group to change nothing.

  datatype BridgeCandidate = BridgeCandidate(entityId: string, name: string, connectsGroups: seq<nat>)

  datatype JoinAnalysis = JoinAnalysis(
    groups: seq<seq<string>>,
    bridges: seq<BridgeCandidate>,
    remedy: Option<BridgeCandidate>)

  /** The indices of the groups one entity joins, ascending. */
  function GroupsJoined(rels: seq<Relationship>, groups: seq<seq<string>>, id: string): (r: seq<nat>)
    ensures forall i | i in r :: i < |groups| && AnyJoins(rels, groups[i], id)
    ensures forall i | 0 <= i < |groups| && AnyJoins(rels, groups[i], id) :: i in r
    ensures forall i, j | 0 <= i < j < |r| :: r[i] < r[j]
    ensures |r| <= |groups|
  {
    if groups == [] then []
    else
      var last := |groups| - 1;
      var r := GroupsJoined(rels, groups[..last], id);
      assert forall i | 0 <= i < last :: groups[..last][i] == groups[i];
      assert forall i | 0 <= i < |r| :: r[i] in r;
      if AnyJoins(rels, groups[last], id) then r + [last] else r
  }

  predicate TouchesRoot(b: BridgeCandidate) {
    0 in b.connectsGroups
  }

  /** More groups first, then root-touching, then id: `byMostUseful` below zero. */
  predicate MoreUseful(a: BridgeCandidate, b: BridgeCandidate) {
    if |a.connectsGroups| != |b.connectsGroups| then |a.connectsGroups| > |b.connectsGroups|
    else if TouchesRoot(a) != TouchesRoot(b) then TouchesRoot(a)
    else Less(a.entityId, b.entityId)
  }

  function Candidate(rels: seq<Relationship>, groups: seq<seq<string>>, e: Entity): BridgeCandidate {
    BridgeCandidate(e.id, e.name, GroupsJoined(rels, groups, e.id))
  }

  function RankBridges(graph: SchemaGraph, groups: seq<seq<string>>, picked: seq<string>)
    : seq<BridgeCandidate>
  {
    if |groups| < 2 then []
    else
      var unpicked := Filter((e: Entity) => e.id !in picked, graph.entities);
      var candidates := Map((e: Entity) => Candidate(graph.relationships, groups, e), unpicked);
      SortBy(MoreUseful, Filter((b: BridgeCandidate) => |b.connectsGroups| > 1, candidates))
  }

  /** The first ranked bridge that touches the group the statement is rooted on. */
  function FirstRemedy(bridges: seq<BridgeCandidate>): (r: Option<BridgeCandidate>)
    ensures r.None? <==> forall b | b in bridges :: !TouchesRoot(b)
    ensures r.Some? ==>
      exists k | 0 <= k < |bridges| ::
        bridges[k] == r.value && TouchesRoot(r.value) && forall j | 0 <= j < k :: !TouchesRoot(bridges[j])
  {
    if bridges == [] then None
    else if TouchesRoot(bridges[0]) then
      assert bridges[0] == bridges[0];
      Some(bridges[0])
    else
      var r := FirstRemedy(bridges[1..]);
      assert r.Some? ==>
        exists k | 0 <= k < |bridges| ::
          bridges[k] == r.value && TouchesRoot(r.value) && forall j | 0 <= j < k :: !TouchesRoot(bridges[j])
      by {
        if r.Some? {
          var k :| 0 <= k < |bridges[1..]| && bridges[1..][k] == r.value && TouchesRoot(r.value)
            && forall j | 0 <= j < k :: !TouchesRoot(bridges[1..][j]);
          assert bridges[k + 1] == r.value;
          assert forall j | 0 < j < k + 1 :: bridges[j] == bridges[1..][j - 1];
        }
      }
      r
  }

  ghost function Analysis(graph: SchemaGraph, picked: seq<string>): JoinAnalysis {
    var groups := GroupsOf(graph.relationships, picked);
    var bridges := RankBridges(graph, groups, picked);
    JoinAnalysis(groups, bridges, FirstRemedy(bridges))
  }

  method AnalyzeJoins(graph: SchemaGraph, picked: seq<string>) returns (a: JoinAnalysis)
    ensures a == Analysis(graph, picked)
  {
    var groups := JoinGroups(graph.relationships, picked);
    var bridges := RankBridges(graph, groups, picked);
    a := JoinAnalysis(groups, bridges, FirstRemedy(bridges));
  }

  // ---- What a bridge is -----------------------------------------------------

  /** The bridges are exactly the unpicked entities joining two groups or more. */
  lemma {:induction false} BridgesAreTheConnectors(graph: SchemaGraph, picked: seq<string>, b: BridgeCandidate)
    ensures var groups := GroupsOf(graph.relationships, picked);
            b in RankBridges(graph, groups, picked) <==>
              && |b.connectsGroups| > 1
              && exists e | e in graph.entities ::
                   e.id !in picked && b == Candidate(graph.relationships, groups, e)
  {
    var rels, groups := graph.relationships, GroupsOf(graph.relationships, picked);
    var unpicked := Filter((e: Entity) => e.id !in picked, graph.entities);
    var candidates := Map((e: Entity) => Candidate(rels, groups, e), unpicked);
    var kept := Filter((b: BridgeCandidate) => |b.connectsGroups| > 1, candidates);
    if |groups| < 2 {
      assert forall e: Entity :: |Candidate(rels, groups, e).connectsGroups| <= 1;
    } else {
      SortedElements(MoreUseful, kept);
      assert b in SortBy(MoreUseful, kept) <==> b in Elements(kept);
      forall e | e in graph.entities && e.id !in picked
        ensures Candidate(rels, groups, e) in candidates
      {
        var k :| 0 <= k < |unpicked| && unpicked[k] == e;
        assert candidates[k] == Candidate(rels, groups, e);
      }
      forall c | c in candidates
        ensures exists e | e in graph.entities :: e.id !in picked && c == Candidate(rels, groups, e)
      {
        var k :| 0 <= k < |candidates| && candidates[k] == c;
        assert unpicked[k] in unpicked;
      }
    }
  }

  // ---- What adding one table does --------------------------------------------

  ghost function Members(groups: seq<seq<string>>, indices: seq<nat>): set<string> {
    set i, x | i in indices && 0 <= i < |groups| && x in groups[i] :: x
  }

  lemma {:induction false} MergeIsClosed(
    rels: seq<Relationship>, picked: seq<string>, groups: seq<seq<string>>, b: string)
    requires AreComponents(rels, picked, groups)
    ensures ClosedIn(rels, Elements(picked) + {b}, {b} + Members(groups, GroupsJoined(rels, groups, b)))
  {
    var joined := GroupsJoined(rels, groups, b);
    var merged := {b} + Members(groups, joined);
    forall x, y | x in merged && y in Elements(picked) + {b} && Joins(rels, x, y)
      ensures y in merged
    {
      if y != b {
        if x == b {
          JoinedGroupIsMerged(rels, groups, b, y);
        } else {
          var g :| g in joined && 0 <= g < |groups| && x in groups[g];
          StaysInGroup(rels, picked, groups[g], x, y);
        }
      }
    }
  }

  lemma {:induction false} JoinedGroupIsMerged(rels: seq<Relationship>, groups: seq<seq<string>>, b: string, y: string)
    requires y in Covered(groups) && Joins(rels, b, y)
    ensures y in Members(groups, GroupsJoined(rels, groups, b))
  {
    var g := GroupHolding(groups, y);
    JoinsBothWays(rels, b, y);
    assert AnyJoins(rels, groups[g], b);
    assert g in GroupsJoined(rels, groups, b);
  }

  lemma {:induction false} StaysInGroup(
    rels: seq<Relationship>, picked: seq<string>, group: seq<string>, x: string, y: string)
    requires IsGroup(rels, picked, group) && x in group && y in picked && Joins(rels, x, y)
    ensures y in group
  {
    GroupIsComponent(rels, picked, group, x);
    ConnectedToSelf(rels, Elements(picked), x);
    ConnectedExtend(rels, Elements(picked), x, x, y);
    assert y in Elements(group);
  }

  /** From a member of a group the bridge joins, the bridge and the whole group are reachable. */
  lemma {:induction false} BridgeReaches(
    rels: seq<Relationship>, picked: seq<string>, group: seq<string>, b: string, x: string)
    requires IsGroup(rels, picked, group) && AnyJoins(rels, group, b) && x in group
    ensures var all := Elements(picked) + {b}; Connected(rels, all, x, b) && Connected(rels, all, b, x)
  {
    var all := Elements(picked) + {b};
    var m :| m in group && Joins(rels, m, b);
    GroupIsComponent(rels, picked, group, x);
    assert m in Elements(group);
    ConnectedMonotone(rels, Elements(picked), all, x, m);
    ConnectedExtend(rels, all, x, m, b);
    ConnectedSymmetric(rels, all, x, b);
  }

  /** A root-touching table merges itself and every group it joins into the root's component. */
  lemma {:induction false} RootBridgeMerges(
    rels: seq<Relationship>, picked: seq<string>, groups: seq<seq<string>>, b: string)
    requires picked != [] && AreComponents(rels, picked, groups)
    requires groups != [] && AnyJoins(rels, groups[0], b)
    ensures Component(rels, Elements(picked) + {b}, picked[0])
         == {b} + Members(groups, GroupsJoined(rels, groups, b))
  {
    var all, root := Elements(picked) + {b}, picked[0];
    var joined := GroupsJoined(rels, groups, b);
    var merged := {b} + Members(groups, joined);
    FirstGroupHoldsFirstPick(rels, picked, groups);
    assert groups[0][0] in groups[0] && 0 in joined;
    MergeIsClosed(rels, picked, groups, b);
    ComponentWithinClosed(rels, all, merged, root);
    MergeIsReached(rels, picked, groups, b, merged);
  }

  lemma {:induction false} MergeIsReached(
    rels: seq<Relationship>, picked: seq<string>, groups: seq<seq<string>>, b: string, merged: set<string>)
    requires picked != [] && AreComponents(rels, picked, groups)
    requires groups != [] && AnyJoins(rels, groups[0], b)
    requires merged == {b} + Members(groups, GroupsJoined(rels, groups, b))
    ensures merged <= Component(rels, Elements(picked) + {b}, picked[0])
  {
    var all, root := Elements(picked) + {b}, picked[0];
    FirstGroupHoldsFirstPick(rels, picked, groups);
    BridgeReaches(rels, picked, groups[0], b, root);
    ConnectedStaysWithin(rels, all, root, b);
    forall x | x in merged && x != b ensures x in Component(rels, all, root) {
      var g :| g in GroupsJoined(rels, groups, b) && 0 <= g < |groups| && x in groups[g];
      BridgeReachesBeyond(rels, picked, groups[g], b, root, x);
    }
  }

  lemma {:induction false} BridgeReachesBeyond(
    rels: seq<Relationship>, picked: seq<string>, group: seq<string>, b: string, root: string, x: string)
    requires IsGroup(rels, picked, group) && AnyJoins(rels, group, b) && x in group
    requires Connected(rels, Elements(picked) + {b}, root, b)
    ensures x in Component(rels, Elements(picked) + {b}, root)
  {
    var all := Elements(picked) + {b};
    BridgeReaches(rels, picked, group, b, x);
    ConnectedTransitive(rels, all, root, b, x);
    ConnectedStaysWithin(rels, all, root, x);
  }

  /** A table that misses the root's group leaves the root's component alone. */
  lemma {:induction false} StrangerMergesNothing(
    rels: seq<Relationship>, picked: seq<string>, groups: seq<seq<string>>, b: string)
    requires picked != [] && AreComponents(rels, picked, groups)
    requires groups != [] && !AnyJoins(rels, groups[0], b)
    ensures Component(rels, Elements(picked) + {b}, picked[0]) == Component(rels, Elements(picked), picked[0])
  {
    var all, root := Elements(picked) + {b}, picked[0];
    FirstGroupHoldsFirstPick(rels, picked, groups);
    var home := Elements(groups[0]);
    assert groups[0][0] in home;
    forall x, y | x in home && y in all && Joins(rels, x, y) ensures y in home {
      if y in picked {
        StaysInGroup(rels, picked, groups[0], x, y);
      }
    }
    ComponentWithinClosed(rels, all, home, root);
    forall x | x in home ensures Connected(rels, all, root, x) && x in all {
      ConnectedStaysWithin(rels, Elements(picked), root, x);
      ConnectedMonotone(rels, Elements(picked), all, root, x);
    }
  }

  lemma {:induction false} AppendedPick(picked: seq<string>, b: string)
    requires NoRepeats(picked) && b !in picked
    ensures NoRepeats(picked + [b]) && Elements(picked + [b]) == Elements(picked) + {b}
  {
  }

  // ---- The remedy is exact ----------------------------------------------------

  /** Adding `id` to the picks brings a table the statement could not reach into it. */
  ghost predicate BringsIn(rels: seq<Relationship>, picked: seq<string>, id: string)
    requires picked != []
  {
    exists x | x in picked ::
      x !in PlanOf(rels, picked).included && x in PlanOf(rels, picked + [id]).included
  }

  lemma {:induction false} SecondGroupIsNew(
    rels: seq<Relationship>, picked: seq<string>, joined: seq<nat>) returns (x: string)
    requires picked != [] && 0 in joined && |joined| > 1
    requires forall i, j | 0 <= i < j < |joined| :: joined[i] < joined[j]
    requires forall i | i in joined :: i < |GroupsOf(rels, picked)|
    ensures x in picked && x in Members(GroupsOf(rels, picked), joined)
    ensures x !in Elements(GroupsOf(rels, picked)[0])
  {
    var groups := GroupsOf(rels, picked);
    var g := joined[1];
    assert g in joined && joined[0] < g;
    x := groups[g][0];
    assert IsGroup(rels, picked, groups[g]) && x in groups[g];
    GroupsAreDisjoint(rels, picked, groups, 0, g);
    assert x in Elements(groups[g]);
  }

  /** What the statement holds once `b` is appended, in terms of the groups before. */
  lemma {:induction false} IncludedAfterAppending(rels: seq<Relationship>, picked: seq<string>, b: string)
    requires picked != [] && NoRepeats(picked) && b !in picked
    ensures var groups := GroupsOf(rels, picked);
            var joined := GroupsJoined(rels, groups, b);
            && Elements(PlanOf(rels, picked).included) == Elements(groups[0])
            && Elements(PlanOf(rels, picked + [b]).included)
               == if 0 in joined then {b} + Members(groups, joined) else Elements(groups[0])
  {
    var groups := GroupsOf(rels, picked);
    AppendedPick(picked, b);
    PlannerAgreesWithGroups(rels, picked);
    PlanIsSpanningTree(rels, picked + [b]);
    if 0 in GroupsJoined(rels, groups, b) {
      RootBridgeMerges(rels, picked, groups, b);
    } else {
      StrangerMergesNothing(rels, picked, groups, b);
      FirstGroupHoldsFirstPick(rels, picked, groups);
    }
  }

  lemma {:induction false} SomethingNew(rels: seq<Relationship>, picked: seq<string>, b: string, x: string)
    requires picked != [] && x in picked
    requires x !in Elements(PlanOf(rels, picked).included)
    requires x in Elements(PlanOf(rels, picked + [b]).included)
    ensures BringsIn(rels, picked, b)
  {
  }

  lemma {:induction false} NothingNew(rels: seq<Relationship>, picked: seq<string>, b: string)
    requires picked != [] && b !in picked
    requires Elements(PlanOf(rels, picked + [b]).included) <= {b} + Elements(PlanOf(rels, picked).included)
    ensures !BringsIn(rels, picked, b)
  {
    forall x | x in picked && x in PlanOf(rels, picked + [b]).included
      ensures x in PlanOf(rels, picked).included
    {
      assert x in Elements(PlanOf(rels, picked + [b]).included);
    }
  }

  lemma {:induction false} RootGroupAlone(groups: seq<seq<string>>, joined: seq<nat>)
    requires groups != [] && 0 in joined && |joined| <= 1
    ensures Members(groups, joined) == Elements(groups[0])
  {
    assert joined == [0];
  }

  /** A single unpicked table helps exactly when it joins the root group and another one. */
  lemma {:induction false} HelpsIffRootBridge(rels: seq<Relationship>, picked: seq<string>, b: string)
    requires picked != [] && NoRepeats(picked) && b !in picked
    ensures var joined := GroupsJoined(rels, GroupsOf(rels, picked), b);
            BringsIn(rels, picked, b) <==> |joined| > 1 && 0 in joined
  {
    var joined := GroupsJoined(rels, GroupsOf(rels, picked), b);
    IncludedAfterAppending(rels, picked, b);
    if 0 !in joined {
      NothingNew(rels, picked, b);
    } else if |joined| <= 1 {
      RootGroupAlone(GroupsOf(rels, picked), joined);
      NothingNew(rels, picked, b);
    } else {
      var x := SecondGroupIsNew(rels, picked, joined);
      SomethingNew(rels, picked, b, x);
    }
  }

  /** There is a remedy exactly when some single unpicked table would help. */
  lemma {:induction false} RemedyExistsIffSomeTableHelps(graph: SchemaGraph, picked: seq<string>)
    requires picked != [] && NoRepeats(picked)
    ensures Analysis(graph, picked).remedy.Some? <==>
      exists e | e in graph.entities :: e.id !in picked && BringsIn(graph.relationships, picked, e.id)
  {
    var rels, groups := graph.relationships, GroupsOf(graph.relationships, picked);
    var bridges := RankBridges(graph, groups, picked);
    forall e | e in graph.entities && e.id !in picked
      ensures BringsIn(rels, picked, e.id) <==>
        Candidate(rels, groups, e) in bridges && TouchesRoot(Candidate(rels, groups, e))
    {
      HelpsIffRootBridge(rels, picked, e.id);
      BridgesAreTheConnectors(graph, picked, Candidate(rels, groups, e));
    }
    forall b | b in bridges
      ensures exists e | e in graph.entities :: e.id !in picked && b == Candidate(rels, groups, e)
    {
      BridgesAreTheConnectors(graph, picked, b);
    }
  }

  /** What the remedy says it connects is exactly what the statement then holds. */
  lemma {:induction false} RemedyReachesItsGroups(graph: SchemaGraph, picked: seq<string>)
    requires picked != [] && NoRepeats(picked) && Analysis(graph, picked).remedy.Some?
    ensures var a := Analysis(graph, picked);
            var b := a.remedy.value;
            && b.entityId !in picked
            && Elements(PlanOf(graph.relationships, picked + [b.entityId]).included)
               == {b.entityId} + Members(a.groups, b.connectsGroups)
            && 0 in b.connectsGroups && |b.connectsGroups| > 1
  {
    var rels, a := graph.relationships, Analysis(graph, picked);
    var b := a.remedy.value;
    BridgesAreTheConnectors(graph, picked, b);
    AppendedPick(picked, b.entityId);
    PlanIsSpanningTree(rels, picked + [b.entityId]);
    RootBridgeMerges(rels, picked, a.groups, b.entityId);
  }

  /** Among the bridges that help at all, the remedy connects most, then has the least id. */
  lemma {:induction false} RemedyIsTheBest(graph: SchemaGraph, picked: seq<string>, b: BridgeCandidate)
    requires Analysis(graph, picked).remedy.Some?
    requires b in Analysis(graph, picked).bridges && TouchesRoot(b)
    ensures var r := Analysis(graph, picked).remedy.value;
            || |r.connectsGroups| > |b.connectsGroups|
            || (|r.connectsGroups| == |b.connectsGroups| && !Less(b.entityId, r.entityId))
  {
    var bridges := Analysis(graph, picked).bridges;
    var k :| 0 <= k < |bridges| && bridges[k] == b;
    RankingIsSorted(graph, GroupsOf(graph.relationships, picked), picked);
    LessIrreflexive(b.entityId);
  }

  lemma {:induction false} RankingIsSorted(graph: SchemaGraph, groups: seq<seq<string>>, picked: seq<string>)
    ensures Sorted(MoreUseful, RankBridges(graph, groups, picked))
  {
    forall a, b | MoreUseful(a, b) ensures !MoreUseful(b, a) {
      if Less(a.entityId, b.entityId) {
        LessAsymmetric(a.entityId, b.entityId);
      }
    }
    forall a, b, c | MoreUseful(a, c) ensures MoreUseful(a, b) || MoreUseful(b, c) {
      LessTotal(a.entityId, b.entityId);
      if Less(b.entityId, a.entityId) && Less(a.entityId, c.entityId) {
        LessTransitive(b.entityId, a.entityId, c.entityId);
      }
    }
    var unpicked := Filter((e: Entity) => e.id !in picked, graph.entities);
    var candidates := Map((e: Entity) => Candidate(graph.relationships, groups, e), unpicked);
    SortBySorts(MoreUseful, Filter((b: BridgeCandidate) => |b.connectsGroups| > 1, candidates));
  }

  // ---- Anything else changes nothing -------------------------------------------

  lemma {:induction false} PassIgnoresStranger(
    rels: seq<Relationship>, included: seq<string>, steps: seq<JoinStep>, remaining: seq<string>, b: string)
    requires !AnyJoins(rels, Pass(rels, included, steps, remaining).included, b)
    ensures var p := Pass(rels, included, steps, remaining);
            Pass(rels, included, steps, remaining + [b]) == p.(unreached := p.unreached + [b])
    decreases |remaining|
  {
    if remaining == [] {
      assert remaining + [b] == [b];
      assert Pass(rels, included, steps, [b][1..]) == JoinPlan(included, steps, []);
    } else {
      assert (remaining + [b])[1..] == remaining[1..] + [b];
      var step := AttachFrom(rels, included, remaining[0], 0);
      if step.Some? {
        PassIgnoresStranger(rels, included + [remaining[0]], steps + [step.value], remaining[1..], b);
      } else {
        PassIgnoresStranger(rels, included, steps, remaining[1..], b);
        var rest := Pass(rels, included, steps, remaining[1..]);
        assert [remaining[0]] + (rest.unreached + [b]) == ([remaining[0]] + rest.unreached) + [b];
      }
    }
  }

  lemma {:induction false} PassOnlyAdds(
    rels: seq<Relationship>, included: seq<string>, steps: seq<JoinStep>, remaining: seq<string>)
    ensures included <= Pass(rels, included, steps, remaining).included
    decreases |remaining|
  {
    if remaining != [] {
      var step := AttachFrom(rels, included, remaining[0], 0);
      if step.Some? {
        PassOnlyAdds(rels, included + [remaining[0]], steps + [step.value], remaining[1..]);
      } else {
        PassOnlyAdds(rels, included, steps, remaining[1..]);
      }
    }
  }

  lemma {:induction false} PassesOnlyAdd(
    rels: seq<Relationship>, included: seq<string>, steps: seq<JoinStep>, remaining: seq<string>)
    ensures included <= Passes(rels, included, steps, remaining).included
    decreases |remaining|
  {
    PassOnlyAdds(rels, included, steps, remaining);
    var p := Pass(rels, included, steps, remaining);
    if |p.unreached| != |remaining| {
      PassesOnlyAdd(rels, p.included, p.steps, p.unreached);
    }
  }

  lemma {:induction false} PassesIgnoreStranger(
    rels: seq<Relationship>, included: seq<string>, steps: seq<JoinStep>, remaining: seq<string>, b: string)
    requires !AnyJoins(rels, Passes(rels, included, steps, remaining).included, b)
    ensures var p := Passes(rels, included, steps, remaining);
            Passes(rels, included, steps, remaining + [b]) == p.(unreached := p.unreached + [b])
    decreases |remaining|
  {
    var p := Pass(rels, included, steps, remaining);
    PassesOnlyAdd(rels, p.included, p.steps, p.unreached);
    PassIgnoresStranger(rels, included, steps, remaining, b);
    if |p.unreached| != |remaining| {
      PassesIgnoreStranger(rels, p.included, p.steps, p.unreached, b);
    }
  }

  /** Appending a table that misses the root group leaves the statement as it was. */
  lemma {:induction false} StrangerChangesNothing(rels: seq<Relationship>, picked: seq<string>, b: string)
    requires picked != [] && NoRepeats(picked) && !AnyJoins(rels, GroupsOf(rels, picked)[0], b)
    ensures var p := PlanOf(rels, picked);
            PlanOf(rels, picked + [b]) == p.(unreached := p.unreached + [b])
  {
    PlannerAgreesWithGroups(rels, picked);
    var p := PlanOf(rels, picked);
    forall m | m in p.included ensures !Joins(rels, m, b) {
      assert m in Elements(p.included);
    }
    assert (picked + [b])[1..] == picked[1..] + [b];
    PassesIgnoreStranger(rels, [picked[0]], [], picked[1..], b);
  }
}
