/** Which of a set of picked tables can join which. */
module JoinGraph {
  import opened Prelude
  import opened Ir

  // `FirstOn` is the single home of "can these two join?". The reference definition of
  // "these picks reach each other" is a walk through picked tables, and the grouping
  // loop is proved to produce exactly the classes of it.

  /** The two column lists of an ON clause, paired positionally. */
  datatype JoinOn = JoinOn(anchor: seq<string>, joined: seq<string>)

  /** What one relationship offers this pair, read from the anchor's side. */
  function OnClause(r: Relationship, anchorId: string, joinedId: string): Option<JoinOn> {
    var forward := r.source.entity == anchorId && r.target.entity == joinedId;
    var backward := r.source.entity == joinedId && r.target.entity == anchorId;
    if !forward && !backward then None
    else
      var anchor := if forward then r.source.columns else r.target.columns;
      var joined := if forward then r.target.columns else r.source.columns;
      if |anchor| > 0 && |anchor| == |joined| then Some(JoinOn(anchor, joined)) else None
  }

  function FirstOn(rels: seq<Relationship>, anchorId: string, joinedId: string): Option<JoinOn> {
    if rels == [] then None
    else
      var on := OnClause(rels[0], anchorId, joinedId);
      if on.Some? then on else FirstOn(rels[1..], anchorId, joinedId)
  }

  predicate Joins(rels: seq<Relationship>, a: string, b: string) {
    FirstOn(rels, a, b).Some?
  }

  predicate AnyJoins(rels: seq<Relationship>, members: seq<string>, candidate: string) {
    exists m | m in members :: Joins(rels, m, candidate)
  }

  // ---- What a clause is, said of the relationship's own ends ------------------------------

  /** One end of the relationship is the anchor's, the other the joined table's, each with its own columns. */
  predicate JoinsOn(r: Relationship, anchorId: string, joinedId: string, on: JoinOn) {
    && 0 < |on.anchor| == |on.joined|
    && (|| (r.source == End(anchorId, on.anchor) && r.target == End(joinedId, on.joined))
        || (r.target == End(anchorId, on.anchor) && r.source == End(joinedId, on.joined)))
  }

  ghost predicate Offers(r: Relationship, anchorId: string, joinedId: string) {
    exists on :: JoinsOn(r, anchorId, joinedId, on)
  }

  /** The clause some relationship offers the pair, none before it offering any. */
  ghost predicate IsFirstOffer(rels: seq<Relationship>, anchorId: string, joinedId: string, on: JoinOn) {
    exists k | 0 <= k < |rels| ::
      JoinsOn(rels[k], anchorId, joinedId, on) && forall j | 0 <= j < k :: !Offers(rels[j], anchorId, joinedId)
  }

  lemma {:induction false} ClauseIsTheOffer(r: Relationship, anchorId: string, joinedId: string)
    ensures OnClause(r, anchorId, joinedId).Some? <==> Offers(r, anchorId, joinedId)
    ensures OnClause(r, anchorId, joinedId).Some? ==>
              JoinsOn(r, anchorId, joinedId, OnClause(r, anchorId, joinedId).value)
  {
    var on := OnClause(r, anchorId, joinedId);
    if on.Some? {
      assert JoinsOn(r, anchorId, joinedId, on.value);
    }
  }

  /** Two tables join on the columns of the first relationship between them, each table on its own. */
  lemma {:induction false} FirstOnIsFirstOffer(rels: seq<Relationship>, anchorId: string, joinedId: string)
    ensures FirstOn(rels, anchorId, joinedId).None? <==> forall r | r in rels :: !Offers(r, anchorId, joinedId)
    ensures FirstOn(rels, anchorId, joinedId).Some? ==>
              IsFirstOffer(rels, anchorId, joinedId, FirstOn(rels, anchorId, joinedId).value)
  {
    if rels != [] {
      ClauseIsTheOffer(rels[0], anchorId, joinedId);
      if OnClause(rels[0], anchorId, joinedId).None? {
        FirstOnIsFirstOffer(rels[1..], anchorId, joinedId);
        LaterOffer(rels, anchorId, joinedId);
      }
    }
  }

  lemma {:induction false} LaterOffer(rels: seq<Relationship>, anchorId: string, joinedId: string)
    requires rels != [] && !Offers(rels[0], anchorId, joinedId)
    ensures forall on | IsFirstOffer(rels[1..], anchorId, joinedId, on) :: IsFirstOffer(rels, anchorId, joinedId, on)
  {
    forall on | IsFirstOffer(rels[1..], anchorId, joinedId, on) ensures IsFirstOffer(rels, anchorId, joinedId, on) {
      var k :| 0 <= k < |rels[1..]| && JoinsOn(rels[1..][k], anchorId, joinedId, on)
        && forall j | 0 <= j < k :: !Offers(rels[1..][j], anchorId, joinedId);
      assert forall j | 0 < j < k + 1 :: rels[j] == rels[1..][j - 1];
      assert JoinsOn(rels[k + 1], anchorId, joinedId, on);
    }
  }

  method JoinColumns(rels: seq<Relationship>, anchorId: string, joinedId: string)
    returns (on: Option<JoinOn>)
    ensures on == FirstOn(rels, anchorId, joinedId)
    ensures on.None? <==> forall r | r in rels :: !Offers(r, anchorId, joinedId)
    ensures on.Some? ==> IsFirstOffer(rels, anchorId, joinedId, on.value)
  {
    FirstOnIsFirstOffer(rels, anchorId, joinedId);
    for i := 0 to |rels|
      invariant FirstOn(rels, anchorId, joinedId) == FirstOn(rels[i..], anchorId, joinedId)
    {
      on := OnClause(rels[i], anchorId, joinedId);
      assert rels[i..][0] == rels[i] && rels[i..][1..] == rels[i + 1..];
      if on.Some? {
        return;
      }
    }
    on := None;
  }

  method JoinsAny(rels: seq<Relationship>, members: seq<string>, candidate: string)
    returns (found: bool)
    ensures found == AnyJoins(rels, members, candidate)
  {
    for i := 0 to |members|
      invariant forall k | 0 <= k < i :: !Joins(rels, members[k], candidate)
    {
      var on := JoinColumns(rels, members[i], candidate);
      if on.Some? {
        assert members[i] in members && Joins(rels, members[i], candidate);
        return true;
      }
    }
    return false;
  }

  /** A usable clause always pairs columns one for one, and never none of them. */
  lemma {:induction false} ClauseIsUsable(rels: seq<Relationship>, a: string, b: string)
    requires Joins(rels, a, b)
    ensures var on := FirstOn(rels, a, b).value; 0 < |on.anchor| == |on.joined|
  {
    if OnClause(rels[0], a, b).None? {
      ClauseIsUsable(rels[1..], a, b);
    }
  }

  /** The same relationship decides a pair from either side, with the columns swapped. */
  lemma {:induction false} JoinsBothWays(rels: seq<Relationship>, a: string, b: string)
    ensures Joins(rels, a, b) == Joins(rels, b, a)
    ensures a != b && Joins(rels, a, b) ==>
      var on := FirstOn(rels, a, b).value;
      FirstOn(rels, b, a) == Some(JoinOn(on.joined, on.anchor))
  {
    if rels != [] {
      JoinsBothWays(rels[1..], a, b);
    }
  }

  // ---- Reachability -------------------------------------------------------

  ghost predicate IsWalk(rels: seq<Relationship>, within: set<string>, walk: seq<string>) {
    && walk != []
    && (forall k | 0 <= k < |walk| :: walk[k] in within)
    && (forall k | 0 <= k < |walk| - 1 :: Joins(rels, walk[k], walk[k + 1]))
  }

  ghost predicate WalkBetween(
    rels: seq<Relationship>, within: set<string>, walk: seq<string>, a: string, b: string)
  {
    IsWalk(rels, within, walk) && walk[0] == a && walk[|walk| - 1] == b
  }

  /** `a` reaches `b` by joins between tables of `within` alone. */
  ghost predicate Connected(rels: seq<Relationship>, within: set<string>, a: string, b: string) {
    exists walk :: WalkBetween(rels, within, walk, a, b)
  }

  ghost function Component(rels: seq<Relationship>, within: set<string>, a: string): set<string> {
    set x | x in within && Connected(rels, within, a, x)
  }

  lemma {:induction false} ConnectedToSelf(rels: seq<Relationship>, within: set<string>, a: string)
    requires a in within
    ensures Connected(rels, within, a, a)
  {
    assert WalkBetween(rels, within, [a], a, a);
  }

  lemma {:induction false} ConnectedStaysWithin(rels: seq<Relationship>, within: set<string>, a: string, b: string)
    requires Connected(rels, within, a, b)
    ensures a in within && b in within
  {
    var walk :| WalkBetween(rels, within, walk, a, b);
  }

  lemma {:induction false} ConnectedExtend(
    rels: seq<Relationship>, within: set<string>, a: string, b: string, c: string)
    requires Connected(rels, within, a, b) && c in within && Joins(rels, b, c)
    ensures Connected(rels, within, a, c)
  {
    var walk :| WalkBetween(rels, within, walk, a, b);
    assert WalkBetween(rels, within, walk + [c], a, c);
  }

  lemma {:induction false} ConnectedTransitive(
    rels: seq<Relationship>, within: set<string>, a: string, b: string, c: string)
    requires Connected(rels, within, a, b) && Connected(rels, within, b, c)
    ensures Connected(rels, within, a, c)
  {
    var first :| WalkBetween(rels, within, first, a, b);
    var second :| WalkBetween(rels, within, second, b, c);
    var walk := first + second[1..];
    forall k | 0 <= k < |walk| - 1 ensures Joins(rels, walk[k], walk[k + 1]) {
      if k >= |first| - 1 {
        assert walk[k] == second[k - |first| + 1];
      }
    }
    assert WalkBetween(rels, within, walk, a, c);
  }

  lemma {:induction false} ConnectedSymmetric(rels: seq<Relationship>, within: set<string>, a: string, b: string)
    requires Connected(rels, within, a, b)
    ensures Connected(rels, within, b, a)
  {
    var walk :| WalkBetween(rels, within, walk, a, b);
    var back := seq(|walk|, k requires 0 <= k < |walk| => walk[|walk| - 1 - k]);
    forall k | 0 <= k < |back| - 1 ensures Joins(rels, back[k], back[k + 1]) {
      JoinsBothWays(rels, walk[|walk| - 2 - k], walk[|walk| - 1 - k]);
    }
    assert WalkBetween(rels, within, back, b, a);
  }

  lemma {:induction false} ConnectedMonotone(
    rels: seq<Relationship>, within: set<string>, wider: set<string>, a: string, b: string)
    requires Connected(rels, within, a, b) && within <= wider
    ensures Connected(rels, wider, a, b)
  {
    var walk :| WalkBetween(rels, within, walk, a, b);
    assert WalkBetween(rels, wider, walk, a, b);
  }

  ghost predicate ClosedIn(rels: seq<Relationship>, within: set<string>, s: set<string>) {
    forall x, y | x in s && y in within && Joins(rels, x, y) :: y in s
  }

  /** Nothing outside a closed set is reachable from inside it. */
  lemma {:induction false} WalkStaysInside(
    rels: seq<Relationship>, within: set<string>, s: set<string>, walk: seq<string>)
    requires IsWalk(rels, within, walk) && walk[0] in s && ClosedIn(rels, within, s)
    ensures walk[|walk| - 1] in s
  {
    if |walk| > 1 {
      WalkStaysInside(rels, within, s, walk[..|walk| - 1]);
    }
  }

  lemma {:induction false} ComponentWithinClosed(
    rels: seq<Relationship>, within: set<string>, s: set<string>, a: string)
    requires a in s && ClosedIn(rels, within, s)
    ensures Component(rels, within, a) <= s
  {
    forall x | x in Component(rels, within, a) ensures x in s {
      var walk :| WalkBetween(rels, within, walk, a, x);
      WalkStaysInside(rels, within, s, walk);
    }
  }

  lemma {:induction false} ComponentIsClosed(rels: seq<Relationship>, within: set<string>, a: string)
    ensures ClosedIn(rels, within, Component(rels, within, a))
  {
    forall x, y | x in Component(rels, within, a) && y in within && Joins(rels, x, y)
      ensures y in Component(rels, within, a)
    {
      ConnectedExtend(rels, within, a, x, y);
    }
  }

  lemma {:induction false} SameComponent(rels: seq<Relationship>, within: set<string>, a: string, b: string)
    requires Connected(rels, within, a, b)
    ensures Component(rels, within, a) == Component(rels, within, b)
  {
    ConnectedSymmetric(rels, within, a, b);
    forall x | x in within ensures Connected(rels, within, a, x) <==> Connected(rels, within, b, x) {
      if Connected(rels, within, a, x) {
        ConnectedTransitive(rels, within, b, a, x);
      }
      if Connected(rels, within, b, x) {
        ConnectedTransitive(rels, within, a, b, x);
      }
    }
  }

  // ---- The groups ---------------------------------------------------------

  /** One group as the source renders it: a component, in pick order. */
  ghost function Group(rels: seq<Relationship>, picked: seq<string>, a: string): seq<string> {
    var reach := Component(rels, Elements(picked), a);
    Filter(x => x in reach, picked)
  }

  ghost predicate IsGroup(rels: seq<Relationship>, picked: seq<string>, group: seq<string>) {
    group != [] && group[0] in picked && group == Group(rels, picked, group[0])
  }

  /** Everything some group holds. */
  ghost function Covered(groups: seq<seq<string>>): set<string> {
    if groups == [] then {} else Covered(groups[..|groups| - 1]) + Elements(groups[|groups| - 1])
  }

  ghost predicate AllGroups(rels: seq<Relationship>, picked: seq<string>, groups: seq<seq<string>>) {
    forall i | 0 <= i < |groups| :: IsGroup(rels, picked, groups[i])
  }

  /** Groups follow the order of their first members, all among the first `n` picks. */
  ghost predicate HeadsAscend(picked: seq<string>, n: nat, groups: seq<seq<string>>) {
    && (forall i | 0 <= i < |groups| ::
          groups[i] != [] && groups[i][0] in picked && Position(picked, groups[i][0]) < n)
    && (forall i, j | 0 <= i < j < |groups| ::
          Position(picked, groups[i][0]) < Position(picked, groups[j][0]))
  }

  /**
   * `groups` is the partition of the picks into connected components, members in
   * pick order and groups in the order of their first members.
   */
  ghost predicate AreComponents(
    rels: seq<Relationship>, picked: seq<string>, groups: seq<seq<string>>)
  {
    && AllGroups(rels, picked, groups)
    && HeadsAscend(picked, |picked|, groups)
    && Covered(groups) == Elements(picked)
  }

  lemma {:induction false} GroupHolding(groups: seq<seq<string>>, x: string) returns (i: nat)
    requires x in Covered(groups)
    ensures i < |groups| && x in groups[i]
  {
    var last := |groups| - 1;
    if x in groups[last] {
      i := last;
    } else {
      i := GroupHolding(groups[..last], x);
    }
  }

  lemma {:induction false} CoveredHolds(groups: seq<seq<string>>, i: nat)
    requires i < |groups|
    ensures Elements(groups[i]) <= Covered(groups)
  {
    var last := |groups| - 1;
    if i < last {
      CoveredHolds(groups[..last], i);
    }
  }

  /** A group is the component of each of its members. */
  lemma {:induction false} GroupIsComponent(rels: seq<Relationship>, picked: seq<string>, group: seq<string>, x: string)
    requires IsGroup(rels, picked, group) && x in group
    ensures Elements(group) == Component(rels, Elements(picked), x)
    ensures group == Group(rels, picked, x)
  {
    var reach := Component(rels, Elements(picked), group[0]);
    assert x in reach;
    SameComponent(rels, Elements(picked), group[0], x);
    assert forall y | y in reach :: y in picked;
  }

  /** What the first `n` picks have claimed: themselves, and every pick they reach. */
  ghost predicate ClaimedSoFar(rels: seq<Relationship>, picked: seq<string>, n: nat, claimed: set<string>)
    requires n <= |picked|
  {
    && claimed <= Elements(picked)
    && ClosedIn(rels, Elements(picked), claimed)
    && forall k | 0 <= k < n :: picked[k] in claimed
  }

  lemma {:induction false} HeadsAscendWiden(picked: seq<string>, n: nat, groups: seq<seq<string>>)
    requires HeadsAscend(picked, n, groups)
    ensures HeadsAscend(picked, n + 1, groups)
  {
  }

  lemma {:induction false} NewGroupKeepsInvariant(
    rels: seq<Relationship>, picked: seq<string>, n: nat, before: seq<seq<string>>)
    requires n < |picked| && picked[n] !in Covered(before)
    requires AllGroups(rels, picked, before)
    requires HeadsAscend(picked, n, before)
    requires ClaimedSoFar(rels, picked, n, Covered(before))
    ensures var after := before + [Group(rels, picked, picked[n])];
            && AllGroups(rels, picked, after)
            && HeadsAscend(picked, n + 1, after)
            && ClaimedSoFar(rels, picked, n + 1, Covered(after))
  {
    var all, start := Elements(picked), picked[n];
    var group, members := Group(rels, picked, start), Component(rels, all, start);
    ComponentMissesClosed(rels, all, Covered(before), start);
    NewGroup(rels, picked, n, members, group);
    ComponentIsClosed(rels, all, start);
    var after := before + [group];
    assert after[..|before|] == before;
    assert Covered(after) == Covered(before) + members;
    NewHeadAscends(picked, n, before, group);
  }

  lemma {:induction false} NewHeadAscends(picked: seq<string>, n: nat, before: seq<seq<string>>, group: seq<string>)
    requires n < |picked| && HeadsAscend(picked, n, before)
    requires group != [] && group[0] == picked[n] && picked[n] !in picked[..n]
    ensures HeadsAscend(picked, n + 1, before + [group])
  {
    assert forall k | 0 <= k < n :: picked[k] in picked[..n];
    assert Position(picked, picked[n]) == n;
  }

  lemma {:induction false} ComponentMissesClosed(
    rels: seq<Relationship>, all: set<string>, closed: set<string>, start: string)
    requires start !in closed && closed <= all && ClosedIn(rels, all, closed)
    ensures Component(rels, all, start) !! closed
  {
    if x :| x in Component(rels, all, start) && x in closed {
      ConnectedSymmetric(rels, all, start, x);
      ComponentWithinClosed(rels, all, closed, x);
      ConnectedStaysWithin(rels, all, start, x);
      assert false;
    }
  }

  method JoinGroups(rels: seq<Relationship>, picked: seq<string>) returns (groups: seq<seq<string>>)
    ensures AreComponents(rels, picked, groups)
    ensures groups == GroupsOf(rels, picked)
  {
    var grouped: set<string> := {};
    groups := [];
    for i := 0 to |picked|
      invariant AllGroups(rels, picked, groups)
      invariant HeadsAscend(picked, i, groups)
      invariant ClaimedSoFar(rels, picked, i, grouped)
      invariant grouped == Covered(groups)
    {
      var start := picked[i];
      if start in grouped {
        HeadsAscendWiden(picked, i, groups);
      } else {
        NewGroupKeepsInvariant(rels, picked, i, groups);
        var members;
        members, grouped := GrowGroup(rels, picked, start, grouped);
        var inGroup := Elements(members);
        var group := Filter(x => x in inGroup, picked);
        NewGroup(rels, picked, i, inGroup, group);
        assert (groups + [group])[..|groups|] == groups;
        groups := groups + [group];
      }
    }
    GroupsAreUnique(rels, picked, groups, GroupsOf(rels, picked));
  }

  lemma {:induction false} NewGroup(
    rels: seq<Relationship>, picked: seq<string>, n: nat, members: set<string>, group: seq<string>)
    requires n < |picked| && members == Component(rels, Elements(picked), picked[n])
    requires group == Filter(x => x in members, picked)
    requires forall k | 0 <= k < n :: picked[k] !in members
    ensures IsGroup(rels, picked, group) && group[0] == picked[n] && Elements(group) == members
  {
    var reach := Component(rels, Elements(picked), picked[n]);
    assert group == Filter(x => x in reach, picked) by {
      FilterCongruence(x => x in members, x => x in reach, picked);
    }
    assert picked[n] in members by { ConnectedToSelf(rels, Elements(picked), picked[n]); }
    FilterStartsAt(x => x in members, picked, n);
  }

  /**
   * The `while (grew)` loop: from one unclaimed pick, claim everything that joins
   * a member until a whole pass claims nothing.
   */
  method GrowGroup(rels: seq<Relationship>, picked: seq<string>, start: string, claimed: set<string>)
    returns (members: seq<string>, grouped: set<string>)
    requires start in picked && start !in claimed
    requires claimed <= Elements(picked) && ClosedIn(rels, Elements(picked), claimed)
    ensures Elements(members) == Component(rels, Elements(picked), start)
    ensures Elements(members) !! claimed
    ensures grouped == claimed + Elements(members) && ClosedIn(rels, Elements(picked), grouped)
  {
    ghost var all := Elements(picked);
    members := [start];
    grouped := claimed + {start};
    ConnectedToSelf(rels, all, start);
    var grew := true;
    while grew
      invariant start in members && Elements(members) <= Component(rels, all, start)
      invariant grouped == claimed + Elements(members) && Elements(members) !! claimed
      invariant !grew ==> forall x | x in picked && x !in grouped :: !AnyJoins(rels, members, x)
      decreases all - grouped, grew
    {
      grew := false;
      ghost var before := grouped;
      for j := 0 to |picked|
        invariant start in members && Elements(members) <= Component(rels, all, start)
        invariant grouped == claimed + Elements(members) && Elements(members) !! claimed
        invariant before <= grouped && (grew ==> before < grouped)
        invariant !grew ==> forall k | 0 <= k < j && picked[k] !in grouped :: !AnyJoins(rels, members, picked[k])
      {
        var candidate := picked[j];
        if candidate !in grouped {
          var joins := JoinsAny(rels, members, candidate);
          if joins {
            ghost var m :| m in members && Joins(rels, m, candidate);
            ConnectedExtend(rels, all, start, m, candidate);
            assert Elements(members + [candidate]) == Elements(members) + {candidate};
            members := members + [candidate];
            grouped := grouped + {candidate};
            grew := true;
          }
        }
      }
    }
    FullyGrown(rels, all, claimed, members, start);
  }

  /** A pass that claims nothing leaves a set no join leads out of. */
  lemma {:induction false} FullyGrown(
    rels: seq<Relationship>, all: set<string>, claimed: set<string>, members: seq<string>, start: string)
    requires start in members && Elements(members) <= Component(rels, all, start)
    requires Elements(members) !! claimed && claimed <= all && ClosedIn(rels, all, claimed)
    requires forall x | x in all && x !in claimed + Elements(members) :: !AnyJoins(rels, members, x)
    ensures Elements(members) == Component(rels, all, start)
    ensures ClosedIn(rels, all, claimed + Elements(members))
  {
    forall x, y | x in Elements(members) && y in all && Joins(rels, x, y)
      ensures y in Elements(members)
    {
      JoinsBothWays(rels, x, y);
      assert x in all && y !in claimed;
      if y !in members {
        assert AnyJoins(rels, members, y);
      }
    }
    ComponentWithinClosed(rels, all, Elements(members), start);
  }

  // ---- What the partition means -------------------------------------------

  /** Two picks share a group exactly when they reach each other. */
  lemma {:induction false} GroupsAreReachability(
    rels: seq<Relationship>, picked: seq<string>, groups: seq<seq<string>>, g: nat, x: string, y: string)
    requires AreComponents(rels, picked, groups)
    requires g < |groups| && x in groups[g] && y in picked
    ensures y in groups[g] <==> Connected(rels, Elements(picked), x, y)
  {
    GroupIsComponent(rels, picked, groups[g], x);
    assert y in groups[g] <==> y in Elements(groups[g]);
  }

  /** Every pick lies in exactly one group. */
  lemma {:induction false} GroupsAreDisjoint(
    rels: seq<Relationship>, picked: seq<string>, groups: seq<seq<string>>, i: nat, j: nat)
    requires AreComponents(rels, picked, groups)
    requires i < j < |groups|
    ensures Elements(groups[i]) !! Elements(groups[j])
  {
    if x :| x in Elements(groups[i]) && x in Elements(groups[j]) {
      GroupIsComponent(rels, picked, groups[i], x);
      GroupIsComponent(rels, picked, groups[j], x);
      assert false;
    }
  }

  /** The first group is the one a statement rooted at the first pick can emit. */
  lemma {:induction false} FirstGroupHoldsFirstPick(
    rels: seq<Relationship>, picked: seq<string>, groups: seq<seq<string>>)
    requires AreComponents(rels, picked, groups) && picked != []
    ensures |groups| > 0 && groups[0][0] == picked[0]
    ensures Elements(groups[0]) == Component(rels, Elements(picked), picked[0])
  {
    var i := GroupHolding(groups, picked[0]);
    GroupIsComponent(rels, picked, groups[i], picked[0]);
    var reach := Component(rels, Elements(picked), picked[0]);
    FilterHead(x => x in reach, picked);
    assert Position(picked, groups[i][0]) == 0;
  }

  /** A group of one partition is a group of the other. */
  lemma {:induction false} GroupAppears(
    rels: seq<Relationship>, picked: seq<string>, g1: seq<seq<string>>, g2: seq<seq<string>>, i: nat)
    requires AreComponents(rels, picked, g1) && AreComponents(rels, picked, g2)
    requires i < |g1|
    ensures g1[i] in g2
  {
    var h := g1[i][0];
    var j := GroupHolding(g2, h);
    GroupIsComponent(rels, picked, g1[i], h);
    GroupIsComponent(rels, picked, g2[j], h);
  }

  /** The partition, its member order and its group order are all determined. */
  lemma {:induction false} GroupsAreUnique(
    rels: seq<Relationship>, picked: seq<string>, g1: seq<seq<string>>, g2: seq<seq<string>>)
    requires AreComponents(rels, picked, g1) && AreComponents(rels, picked, g2)
    ensures g1 == g2
  {
    forall i | 0 <= i < |g1| ensures g1[i] in g2 {
      GroupAppears(rels, picked, g1, g2, i);
    }
    forall i | 0 <= i < |g2| ensures g2[i] in g1 {
      GroupAppears(rels, picked, g2, g1, i);
    }
    var rank := (g: seq<string>) => if g != [] && g[0] in picked then Position(picked, g[0]) else 0;
    AscendingIsUnique(rank, g1, g2);
  }

  lemma {:induction false} ComponentsExist(rels: seq<Relationship>, picked: seq<string>, n: nat)
    returns (groups: seq<seq<string>>)
    requires n <= |picked|
    ensures AllGroups(rels, picked, groups) && HeadsAscend(picked, n, groups)
    ensures ClaimedSoFar(rels, picked, n, Covered(groups))
  {
    if n == 0 {
      groups := [];
    } else {
      var before := ComponentsExist(rels, picked, n - 1);
      if picked[n - 1] in Covered(before) {
        HeadsAscendWiden(picked, n - 1, before);
        groups := before;
      } else {
        NewGroupKeepsInvariant(rels, picked, n - 1, before);
        groups := before + [Group(rels, picked, picked[n - 1])];
      }
    }
  }

  /** The join groups of a selection, as a value: the one partition there is. */
  ghost function GroupsOf(rels: seq<Relationship>, picked: seq<string>): (groups: seq<seq<string>>)
    ensures AreComponents(rels, picked, groups)
    ensures picked != [] ==> groups != []
  {
    SomeElement(picked);
    assert exists g :: AreComponents(rels, picked, g) by {
      var g := ComponentsExist(rels, picked, |picked|);
      assert AreComponents(rels, picked, g);
    }
    var groups :| AreComponents(rels, picked, groups);
    groups
  }
}
