/** The order in which a statement can reach its picks: the first join group. */
module JoinPlan {
  import opened Prelude
  import opened Ir
  import opened JoinGraph

  /** One table joined onto the chain; `anchorIndex` points into `included`. */
  datatype JoinStep = JoinStep(entityId: string, anchorIndex: nat, on: JoinOn)

  datatype JoinPlan = JoinPlan(included: seq<string>, steps: seq<JoinStep>, unreached: seq<string>)

  // ---- The planner as a value ----------------------------------------------

  /** The step joining `candidate` to the earliest of `included[from..]` it can join. */
  function AttachFrom(rels: seq<Relationship>, included: seq<string>, candidate: string, from: nat)
    : (step: Option<JoinStep>)
    requires from <= |included|
    ensures step.None? <==> forall k | from <= k < |included| :: !Joins(rels, included[k], candidate)
    ensures step.Some? ==>
      var i := step.value.anchorIndex;
      && from <= i < |included| && step.value.entityId == candidate
      && FirstOn(rels, included[i], candidate) == Some(step.value.on)
      && forall k | from <= k < i :: !Joins(rels, included[k], candidate)
    decreases |included| - from
  {
    if from == |included| then None
    else
      var on := FirstOn(rels, included[from], candidate);
      if on.Some? then Some(JoinStep(candidate, from, on.value))
      else AttachFrom(rels, included, candidate, from + 1)
  }

  /** One pass over the picks still out. */
  function Pass(rels: seq<Relationship>, included: seq<string>, steps: seq<JoinStep>, remaining: seq<string>)
    : (plan: JoinPlan)
    ensures |plan.unreached| <= |remaining|
    decreases |remaining|
  {
    if remaining == [] then JoinPlan(included, steps, [])
    else
      var step := AttachFrom(rels, included, remaining[0], 0);
      if step.Some? then
        Pass(rels, included + [remaining[0]], steps + [step.value], remaining[1..])
      else
        var rest := Pass(rels, included, steps, remaining[1..]);
        rest.(unreached := [remaining[0]] + rest.unreached)
  }

  /** Passes until one adds nothing. */
  function Passes(rels: seq<Relationship>, included: seq<string>, steps: seq<JoinStep>, remaining: seq<string>)
    : JoinPlan
    decreases |remaining|
  {
    var plan := Pass(rels, included, steps, remaining);
    if |plan.unreached| == |remaining| then plan
    else Passes(rels, plan.included, plan.steps, plan.unreached)
  }

  function PlanOf(rels: seq<Relationship>, picked: seq<string>): JoinPlan
    requires picked != []
  {
    Passes(rels, [picked[0]], [], picked[1..])
  }

  // ---- The planner as the source runs it ------------------------------------

  method Attach(rels: seq<Relationship>, included: seq<string>, candidate: string)
    returns (step: Option<JoinStep>)
    ensures step == AttachFrom(rels, included, candidate, 0)
  {
    for i := 0 to |included|
      invariant AttachFrom(rels, included, candidate, 0) == AttachFrom(rels, included, candidate, i)
    {
      var on := JoinColumns(rels, included[i], candidate);
      if on.Some? {
        return Some(JoinStep(candidate, i, on.value));
      }
    }
    return None;
  }

  /** A pass part of the way: what is left of it gives the whole pass, after what it has set aside. */
  ghost predicate Midway(
    rels: seq<Relationship>, whole: JoinPlan, included: seq<string>, steps: seq<JoinStep>, stillOut: seq<string>,
    left: seq<string>)
  {
    var rest := Pass(rels, included, steps, left);
    whole == rest.(unreached := stillOut + rest.unreached)
  }

  lemma {:induction false} MidwayOn(
    rels: seq<Relationship>, whole: JoinPlan, included: seq<string>, steps: seq<JoinStep>, stillOut: seq<string>,
    left: seq<string>, step: Option<JoinStep>)
    requires left != [] && Midway(rels, whole, included, steps, stillOut, left)
    requires step == AttachFrom(rels, included, left[0], 0)
    ensures step.Some? ==> Midway(rels, whole, included + [left[0]], steps + [step.value], stillOut, left[1..])
    ensures step.None? ==> Midway(rels, whole, included, steps, stillOut + [left[0]], left[1..])
  {
    if step.None? {
      var rest := Pass(rels, included, steps, left[1..]);
      ConcatAssociates(stillOut, [left[0]], rest.unreached);
    }
  }

  method PlanJoins(rels: seq<Relationship>, picked: seq<string>) returns (plan: JoinPlan)
    requires picked != []
    ensures plan == PlanOf(rels, picked)
  {
    var included, steps, remaining := [picked[0]], [], picked[1..];
    var progressed := true;
    while progressed
      invariant progressed ==> PlanOf(rels, picked) == Passes(rels, included, steps, remaining)
      invariant !progressed ==> PlanOf(rels, picked) == JoinPlan(included, steps, remaining)
      decreases |remaining|, progressed
    {
      progressed := false;
      var stillOut := [];
      ghost var whole := Pass(rels, included, steps, remaining);
      ghost var (included0, steps0) := (included, steps);
      for j := 0 to |remaining|
        invariant Midway(rels, whole, included, steps, stillOut, remaining[j..])
        invariant |stillOut| <= j
        invariant progressed <==> |stillOut| < j
        invariant !progressed ==> included == included0 && steps == steps0
      {
        var candidate := remaining[j];
        assert remaining[j..][0] == candidate && remaining[j..][1..] == remaining[j + 1..];
        var step := Attach(rels, included, candidate);
        MidwayOn(rels, whole, included, steps, stillOut, remaining[j..], step);
        if step.Some? {
          included := included + [candidate];
          steps := steps + [step.value];
          progressed := true;
        } else {
          stillOut := stillOut + [candidate];
        }
      }
      assert whole == JoinPlan(included, steps, stillOut);
      remaining := stillOut;
    }
    plan := JoinPlan(included, steps, remaining);
  }

  // ---- A plan is a spanning tree of the first component ----------------------

  /** Each step hangs the next included table on the earliest one it can join. */
  ghost predicate IsTree(rels: seq<Relationship>, included: seq<string>, steps: seq<JoinStep>) {
    && |included| == |steps| + 1
    && forall k | 0 <= k < |steps| ::
         && steps[k].entityId == included[k + 1]
         && steps[k].anchorIndex <= k
         && FirstOn(rels, included[steps[k].anchorIndex], included[k + 1]) == Some(steps[k].on)
         && forall j | 0 <= j < steps[k].anchorIndex :: !Joins(rels, included[j], included[k + 1])
  }

  ghost predicate IsSplit(before: seq<string>, after: JoinPlan, remaining: seq<string>) {
    && before <= after.included
    && Elements(after.included) + Elements(after.unreached) == Elements(before) + Elements(remaining)
    && NoRepeats(after.included + after.unreached)
  }

  lemma {:induction false} PassKeepsTree(
    rels: seq<Relationship>, included: seq<string>, steps: seq<JoinStep>, remaining: seq<string>)
    requires IsTree(rels, included, steps)
    ensures var p := Pass(rels, included, steps, remaining); IsTree(rels, p.included, p.steps)
    decreases |remaining|
  {
    if remaining != [] {
      var step := AttachFrom(rels, included, remaining[0], 0);
      if step.Some? {
        PassKeepsTree(rels, included + [remaining[0]], steps + [step.value], remaining[1..]);
      } else {
        PassKeepsTree(rels, included, steps, remaining[1..]);
      }
    }
  }

  lemma {:induction false} PassSplits(
    rels: seq<Relationship>, included: seq<string>, steps: seq<JoinStep>, remaining: seq<string>)
    requires NoRepeats(included + remaining)
    ensures IsSplit(included, Pass(rels, included, steps, remaining), remaining)
    ensures var p := Pass(rels, included, steps, remaining);
            p.unreached == Filter(x => x !in p.included, remaining)
    decreases |remaining|
  {
    if remaining == [] {
      assert included + remaining == included;
    } else {
      var c := remaining[0];
      var step := AttachFrom(rels, included, c, 0);
      assert remaining == [c] + remaining[1..];
      assert Elements(remaining) == {c} + Elements(remaining[1..]);
      if step.Some? {
        assert (included + [c]) + remaining[1..] == included + remaining;
        PassSplits(rels, included + [c], steps + [step.value], remaining[1..]);
        assert Elements(included + [c]) == Elements(included) + {c};
        var p := Pass(rels, included, steps, remaining);
        assert c == (included + [c])[|included|] && c in p.included;
      } else {
        SkipOne(included, c, remaining[1..]);
        PassSplits(rels, included, steps, remaining[1..]);
        var p, rest := Pass(rels, included, steps, remaining), Pass(rels, included, steps, remaining[1..]);
        AddToOut(included, c, remaining[1..], rest);
      }
    }
  }

  lemma {:induction false} SkipOne(included: seq<string>, c: string, rest: seq<string>)
    requires NoRepeats(included + ([c] + rest))
    ensures NoRepeats(included + rest) && c !in included && c !in rest
  {
    var all := included + ([c] + rest);
    assert forall i | 0 <= i < |included| :: all[i] == included[i];
    assert forall i | 0 <= i < |rest| :: all[|included| + 1 + i] == rest[i];
    assert all[|included|] == c;
    forall i, j | 0 <= i < j < |included + rest| ensures (included + rest)[i] != (included + rest)[j] {
      var i' := if i < |included| then i else i + 1;
      var j' := if j < |included| then j else j + 1;
      assert all[i'] != all[j'];
    }
  }

  lemma {:induction false} AddToOut(included: seq<string>, c: string, rest: seq<string>, p: JoinPlan)
    requires c !in included && c !in rest && IsSplit(included, p, rest)
    ensures c !in p.included
    ensures IsSplit(included, p.(unreached := [c] + p.unreached), [c] + rest)
  {
    assert c !in Elements(p.included) && c !in Elements(p.unreached);
    assert Elements([c] + p.unreached) == {c} + Elements(p.unreached);
    assert Elements([c] + rest) == {c} + Elements(rest);
    var a, u := p.included, p.unreached;
    assert forall i | 0 <= i < |a| :: (a + u)[i] == a[i];
    assert forall i | 0 <= i < |u| :: (a + u)[|a| + i] == u[i];
    forall i, j | 0 <= i < j < |a + ([c] + u)| ensures (a + ([c] + u))[i] != (a + ([c] + u))[j] {
      if i != |a| && j != |a| {
        var i' := if i < |a| then i else i - 1;
        var j' := if j < |a| then j else j - 1;
        assert (a + u)[i'] != (a + u)[j'];
      }
    }
  }

  /** A pass that leaves everything out changed nothing, and found no join to make. */
  lemma {:induction false} IdlePass(
    rels: seq<Relationship>, included: seq<string>, steps: seq<JoinStep>, remaining: seq<string>)
    requires |Pass(rels, included, steps, remaining).unreached| == |remaining|
    ensures Pass(rels, included, steps, remaining) == JoinPlan(included, steps, remaining)
    ensures forall x | x in remaining :: !AnyJoins(rels, included, x)
  {
    if remaining != [] {
      IdlePass(rels, included, steps, remaining[1..]);
      assert remaining == [remaining[0]] + remaining[1..];
    }
  }

  lemma {:induction false} PassesSettle(
    rels: seq<Relationship>, included: seq<string>, steps: seq<JoinStep>, remaining: seq<string>)
    requires NoRepeats(included + remaining) && IsTree(rels, included, steps)
    ensures var p := Passes(rels, included, steps, remaining);
            && IsTree(rels, p.included, p.steps)
            && IsSplit(included, p, remaining)
            && p.unreached == Filter(x => x !in p.included, remaining)
            && forall x | x in p.unreached :: !AnyJoins(rels, p.included, x)
    decreases |remaining|
  {
    PassKeepsTree(rels, included, steps, remaining);
    PassSplits(rels, included, steps, remaining);
    var p := Pass(rels, included, steps, remaining);
    if |p.unreached| == |remaining| {
      IdlePass(rels, included, steps, remaining);
    } else {
      PassesSettle(rels, p.included, p.steps, p.unreached);
      var q := Passes(rels, p.included, p.steps, p.unreached);
      FilterTwice(x => x !in p.included, x => x !in q.included, remaining);
    }
  }

  lemma {:induction false} TreeIsConnected(
    rels: seq<Relationship>, within: set<string>, included: seq<string>, steps: seq<JoinStep>, k: nat)
    requires IsTree(rels, included, steps) && Elements(included) <= within && k < |included|
    ensures Connected(rels, within, included[0], included[k])
  {
    assert included[k] in within;
    if k == 0 {
      ConnectedToSelf(rels, within, included[0]);
    } else {
      var anchor := steps[k - 1].anchorIndex;
      TreeIsConnected(rels, within, included, steps, anchor);
      ConnectedExtend(rels, within, included[0], included[anchor], included[k]);
    }
  }

  /**
   * The statement is rooted at the first pick, holds exactly what that pick
   * reaches, hangs each table on the earliest one it joins, and reports the rest
   * of the picks in pick order.
   */
  lemma {:induction false} PlanIsSpanningTree(rels: seq<Relationship>, picked: seq<string>)
    requires picked != [] && NoRepeats(picked)
    ensures var p := PlanOf(rels, picked);
            && p.included != [] && p.included[0] == picked[0] && NoRepeats(p.included)
            && Elements(p.included) == Component(rels, Elements(picked), picked[0])
            && IsTree(rels, p.included, p.steps)
            && p.unreached == Filter(x => x !in p.included, picked)
  {
    var root, others, all := [picked[0]], picked[1..], Elements(picked);
    assert picked == root + others;
    assert all == Elements(root) + Elements(others);
    PassesSettle(rels, root, [], others);
    var p := PlanOf(rels, picked);
    assert p.included[0] == picked[0];
    assert NoRepeats(p.included) by {
      assert forall i | 0 <= i < |p.included| :: (p.included + p.unreached)[i] == p.included[i];
    }
    assert Elements(p.included) <= all;
    forall x | x in p.included ensures Connected(rels, all, picked[0], x) {
      var k :| 0 <= k < |p.included| && p.included[k] == x;
      TreeIsConnected(rels, all, p.included, p.steps, k);
    }
    forall x, y | x in Elements(p.included) && y in all && Joins(rels, x, y)
      ensures y in Elements(p.included)
    {
      if y in Elements(p.unreached) {
        assert AnyJoins(rels, p.included, y);
      }
    }
    ComponentWithinClosed(rels, all, Elements(p.included), picked[0]);
  }

  /** The two fixpoint loops agree: what the planner includes is the first join group. */
  lemma {:induction false} PlannerAgreesWithGroups(rels: seq<Relationship>, picked: seq<string>)
    requires picked != [] && NoRepeats(picked)
    ensures var p, groups := PlanOf(rels, picked), GroupsOf(rels, picked);
            && Elements(p.included) == Elements(groups[0])
            && Elements(p.unreached) == Covered(groups[1..])
  {
    var p, groups := PlanOf(rels, picked), GroupsOf(rels, picked);
    PlanIsSpanningTree(rels, picked);
    FirstGroupHoldsFirstPick(rels, picked, groups);
    CoveredSplits(groups);
    LaterGroupsMissFirst(rels, picked, groups);
    assert Elements(p.unreached) == Elements(picked) - Elements(p.included);
  }

  /** Nothing is left out exactly when the picks form a single group. */
  lemma {:induction false} AllReachedIffOneGroup(rels: seq<Relationship>, picked: seq<string>)
    requires picked != [] && NoRepeats(picked)
    ensures PlanOf(rels, picked).unreached == [] <==> |GroupsOf(rels, picked)| == 1
  {
    var p, groups := PlanOf(rels, picked), GroupsOf(rels, picked);
    PlannerAgreesWithGroups(rels, picked);
    if |groups| == 1 {
      assert groups[1..] == [];
      SomeElement(p.unreached);
    } else {
      CoveredHolds(groups[1..], 0);
      assert IsGroup(rels, picked, groups[1]);
      assert groups[1][0] in Elements(groups[1..][0]);
    }
  }

  lemma {:induction false} CoveredSplits(groups: seq<seq<string>>)
    requires groups != []
    ensures Covered(groups) == Elements(groups[0]) + Covered(groups[1..])
  {
    var last := |groups| - 1;
    if last > 0 {
      CoveredSplits(groups[..last]);
      assert groups[..last][1..] == groups[1..][..last - 1];
    }
  }

  lemma {:induction false} MissesCovered(first: set<string>, groups: seq<seq<string>>)
    requires forall k | 0 <= k < |groups| :: first !! Elements(groups[k])
    ensures first !! Covered(groups)
  {
    if groups != [] {
      MissesCovered(first, groups[..|groups| - 1]);
    }
  }

  lemma {:induction false} LaterGroupsMissFirst(rels: seq<Relationship>, picked: seq<string>, groups: seq<seq<string>>)
    requires AreComponents(rels, picked, groups) && groups != []
    ensures Elements(groups[0]) !! Covered(groups[1..])
  {
    var later := groups[1..];
    forall k | 0 <= k < |later| ensures Elements(groups[0]) !! Elements(later[k]) {
      GroupsAreDisjoint(rels, picked, groups, 0, k + 1);
    }
    MissesCovered(Elements(groups[0]), later);
  }
}
