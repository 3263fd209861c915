/** The order in which the planner joins its tables. */
module PlanOrder {
  import opened Prelude
  import opened Ir
  import opened JoinGraph
  import opened JoinPlan

  // Passes over the picks fix one order: each table is joined in the earliest pass that can
  // join it, and within a pass in the order picked. A table can be joined in the pass that
  // joins a neighbour picked before it, and in the pass after that of one picked after it.

  /** The pass in which a neighbour, joined in pass `pass`, lets a table be joined. */
  function Allows(pos: string -> int, neighbour: string, pass: nat, table: string): nat {
    if pos(neighbour) < pos(table) then pass else pass + 1
  }

  /** No neighbour allows table `k` earlier, and one allows it then. */
  ghost predicate IsEarliest(
    rels: seq<Relationship>, pos: string -> int, included: seq<string>, passes: seq<nat>, k: nat)
    requires |passes| == |included| && k < |included|
  {
    && (forall i | 0 <= i < |included| && Joins(rels, included[i], included[k]) ::
          passes[k] <= Allows(pos, included[i], passes[i], included[k]))
    && exists i | 0 <= i < |included| ::
         Joins(rels, included[i], included[k]) && passes[k] == Allows(pos, included[i], passes[i], included[k])
  }

  /** By pass, and within a pass as picked. */
  ghost predicate InPassOrder(pos: string -> int, included: seq<string>, passes: seq<nat>)
    requires |passes| == |included|
  {
    forall i, j | 0 <= i < j < |included| ::
      passes[i] < passes[j] || (passes[i] == passes[j] && pos(included[i]) < pos(included[j]))
  }

  ghost predicate IsPassOrder(
    rels: seq<Relationship>, pos: string -> int, included: seq<string>, passes: seq<nat>)
  {
    && |passes| == |included| && included != [] && passes[0] == 1
    && InPassOrder(pos, included, passes)
    && forall k | 0 < k < |included| :: IsEarliest(rels, pos, included, passes, k)
  }

  /** The picks still out follow each other, and what this pass has joined; no neighbour allowed them before it. */
  ghost predicate Awaits(
    rels: seq<Relationship>, pos: string -> int, included: seq<string>, passes: seq<nat>, out: seq<string>, pass: nat)
    requires |passes| == |included|
  {
    && Ascending(pos, out)
    && forall i, y | 0 <= i < |included| && y in out && Joins(rels, included[i], y) ::
         pass <= Allows(pos, included[i], passes[i], y)
  }

  /** Before a turn of pass `pass`: nothing joined in it comes after what is left of it. */
  ghost predicate MidPass(pos: string -> int, included: seq<string>, passes: seq<nat>, left: seq<string>, pass: nat)
    requires |passes| == |included|
  {
    forall i | 0 <= i < |included| ::
      passes[i] <= pass && (passes[i] == pass ==> forall y | y in left :: pos(included[i]) < pos(y))
  }

  lemma {:induction false} EarliestStays(
    rels: seq<Relationship>, pos: string -> int, included: seq<string>, passes: seq<nat>, y: string, pass: nat, k: nat)
    requires |passes| == |included| && k < |included| && passes[k] <= pass
    requires IsEarliest(rels, pos, included, passes, k)
    ensures IsEarliest(rels, pos, included + [y], passes + [pass], k)
  {
    var more, times := included + [y], passes + [pass];
    var i :| 0 <= i < |included| && Joins(rels, included[i], included[k])
      && passes[k] == Allows(pos, included[i], passes[i], included[k]);
    assert more[i] == included[i] && times[i] == passes[i] && more[k] == included[k] && times[k] == passes[k];
  }

  lemma {:induction false} NewIsEarliest(
    rels: seq<Relationship>, pos: string -> int, included: seq<string>, passes: seq<nat>, y: string, pass: nat, i: nat)
    requires |passes| == |included| && i < |included| && Joins(rels, included[i], y)
    requires passes[i] <= pass && (passes[i] == pass ==> pos(included[i]) < pos(y))
    requires forall z | 0 <= z < |included| && Joins(rels, included[z], y) ::
               pass <= Allows(pos, included[z], passes[z], y)
    ensures IsEarliest(rels, pos, included + [y], passes + [pass], |included|)
  {
    var more, times := included + [y], passes + [pass];
    assert more[i] == included[i] && times[i] == passes[i];
    forall z | 0 <= z < |more| && Joins(rels, more[z], y) ensures pass <= Allows(pos, more[z], times[z], y) {
      if z < |included| {
        assert more[z] == included[z] && times[z] == passes[z];
      }
    }
  }

  /** One more table, joined in its turn. */
  lemma {:induction false} TurnJoins(
    rels: seq<Relationship>, pos: string -> int, included: seq<string>, passes: seq<nat>, left: seq<string>, pass: nat,
    i: nat)
    requires left != [] && i < |included| && Joins(rels, included[i], left[0])
    requires IsPassOrder(rels, pos, included, passes) && Awaits(rels, pos, included, passes, left, pass)
    requires MidPass(pos, included, passes, left, pass)
    ensures IsPassOrder(rels, pos, included + [left[0]], passes + [pass])
    ensures MidPass(pos, included + [left[0]], passes + [pass], left[1..], pass)
  {
    var y := left[0];
    assert y in left;
    var more, times := included + [y], passes + [pass];
    forall k | 0 < k < |included| ensures IsEarliest(rels, pos, more, times, k) {
      EarliestStays(rels, pos, included, passes, y, pass, k);
    }
    NewIsEarliest(rels, pos, included, passes, y, pass, i);
    TurnStaysMid(pos, included, passes, left, pass);
  }

  lemma {:induction false} TurnStaysMid(
    pos: string -> int, included: seq<string>, passes: seq<nat>, left: seq<string>, pass: nat)
    requires |passes| == |included| && left != [] && Ascending(pos, left)
    requires MidPass(pos, included, passes, left, pass)
    ensures MidPass(pos, included + [left[0]], passes + [pass], left[1..], pass)
  {
    forall z | z in left[1..] ensures z in left && pos(left[0]) < pos(z) {
      var k :| 0 <= k < |left[1..]| && left[1..][k] == z;
      assert left[k + 1] == z;
    }
  }

  /** What is still out after a table was joined awaits as before. */
  lemma {:induction false} StillAwaits(
    rels: seq<Relationship>, pos: string -> int, included: seq<string>, passes: seq<nat>, out: seq<string>,
    y: string, joined: nat, pass: nat)
    requires |passes| == |included| && Awaits(rels, pos, included, passes, out, pass)
    requires forall z | z in out :: pass <= Allows(pos, y, joined, z)
    ensures Awaits(rels, pos, included + [y], passes + [joined], out, pass)
  {
    var more, times := included + [y], passes + [joined];
    forall i, z | 0 <= i < |more| && z in out && Joins(rels, more[i], z)
      ensures pass <= Allows(pos, more[i], times[i], z)
    {
      if i < |included| {
        assert more[i] == included[i] && times[i] == passes[i];
      }
    }
  }

  lemma {:induction false} AwaitsRest(
    rels: seq<Relationship>, pos: string -> int, included: seq<string>, passes: seq<nat>, out: seq<string>, pass: nat)
    requires |passes| == |included| && out != [] && Awaits(rels, pos, included, passes, out, pass)
    ensures Awaits(rels, pos, included, passes, out[1..], pass)
    ensures MidPass(pos, included, passes, out, pass) ==> MidPass(pos, included, passes, out[1..], pass)
  {
    assert forall y | y in out[1..] :: y in out;
    assert forall k | 0 <= k < |out| - 1 :: out[1..][k] == out[k + 1];
  }

  /** One whole pass: what it joins follows the order, and what it leaves awaits the next. */
  lemma {:induction false} PassInOrder(
    rels: seq<Relationship>, pos: string -> int, included: seq<string>, steps: seq<JoinStep>, left: seq<string>,
    passes: seq<nat>, pass: nat)
    returns (times: seq<nat>)
    requires IsPassOrder(rels, pos, included, passes) && Awaits(rels, pos, included, passes, left, pass)
    requires MidPass(pos, included, passes, left, pass)
    ensures var plan := Pass(rels, included, steps, left);
            && IsPassOrder(rels, pos, plan.included, times)
            && Awaits(rels, pos, plan.included, times, plan.unreached, pass + 1)
            && (forall i | 0 <= i < |times| :: times[i] <= pass)
            && included <= plan.included && passes <= times
            && (forall i | |included| <= i < |times| :: times[i] == pass && plan.included[i] in left)
            && (forall y | y in plan.unreached :: y in left)
    decreases |left|
  {
    if left == [] {
      times := passes;
    } else {
      var y := left[0];
      AwaitsRest(rels, pos, included, passes, left, pass);
      var step := AttachFrom(rels, included, y, 0);
      if step.Some? {
        TurnJoins(rels, pos, included, passes, left, pass, step.value.anchorIndex);
        RestAwaits(rels, pos, included, passes, left, pass);
        times := PassInOrder(rels, pos, included + [y], steps + [step.value], left[1..], passes + [pass], pass);
      } else {
        times := PassInOrder(rels, pos, included, steps, left[1..], passes, pass);
        SetAside(rels, pos, included, left, passes, times, pass, Pass(rels, included, steps, left[1..]));
      }
    }
  }

  lemma {:induction false} RestAwaits(
    rels: seq<Relationship>, pos: string -> int, included: seq<string>, passes: seq<nat>, left: seq<string>, pass: nat)
    requires |passes| == |included| && left != [] && Awaits(rels, pos, included, passes, left, pass)
    ensures Awaits(rels, pos, included + [left[0]], passes + [pass], left[1..], pass)
  {
    AwaitsRest(rels, pos, included, passes, left, pass);
    StillAwaits(rels, pos, included, passes, left[1..], left[0], pass, pass);
  }

  /** A pick no included table joins waits for the next pass, whatever this one still joins. */
  lemma {:induction false} SetAside(
    rels: seq<Relationship>, pos: string -> int, included: seq<string>, left: seq<string>, passes: seq<nat>,
    times: seq<nat>, pass: nat, rest: JoinPlan)
    requires left != [] && Ascending(pos, left) && |passes| == |included| && |times| == |rest.included|
    requires included <= rest.included && passes <= times
    requires forall i | 0 <= i < |included| :: !Joins(rels, included[i], left[0])
    requires forall i | |included| <= i < |times| :: times[i] == pass && rest.included[i] in left[1..]
    requires Awaits(rels, pos, rest.included, times, rest.unreached, pass + 1)
    requires forall y | y in rest.unreached :: y in left[1..]
    ensures Awaits(rels, pos, rest.included, times, [left[0]] + rest.unreached, pass + 1)
  {
    var y := left[0];
    forall z | z in left[1..] ensures z in left && pos(y) < pos(z) {
      var k :| 0 <= k < |left[1..]| && left[1..][k] == z;
      assert left[k + 1] == z;
    }
    assert forall i | 0 <= i < |included| :: rest.included[i] == included[i];
    assert forall i | 0 <= i < |rest.included| && Joins(rels, rest.included[i], y) :: i >= |included|;
    AscendingCons(pos, y, rest.unreached);
  }

  lemma {:induction false} AscendingCons(pos: string -> int, y: string, out: seq<string>)
    requires Ascending(pos, out) && forall z | z in out :: pos(y) < pos(z)
    ensures Ascending(pos, [y] + out)
  {
    var all := [y] + out;
    forall i, j | 0 <= i < j < |all| ensures pos(all[i]) < pos(all[j]) {
      assert all[j] == out[j - 1] && out[j - 1] in out;
    }
  }

  lemma {:induction false} PassesInOrder(
    rels: seq<Relationship>, pos: string -> int, included: seq<string>, steps: seq<JoinStep>, left: seq<string>,
    passes: seq<nat>, pass: nat)
    returns (times: seq<nat>)
    requires IsPassOrder(rels, pos, included, passes) && Awaits(rels, pos, included, passes, left, pass)
    requires MidPass(pos, included, passes, left, pass)
    ensures IsPassOrder(rels, pos, Passes(rels, included, steps, left).included, times)
    decreases |left|
  {
    times := PassInOrder(rels, pos, included, steps, left, passes, pass);
    var plan := Pass(rels, included, steps, left);
    if |plan.unreached| != |left| {
      times := PassesInOrder(rels, pos, plan.included, plan.steps, plan.unreached, times, pass + 1);
    }
  }

  lemma {:induction false} PicksAscend(picked: seq<string>)
    requires NoRepeats(picked)
    ensures Ascending(FirstPlace(picked), picked)
  {
    forall i: nat | i < |picked| ensures FirstPlace(picked)(picked[i]) == i {
      assert picked[i] in picked;
    }
  }

  /** Before the first pass the first pick stands alone. */
  lemma {:induction false} StartsInOrder(
    rels: seq<Relationship>, pos: string -> int, picked: seq<string>, left: seq<string>)
    requires picked != [] && Ascending(pos, picked) && left == picked[1..]
    ensures IsPassOrder(rels, pos, [picked[0]], [1]) && Awaits(rels, pos, [picked[0]], [1], left, 1)
    ensures MidPass(pos, [picked[0]], [1], left, 1)
  {
    assert forall i | 0 <= i < |left| :: left[i] == picked[i + 1];
  }

  /**
   * The statement's tables follow one order: each is joined in the earliest pass a table it
   * can join allows, and those of one pass in the order they were picked.
   */
  lemma {:induction false} PlanIsInPassOrder(rels: seq<Relationship>, picked: seq<string>)
    returns (passes: seq<nat>)
    requires picked != [] && NoRepeats(picked)
    ensures IsPassOrder(rels, FirstPlace(picked), PlanOf(rels, picked).included, passes)
  {
    var pos := FirstPlace(picked);
    PicksAscend(picked);
    StartsInOrder(rels, pos, picked, picked[1..]);
    passes := PassesInOrder(rels, pos, [picked[0]], [], picked[1..], [1], 1);
  }

  // ---- The order is the only one --------------------------------------------------------------

  /** Two tables in either list, placed by their passes. */
  lemma {:induction false} PassesAgree(
    rels: seq<Relationship>, pos: string -> int, a: seq<string>, p: seq<nat>, b: seq<string>, q: seq<nat>,
    i: nat, j: nat)
    requires IsPassOrder(rels, pos, a, p) && IsPassOrder(rels, pos, b, q)
    requires Elements(a) == Elements(b) && a[0] == b[0] && NoRepeats(a) && NoRepeats(b)
    requires i < |a| && j < |b| && a[i] == b[j]
    ensures q[j] <= p[i]
    decreases i
  {
    if i > 0 {
      assert IsEarliest(rels, pos, a, p, i);
      var h :| 0 <= h < |a| && Joins(rels, a[h], a[i]) && p[i] == Allows(pos, a[h], p[h], a[i]);
      HeldEarlier(pos, a, p, h, i);
      assert a[h] in Elements(b);
      var k :| 0 <= k < |b| && b[k] == a[h];
      PassesAgree(rels, pos, a, p, b, q, h, k);
      assert a[0] != a[i];
      assert IsEarliest(rels, pos, b, q, j);
    }
  }

  /** What allows a table stands before it. */
  lemma {:induction false} HeldEarlier(pos: string -> int, a: seq<string>, p: seq<nat>, h: nat, i: nat)
    requires |p| == |a| && InPassOrder(pos, a, p) && h < |a| && i < |a| && p[i] == Allows(pos, a[h], p[h], a[i])
    ensures h < i
  {
  }

  lemma {:induction false} OrderIsOne(
    rels: seq<Relationship>, pos: string -> int, a: seq<string>, p: seq<nat>, b: seq<string>, q: seq<nat>)
    requires IsPassOrder(rels, pos, a, p) && IsPassOrder(rels, pos, b, q)
    requires Elements(a) == Elements(b) && a[0] == b[0] && NoRepeats(a) && NoRepeats(b)
    ensures a == b && p == q
  {
    DistinctSize(a);
    DistinctSize(b);
    forall i: nat, j: nat | i < |a| && j < |b| && a[i] == b[j] ensures p[i] == q[j] {
      PassesAgree(rels, pos, a, p, b, q, i, j);
      PassesAgree(rels, pos, b, q, a, p, j, i);
    }
    SamePlaces(pos, a, p, b, q, |a|);
  }

  /** After a common start the next table is the same. */
  lemma {:induction false} NextIsSame(
    pos: string -> int, a: seq<string>, p: seq<nat>, b: seq<string>, q: seq<nat>, m: nat)
    requires |p| == |a| == |b| == |q| && m < |a| && InPassOrder(pos, a, p) && InPassOrder(pos, b, q)
    requires Elements(a) == Elements(b) && NoRepeats(a) && NoRepeats(b)
    requires forall i: nat, j: nat | i < |a| && j < |b| && a[i] == b[j] :: p[i] == q[j]
    requires forall k | 0 <= k < m :: a[k] == b[k]
    ensures a[m] == b[m] && p[m] == q[m]
  {
    assert a[m] in Elements(b) && b[m] in Elements(a);
    var j :| 0 <= j < |b| && b[j] == a[m];
    var i :| 0 <= i < |a| && a[i] == b[m];
    assert j >= m && i >= m;
  }

  lemma {:induction false} SamePlaces(
    pos: string -> int, a: seq<string>, p: seq<nat>, b: seq<string>, q: seq<nat>, n: nat)
    requires |p| == |a| == |b| == |q| && n <= |a| && InPassOrder(pos, a, p) && InPassOrder(pos, b, q)
    requires Elements(a) == Elements(b) && NoRepeats(a) && NoRepeats(b)
    requires forall i: nat, j: nat | i < |a| && j < |b| && a[i] == b[j] :: p[i] == q[j]
    ensures a[..n] == b[..n] && p[..n] == q[..n]
  {
    if n > 0 {
      var m := n - 1;
      SamePlaces(pos, a, p, b, q, m);
      assert forall k | 0 <= k < m :: a[k] == a[..m][k] == b[..m][k] == b[k];
      NextIsSame(pos, a, p, b, q, m);
      assert a[..n] == a[..m] + [a[m]] && b[..n] == b[..m] + [b[m]];
      assert p[..n] == p[..m] + [p[m]] && q[..n] == q[..m] + [q[m]];
    }
  }
}
