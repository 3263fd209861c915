/** Drilling down a hierarchy, and what the matrix shows before and after. */
module Drill {
  import opened Prelude
  import opened Grouping
  import opened Breakdown
  import opened Matrix

  datatype Step = Into(criterion: Criterion) | Skip

  datatype State = State(steps: seq<Step>)

  function Level(s: State): nat {
    |s.steps|
  }

  function CurrentDimension(s: State, hierarchy: seq<Dimension>): Option<Dimension> {
    if Level(s) < |hierarchy| then Some(hierarchy[Level(s)]) else None
  }

  /** Only the steps into a mark filter. */
  function FilterOf(steps: seq<Step>): seq<Criterion> {
    if steps == [] then []
    else FilterOf(steps[..|steps| - 1]) + match steps[|steps| - 1] case Into(c) => [c] case Skip => []
  }

  function DrillFilter(s: State): seq<Criterion> {
    FilterOf(s.steps)
  }

  predicate CanDrillUp(s: State) {
    |s.steps| > 0
  }

  predicate CanDrillDown(s: State, hierarchy: seq<Dimension>) {
    Level(s) < |hierarchy| - 1
  }

  function DrillInto(s: State, hierarchy: seq<Dimension>, key: string): State {
    var dim := CurrentDimension(s, hierarchy);
    if dim.None? || !CanDrillDown(s, hierarchy) then s
    else State(s.steps + [Into(Criterion(dim.value, key))])
  }

  function SkipToNextLevel(s: State, hierarchy: seq<Dimension>): State {
    if !CanDrillDown(s, hierarchy) then s else State(s.steps + [Skip])
  }

  function DrillUp(s: State): State {
    if !CanDrillUp(s) then s else State(s.steps[..|s.steps| - 1])
  }

  /** The rows a visual works on. */
  function Scoped(rows: seq<Row>, s: State): seq<Row> {
    FilterRows(rows, DrillFilter(s))
  }

  /** What is left of the hierarchy from the current level down. */
  function Remaining(s: State, hierarchy: seq<Dimension>): seq<Dimension> {
    if Level(s) <= |hierarchy| then hierarchy[Level(s)..] else []
  }

  function MatrixShown(
    collate: (string, string) -> bool, rows: seq<Row>, s: State, hierarchy: seq<Dimension>, col: Dimension)
    : seq<Node>
  {
    PivotOf(collate, Scoped(rows, s), Remaining(s, hierarchy), col, "")
  }

  // ---- Equal up to ids -----------------------------------------------------------------------

  function StrippedNode(node: Node): Node
    decreases node
  {
    node.(id := "",
      children := match node.children
                  case NoChildren => NoChildren
                  case Below(nodes) => Below(Stripped(nodes)))
  }

  function Stripped(nodes: seq<Node>): (r: seq<Node>)
    decreases nodes
  {
    seq(|nodes|, i requires 0 <= i < |nodes| => StrippedNode(nodes[i]))
  }

  /** Where the ids start is all a prefix decides. */
  lemma {:induction false} IdsAloneDiffer(
    collate: (string, string) -> bool, rows: seq<Row>, dims: seq<Dimension>, col: Dimension, p: string, q: string)
    ensures Stripped(PivotOf(collate, rows, dims, col, p)) == Stripped(PivotOf(collate, rows, dims, col, q))
    decreases |dims|
  {
    if dims != [] {
      var one, two := PivotOf(collate, rows, dims, col, p), PivotOf(collate, rows, dims, col, q);
      var keys := SortedKeys(collate, rows, dims[0]);
      forall i | 0 <= i < |keys| ensures StrippedNode(one[i]) == StrippedNode(two[i]) {
        var group := GroupUnder(KeyOf(dims[0]), rows, keys[i]);
        SameUpToIds(collate, group, dims, col, p, q);
      }
    }
  }

  lemma {:induction false} SameUpToIds(
    collate: (string, string) -> bool, group: Group<Row>, dims: seq<Dimension>, col: Dimension, p: string, q: string)
    requires dims != []
    ensures StrippedNode(NodeOver(collate, group, dims, col, p)) == StrippedNode(NodeOver(collate, group, dims, col, q))
    decreases |dims|, 0
  {
    if |dims| > 1 {
      IdsAloneDiffer(collate, group.rows, dims[1..], col, IdUnder(p, group.key), IdUnder(q, group.key));
    }
  }

  // ---- Drilling ------------------------------------------------------------------------------

  /** However the descent so far mixed drills and skips, drilling on filters what was in scope. */
  lemma {:induction false} DrillingNarrows(rows: seq<Row>, s: State, hierarchy: seq<Dimension>, key: string)
    requires CanDrillDown(s, hierarchy)
    ensures Scoped(rows, DrillInto(s, hierarchy, key)) == Having(KeyOf(hierarchy[Level(s)]), key, Scoped(rows, s))
    ensures Scoped(rows, SkipToNextLevel(s, hierarchy)) == Scoped(rows, s)
  {
    var c := Criterion(hierarchy[Level(s)], key);
    var into, skip := s.steps + [Into(c)], s.steps + [Skip];
    assert into[..|into| - 1] == s.steps && skip[..|skip| - 1] == s.steps;
    FilterInSteps(rows, DrillFilter(s), [c]);
    OneCriterion(Scoped(rows, s), c);
    assert DrillFilter(s) + [] == DrillFilter(s);
  }

  /** Descending, either way, moves one level down the same hierarchy; going up undoes it. */
  lemma {:induction false} DrillUpUndoes(s: State, hierarchy: seq<Dimension>, key: string)
    requires CanDrillDown(s, hierarchy)
    ensures DrillUp(DrillInto(s, hierarchy, key)) == s && DrillUp(SkipToNextLevel(s, hierarchy)) == s
    ensures Remaining(DrillInto(s, hierarchy, key), hierarchy) == Remaining(s, hierarchy)[1..]
    ensures Remaining(SkipToNextLevel(s, hierarchy), hierarchy) == Remaining(s, hierarchy)[1..]
  {
    var c := Criterion(hierarchy[Level(s)], key);
    assert (s.steps + [Into(c)])[..|s.steps|] == s.steps && (s.steps + [Skip])[..|s.steps|] == s.steps;
  }

  /**
   * Drilling into a mark shows, up to ids, the very children it had: pivoting the
   * drilled rows is descending into the pivot.
   */
  lemma {:induction false} DrillingCommutesWithPivot(
    collate: (string, string) -> bool, rows: seq<Row>, s: State, hierarchy: seq<Dimension>, col: Dimension,
    key: string, mark: Option<Node>, drilled: seq<Node>)
    requires CanDrillDown(s, hierarchy)
    requires mark == FindNode(MatrixShown(collate, rows, s, hierarchy, col), key)
    requires drilled == MatrixShown(collate, rows, DrillInto(s, hierarchy, key), hierarchy, col)
    ensures mark.Some? ==> mark.value.children.Below? && Stripped(drilled) == Stripped(mark.value.children.nodes)
    ensures mark.None? ==> drilled == []
  {
    var scoped, dims := Scoped(rows, s), Remaining(s, hierarchy);
    DrillingNarrows(rows, s, hierarchy, key);
    DrillUpUndoes(s, hierarchy, key);
    PivotBelow(collate, scoped, dims, col, key, Having(KeyOf(dims[0]), key, scoped), mark);
  }

  /** The matrix of the rows under one key is, up to ids, what stands below the key's node. */
  lemma {:induction false} PivotBelow(
    collate: (string, string) -> bool, rows: seq<Row>, dims: seq<Dimension>, col: Dimension, key: string,
    group: seq<Row>, mark: Option<Node>)
    requires |dims| > 1 && group == Having(KeyOf(dims[0]), key, rows)
    requires mark == FindNode(PivotOf(collate, rows, dims, col, ""), key)
    ensures mark.Some? ==>
      && mark.value.children.Below?
      && Stripped(PivotOf(collate, group, dims[1..], col, "")) == Stripped(mark.value.children.nodes)
    ensures mark.None? ==> PivotOf(collate, group, dims[1..], col, "") == []
  {
    FindInPivot(collate, rows, dims, col, "", key);
    if mark.Some? {
      IdsAloneDiffer(collate, group, dims[1..], col, "", IdUnder("", key));
    } else {
      EmptyPivot(collate, dims[1..], col);
    }
  }

  const LUNCH := Row("2024-01-02", "Checking", "Food", "Dining", "Lunch", -1250)

  lemma {:induction false} OneRowPath(collate: (string, string) -> bool, r: Row, dims: seq<Dimension>, col: Dimension)
    requires dims != []
    ensures NodeAt(PivotOf(collate, [r], dims, col, ""), RowPath(r, dims)).Some?
  {
    var path := RowPath(r, dims);
    var scoped := FilterRows([r], Criteria(dims, path));
    assert path[..|path|] == path;
    RowsFollowOnePath([r], dims, r, path);
    var at := NodesAreFilters(collate, [r], dims, col, "", path, scoped,
      NodeAt(PivotOf(collate, [r], dims, col, ""), path));
  }

  lemma {:induction false} NoRowHasKey(
    collate: (string, string) -> bool, r: Row, dims: seq<Dimension>, col: Dimension, key: string)
    requires dims != [] && DimensionKey(r, dims[0]) != key
    ensures FindNode(PivotOf(collate, [r], dims, col, ""), key) == None
  {
    FindInPivot(collate, [r], dims, col, "", key);
  }

  /** A child row clicked from the top level: its own key, taken for a date, matches nothing. */
  lemma {:induction false} ChildKeyShowsNothing(
    collate: (string, string) -> bool, col: Dimension, s: State, hierarchy: seq<Dimension>)
    requires s == State([]) && hierarchy == [Date, Label]
    ensures NodeAt(MatrixShown(collate, [LUNCH], s, hierarchy, col), [LUNCH.date, LUNCH.rowLabel]).Some?
    ensures MatrixShown(collate, [LUNCH], DrillInto(s, hierarchy, LUNCH.rowLabel), hierarchy, col) == []
  {
    assert Remaining(s, hierarchy) == hierarchy && RowPath(LUNCH, hierarchy) == [LUNCH.date, LUNCH.rowLabel];
    OneRowPath(collate, LUNCH, hierarchy, col);
    assert |LUNCH.date| != |LUNCH.rowLabel|;
    NoRowHasKey(collate, LUNCH, hierarchy, col, LUNCH.rowLabel);
    DrillingCommutesWithPivot(collate, [LUNCH], s, hierarchy, col, LUNCH.rowLabel, None,
      MatrixShown(collate, [LUNCH], DrillInto(s, hierarchy, LUNCH.rowLabel), hierarchy, col));
  }

  lemma {:induction false} EmptyPivot(collate: (string, string) -> bool, dims: seq<Dimension>, col: Dimension)
    ensures PivotOf(collate, [], dims, col, "") == []
  {
    if dims != [] {
      var keys := KeysOf(KeyOf(dims[0]), []);
      assert keys == [];
    }
  }
}
