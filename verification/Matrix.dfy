/** What the matrix shows: every node is the net of the rows its path selects. */
module Matrix {
  import opened Prelude
  import opened Sorting
  import opened Grouping
  import opened Breakdown

  function FindNode(nodes: seq<Node>, key: string): Option<Node> {
    if nodes == [] then None
    else if nodes[0].key == key then Some(nodes[0])
    else FindNode(nodes[1..], key)
  }

  /** The node reached by following keys down from the roots. */
  function NodeAt(nodes: seq<Node>, path: seq<string>): Option<Node>
    requires path != []
    decreases |path|
  {
    var node := FindNode(nodes, path[0]);
    if node.None? || |path| == 1 then node
    else if node.value.children == NoChildren then None
    else NodeAt(node.value.children.nodes, path[1..])
  }

  function Criteria(dims: seq<Dimension>, path: seq<string>): (criteria: seq<Criterion>)
    requires |path| <= |dims|
    ensures |criteria| == |path|
  {
    seq(|path|, i requires 0 <= i < |path| => Criterion(dims[i], path[i]))
  }

  // ---- One level ---------------------------------------------------------------------------

  lemma {:induction false} SortedKeysAre(collate: (string, string) -> bool, rows: seq<Row>, dim: Dimension)
    ensures NoRepeats(SortedKeys(collate, rows, dim))
    ensures forall k :: k in SortedKeys(collate, rows, dim) <==> k in KeysOf(KeyOf(dim), rows)
    ensures forall r | r in rows :: DimensionKey(r, dim) in SortedKeys(collate, rows, dim)
  {
    var keys, order := KeysOf(KeyOf(dim), rows), KeyOrder(collate, dim);
    KeysCover(KeyOf(dim), rows);
    SortNoRepeats(order, keys);
    SortedElements(order, keys);
    assert forall k :: k in keys <==> k in Elements(keys);
    assert forall k :: k in SortBy(order, keys) <==> k in Elements(SortBy(order, keys));
    forall r | r in rows ensures DimensionKey(r, dim) in SortedKeys(collate, rows, dim) {
      assert KeyOf(dim)(r) in keys;
    }
  }

  lemma {:induction false} FindBuilt(build: string -> Node, keys: seq<string>, key: string)
    requires forall k :: build(k).key == k
    ensures FindNode(Map(build, keys), key) == if key in keys then Some(build(key)) else None
  {
    if keys != [] {
      FindBuilt(build, keys[1..], key);
      assert Map(build, keys)[1..] == Map(build, keys[1..]);
    }
  }

  lemma {:induction false} FindInPivot(
    collate: (string, string) -> bool, rows: seq<Row>, dims: seq<Dimension>, col: Dimension, prefix: string,
    key: string)
    requires dims != []
    ensures FindNode(PivotOf(collate, rows, dims, col, prefix), key)
         == if Having(KeyOf(dims[0]), key, rows) == [] then None
            else Some(NodeOver(collate, GroupUnder(KeyOf(dims[0]), rows, key), dims, col, prefix))
  {
    var keys := SortedKeys(collate, rows, dims[0]);
    BuilderKeepsKeys(collate, rows, dims, col, prefix);
    FindBuilt(Builder(collate, rows, dims, col, prefix), keys, key);
    SortedKeysAre(collate, rows, dims[0]);
    if key in keys {
      var r := KeyHasRow(KeyOf(dims[0]), rows, key);
      assert r in Having(KeyOf(dims[0]), key, rows);
    } else {
      HavingNone(KeyOf(dims[0]), key, rows);
    }
  }

  /** Siblings have distinct keys, so a path names at most one node. */
  lemma {:induction false} SiblingsAreDistinct(
    collate: (string, string) -> bool, rows: seq<Row>, dims: seq<Dimension>, col: Dimension, prefix: string)
    ensures var nodes := PivotOf(collate, rows, dims, col, prefix);
            forall i, j | 0 <= i < j < |nodes| :: nodes[i].key != nodes[j].key
  {
    if dims != [] {
      SortedKeysAre(collate, rows, dims[0]);
      BuilderKeepsKeys(collate, rows, dims, col, prefix);
    }
  }

  // ---- Every depth -------------------------------------------------------------------------

  lemma {:induction false} FilterBoth<T>(p: T -> bool, q: T -> bool, both: T -> bool, s: seq<T>)
    requires forall x | x in s :: both(x) == (p(x) && q(x))
    ensures Filter(q, Filter(p, s)) == Filter(both, s)
  {
    if s != [] {
      FilterBoth(p, q, both, s[1..]);
      if p(s[0]) {
        assert ([s[0]] + Filter(p, s[1..]))[1..] == Filter(p, s[1..]);
      }
    }
  }

  lemma {:induction false} OneCriterion(rows: seq<Row>, c: Criterion)
    ensures FilterRows(rows, [c]) == Having(KeyOf(c.dim), c.key, rows)
  {
    forall r | r in rows ensures Matching([c])(r) == Is(KeyOf(c.dim), c.key)(r) {
      assert [c][0] == c;
    }
    FilterCongruence(Matching([c]), Is(KeyOf(c.dim), c.key), rows);
  }

  lemma {:induction false} MatchesBoth(r: Row, path: seq<Criterion>, rest: seq<Criterion>)
    ensures Matches(r, path + rest) == (Matches(r, path) && Matches(r, rest))
  {
    var all := path + rest;
    if Matches(r, all) {
      assert forall i | 0 <= i < |path| :: path[i] == all[i];
      assert forall i | 0 <= i < |rest| :: rest[i] == all[|path| + i];
    }
  }

  /** Filtering by a path is filtering by its start, then by the rest. */
  lemma {:induction false} FilterInSteps(rows: seq<Row>, path: seq<Criterion>, rest: seq<Criterion>)
    ensures FilterRows(FilterRows(rows, path), rest) == FilterRows(rows, path + rest)
  {
    if path == [] {
      assert path + rest == rest;
    } else if rest == [] {
      assert path + rest == path;
    } else {
      forall r ensures Matches(r, path + rest) == (Matches(r, path) && Matches(r, rest)) {
        MatchesBoth(r, path, rest);
      }
      FilterBoth(Matching(path), Matching(rest), Matching(path + rest), rows);
    }
  }

  lemma {:induction false} StepDown(nodes: seq<Node>, path: seq<string>, node: Node)
    requires |path| >= 2 && FindNode(nodes, path[0]) == Some(node) && node.children.Below?
    ensures NodeAt(nodes, path) == NodeAt(node.children.nodes, path[1..])
  {
  }

  lemma {:induction false} NoStepDown(nodes: seq<Node>, path: seq<string>)
    requires path != [] && FindNode(nodes, path[0]) == None
    ensures NodeAt(nodes, path) == None
  {
  }

  /** Below a root, the path goes on in the matrix over that root's rows. */
  lemma {:induction false} NodeBelow(
    collate: (string, string) -> bool, rows: seq<Row>, dims: seq<Dimension>, col: Dimension, prefix: string,
    path: seq<string>, group: seq<Row>)
    requires 2 <= |path| <= |dims| && group == Having(KeyOf(dims[0]), path[0], rows)
    ensures NodeAt(PivotOf(collate, rows, dims, col, prefix), path)
         == if group == [] then None
            else NodeAt(PivotOf(collate, group, dims[1..], col, IdUnder(prefix, path[0])), path[1..])
  {
    var nodes := PivotOf(collate, rows, dims, col, prefix);
    FindInPivot(collate, rows, dims, col, prefix, path[0]);
    if group == [] {
      NoStepDown(nodes, path);
    } else {
      StepDown(nodes, path, NodeOver(collate, GroupUnder(KeyOf(dims[0]), rows, path[0]), dims, col, prefix));
    }
  }

  lemma {:induction false} FilterStepDown(rows: seq<Row>, dims: seq<Dimension>, path: seq<string>)
    requires 1 <= |path| <= |dims|
    ensures FilterRows(Having(KeyOf(dims[0]), path[0], rows), Criteria(dims[1..], path[1..]))
         == FilterRows(rows, Criteria(dims, path))
  {
    var first, rest := Criterion(dims[0], path[0]), Criteria(dims[1..], path[1..]);
    assert Criteria(dims, path) == [first] + rest;
    OneCriterion(rows, first);
    FilterInSteps(rows, [first], rest);
  }

  lemma {:induction false} NothingFilters(path: seq<Criterion>)
    ensures FilterRows([], path) == []
  {
  }

  lemma {:induction false} RootIsOver(
    collate: (string, string) -> bool, rows: seq<Row>, dims: seq<Dimension>, col: Dimension, prefix: string,
    key: string)
    requires dims != []
    ensures NodeAt(PivotOf(collate, rows, dims, col, prefix), [key])
         == if Having(KeyOf(dims[0]), key, rows) == [] then None
            else Some(NodeOver(collate, GroupUnder(KeyOf(dims[0]), rows, key), dims, col, prefix))
  {
    FindInPivot(collate, rows, dims, col, prefix, key);
  }

  lemma {:induction false} RootIsFilter(
    collate: (string, string) -> bool, rows: seq<Row>, dims: seq<Dimension>, col: Dimension, prefix: string,
    path: seq<string>, scoped: seq<Row>)
    requires |path| == 1 <= |dims| && scoped == FilterRows(rows, Criteria(dims, path))
    ensures NodeAt(PivotOf(collate, rows, dims, col, prefix), path)
         == if scoped == [] then None else Some(NodeOver(collate, Group(path[0], scoped), dims[0..], col, prefix))
  {
    FilterStepDown(rows, dims, path);
    assert path == [path[0]] && Criteria(dims[1..], path[1..]) == [] && dims[0..] == dims;
    RootIsOver(collate, rows, dims, col, prefix, path[0]);
  }

  lemma {:induction false} LastStep(dims: seq<Dimension>, path: seq<string>)
    requires 2 <= |path| <= |dims|
    ensures dims[1..][|path[1..]| - 1..] == dims[|path| - 1..]
    ensures path[1..][|path[1..]| - 1] == path[|path| - 1]
  {
  }

  /**
   * A node exists exactly where some row follows its path, and it is the node over
   * exactly the rows that follow it: their columns, their net, and the matrix of them
   * by what is left of the hierarchy. `at` is where the node's id starts.
   */
  lemma {:induction false} NodesAreFilters(
    collate: (string, string) -> bool, rows: seq<Row>, dims: seq<Dimension>, col: Dimension, prefix: string,
    path: seq<string>, scoped: seq<Row>, found: Option<Node>)
    returns (at: string)
    requires 1 <= |path| <= |dims| && scoped == FilterRows(rows, Criteria(dims, path))
    requires found == NodeAt(PivotOf(collate, rows, dims, col, prefix), path)
    ensures found
         == if scoped == [] then None
            else Some(NodeOver(collate, Group(path[|path| - 1], scoped), dims[|path| - 1..], col, at))
    decreases |path|
  {
    var group := Having(KeyOf(dims[0]), path[0], rows);
    FilterStepDown(rows, dims, path);
    at := prefix;
    if |path| == 1 {
      RootIsFilter(collate, rows, dims, col, prefix, path, scoped);
    } else {
      NodeBelow(collate, rows, dims, col, prefix, path, group);
      if group == [] {
        NothingFilters(Criteria(dims[1..], path[1..]));
      } else {
        at := NodesAreFilters(collate, group, dims[1..], col, IdUnder(prefix, path[0]), path[1..], scoped, found);
        LastStep(dims, path);
      }
    }
  }

  function RowPath(r: Row, dims: seq<Dimension>): (path: seq<string>)
    ensures |path| == |dims|
  {
    seq(|dims|, i requires 0 <= i < |dims| => DimensionKey(r, dims[i]))
  }

  /** At each depth a row is counted by the one node on its own path, and by no other. */
  lemma {:induction false} RowsFollowOnePath(rows: seq<Row>, dims: seq<Dimension>, r: Row, path: seq<string>)
    requires r in rows && 1 <= |path| <= |dims|
    ensures r in FilterRows(rows, Criteria(dims, path)) <==> path == RowPath(r, dims)[..|path|]
  {
    var criteria := Criteria(dims, path);
    assert r in FilterRows(rows, criteria) <==> Matches(r, criteria);
    if Matches(r, criteria) {
      forall i | 0 <= i < |path| ensures path[i] == RowPath(r, dims)[i] {
        assert DimensionKey(r, criteria[i].dim) == criteria[i].key;
      }
    } else {
      var i :| 0 <= i < |path| && DimensionKey(r, criteria[i].dim) != criteria[i].key;
      assert RowPath(r, dims)[..|path|][i] != path[i];
    }
  }

  // ---- Conservation ------------------------------------------------------------------------

  function TotalOf(): Node -> int {
    (node: Node) => node.total
  }

  function NetOfColumn(): Column -> int {
    (column: Column) => column.net
  }

  /** Totals add up to the net above, columns to the total, and so on down. */
  ghost predicate Conserves(nodes: seq<Node>, net: int)
    decreases nodes
  {
    && Sum(TotalOf(), nodes) == net
    && forall i | 0 <= i < |nodes| ::
         && Sum(NetOfColumn(), nodes[i].values) == nodes[i].total
         && (nodes[i].children.Below? ==> Conserves(nodes[i].children.nodes, nodes[i].total))
  }

  lemma {:induction false} BuiltConserves<T, U>(
    weight: T -> int, show: U -> int, build: string -> U, key: T -> string, keys: seq<string>, rows: seq<T>)
    requires NoRepeats(keys) && forall r | r in rows :: key(r) in keys
    requires forall k :: show(build(k)) == Sum(weight, Having(key, k, rows))
    ensures Sum(show, Map(build, keys)) == Sum(weight, rows)
  {
    SumMapped(show, build, keys);
    SumCongruence(After(show, build), WeightOf(weight, key, rows), keys);
    GroupsConserve(weight, key, keys, rows);
  }

  lemma {:induction false} ColumnsConserve(rows: seq<Row>, col: Dimension)
    ensures Sum(NetOfColumn(), ColumnTotals(rows, col)) == Net(rows)
  {
    KeysCover(KeyOf(col), rows);
    BuiltConserves(AmountOf(), NetOfColumn(), ColumnOf(rows, KeyOf(col)), KeyOf(col), KeysOf(KeyOf(col), rows), rows);
  }

  lemma {:induction false} LevelConserves(
    collate: (string, string) -> bool, rows: seq<Row>, dims: seq<Dimension>, col: Dimension, prefix: string)
    requires dims != []
    ensures Sum(TotalOf(), PivotOf(collate, rows, dims, col, prefix)) == Net(rows)
  {
    var key, build := KeyOf(dims[0]), Builder(collate, rows, dims, col, prefix);
    SortedKeysAre(collate, rows, dims[0]);
    BuilderTotals(collate, rows, dims, col, prefix);
    BuiltConserves(AmountOf(), TotalOf(), build, key, SortedKeys(collate, rows, dims[0]), rows);
  }

  lemma {:induction false} BuilderTotals(
    collate: (string, string) -> bool, rows: seq<Row>, dims: seq<Dimension>, col: Dimension, prefix: string)
    requires dims != []
    ensures forall k :: TotalOf()(Builder(collate, rows, dims, col, prefix)(k))
                     == Sum(AmountOf(), Having(KeyOf(dims[0]), k, rows))
  {
  }

  /** No cent is lost or counted twice at any depth. */
  lemma {:induction false} PivotConserves(
    collate: (string, string) -> bool, rows: seq<Row>, dims: seq<Dimension>, col: Dimension, prefix: string)
    requires dims != []
    ensures Conserves(PivotOf(collate, rows, dims, col, prefix), Net(rows))
    decreases |dims|
  {
    LevelConserves(collate, rows, dims, col, prefix);
    var keys, nodes := SortedKeys(collate, rows, dims[0]), PivotOf(collate, rows, dims, col, prefix);
    forall i | 0 <= i < |nodes|
      ensures Sum(NetOfColumn(), nodes[i].values) == nodes[i].total
      ensures nodes[i].children.Below? ==> Conserves(nodes[i].children.nodes, nodes[i].total)
    {
      var group := GroupUnder(KeyOf(dims[0]), rows, keys[i]);
      assert nodes[i] == NodeOver(collate, group, dims, col, prefix);
      ColumnsConserve(group.rows, col);
      if |dims| > 1 {
        PivotConserves(collate, group.rows, dims[1..], col, nodes[i].id);
      }
    }
  }
}
