/** What the Breakdown page's numbers say of its rows. */
module BreakdownMeaning {
  import opened Prelude
  import opened Sorting
  import opened Grouping
  import opened Breakdown
  import opened Matrix

  // Said of the rows' own fields and amounts.

  /** A calendar date is its year, month and day; every other dimension is a field of the row. */
  lemma {:induction false} KeysAreFields(r: Row)
    ensures |r.date| == 10 && r.date[4] == r.date[7] == '-' ==>
              && DimensionKey(r, Year) + "-" + DimensionKey(r, Month) + "-" + DimensionKey(r, Day) == r.date
              && |DimensionKey(r, Year)| == 4 && |DimensionKey(r, Month)| == |DimensionKey(r, Day)| == 2
    ensures DimensionKey(r, Date) == r.date && DimensionKey(r, AccountType) == r.accountType
    ensures DimensionKey(r, Category) == r.category && DimensionKey(r, SubCategory) == r.subCategory
    ensures DimensionKey(r, Label) == r.rowLabel
  {
    if |r.date| == 10 && r.date[4] == r.date[7] == '-' {
      var d := r.date;
      assert d == d[0..4] + "-" + d[5..7] + "-" + d[8..10];
    }
  }

  /** A net is the sum of the amounts, each counted once. */
  lemma {:induction false} NetAddsAmounts(a: seq<Row>, b: seq<Row>, r: Row)
    ensures Net([]) == 0 && Net([r]) == r.amount
    ensures Net(a + b) == Net(a) + Net(b)
  {
    SumConcat(AmountOf(), a, b);
    assert [r][1..] == [];
  }

  /** The rows whose value in this dimension is the key. */
  function Under(rows: seq<Row>, dim: Dimension, key: string): seq<Row> {
    FilterRows(rows, [Criterion(dim, key)])
  }

  lemma {:induction false} UnderIsHaving(rows: seq<Row>, dim: Dimension, key: string)
    ensures Under(rows, dim, key) == Having(KeyOf(dim), key, rows)
    ensures forall r :: r in Under(rows, dim, key) <==> r in rows && DimensionKey(r, dim) == key
  {
    OneCriterion(rows, Criterion(dim, key));
  }

  // ---- A node of the matrix -----------------------------------------------------------------

  /** One cell for each value the rows have in the column's dimension, with the net of the rows that have it. */
  ghost predicate AreCells(values: seq<Column>, rows: seq<Row>, col: Dimension) {
    && (forall i, j | 0 <= i < j < |values| :: values[i].key != values[j].key)
    && (forall c | c in values :: c.net == Net(Under(rows, col, c.key)))
    && (forall r | r in rows :: exists c | c in values :: c.key == DimensionKey(r, col))
    && (forall c | c in values :: exists r | r in rows :: c.key == DimensionKey(r, col))
  }

  lemma {:induction false} CellIsTotal(rows: seq<Row>, col: Dimension, i: nat) returns (r: Row)
    requires i < |ColumnTotals(rows, col)|
    ensures var c := ColumnTotals(rows, col)[i];
            c.net == Net(Under(rows, col, c.key)) && r in rows && c.key == DimensionKey(r, col)
  {
    var keys := KeysOf(KeyOf(col), rows);
    UnderIsHaving(rows, col, keys[i]);
    assert keys[i] in keys;
    r := KeyHasRow(KeyOf(col), rows, keys[i]);
  }

  lemma {:induction false} RowHasCell(rows: seq<Row>, col: Dimension, r: Row) returns (i: nat)
    requires r in rows
    ensures i < |ColumnTotals(rows, col)| && ColumnTotals(rows, col)[i].key == DimensionKey(r, col)
  {
    var keys := KeysOf(KeyOf(col), rows);
    KeysCover(KeyOf(col), rows);
    assert KeyOf(col)(r) in keys;
    i := Position(keys, KeyOf(col)(r));
  }

  lemma {:induction false} CellsDiffer(rows: seq<Row>, col: Dimension)
    ensures var values := ColumnTotals(rows, col);
            forall i, j | 0 <= i < j < |values| :: values[i].key != values[j].key
  {
    KeysCover(KeyOf(col), rows);
  }

  lemma {:induction false} ColumnTotalsAreCells(rows: seq<Row>, col: Dimension)
    ensures AreCells(ColumnTotals(rows, col), rows, col)
  {
    var values := ColumnTotals(rows, col);
    CellsDiffer(rows, col);
    forall c | c in values
      ensures c.net == Net(Under(rows, col, c.key)) && exists r | r in rows :: c.key == DimensionKey(r, col)
    {
      var i :| 0 <= i < |values| && values[i] == c;
      var r := CellIsTotal(rows, col, i);
    }
    forall r | r in rows ensures exists c | c in values :: c.key == DimensionKey(r, col) {
      var i := RowHasCell(rows, col, r);
      assert values[i] in values;
    }
  }

  /** What a node says: its key and level, the net of its rows, their cells, and whether more lies below. */
  ghost predicate SaysRows(node: Node, key: string, dim: Dimension, rows: seq<Row>, col: Dimension, last: bool) {
    && node.key == key && node.dim == dim && node.total == Net(rows) && AreCells(node.values, rows, col)
    && (node.children.NoChildren? <==> last)
  }

  /** A node of the matrix says the rows that follow its path. */
  lemma {:induction false} NodeSaysItsRows(
    collate: (string, string) -> bool, rows: seq<Row>, dims: seq<Dimension>, col: Dimension, prefix: string,
    path: seq<string>, found: Option<Node>)
    requires 1 <= |path| <= |dims| && found == NodeAt(PivotOf(collate, rows, dims, col, prefix), path)
    ensures found.Some? ==>
              SaysRows(found.value, path[|path| - 1], dims[|path| - 1], FilterRows(rows, Criteria(dims, path)), col,
                |path| == |dims|)
    ensures found.None? ==> FilterRows(rows, Criteria(dims, path)) == []
  {
    var scoped := FilterRows(rows, Criteria(dims, path));
    var at := NodesAreFilters(collate, rows, dims, col, prefix, path, scoped, found);
    ColumnTotalsAreCells(scoped, col);
  }

  // ---- The order of the matrix ----------------------------------------------------------------

  predicate IsTime(dim: Dimension) {
    dim in {Year, Month, Day, Date}
  }

  /** Times run from the last to the first, names from the first to the last, at every level. */
  ghost predicate Ordered(collate: (string, string) -> bool, nodes: seq<Node>, dims: seq<Dimension>)
    requires dims != []
    decreases |dims|
  {
    && (forall i, j | 0 <= i < j < |nodes| ::
          if IsTime(dims[0]) then !collate(nodes[i].key, nodes[j].key) else !collate(nodes[j].key, nodes[i].key))
    && forall i | 0 <= i < |nodes| && nodes[i].children.Below? ::
         |dims| > 1 && Ordered(collate, nodes[i].children.nodes, dims[1..])
  }

  lemma {:induction false} KeyOrderIsWeak(collate: (string, string) -> bool, dim: Dimension)
    requires StrictWeakOrder(collate)
    ensures StrictWeakOrder(KeyOrder(collate, dim))
  {
    var order := KeyOrder(collate, dim);
    forall x, y, z | order(x, z) ensures order(x, y) || order(y, z) {
      if NewestFirst(dim) {
        assert collate(z, y) || collate(y, x);
      } else {
        assert collate(x, y) || collate(y, z);
      }
    }
  }

  lemma {:induction false} LevelIsOrdered(
    collate: (string, string) -> bool, rows: seq<Row>, dims: seq<Dimension>, col: Dimension, prefix: string)
    requires StrictWeakOrder(collate) && dims != []
    ensures var nodes := PivotOf(collate, rows, dims, col, prefix);
            forall i, j | 0 <= i < j < |nodes| ::
              if IsTime(dims[0]) then !collate(nodes[i].key, nodes[j].key) else !collate(nodes[j].key, nodes[i].key)
  {
    var keys, order := KeysOf(KeyOf(dims[0]), rows), KeyOrder(collate, dims[0]);
    KeyOrderIsWeak(collate, dims[0]);
    SortBySorts(order, keys);
    BuilderKeepsKeys(collate, rows, dims, col, prefix);
    var sorted := SortedKeys(collate, rows, dims[0]);
    assert forall i, j | 0 <= i < j < |sorted| :: !order(sorted[j], sorted[i]);
  }

  /** The matrix reads newest first where it goes by date, and A to Z where it goes by name. */
  lemma {:induction false} MatrixIsOrdered(
    collate: (string, string) -> bool, rows: seq<Row>, dims: seq<Dimension>, col: Dimension, prefix: string)
    requires StrictWeakOrder(collate) && dims != []
    ensures Ordered(collate, PivotOf(collate, rows, dims, col, prefix), dims)
    decreases |dims|
  {
    LevelIsOrdered(collate, rows, dims, col, prefix);
    var keys, nodes := SortedKeys(collate, rows, dims[0]), PivotOf(collate, rows, dims, col, prefix);
    forall i | 0 <= i < |nodes| && nodes[i].children.Below?
      ensures |dims| > 1 && Ordered(collate, nodes[i].children.nodes, dims[1..])
    {
      var group := GroupUnder(KeyOf(dims[0]), rows, keys[i]);
      assert nodes[i] == NodeOver(collate, group, dims, col, prefix);
      MatrixIsOrdered(collate, group.rows, dims[1..], col, nodes[i].id);
    }
  }
}
