/** The Breakdown page's matrix: transactions pivoted down a hierarchy, in integer cents. */
module Breakdown {
  import opened Prelude
  import opened Sorting
  import opened Grouping

  datatype Row = Row(
    date: string,
    accountType: string,
    category: string,
    subCategory: string,
    rowLabel: string,
    amount: int)

  datatype Dimension = Year | Month | Day | Date | AccountType | Category | SubCategory | Label

  /** `s.slice(from, to)` for non-negative bounds. */
  function Slice(s: string, from: nat, to: nat): string
    requires from <= to
  {
    if |s| <= from then "" else if |s| <= to then s[from..] else s[from..to]
  }

  function DimensionKey(r: Row, dim: Dimension): string {
    match dim
    case Year => Slice(r.date, 0, 4)
    case Month => Slice(r.date, 5, 7)
    case Day => Slice(r.date, 8, 10)
    case Date => r.date
    case AccountType => r.accountType
    case Category => r.category
    case SubCategory => r.subCategory
    case Label => r.rowLabel
  }

  function KeyOf(dim: Dimension): Row -> string {
    r => DimensionKey(r, dim)
  }

  datatype Criterion = Criterion(dim: Dimension, key: string)

  predicate Matches(r: Row, path: seq<Criterion>) {
    forall i | 0 <= i < |path| :: DimensionKey(r, path[i].dim) == path[i].key
  }

  function Matching(path: seq<Criterion>): Row -> bool {
    r => Matches(r, path)
  }

  function FilterRows(rows: seq<Row>, path: seq<Criterion>): seq<Row> {
    if path == [] then rows else Filter(Matching(path), rows)
  }

  function AmountOf(): Row -> int {
    (r: Row) => r.amount
  }

  function Net(rows: seq<Row>): int {
    Sum(AmountOf(), rows)
  }

  /** One live column of a node. */
  datatype Column = Column(key: string, net: int)

  datatype Node = Node(
    id: string,
    key: string,
    dim: Dimension,
    values: seq<Column>,
    total: int,
    children: Children)

  /** Absent at the last level. */
  datatype Children = NoChildren | Below(nodes: seq<Node>)

  function ColumnOf(rows: seq<Row>, key: Row -> string): string -> Column {
    k => Column(k, Net(Having(key, k, rows)))
  }

  function ColumnTotals(rows: seq<Row>, col: Dimension): (columns: seq<Column>)
    ensures |columns| == |KeysOf(KeyOf(col), rows)|
  {
    Map(ColumnOf(rows, KeyOf(col)), KeysOf(KeyOf(col), rows))
  }

  predicate NewestFirst(dim: Dimension) {
    dim == Date || dim == Year || dim == Month || dim == Day
  }

  /** The matrix's order: dates newest first, text as `collate` reads it. */
  function KeyOrder(collate: (string, string) -> bool, dim: Dimension): (string, string) -> bool {
    (a, b) => if NewestFirst(dim) then collate(b, a) else collate(a, b)
  }

  function NodeOrder(collate: (string, string) -> bool, dim: Dimension): (Node, Node) -> bool {
    (a: Node, b: Node) => KeyOrder(collate, dim)(a.key, b.key)
  }

  function IdUnder(prefix: string, key: string): string {
    if prefix != "" then prefix + "/" + key else key
  }

  function SortedKeys(collate: (string, string) -> bool, rows: seq<Row>, dim: Dimension): seq<string> {
    SortBy(KeyOrder(collate, dim), KeysOf(KeyOf(dim), rows))
  }

  /** The node over one group: its own totals, and its children if it drills further. */
  function NodeOver(
    collate: (string, string) -> bool, group: Group<Row>, dims: seq<Dimension>, col: Dimension, prefix: string): Node
    requires dims != []
    decreases |dims|, 0
  {
    var id := IdUnder(prefix, group.key);
    Node(id, group.key, dims[0], ColumnTotals(group.rows, col), Net(group.rows),
      if |dims| > 1 then Below(PivotOf(collate, group.rows, dims[1..], col, id)) else NoChildren)
  }

  function Over(
    collate: (string, string) -> bool, dims: seq<Dimension>, col: Dimension, prefix: string): Group<Row> -> Node
    requires dims != []
    decreases |dims|, 1
  {
    group => NodeOver(collate, group, dims, col, prefix)
  }

  function GroupUnder(key: Row -> string, rows: seq<Row>, k: string): Group<Row> {
    Group(k, Having(key, k, rows))
  }

  function Builder(
    collate: (string, string) -> bool, rows: seq<Row>, dims: seq<Dimension>, col: Dimension, prefix: string)
    : string -> Node
    requires dims != []
    decreases |dims|, 1
  {
    k => NodeOver(collate, GroupUnder(KeyOf(dims[0]), rows, k), dims, col, prefix)
  }

  /** The matrix, `|dims|` deep: at each level one node per key present, in the matrix's order. */
  function PivotOf(
    collate: (string, string) -> bool, rows: seq<Row>, dims: seq<Dimension>, col: Dimension, prefix: string)
    : (nodes: seq<Node>)
    decreases |dims|, 2
  {
    if dims == [] then []
    else Map(Builder(collate, rows, dims, col, prefix), SortedKeys(collate, rows, dims[0]))
  }

  // ---- The source's loops ------------------------------------------------------------------

  method NetOf(rows: seq<Row>) returns (net: int)
    ensures net == Net(rows)
  {
    net := 0;
    for i := 0 to |rows|
      invariant net + Net(rows[i..]) == Net(rows)
    {
      net := net + rows[i].amount;
      assert rows[i..][1..] == rows[i + 1..];
    }
  }

  method TotalGroups(groups: seq<Group<Row>>) returns (columns: seq<Column>)
    ensures |columns| == |groups|
    ensures forall k | 0 <= k < |groups| :: columns[k] == Column(groups[k].key, Net(groups[k].rows))
  {
    columns := [];
    for i := 0 to |groups|
      invariant |columns| == i
      invariant forall k | 0 <= k < i :: columns[k] == Column(groups[k].key, Net(groups[k].rows))
    {
      var net := NetOf(groups[i].rows);
      columns := columns + [Column(groups[i].key, net)];
    }
  }

  method TotalColumns(rows: seq<Row>, col: Dimension) returns (columns: seq<Column>)
    ensures columns == ColumnTotals(rows, col)
  {
    var groups := GroupBy(rows, KeyOf(col));
    columns := TotalGroups(groups);
    forall i | 0 <= i < |groups| ensures columns[i] == ColumnOf(rows, KeyOf(col))(groups[i].key) {
      GroupAt(KeyOf(col), rows, i);
    }
    GroupsBuilt(KeyOf(col), rows, ColumnOf(rows, KeyOf(col)), columns);
  }

  method BuildNode(
    collate: (string, string) -> bool, group: Group<Row>, dims: seq<Dimension>, col: Dimension, prefix: string)
    returns (node: Node)
    requires dims != []
    ensures node == NodeOver(collate, group, dims, col, prefix)
    decreases |dims|, 0
  {
    var id, rest := IdUnder(prefix, group.key), dims[1..];
    var values := TotalColumns(group.rows, col);
    var total := NetOf(group.rows);
    var children := NoChildren;
    if |rest| > 0 {
      var below := PivotWithin(collate, group.rows, rest, col, id);
      children := Below(below);
    }
    return Node(id, group.key, dims[0], values, total, children);
  }

  lemma {:induction false} MapNext<T, U>(f: T -> U, s: seq<T>, i: nat)
    requires i < |s|
    ensures Map(f, s[..i + 1]) == Map(f, s[..i]) + [f(s[i])]
  {
  }

  method BuildNodes(
    collate: (string, string) -> bool, groups: seq<Group<Row>>, dims: seq<Dimension>, col: Dimension, prefix: string,
    ghost over: Group<Row> -> Node)
    returns (nodes: seq<Node>)
    requires dims != [] && over == Over(collate, dims, col, prefix)
    ensures nodes == Map(over, groups)
    decreases |dims|, 1
  {
    nodes := [];
    for i := 0 to |groups|
      invariant nodes == Map(over, groups[..i])
    {
      var node := BuildNode(collate, groups[i], dims, col, prefix);
      MapNext(over, groups, i);
      nodes := nodes + [node];
    }
    assert groups[..|groups|] == groups;
  }

  method PivotWithin(
    collate: (string, string) -> bool, rows: seq<Row>, dims: seq<Dimension>, col: Dimension, prefix: string)
    returns (nodes: seq<Node>)
    ensures nodes == PivotOf(collate, rows, dims, col, prefix)
    decreases |dims|, 2
  {
    if dims == [] {
      return [];
    }
    var groups := GroupBy(rows, KeyOf(dims[0]));
    nodes := BuildNodes(collate, groups, dims, col, prefix, Over(collate, dims, col, prefix));
    NodesAreBuilt(collate, rows, dims, col, prefix, groups, nodes);
    nodes := SortBy(NodeOrder(collate, dims[0]), nodes);
  }

  lemma {:induction false} NodesAreBuilt(
    collate: (string, string) -> bool, rows: seq<Row>, dims: seq<Dimension>, col: Dimension, prefix: string,
    groups: seq<Group<Row>>, nodes: seq<Node>)
    requires dims != [] && groups == GroupsOf(KeyOf(dims[0]), rows)
    requires nodes == Map(Over(collate, dims, col, prefix), groups)
    ensures SortBy(NodeOrder(collate, dims[0]), nodes) == PivotOf(collate, rows, dims, col, prefix)
  {
    var build := Builder(collate, rows, dims, col, prefix);
    forall k | 0 <= k < |groups| ensures nodes[k] == build(groups[k].key) {
      GroupAt(KeyOf(dims[0]), rows, k);
      assert groups[k] == GroupUnder(KeyOf(dims[0]), rows, groups[k].key);
    }
    GroupsBuilt(KeyOf(dims[0]), rows, build, nodes);
    BuilderKeepsKeys(collate, rows, dims, col, prefix);
    SortBuilt(collate, dims[0], KeysOf(KeyOf(dims[0]), rows), build);
  }

  lemma {:induction false} GroupAt<T>(key: T -> string, rows: seq<T>, i: nat)
    requires i < |GroupsOf(key, rows)|
    ensures GroupsOf(key, rows)[i].rows == Having(key, GroupsOf(key, rows)[i].key, rows)
  {
  }

  lemma {:induction false} GroupsBuilt<T, U>(key: T -> string, rows: seq<T>, build: string -> U, built: seq<U>)
    requires |built| == |GroupsOf(key, rows)|
    requires forall k | 0 <= k < |built| :: built[k] == build(GroupsOf(key, rows)[k].key)
    ensures built == Map(build, KeysOf(key, rows))
  {
  }

  lemma {:induction false} BuilderKeepsKeys(
    collate: (string, string) -> bool, rows: seq<Row>, dims: seq<Dimension>, col: Dimension, prefix: string)
    requires dims != []
    ensures forall k :: Builder(collate, rows, dims, col, prefix)(k).key == k
  {
  }

  /** Sorting the nodes is building them in the order of their sorted keys. */
  lemma {:induction false} SortBuilt(
    collate: (string, string) -> bool, dim: Dimension, keys: seq<string>, build: string -> Node)
    requires forall k :: build(k).key == k
    ensures SortBy(NodeOrder(collate, dim), Map(build, keys)) == Map(build, SortBy(KeyOrder(collate, dim), keys))
  {
    SortMapped(KeyOrder(collate, dim), NodeOrder(collate, dim), build, keys);
  }
}
