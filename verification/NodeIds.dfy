/** When the matrix's row ids tell its rows apart. */
module NodeIds {
  import opened Prelude
  import opened Grouping
  import opened Breakdown
  import opened Matrix
  import opened Drill

  /** The "/"-joined path. */
  function PathId(prefix: string, path: seq<string>): string
    decreases |path|
  {
    if path == [] then prefix else PathId(IdUnder(prefix, path[0]), path[1..])
  }

  /** A node's id is the path that leads to it. */
  lemma {:induction false} IdIsThePath(
    collate: (string, string) -> bool, rows: seq<Row>, dims: seq<Dimension>, col: Dimension, prefix: string,
    path: seq<string>)
    requires 1 <= |path| <= |dims| && NodeAt(PivotOf(collate, rows, dims, col, prefix), path).Some?
    ensures NodeAt(PivotOf(collate, rows, dims, col, prefix), path).value.id == PathId(prefix, path)
    decreases |path|
  {
    if |path| == 1 {
      assert path == [path[0]] && path[1..] == [];
      RootIsOver(collate, rows, dims, col, prefix, path[0]);
    } else {
      var group := Having(KeyOf(dims[0]), path[0], rows);
      NodeBelow(collate, rows, dims, col, prefix, path, group);
      IdIsThePath(collate, group, dims[1..], col, IdUnder(prefix, path[0]), path[1..]);
    }
  }

  // ---- Reading a path back from its id ----------------------------------------------------

  /** The id is the base, or goes on with a slash. */
  predicate Extends(base: string, id: string) {
    base <= id && (|id| > |base| ==> id[|base|] == '/')
  }

  lemma {:induction false} LongerHasSlash(before: string, a: string, b: string, id: string)
    requires Extends(before + a, id) && before + b <= id && |a| < |b|
    ensures '/' in b
  {
    var n := |before|;
    assert b[|a|] == (before + b)[n + |a|] == id[n + |a|];
  }

  /** Without slashes, what comes before the first one is told from the id. */
  lemma {:induction false} HeadIsRead(before: string, a: string, b: string, id: string)
    requires Extends(before + a, id) && Extends(before + b, id) && '/' !in a && '/' !in b
    ensures a == b
  {
    if |a| < |b| {
      LongerHasSlash(before, a, b, id);
    } else if |b| < |a| {
      LongerHasSlash(before, b, a, id);
    } else {
      assert before + a == before + b;
      assert a == (before + a)[|before|..] && b == (before + b)[|before|..];
    }
  }

  lemma {:induction false} PathExtends(base: string, path: seq<string>)
    requires base != ""
    ensures Extends(base, PathId(base, path))
    ensures path != [] ==> |PathId(base, path)| > |base|
    decreases |path|
  {
    if path != [] {
      PathExtends(IdUnder(base, path[0]), path[1..]);
      assert IdUnder(base, path[0])[|base|] == '/';
      assert base <= IdUnder(base, path[0]) <= PathId(base, path);
    }
  }

  /** Slashes only in the last of `depth` keys, and the first not empty where others may follow it. */
  ghost predicate Clean(path: seq<string>, depth: nat, prefix: string) {
    && 1 <= |path| <= depth
    && (forall i | 0 <= i < |path| && i < depth - 1 :: '/' !in path[i])
    && (depth > 1 && prefix == "" ==> path[0] != "")
  }

  function Before(prefix: string): string {
    if prefix != "" then prefix + "/" else ""
  }

  lemma {:induction false} IdUnderSplits(prefix: string, key: string)
    ensures IdUnder(prefix, key) == Before(prefix) + key
  {
  }

  lemma {:induction false} FirstKeyIsRead(prefix: string, p: seq<string>, q: seq<string>, depth: nat)
    requires Clean(p, depth, prefix) && Clean(q, depth, prefix) && depth > 1
    requires PathId(prefix, p) == PathId(prefix, q)
    ensures p[0] == q[0]
  {
    IdUnderSplits(prefix, p[0]);
    IdUnderSplits(prefix, q[0]);
    PathExtends(IdUnder(prefix, p[0]), p[1..]);
    PathExtends(IdUnder(prefix, q[0]), q[1..]);
    HeadIsRead(Before(prefix), p[0], q[0], PathId(prefix, p));
  }

  lemma {:induction false} CleanBelow(path: seq<string>, depth: nat, prefix: string)
    requires Clean(path, depth, prefix) && |path| > 1
    ensures IdUnder(prefix, path[0]) != "" && Clean(path[1..], depth - 1, IdUnder(prefix, path[0]))
  {
  }

  lemma {:induction false} PathIsRead(prefix: string, p: seq<string>, q: seq<string>, depth: nat)
    requires Clean(p, depth, prefix) && Clean(q, depth, prefix)
    requires PathId(prefix, p) == PathId(prefix, q)
    ensures p == q
    decreases depth
  {
    if depth == 1 {
      IdUnderSplits(prefix, p[0]);
      IdUnderSplits(prefix, q[0]);
      assert p[1..] == [] && q[1..] == [];
      assert p[0] == (Before(prefix) + p[0])[|Before(prefix)|..] && q[0] == (Before(prefix) + q[0])[|Before(prefix)|..];
    } else {
      FirstKeyIsRead(prefix, p, q, depth);
      var base := IdUnder(prefix, p[0]);
      PathExtends(base, p[1..]);
      PathExtends(base, q[1..]);
      if |p| > 1 && |q| > 1 {
        CleanBelow(p, depth, prefix);
        CleanBelow(q, depth, prefix);
        PathIsRead(base, p[1..], q[1..], depth - 1);
      }
    }
    assert p == [p[0]] + p[1..] && q == [q[0]] + q[1..];
  }

  // ---- The matrix ---------------------------------------------------------------------------

  /** Keys above the last level hold no slash, and those of the first, if not the last, are not empty. */
  ghost predicate CleanRows(rows: seq<Row>, dims: seq<Dimension>) {
    forall r | r in rows :: Clean(RowPath(r, dims), |dims|, "")
  }

  /** Some row's keys start this way. */
  ghost predicate Followed(rows: seq<Row>, dims: seq<Dimension>, path: seq<string>) {
    1 <= |path| <= |dims| && exists r :: r in rows && path == RowPath(r, dims)[..|path|]
  }

  /** A node is there exactly when some row follows its path, and its id is the path. */
  lemma {:induction false} NodeIffRow(
    collate: (string, string) -> bool, rows: seq<Row>, dims: seq<Dimension>, col: Dimension, path: seq<string>,
    found: Option<Node>)
    requires 1 <= |path| <= |dims| && found == NodeAt(PivotOf(collate, rows, dims, col, ""), path)
    ensures found.Some? <==> Followed(rows, dims, path)
    ensures found.Some? ==> found.value.id == PathId("", path)
  {
    var scoped := FilterRows(rows, Criteria(dims, path));
    var at := NodesAreFilters(collate, rows, dims, col, "", path, scoped, found);
    if found.Some? {
      SomeFollows(rows, dims, path, scoped);
      IdIsThePath(collate, rows, dims, col, "", path);
    } else {
      NoneFollows(rows, dims, path, scoped);
    }
  }

  lemma {:induction false} SomeFollows(rows: seq<Row>, dims: seq<Dimension>, path: seq<string>, scoped: seq<Row>)
    requires 1 <= |path| <= |dims| && scoped == FilterRows(rows, Criteria(dims, path)) && scoped != []
    ensures Followed(rows, dims, path)
  {
    var r := scoped[0];
    assert r in scoped && r in rows;
    RowsFollowOnePath(rows, dims, r, path);
  }

  lemma {:induction false} NoneFollows(rows: seq<Row>, dims: seq<Dimension>, path: seq<string>, scoped: seq<Row>)
    requires 1 <= |path| <= |dims| && scoped == FilterRows(rows, Criteria(dims, path)) && scoped == []
    ensures !Followed(rows, dims, path)
  {
    forall r | r in rows ensures path != RowPath(r, dims)[..|path|] {
      RowsFollowOnePath(rows, dims, r, path);
    }
  }

  lemma {:induction false} CleanStart(all: seq<string>, path: seq<string>, depth: nat)
    requires |all| == depth && Clean(all, depth, "") && 1 <= |path| <= depth && path == all[..|path|]
    ensures Clean(path, depth, "")
  {
    assert forall i | 0 <= i < |path| :: path[i] == all[i];
  }

  /** Two nodes with one id are one node, reached by one path. */
  ghost predicate UniqueIds(nodes: seq<Node>, depth: nat) {
    forall p, q | 1 <= |p| <= depth && 1 <= |q| <= depth && NodeAt(nodes, p).Some? && NodeAt(nodes, q).Some?
      && NodeAt(nodes, p).value.id == NodeAt(nodes, q).value.id :: p == q
  }

  /** No two paths the rows follow are spelled alike once joined by slashes. */
  ghost predicate SpelledApart(rows: seq<Row>, dims: seq<Dimension>) {
    forall p, q | Followed(rows, dims, p) && Followed(rows, dims, q) && PathId("", p) == PathId("", q) :: p == q
  }

  lemma {:induction false} ApartMakesUnique(
    collate: (string, string) -> bool, rows: seq<Row>, dims: seq<Dimension>, col: Dimension, nodes: seq<Node>)
    requires nodes == PivotOf(collate, rows, dims, col, "") && SpelledApart(rows, dims)
    ensures UniqueIds(nodes, |dims|)
  {
    forall p, q | 1 <= |p| <= |dims| && 1 <= |q| <= |dims| && NodeAt(nodes, p).Some? && NodeAt(nodes, q).Some?
      && NodeAt(nodes, p).value.id == NodeAt(nodes, q).value.id
      ensures p == q
    {
      NodeIffRow(collate, rows, dims, col, p, NodeAt(nodes, p));
      NodeIffRow(collate, rows, dims, col, q, NodeAt(nodes, q));
    }
  }

  lemma {:induction false} UniqueMakesApart(
    collate: (string, string) -> bool, rows: seq<Row>, dims: seq<Dimension>, col: Dimension, nodes: seq<Node>)
    requires nodes == PivotOf(collate, rows, dims, col, "") && UniqueIds(nodes, |dims|)
    ensures SpelledApart(rows, dims)
  {
    forall p, q | Followed(rows, dims, p) && Followed(rows, dims, q) && PathId("", p) == PathId("", q)
      ensures p == q
    {
      NodeIffRow(collate, rows, dims, col, p, NodeAt(nodes, p));
      NodeIffRow(collate, rows, dims, col, q, NodeAt(nodes, q));
    }
  }

  /** The tree's ids are unique exactly when the paths its rows follow are spelled apart. */
  lemma {:induction false} IdsAreUniqueIff(
    collate: (string, string) -> bool, rows: seq<Row>, dims: seq<Dimension>, col: Dimension, nodes: seq<Node>)
    requires nodes == PivotOf(collate, rows, dims, col, "")
    ensures UniqueIds(nodes, |dims|) <==> SpelledApart(rows, dims)
  {
    if SpelledApart(rows, dims) {
      ApartMakesUnique(collate, rows, dims, col, nodes);
    }
    if UniqueIds(nodes, |dims|) {
      UniqueMakesApart(collate, rows, dims, col, nodes);
    }
  }

  lemma {:induction false} FollowedIsClean(rows: seq<Row>, dims: seq<Dimension>, path: seq<string>)
    requires CleanRows(rows, dims) && Followed(rows, dims, path)
    ensures Clean(path, |dims|, "")
  {
    var r :| r in rows && path == RowPath(r, dims)[..|path|];
    CleanStart(RowPath(r, dims), path, |dims|);
  }

  lemma {:induction false} CleanIsApart(rows: seq<Row>, dims: seq<Dimension>)
    requires CleanRows(rows, dims)
    ensures SpelledApart(rows, dims)
  {
    forall p, q | Followed(rows, dims, p) && Followed(rows, dims, q) && PathId("", p) == PathId("", q)
      ensures p == q
    {
      FollowedIsClean(rows, dims, p);
      FollowedIsClean(rows, dims, q);
      PathIsRead("", p, q, |dims|);
    }
  }

  /** Without slashes above the last level, and without empty keys at the first, ids are unique. */
  lemma {:induction false} IdsAreUnique(
    collate: (string, string) -> bool, rows: seq<Row>, dims: seq<Dimension>, col: Dimension, nodes: seq<Node>)
    requires CleanRows(rows, dims) && nodes == PivotOf(collate, rows, dims, col, "")
    ensures UniqueIds(nodes, |dims|)
  {
    CleanIsApart(rows, dims);
    IdsAreUniqueIff(collate, rows, dims, col, nodes);
  }

  /** The hierarchy the page pivots by. */
  const MATRIX_HIERARCHY := [Date, Label]

  predicate PlainDate(r: Row) {
    r.date != "" && '/' !in r.date
  }

  ghost predicate AllPlainDates(rows: seq<Row>) {
    forall r | r in rows :: PlainDate(r)
  }

  /** Under it, wherever the reader has drilled to, dates without slashes are enough. */
  lemma {:induction false} ShownIdsAreUnique(
    collate: (string, string) -> bool, rows: seq<Row>, s: State, col: Dimension, nodes: seq<Node>)
    requires Level(s) < |MATRIX_HIERARCHY| && nodes == MatrixShown(collate, rows, s, MATRIX_HIERARCHY, col)
    requires AllPlainDates(rows)
    ensures UniqueIds(nodes, |MATRIX_HIERARCHY| - Level(s))
  {
    ShownRowsAreClean(rows, s);
    IdsAreUnique(collate, Scoped(rows, s), Remaining(s, MATRIX_HIERARCHY), col, nodes);
  }

  lemma {:induction false} ShownRowsAreClean(rows: seq<Row>, s: State)
    requires Level(s) < |MATRIX_HIERARCHY| && AllPlainDates(rows)
    ensures CleanRows(Scoped(rows, s), Remaining(s, MATRIX_HIERARCHY))
  {
    ScopedArePlain(rows, s);
    WhatIsLeft(s);
    DatesAreClean(Scoped(rows, s), Remaining(s, MATRIX_HIERARCHY));
  }

  lemma {:induction false} ScopedArePlain(rows: seq<Row>, s: State)
    requires AllPlainDates(rows)
    ensures AllPlainDates(Scoped(rows, s))
  {
  }

  lemma {:induction false} WhatIsLeft(s: State)
    requires Level(s) < |MATRIX_HIERARCHY|
    ensures Remaining(s, MATRIX_HIERARCHY) == [Date, Label] || Remaining(s, MATRIX_HIERARCHY) == [Label]
  {
  }

  lemma {:induction false} DatesAreClean(rows: seq<Row>, dims: seq<Dimension>)
    requires dims == [Date, Label] || dims == [Label]
    requires AllPlainDates(rows)
    ensures CleanRows(rows, dims)
  {
    forall r | r in rows ensures Clean(RowPath(r, dims), |dims|, "") {
      assert dims[0] == Date ==> RowPath(r, dims)[0] == r.date;
    }
  }

  // ---- Where they collide -------------------------------------------------------------------

  lemma {:induction false} TwoLevels(r: Row, dims: seq<Dimension>)
    requires dims == [Category, SubCategory]
    ensures RowPath(r, dims)[..1] == [r.category] && RowPath(r, dims)[..2] == [r.category, r.subCategory]
  {
  }

  lemma {:induction false} IdsOfTwo(a: string, b: string)
    ensures PathId("", [a]) == a && PathId("", [a, b]) == IdUnder(a, b)
  {
    assert [a, b][1..] == [b] && [b][1..] == [] && [a][1..] == [];
    assert PathId(a, [b]) == PathId(IdUnder(a, b), []);
  }

  /**
   * Two levels of names: a category's node and a subcategory's share an id exactly when
   * the category is spelled like the other's path, as "a/b" is like "b" under "a", and
   * "b" like "b" under no name at all.
   */
  lemma {:induction false} IdsCollideIff(
    collate: (string, string) -> bool, rows: seq<Row>, dims: seq<Dimension>, col: Dimension, r: Row, t: Row,
    p: seq<string>, q: seq<string>, nodes: seq<Node>)
    requires dims == [Category, SubCategory] && nodes == PivotOf(collate, rows, dims, col, "")
    requires r in rows && t in rows && p == [r.category] && q == [t.category, t.subCategory]
    ensures NodeAt(nodes, p).Some? && NodeAt(nodes, q).Some?
    ensures NodeAt(nodes, p).value.id == NodeAt(nodes, q).value.id
       <==> r.category == if t.category == "" then t.subCategory else t.category + "/" + t.subCategory
  {
    TwoLevels(r, dims);
    TwoLevels(t, dims);
    NodeIffRow(collate, rows, dims, col, p, NodeAt(nodes, p));
    NodeIffRow(collate, rows, dims, col, q, NodeAt(nodes, q));
    IdsOfTwo(r.category, "");
    IdsOfTwo(t.category, t.subCategory);
  }

  /** A slash in a category: "a/b" at the top has the id of "b" under "a". */
  lemma {:induction false} SlashedKeyCollides(
    collate: (string, string) -> bool, dims: seq<Dimension>, col: Dimension, a: string, b: string, r: Row, t: Row,
    nodes: seq<Node>)
    requires dims == [Category, SubCategory] && nodes == PivotOf(collate, [r, t], dims, col, "")
    requires r.category == a + "/" + b && t.category == a != "" && t.subCategory == b
    ensures [a + "/" + b] != [a, b]
    ensures NodeAt(nodes, [a + "/" + b]).Some? && NodeAt(nodes, [a, b]).Some?
    ensures NodeAt(nodes, [a + "/" + b]).value.id == NodeAt(nodes, [a, b]).value.id
  {
    IdsCollideIff(collate, [r, t], dims, col, r, t, [a + "/" + b], [a, b], nodes);
  }
}
