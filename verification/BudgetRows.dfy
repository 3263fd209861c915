/**
 * Flattening a budget map: one row for each match string, and none lost. The loops
 * nest four deep, categories, subcategories, nested mappings and lists, and each is
 * proved to append exactly the rows of what it walks; what those rows are, said
 * without any loop, is in `BudgetLeaves`.
 */
module BudgetRows {
  import opened Prelude
  import opened BudgetMap

  /** A row of the flattened map. */
  datatype MapRow = MapRow(
    category: string,
    categoryBudget: Yaml,
    subCategory: string,
    subCategoryBudget: Yaml,
    rowLabel: string,
    text: Yaml)

  /** A list item below a `Type`: the keys down to its list, and its place there. */
  datatype Leaf = Leaf(keys: seq<string>, index: nat, text: Yaml)

  datatype MapError = NotTheShape | NoRows

  function ItemLeaves(items: seq<Yaml>, keys: seq<string>): (leaves: seq<Leaf>)
    ensures |leaves| == |items|
  {
    seq(|items|, i requires 0 <= i < |items| => Leaf(keys, i, items[i]))
  }

  /** The items in every list of a nested mapping, in document order. */
  function LeavesBelow(entries: seq<Entry>, keys: seq<string>): seq<Leaf>
    decreases entries
  {
    if entries == [] then []
    else
      var last := entries[|entries| - 1];
      LeavesBelow(entries[..|entries| - 1], keys)
      + match last.value
        case List(items) => ItemLeaves(items, keys + [last.key])
        case Dict(below) => LeavesBelow(below, keys + [last.key])
        case _ => []
  }

  function LeavesOf(node: Yaml): seq<Leaf> {
    if node.Dict? then LeavesBelow(node.entries, []) else []
  }

  function BudgetOf(entries: seq<Entry>): Yaml {
    var budget := Get(entries, "Budget");
    if budget.Some? then budget.value else Num(0)
  }

  /** A leaf with the category and subcategory it belongs to. */
  datatype Placed = Placed(category: string, sub: string, leaf: Leaf)

  function PlaceIn(category: string, sub: string): Leaf -> Placed {
    leaf => Placed(category, sub, leaf)
  }

  function PlacedIn(category: string, entry: Entry): seq<Placed> {
    if entry.value.Dict?
    then Map(PlaceIn(category, entry.key), LeavesOf(GetOrEmpty(entry.value.entries, "Type")))
    else []
  }

  function SubLeaves(category: string, subs: seq<Entry>): seq<Placed> {
    if subs == [] then []
    else
      var last := subs[|subs| - 1];
      SubLeaves(category, subs[..|subs| - 1]) + PlacedIn(category, last)
  }

  function SubsOf(details: Yaml): seq<Entry> {
    if details.Dict? && GetOrEmpty(details.entries, "SubCategories").Dict?
    then GetOrEmpty(details.entries, "SubCategories").entries else []
  }

  function AllLeaves(categories: seq<Entry>): seq<Placed> {
    if categories == [] then []
    else
      var last := categories[|categories| - 1];
      AllLeaves(categories[..|categories| - 1]) + SubLeaves(last.key, SubsOf(last.value))
  }

  /** The budget a mapping under `key` states; 0 when it states none. */
  function BudgetUnder(entries: seq<Entry>, key: string): Yaml {
    var details := Get(entries, key);
    if details.Some? && details.value.Dict? then BudgetOf(details.value.entries) else Num(0)
  }

  function SubsUnder(categories: seq<Entry>, category: string): seq<Entry> {
    var details := Get(categories, category);
    if details.Some? then SubsOf(details.value) else []
  }

  /** The row of a placed leaf: its own category, subcategory and budgets, and the key of its list. */
  function RowOf(categories: seq<Entry>): Placed -> MapRow {
    (p: Placed) => MapRow(
      p.category, BudgetUnder(categories, p.category), p.sub, BudgetUnder(SubsUnder(categories, p.category), p.sub),
      if p.leaf.keys == [] then "" else p.leaf.keys[|p.leaf.keys| - 1], p.leaf.text)
  }

  /** Every mapping the flattener calls `.items()` or `.get()` on is one. */
  ghost predicate Walkable(data: Yaml) {
    data.Dict? && forall i | 0 <= i < |data.entries| :: CategoryIsWalkable(data.entries[i].value)
  }

  ghost predicate CategoryIsWalkable(details: Yaml) {
    && details.Dict?
    && GetOrEmpty(details.entries, "SubCategories").Dict?
    && SubsAreMappings(GetOrEmpty(details.entries, "SubCategories").entries)
  }

  ghost predicate SubsAreMappings(subs: seq<Entry>) {
    forall i | 0 <= i < |subs| :: subs[i].value.Dict?
  }

  ghost function Flattened(data: Yaml): Result<seq<MapRow>, MapError> {
    if !Walkable(data) then Err(NotTheShape)
    else
      var rows := Map(RowOf(data.entries), AllLeaves(data.entries));
      if rows == [] then Err(NoRows) else Ok(rows)
  }

  // ---- The flattener's loops -----------------------------------------------------------------

  /** The rows of one subcategory share everything but their label and text. */
  function RowWith(category: string, categoryBudget: Yaml, sub: string, subBudget: Yaml): Leaf -> MapRow {
    (leaf: Leaf) => MapRow(category, categoryBudget, sub, subBudget,
      if leaf.keys == [] then "" else leaf.keys[|leaf.keys| - 1], leaf.text)
  }

  lemma {:induction false} AppendMapped<T, U>(f: T -> U, rows: seq<U>, a: seq<T>, b: seq<T>)
    ensures (rows + Map(f, a)) + Map(f, b) == rows + Map(f, a + b)
  {
    assert Map(f, a + b) == Map(f, a) + Map(f, b);
  }

  lemma {:induction false} NextEntry(entries: seq<Entry>, i: nat, keys: seq<string>, before: seq<Leaf>)
    requires i < |entries| && before == LeavesBelow(entries[..i], keys)
    ensures LeavesBelow(entries[..i + 1], keys)
         == match entries[i].value
            case List(items) => before + ItemLeaves(items, keys + [entries[i].key])
            case Dict(below) => before + LeavesBelow(below, keys + [entries[i].key])
            case _ => before
  {
    assert entries[..i + 1][..i] == entries[..i];
  }

  method AppendItems(
    items: seq<Yaml>, row: Leaf -> MapRow, keys: seq<string>, rows: seq<MapRow>) returns (r: seq<MapRow>)
    ensures r == rows + Map(row, ItemLeaves(items, keys))
  {
    r := rows;
    for i := 0 to |items|
      invariant r == rows + Map(row, ItemLeaves(items, keys)[..i])
    {
      var leaves := ItemLeaves(items, keys);
      assert leaves[..i + 1] == leaves[..i] + [leaves[i]];
      r := r + [row(Leaf(keys, i, items[i]))];
    }
    assert ItemLeaves(items, keys)[..|items|] == ItemLeaves(items, keys);
  }

  /** The recursion into a nested mapping; `row` carries the names and budgets around it. */
  method Recurse(entries: seq<Entry>, row: Leaf -> MapRow, keys: seq<string>, rows: seq<MapRow>)
    returns (r: seq<MapRow>)
    ensures r == rows + Map(row, LeavesBelow(entries, keys))
    decreases entries
  {
    r := rows;
    for i := 0 to |entries|
      invariant r == rows + Map(row, LeavesBelow(entries[..i], keys))
    {
      var value, at := entries[i].value, keys + [entries[i].key];
      var before := LeavesBelow(entries[..i], keys);
      NextEntry(entries, i, keys, before);
      if value.List? {
        r := AppendItems(value.items, row, at, r);
        AppendMapped(row, rows, before, ItemLeaves(value.items, at));
      } else if value.Dict? {
        r := Recurse(value.entries, row, at, r);
        AppendMapped(row, rows, before, LeavesBelow(value.entries, at));
      }
    }
    assert entries[..|entries|] == entries;
  }

  lemma {:induction false} NextSub(
    f: Placed -> MapRow, category: string, subs: seq<Entry>, i: nat, rows: seq<MapRow>, part: seq<Placed>)
    requires i < |subs| && part == PlacedIn(category, subs[i])
    ensures (rows + Map(f, SubLeaves(category, subs[..i]))) + Map(f, part)
         == rows + Map(f, SubLeaves(category, subs[..i + 1]))
  {
    assert subs[..i + 1][..i] == subs[..i];
    AppendMapped(f, rows, SubLeaves(category, subs[..i]), part);
  }

  /** `f` gives a subcategory's leaves the rows its own loop gives them. */
  ghost predicate Agrees(f: Placed -> MapRow, category: string, categoryBudget: Yaml, entry: Entry) {
    entry.value.Dict? ==>
      forall leaf :: f(Placed(category, entry.key, leaf))
                  == RowWith(category, categoryBudget, entry.key, BudgetOf(entry.value.entries))(leaf)
  }

  lemma {:induction false} RowsOfSub(
    f: Placed -> MapRow, category: string, sub: string, row: Leaf -> MapRow, leaves: seq<Leaf>)
    requires forall leaf :: f(Placed(category, sub, leaf)) == row(leaf)
    ensures Map(f, Map(PlaceIn(category, sub), leaves)) == Map(row, leaves)
  {
  }

  method FlattenSub(
    category: string, categoryBudget: Yaml, entry: Entry, ghost f: Placed -> MapRow, rows: seq<MapRow>,
    ghost part: seq<Placed>)
    returns (r: seq<MapRow>)
    requires entry.value.Dict? && Agrees(f, category, categoryBudget, entry) && part == PlacedIn(category, entry)
    ensures r == rows + Map(f, part)
  {
    var row := RowWith(category, categoryBudget, entry.key, BudgetOf(entry.value.entries));
    var node := GetOrEmpty(entry.value.entries, "Type");
    RowsOfSub(f, category, entry.key, row, LeavesOf(node));
    r := rows;
    if node.Dict? {
      r := Recurse(node.entries, row, [], r);
    }
  }

  /** One turn of that loop; None where the subcategory is no mapping. */
  method FlattenNext(
    category: string, categoryBudget: Yaml, subs: seq<Entry>, i: nat, ghost f: Placed -> MapRow,
    ghost rows: seq<MapRow>, out: seq<MapRow>)
    returns (r: Option<seq<MapRow>>)
    requires i < |subs| && Agrees(f, category, categoryBudget, subs[i])
    requires out == rows + Map(f, SubLeaves(category, subs[..i]))
    ensures r.Some? <==> subs[i].value.Dict?
    ensures r.Some? ==> r.value == rows + Map(f, SubLeaves(category, subs[..i + 1]))
  {
    if !subs[i].value.Dict? {
      return None;
    }
    ghost var part := PlacedIn(category, subs[i]);
    NextSub(f, category, subs, i, rows, part);
    var next := FlattenSub(category, categoryBudget, subs[i], f, out, part);
    return Some(next);
  }

  lemma {:induction false} MappingsNext(subs: seq<Entry>, i: nat)
    requires i < |subs| && SubsAreMappings(subs[..i])
    ensures subs[i].value.Dict? ==> SubsAreMappings(subs[..i + 1])
    ensures !subs[i].value.Dict? ==> !SubsAreMappings(subs)
  {
  }

  /** The loop over one category's subcategories; None where one of them is no mapping. */
  method FlattenSubs(
    category: string, categoryBudget: Yaml, subs: seq<Entry>, ghost f: Placed -> MapRow, rows: seq<MapRow>)
    returns (r: Option<seq<MapRow>>)
    requires forall k | 0 <= k < |subs| :: Agrees(f, category, categoryBudget, subs[k])
    ensures r.Some? <==> SubsAreMappings(subs)
    ensures r.Some? ==> r.value == rows + Map(f, SubLeaves(category, subs))
  {
    var out := rows;
    for i := 0 to |subs|
      invariant SubsAreMappings(subs[..i])
      invariant out == rows + Map(f, SubLeaves(category, subs[..i]))
    {
      var next := FlattenNext(category, categoryBudget, subs, i, f, rows, out);
      MappingsNext(subs, i);
      if next.None? {
        return None;
      }
      out := next.value;
    }
    assert subs[..|subs|] == subs;
    return Some(out);
  }

  lemma {:induction false} GetAt(entries: seq<Entry>, i: nat)
    requires i < |entries| && forall j | i < j < |entries| :: entries[j].key != entries[i].key
    ensures Get(entries, entries[i].key) == Some(entries[i].value)
  {
    if i < |entries| - 1 {
      GetAt(entries[..|entries| - 1], i);
    }
  }

  lemma {:induction false} RowOfAgrees(categories: seq<Entry>, i: nat, k: nat, subs: seq<Entry>)
    requires KeysOnce(categories) && i < |categories| && categories[i].value.Dict?
    requires subs == SubsOf(categories[i].value) && KeysOnce(subs) && k < |subs|
    ensures Agrees(RowOf(categories), categories[i].key, BudgetOf(categories[i].value.entries), subs[k])
  {
    GetAt(categories, i);
    GetAt(subs, k);
  }

  lemma {:induction false} GetKeepsKeysOnce(entries: seq<Entry>, key: string)
    requires KeysOnce(entries) && Get(entries, key).Some? && Get(entries, key).value.Dict?
    ensures KeysOnce(Get(entries, key).value.entries)
  {
    if entries[|entries| - 1].key != key {
      assert KeysOnce(entries[..|entries| - 1]) by {
        assert forall i | 0 <= i < |entries| - 1 :: entries[..|entries| - 1][i] == entries[i];
      }
      GetKeepsKeysOnce(entries[..|entries| - 1], key);
    }
  }

  lemma {:induction false} SubsKeepKeysOnce(details: Yaml)
    requires details.Dict? && KeysOnce(details.entries)
    ensures KeysOnce(SubsOf(details))
  {
    var subs := Get(details.entries, "SubCategories");
    if subs.Some? && subs.value.Dict? {
      GetKeepsKeysOnce(details.entries, "SubCategories");
    }
  }

  lemma {:induction false} NextCategory(
    f: Placed -> MapRow, categories: seq<Entry>, i: nat, part: seq<Placed>)
    requires i < |categories| && part == SubLeaves(categories[i].key, SubsOf(categories[i].value))
    ensures Map(f, AllLeaves(categories[..i])) + Map(f, part) == Map(f, AllLeaves(categories[..i + 1]))
  {
    assert categories[..i + 1][..i] == categories[..i];
    AppendMapped(f, [], AllLeaves(categories[..i]), part);
  }

  method FlattenCategory(categories: seq<Entry>, i: nat, rows: seq<MapRow>, ghost part: seq<Placed>)
    returns (r: Option<seq<MapRow>>)
    requires KeysOnce(categories) && i < |categories|
    requires part == SubLeaves(categories[i].key, SubsOf(categories[i].value))
    ensures r.Some? <==> CategoryIsWalkable(categories[i].value)
    ensures r.Some? ==> r.value == rows + Map(RowOf(categories), part)
  {
    var details := categories[i].value;
    if !details.Dict? {
      return None;
    }
    var subs := GetOrEmpty(details.entries, "SubCategories");
    if !subs.Dict? {
      return None;
    }
    SubsKeepKeysOnce(details);
    forall k | 0 <= k < |subs.entries|
      ensures Agrees(RowOf(categories), categories[i].key, BudgetOf(details.entries), subs.entries[k])
    {
      RowOfAgrees(categories, i, k, subs.entries);
    }
    r := FlattenSubs(categories[i].key, BudgetOf(details.entries), subs.entries, RowOf(categories), rows);
  }

  method FlattenCategories(categories: seq<Entry>, ghost f: Placed -> MapRow) returns (r: Option<seq<MapRow>>)
    requires KeysOnce(categories) && f == RowOf(categories)
    ensures r.Some? <==> forall k | 0 <= k < |categories| :: CategoryIsWalkable(categories[k].value)
    ensures r.Some? ==> r.value == Map(f, AllLeaves(categories))
  {
    var rows: seq<MapRow> := [];
    for i := 0 to |categories|
      invariant forall k | 0 <= k < i :: CategoryIsWalkable(categories[k].value)
      invariant rows == Map(f, AllLeaves(categories[..i]))
    {
      ghost var part := SubLeaves(categories[i].key, SubsOf(categories[i].value));
      var next := FlattenCategory(categories, i, rows, part);
      if next.None? {
        return None;
      }
      NextCategory(f, categories, i, part);
      rows := next.value;
    }
    assert categories[..|categories|] == categories;
    return Some(rows);
  }

  /** The whole flattener, refusing what it cannot walk and a map with no match string at all. */
  method ParseTransactionMap(data: Yaml) returns (r: Result<seq<MapRow>, MapError>)
    requires data.Dict? ==> KeysOnce(data.entries)
    ensures r == Flattened(data)
  {
    if !data.Dict? {
      return Err(NotTheShape);
    }
    var rows := FlattenCategories(data.entries, RowOf(data.entries));
    return if rows.None? then Err(NotTheShape) else if rows.value == [] then Err(NoRows) else Ok(rows.value);
  }
}
