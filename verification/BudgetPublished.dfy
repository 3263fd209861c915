/** What each published budget row says of the document. */
module BudgetPublished {
  import opened Prelude
  import opened BudgetMap
  import opened BudgetComplaints
  import opened BudgetRows
  import opened BudgetLeaves
  import opened Categorise

  /** The budget a mapping states; nothing where it states none. */
  ghost predicate IsBudget(details: seq<Entry>, budget: Yaml) {
    if exists v :: At(details, "Budget", v) then At(details, "Budget", budget) else budget == Num(0)
  }

  /** The document holds this subcategory of this category, with these two budgets. */
  ghost predicate Budgets(
    categories: seq<Entry>, category: string, sub: string, categoryBudget: Yaml, subBudget: Yaml)
  {
    exists details, subs, below ::
      && At(categories, category, Dict(details)) && IsBudget(details, categoryBudget)
      && At(details, "SubCategories", Dict(subs))
      && At(subs, sub, Dict(below)) && IsBudget(below, subBudget)
  }

  lemma {:induction false} BudgetIsStated(details: seq<Entry>)
    ensures IsBudget(details, BudgetOf(details))
  {
    var budget := Get(details, "Budget");
    if budget.Some? {
      GetFindsIt(details, "Budget", budget.value);
    } else {
      GetFindsIt(details, "Budget", Null);
      assert forall v :: !At(details, "Budget", v);
    }
  }

  /** A leaf the document holds lies in a category and subcategory whose budgets its row carries. */
  lemma {:induction false} HeldLeafIsBudgeted(categories: seq<Entry>, p: Placed)
    requires Holds(categories, p)
    ensures var row := RowOf(categories)(p);
            Budgets(categories, p.category, p.sub, row.categoryBudget, row.subCategoryBudget)
  {
    var subs := SubsUnder(categories, p.category);
    assert TypeUnder(subs, p.sub) != [];
    var details, below := Get(categories, p.category).value.entries, Get(subs, p.sub).value.entries;
    GetFindsIt(categories, p.category, Dict(details));
    GetFindsIt(subs, p.sub, Dict(below));
    GetFindsIt(details, "SubCategories", Dict(subs));
    BudgetIsStated(details);
    BudgetIsStated(below);
  }

  lemma {:induction false} HeldLeafHasKeys(categories: seq<Entry>, p: Placed)
    requires Holds(categories, p)
    ensures p.leaf.keys != []
  {
  }

  /**
   * Each row of a flattened document is a match string's: its own category and subcategory
   * with the budgets the document states for them, the key of its list, and its own text.
   */
  lemma {:induction false} RowSaysItsLeaf(data: Yaml, leaves: seq<Placed>, rows: seq<MapRow>, k: nat)
    requires MapErrors(data) == [] && data.Dict? && KeysOnce(data.entries)
    requires leaves == AllLeaves(data.entries) && Flattened(data) == Ok(rows) && k < |leaves|
    ensures |rows| == |leaves|
    ensures var row, p := rows[k], leaves[k];
            && row.category == p.category && row.subCategory == p.sub && row.text == p.leaf.text
            && p.leaf.keys != [] && row.rowLabel == p.leaf.keys[|p.leaf.keys| - 1]
            && Budgets(data.entries, p.category, p.sub, row.categoryBudget, row.subCategoryBudget)
  {
    assert leaves[k] in leaves;
    AllLeavesHold(data.entries, leaves[k]);
    HeldLeafIsBudgeted(data.entries, leaves[k]);
    HeldLeafHasKeys(data.entries, leaves[k]);
  }

  /** Each row of the budget table is a subcategory that has a match string, with its budgets and its key. */
  lemma {:induction false} TableRowSaysItsSub(
    key: (string, string) -> int, data: Yaml, leaves: seq<Placed>, rows: seq<MapRow>, r: BudgetRow)
    returns (p: Placed)
    requires MapErrors(data) == [] && data.Dict? && KeysOnce(data.entries)
    requires leaves == AllLeaves(data.entries) && Flattened(data) == Ok(rows) && r in BudgetTable(key, rows)
    ensures p in leaves && r.category == p.category && r.subCategory == p.sub
    ensures r.categorySK == key(p.category, p.sub)
    ensures Budgets(data.entries, p.category, p.sub, r.categoryBudget, r.subCategoryBudget)
  {
    var all := Map(WithoutLabel(key), rows);
    assert r in Elements(BudgetTable(key, rows)) && r in Elements(all);
    var k := Position(all, r);
    assert |rows| == |leaves|;
    RowSaysItsLeaf(data, leaves, rows, k);
    p := leaves[k];
    assert p in leaves;
  }

  // ---- What occurring means -----------------------------------------------------------------

  /** A text contains another when it is that text with something, or nothing, on either side. */
  lemma {:induction false} ContainingIsHavingAround(hay: string, needle: string)
    ensures Contains(hay, needle) <==> exists before, after :: hay == before + needle + after
  {
    if Contains(hay, needle) {
      var i :| 0 <= i <= |hay| && OccursAt(needle, hay, i);
      assert hay == hay[..i] + needle + hay[i + |needle|..];
    }
    if before, after :| hay == before + needle + after {
      assert OccursAt(needle, hay, |before|);
    }
  }
}
