/** What the validator accepts, said as a shape, and why the flattener may then trust it. */
module BudgetShape {
  import opened Prelude
  import opened Grouping
  import opened BudgetMap

  /** Mappings all the way down, ending in non-empty lists of strings. */
  ghost predicate IsTypeTree(entries: seq<Entry>)
    decreases entries
  {
    forall i | 0 <= i < |entries| ::
      match entries[i].value
      case List(items) => items != [] && AllStrings(items)
      case Dict(below) => IsTypeTree(below)
      case _ => false
  }

  ghost predicate HasOnly(entries: seq<Entry>, allowed: set<string>) {
    forall i | 0 <= i < |entries| :: entries[i].key in allowed
  }

  ghost predicate BudgetIsNumber(entries: seq<Entry>) {
    Get(entries, "Budget").Some? ==> IsNumber(Get(entries, "Budget").value)
  }

  ghost predicate TypeIsTree(entries: seq<Entry>) {
    Get(entries, "Type").Some? ==> Get(entries, "Type").value.Dict? && IsTypeTree(Get(entries, "Type").value.entries)
  }

  ghost predicate IsSub(details: Yaml) {
    && details.Dict?
    && HasOnly(details.entries, SUBCATEGORY_KEYS)
    && BudgetIsNumber(details.entries)
    && TypeIsTree(details.entries)
  }

  /** The amount a number stands for. */
  function Amount(value: Yaml): int {
    if value.Num? then value.n else if value == Flag(true) then 1 else 0
  }

  /** What a subcategory budgets: the number under its `Budget`, when it is a mapping that has one. */
  function BudgetIn(): Entry -> int {
    (sub: Entry) =>
      if sub.value.Dict? && Get(sub.value.entries, "Budget").Some?
      then Amount(Get(sub.value.entries, "Budget").value) else 0
  }

  /** A category's own budget, where it has one, covers its subcategories' together. */
  ghost predicate Covers(details: seq<Entry>, subs: seq<Entry>) {
    Get(details, "Budget").Some? ==> Sum(BudgetIn(), subs) <= Amount(Get(details, "Budget").value)
  }

  lemma {:induction false} BudgetsAddUp(subs: seq<Entry>)
    ensures SubBudgets(subs) == Sum(BudgetIn(), subs)
  {
    if subs != [] {
      var init, last := subs[..|subs| - 1], subs[|subs| - 1];
      BudgetsAddUp(init);
      SumConcat(BudgetIn(), init, [last]);
      assert subs == init + [last] && [last][1..] == [];
    }
  }

  ghost predicate AreSubs(subs: seq<Entry>) {
    forall i | 0 <= i < |subs| :: IsSub(subs[i].value)
  }

  ghost predicate IsCategory(details: Yaml) {
    && details.Dict?
    && HasOnly(details.entries, CATEGORY_KEYS)
    && BudgetIsNumber(details.entries)
    && var subs := GetOrEmpty(details.entries, "SubCategories");
       subs.Dict? && AreSubs(subs.entries) && Covers(details.entries, subs.entries)
  }

  ghost predicate AreCategories(categories: seq<Entry>) {
    forall i | 0 <= i < |categories| :: IsCategory(categories[i].value)
  }

  ghost predicate IsBudgetMap(data: Yaml) {
    data.Dict? && AreCategories(data.entries)
  }

  // ---- Complaints are exactly departures from the shape --------------------------------------

  lemma {:induction false} NestedErrorsAreExact(entries: seq<Entry>, path: seq<string>)
    ensures NestedErrors(entries, path) == [] <==> IsTypeTree(entries)
    decreases entries
  {
    if entries != [] {
      var init, last := entries[..|entries| - 1], entries[|entries| - 1];
      NestedErrorsAreExact(init, path);
      if last.value.Dict? {
        NestedErrorsAreExact(last.value.entries, path + [last.key]);
      }
      assert forall i | 0 <= i < |init| :: entries[i] == init[i];
    }
  }

  lemma {:induction false} KeyErrorsAreExact(entries: seq<Entry>, allowed: set<string>, path: seq<string>)
    ensures KeyErrors(entries, allowed, path) == [] <==> HasOnly(entries, allowed)
  {
    if entries != [] {
      var init := entries[..|entries| - 1];
      KeyErrorsAreExact(init, allowed, path);
      assert forall i | 0 <= i < |init| :: entries[i] == init[i];
    }
  }

  lemma {:induction false} SubErrorsAreExact(details: Yaml, path: seq<string>)
    ensures SubErrors(details, path) == [] <==> IsSub(details)
  {
    if details.Dict? {
      KeyErrorsAreExact(details.entries, SUBCATEGORY_KEYS, path);
      var node := Get(details.entries, "Type");
      if node.Some? && node.value.Dict? {
        NestedErrorsAreExact(node.value.entries, path + ["Type"]);
      }
    }
  }

  lemma {:induction false} OneMoreSub(subs: seq<Entry>)
    requires subs != []
    ensures AreSubs(subs) <==> AreSubs(subs[..|subs| - 1]) && IsSub(subs[|subs| - 1].value)
  {
    var init := subs[..|subs| - 1];
    assert forall i | 0 <= i < |init| :: subs[i] == init[i];
  }

  lemma {:induction false} OneMoreError(init: seq<Error>, last: seq<Error>)
    ensures init + last == [] <==> init == [] && last == []
  {
  }

  lemma {:induction false} SubsErrorsAreExact(subs: seq<Entry>, path: seq<string>)
    ensures SubsErrors(subs, path) == [] <==> AreSubs(subs)
  {
    if subs != [] {
      var init, last := subs[..|subs| - 1], subs[|subs| - 1];
      SubsErrorsAreExact(init, path);
      SubErrorsAreExact(last.value, path + [last.key]);
      OneMoreSub(subs);
      OneMoreError(SubsErrors(init, path), SubErrors(last.value, path + [last.key]));
    }
  }

  lemma {:induction false} CategoryErrorsAreExact(details: Yaml, path: seq<string>)
    ensures CategoryErrors(details, path) == [] <==> IsCategory(details)
  {
    if details.Dict? {
      KeyErrorsAreExact(details.entries, CATEGORY_KEYS, path);
      var subs := GetOrEmpty(details.entries, "SubCategories");
      if subs.Dict? {
        SubsErrorsAreExact(subs.entries, path);
        BudgetsAddUp(subs.entries);
      }
    }
  }

  lemma {:induction false} OneMoreCategory(categories: seq<Entry>)
    requires categories != []
    ensures AreCategories(categories)
       <==> AreCategories(categories[..|categories| - 1]) && IsCategory(categories[|categories| - 1].value)
  {
    var init := categories[..|categories| - 1];
    assert forall i | 0 <= i < |init| :: categories[i] == init[i];
  }

  lemma {:induction false} CategoriesErrorsAreExact(categories: seq<Entry>)
    ensures CategoriesErrors(categories) == [] <==> AreCategories(categories)
  {
    if categories != [] {
      var init, last := categories[..|categories| - 1], categories[|categories| - 1];
      CategoriesErrorsAreExact(init);
      CategoryErrorsAreExact(last.value, [last.key]);
      OneMoreCategory(categories);
      OneMoreError(CategoriesErrors(init), CategoryErrors(last.value, [last.key]));
    }
  }

  /** The validator is silent about a document exactly when it is a budget map. */
  lemma {:induction false} ValidatorIsExact(data: Yaml)
    ensures MapErrors(data) == [] <==> IsBudgetMap(data)
  {
    if data.Dict? {
      CategoriesErrorsAreExact(data.entries);
    }
  }
}
