/** A bank's budget map: the validator that guards it and the flattener that reads it. */
module BudgetMap {
  import opened Prelude

  /** A parsed document; a mapping keeps its entries in order. Numbers are in the budget's least unit. */
  datatype Yaml =
    | Null
    | Flag(b: bool)
    | Num(n: int)
    | Str(s: string)
    | List(items: seq<Yaml>)
    | Dict(entries: seq<Entry>)

  datatype Entry = Entry(key: string, value: Yaml)

  function Get(entries: seq<Entry>, key: string): Option<Yaml> {
    if entries == [] then None
    else if entries[|entries| - 1].key == key then Some(entries[|entries| - 1].value)
    else Get(entries[..|entries| - 1], key)
  }

  /** `entries.get(key, {})`. */
  function GetOrEmpty(entries: seq<Entry>, key: string): Yaml {
    var value := Get(entries, key);
    if value.Some? then value.value else Dict([])
  }

  /** A mapping holds each of its keys once, at every depth. */
  ghost predicate KeysOnce(entries: seq<Entry>)
    decreases entries
  {
    && (forall i, j | 0 <= i < j < |entries| :: entries[i].key != entries[j].key)
    && (forall i | 0 <= i < |entries| && entries[i].value.Dict? :: KeysOnce(entries[i].value.entries))
  }

  /** What `isinstance(value, (int, float))` lets through: booleans are numbers. */
  predicate IsNumber(value: Yaml) {
    value.Num? || value.Flag?
  }

  function NumberOf(value: Yaml): int {
    match value
    case Num(n) => n
    case Flag(b) => if b then 1 else 0
    case _ => 0
  }

  // ---- Validation --------------------------------------------------------------------------

  datatype Complaint =
    | NotAMapping
    | UnexpectedKey(key: string)
    | NotANumber
    | EmptyList
    | NotOnlyStrings
    | NeitherListNorMapping
    | OverBudget(sum: int, budget: int)

  datatype Error = Error(path: seq<string>, complaint: Complaint)

  predicate AllStrings(items: seq<Yaml>) {
    forall i | 0 <= i < |items| :: items[i].Str?
  }

  /** What is wrong with the mapping below a `Type`. */
  function NestedErrors(entries: seq<Entry>, path: seq<string>): seq<Error>
    decreases entries
  {
    if entries == [] then []
    else
      var last := entries[|entries| - 1];
      var at := path + [last.key];
      NestedErrors(entries[..|entries| - 1], path)
      + match last.value
        case List(items) =>
          if items == [] then [Error(at, EmptyList)]
          else if !AllStrings(items) then [Error(at, NotOnlyStrings)]
          else []
        case Dict(below) => NestedErrors(below, at)
        case _ => [Error(at, NeitherListNorMapping)]
  }

  function TypeErrors(node: Yaml, path: seq<string>): seq<Error> {
    if node.Dict? then NestedErrors(node.entries, path) else [Error(path, NotAMapping)]
  }

  function KeyErrors(entries: seq<Entry>, allowed: set<string>, path: seq<string>): seq<Error> {
    if entries == [] then []
    else
      var last := entries[|entries| - 1];
      KeyErrors(entries[..|entries| - 1], allowed, path)
      + if last.key in allowed then [] else [Error(path, UnexpectedKey(last.key))]
  }

  function BudgetErrors(entries: seq<Entry>, path: seq<string>): seq<Error> {
    var budget := Get(entries, "Budget");
    if budget.Some? && !IsNumber(budget.value) then [Error(path + ["Budget"], NotANumber)] else []
  }

  const CATEGORY_KEYS := {"Budget", "SubCategories"}

  const SUBCATEGORY_KEYS := {"Budget", "Type"}

  function SubErrors(details: Yaml, path: seq<string>): seq<Error> {
    if !details.Dict? then [Error(path, NotAMapping)]
    else
      var node := Get(details.entries, "Type");
      KeyErrors(details.entries, SUBCATEGORY_KEYS, path)
      + BudgetErrors(details.entries, path)
      + if node.Some? then TypeErrors(node.value, path + ["Type"]) else []
  }

  function SubsErrors(subs: seq<Entry>, path: seq<string>): seq<Error> {
    if subs == [] then []
    else
      var last := subs[|subs| - 1];
      SubsErrors(subs[..|subs| - 1], path) + SubErrors(last.value, path + [last.key])
  }

  /** A subcategory's budget, as far as the ceiling is concerned. */
  function CountedBudget(details: Yaml): int {
    if details.Dict? && Get(details.entries, "Budget").Some? then NumberOf(Get(details.entries, "Budget").value) else 0
  }

  function SubBudgets(subs: seq<Entry>): int {
    if subs == [] then 0 else SubBudgets(subs[..|subs| - 1]) + CountedBudget(subs[|subs| - 1].value)
  }

  function CeilingErrors(details: seq<Entry>, subs: seq<Entry>, path: seq<string>): seq<Error> {
    var budget := Get(details, "Budget");
    if budget.Some? && IsNumber(budget.value) && SubBudgets(subs) > NumberOf(budget.value)
    then [Error(path, OverBudget(SubBudgets(subs), NumberOf(budget.value)))]
    else []
  }

  function CategoryErrors(details: Yaml, path: seq<string>): seq<Error> {
    if !details.Dict? then [Error(path, NotAMapping)]
    else
      var subs := GetOrEmpty(details.entries, "SubCategories");
      KeyErrors(details.entries, CATEGORY_KEYS, path)
      + BudgetErrors(details.entries, path)
      + if !subs.Dict? then [Error(path + ["SubCategories"], NotAMapping)]
        else SubsErrors(subs.entries, path) + CeilingErrors(details.entries, subs.entries, path)
  }

  function CategoriesErrors(categories: seq<Entry>): seq<Error> {
    if categories == [] then []
    else
      var last := categories[|categories| - 1];
      CategoriesErrors(categories[..|categories| - 1]) + CategoryErrors(last.value, [last.key])
  }

  function MapErrors(data: Yaml): seq<Error> {
    if data.Dict? then CategoriesErrors(data.entries) else [Error([], NotAMapping)]
  }

  // ---- The validator's loops -----------------------------------------------------------------

  method ValidateTypeNode(node: Yaml, path: seq<string>, errors: seq<Error>) returns (r: seq<Error>)
    ensures r == errors + TypeErrors(node, path)
    decreases node
  {
    r := errors;
    if !node.Dict? {
      return r + [Error(path, NotAMapping)];
    }
    var entries := node.entries;
    for i := 0 to |entries|
      invariant r == errors + NestedErrors(entries[..i], path)
    {
      var value, at := entries[i].value, path + [entries[i].key];
      assert entries[..i + 1][..i] == entries[..i];
      if value.List? {
        if value.items == [] {
          r := r + [Error(at, EmptyList)];
        } else if !AllStrings(value.items) {
          r := r + [Error(at, NotOnlyStrings)];
        }
      } else if value.Dict? {
        r := ValidateTypeNode(value, at, r);
      } else {
        r := r + [Error(at, NeitherListNorMapping)];
      }
    }
    assert entries[..|entries|] == entries;
  }

  method ValidateKeys(entries: seq<Entry>, allowed: set<string>, path: seq<string>, errors: seq<Error>)
    returns (r: seq<Error>)
    ensures r == errors + KeyErrors(entries, allowed, path)
  {
    r := errors;
    for i := 0 to |entries|
      invariant r == errors + KeyErrors(entries[..i], allowed, path)
    {
      assert entries[..i + 1][..i] == entries[..i];
      if entries[i].key !in allowed {
        r := r + [Error(path, UnexpectedKey(entries[i].key))];
      }
    }
    assert entries[..|entries|] == entries;
  }

  method ValidateSub(details: Yaml, path: seq<string>, errors: seq<Error>) returns (r: seq<Error>)
    ensures r == errors + SubErrors(details, path)
  {
    if !details.Dict? {
      return errors + [Error(path, NotAMapping)];
    }
    r := ValidateKeys(details.entries, SUBCATEGORY_KEYS, path, errors);
    r := r + BudgetErrors(details.entries, path);
    var node := Get(details.entries, "Type");
    if node.Some? {
      r := ValidateTypeNode(node.value, path + ["Type"], r);
    }
  }

  method ValidateSubs(subs: seq<Entry>, path: seq<string>, errors: seq<Error>) returns (r: seq<Error>, sum: int)
    ensures r == errors + SubsErrors(subs, path)
    ensures sum == SubBudgets(subs)
  {
    r, sum := errors, 0;
    for i := 0 to |subs|
      invariant r == errors + SubsErrors(subs[..i], path)
      invariant sum == SubBudgets(subs[..i])
    {
      assert subs[..i + 1][..i] == subs[..i];
      r := ValidateSub(subs[i].value, path + [subs[i].key], r);
      sum := sum + CountedBudget(subs[i].value);
    }
    assert subs[..|subs|] == subs;
  }

  /** A category's complaints, appended part by part. */
  lemma {:induction false} CategoryInParts(details: Yaml, subs: seq<Entry>, path: seq<string>, errors: seq<Error>)
    requires details.Dict? && GetOrEmpty(details.entries, "SubCategories") == Dict(subs)
    ensures errors + CategoryErrors(details, path)
         == errors + KeyErrors(details.entries, CATEGORY_KEYS, path) + BudgetErrors(details.entries, path)
          + SubsErrors(subs, path) + CeilingErrors(details.entries, subs, path)
  {
    FiveInOrder(errors, KeyErrors(details.entries, CATEGORY_KEYS, path), BudgetErrors(details.entries, path),
      SubsErrors(subs, path), CeilingErrors(details.entries, subs, path));
  }

  lemma {:induction false} FiveInOrder(
    a: seq<Error>, b: seq<Error>, c: seq<Error>, d: seq<Error>, e: seq<Error>)
    ensures a + (b + c + (d + e)) == a + b + c + d + e
  {
  }

  method ValidateCategory(details: Yaml, path: seq<string>, errors: seq<Error>) returns (r: seq<Error>)
    ensures r == errors + CategoryErrors(details, path)
  {
    if !details.Dict? {
      return errors + [Error(path, NotAMapping)];
    }
    r := ValidateKeys(details.entries, CATEGORY_KEYS, path, errors);
    r := r + BudgetErrors(details.entries, path);
    var subs := GetOrEmpty(details.entries, "SubCategories");
    if !subs.Dict? {
      return r + [Error(path + ["SubCategories"], NotAMapping)];
    }
    var sum;
    r, sum := ValidateSubs(subs.entries, path, r);
    CategoryInParts(details, subs.entries, path, errors);
    var budget := Get(details.entries, "Budget");
    if budget.Some? && IsNumber(budget.value) && sum > NumberOf(budget.value) {
      r := r + [Error(path, OverBudget(sum, NumberOf(budget.value)))];
    }
  }

  method ValidateBudgetMap(data: Yaml) returns (errors: seq<Error>)
    ensures errors == MapErrors(data)
  {
    if !data.Dict? {
      return [Error([], NotAMapping)];
    }
    errors := [];
    for i := 0 to |data.entries|
      invariant errors == CategoriesErrors(data.entries[..i])
    {
      assert data.entries[..i + 1][..i] == data.entries[..i];
      errors := ValidateCategory(data.entries[i].value, [data.entries[i].key], errors);
    }
    assert data.entries[..|data.entries|] == data.entries;
  }
}
