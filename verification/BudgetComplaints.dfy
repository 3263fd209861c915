/** What each complaint about a budget map means. */
module BudgetComplaints {
  import opened Prelude
  import opened Grouping
  import opened BudgetMap
  import opened BudgetShape

  // Said of places in the document: where it is wrong, and what is there.

  /** The mapping holds this value under this key. */
  ghost predicate At(entries: seq<Entry>, key: string, value: Yaml) {
    exists i | 0 <= i < |entries| :: entries[i].key == key && entries[i].value == value
  }

  /** Looking a key up finds the last value under it, which in a mapping is the only one. */
  lemma {:induction false} GetFindsIt(entries: seq<Entry>, key: string, value: Yaml)
    ensures Get(entries, key) == Some(value) ==> At(entries, key, value)
    ensures Get(entries, key) == None <==> forall i | 0 <= i < |entries| :: entries[i].key != key
    ensures KeysOnce(entries) && At(entries, key, value) ==> Get(entries, key) == Some(value)
  {
    if entries != [] {
      var init, last := entries[..|entries| - 1], entries[|entries| - 1];
      GetFindsIt(init, key, value);
      assert forall i | 0 <= i < |init| :: init[i] == entries[i];
    }
  }

  /** Following the keys down from the mapping leads to this value. */
  ghost predicate Reaches(entries: seq<Entry>, keys: seq<string>, value: Yaml)
    decreases |keys|
  {
    && keys != []
    && if |keys| == 1 then At(entries, keys[0], value)
       else exists below :: At(entries, keys[0], Dict(below)) && Reaches(below, keys[1..], value)
  }

  /** What is wrong with a value below a `Type`, if anything is. */
  function WrongWith(value: Yaml): Option<Complaint> {
    match value
    case List(items) =>
      if |items| == 0 then Some(EmptyList)
      else if exists v | v in items :: !v.Str? then Some(NotOnlyStrings)
      else None
    case Dict(_) => None
    case _ => Some(NeitherListNorMapping)
  }

  /** The complaint is about a value below the mapping at `path`, and names its place. */
  ghost predicate IsBelow(entries: seq<Entry>, path: seq<string>, e: Error) {
    && |e.path| > |path| && e.path[..|path|] == path
    && exists value :: Reaches(entries, e.path[|path|..], value) && WrongWith(value) == Some(e.complaint)
  }

  ghost predicate IsUnder(entry: Entry, path: seq<string>, e: Error) {
    || (e.path == path + [entry.key] && WrongWith(entry.value) == Some(e.complaint))
    || (entry.value.Dict? && IsBelow(entry.value.entries, path + [entry.key], e))
  }

  lemma {:induction false} OneKeyDown(path: seq<string>, key: string, long: seq<string>)
    ensures |long| > |path| && long[..|path|] == path && long[|path|] == key
       <==> |long| >= |path| + 1 && long[..|path| + 1] == path + [key]
    ensures |long| > |path| ==> long[|path|..][0] == long[|path|] && long[|path|..][1..] == long[|path| + 1..]
    ensures |long| == |path| + 1 && long[..|path|] == path ==> long == path + [long[|path|]]
  {
    if |long| > |path| {
      assert long[..|path| + 1] == long[..|path|] + [long[|path|]];
    }
    if |long| == |path| + 1 {
      assert long == long[..|path| + 1];
    }
  }

  /** What is below the mapping is under one of its entries. */
  lemma {:induction false} BelowIsUnder(entries: seq<Entry>, path: seq<string>, e: Error)
    ensures IsBelow(entries, path, e) <==> SomeUnder(entries, path, e)
  {
    if IsBelow(entries, path, e) {
      var i := BelowSome(entries, path, e);
    }
    forall i | 0 <= i < |entries| && IsUnder(entries[i], path, e) ensures IsBelow(entries, path, e) {
      UnderIsBelow(entries, path, e, i);
    }
  }

  lemma {:induction false} BelowSome(entries: seq<Entry>, path: seq<string>, e: Error) returns (i: nat)
    requires IsBelow(entries, path, e)
    ensures i < |entries| && IsUnder(entries[i], path, e)
  {
    var keys := e.path[|path|..];
    var value :| Reaches(entries, keys, value) && WrongWith(value) == Some(e.complaint);
    OneKeyDown(path, keys[0], e.path);
    if |keys| == 1 {
      i :| 0 <= i < |entries| && entries[i].key == keys[0] && entries[i].value == value;
    } else {
      var below :| At(entries, keys[0], Dict(below)) && Reaches(below, keys[1..], value);
      i :| 0 <= i < |entries| && entries[i].key == keys[0] && entries[i].value == Dict(below);
      assert e.path[|path + [keys[0]]|..] == keys[1..];
    }
  }

  lemma {:induction false} UnderIsBelow(entries: seq<Entry>, path: seq<string>, e: Error, i: nat)
    requires i < |entries| && IsUnder(entries[i], path, e)
    ensures IsBelow(entries, path, e)
  {
    var entry := entries[i];
    OneKeyDown(path, entry.key, e.path);
    if e.path == path + [entry.key] && WrongWith(entry.value) == Some(e.complaint) {
      assert e.path[|path|..] == [entry.key];
      assert Reaches(entries, [entry.key], entry.value);
    } else {
      var longer := path + [entry.key];
      var value :| Reaches(entry.value.entries, e.path[|longer|..], value) && WrongWith(value) == Some(e.complaint);
      assert At(entries, entry.key, Dict(entry.value.entries));
      assert Reaches(entries, e.path[|path|..], value);
    }
  }

  ghost predicate SomeUnder(entries: seq<Entry>, path: seq<string>, e: Error) {
    exists i | 0 <= i < |entries| :: IsUnder(entries[i], path, e)
  }

  lemma {:induction false} OneMoreUnder(entries: seq<Entry>, path: seq<string>, e: Error)
    requires entries != []
    ensures SomeUnder(entries, path, e)
       <==> SomeUnder(entries[..|entries| - 1], path, e) || IsUnder(entries[|entries| - 1], path, e)
  {
    var init := entries[..|entries| - 1];
    assert forall i | 0 <= i < |init| :: init[i] == entries[i];
  }

  lemma {:induction false} LastErrors(entries: seq<Entry>, path: seq<string>, e: Error)
    requires entries != []
    ensures e in NestedErrors(entries, path)
       <==> e in NestedErrors(entries[..|entries| - 1], path) || e in EntryErrors(entries[|entries| - 1], path)
  {
    InConcat(e, NestedErrors(entries[..|entries| - 1], path), EntryErrors(entries[|entries| - 1], path));
  }

  lemma {:induction false} NestedComplaints(entries: seq<Entry>, path: seq<string>, e: Error)
    ensures e in NestedErrors(entries, path) <==> IsBelow(entries, path, e)
    decreases entries
  {
    BelowIsUnder(entries, path, e);
    if entries != [] {
      var init, last := entries[..|entries| - 1], entries[|entries| - 1];
      NestedComplaints(init, path, e);
      BelowIsUnder(init, path, e);
      if last.value.Dict? {
        NestedComplaints(last.value.entries, path + [last.key], e);
      }
      LastIsUnder(last, path, e);
      OneMoreUnder(entries, path, e);
      LastErrors(entries, path, e);
    }
  }

  function EntryErrors(entry: Entry, path: seq<string>): seq<Error> {
    var at := path + [entry.key];
    match entry.value
    case List(items) =>
      if items == [] then [Error(at, EmptyList)]
      else if !AllStrings(items) then [Error(at, NotOnlyStrings)]
      else []
    case Dict(below) => NestedErrors(below, at)
    case _ => [Error(at, NeitherListNorMapping)]
  }

  lemma {:induction false} LastIsUnder(entry: Entry, path: seq<string>, e: Error)
    requires entry.value.Dict? ==>
               (e in NestedErrors(entry.value.entries, path + [entry.key]) <==>
                IsBelow(entry.value.entries, path + [entry.key], e))
    ensures e in EntryErrors(entry, path) <==> IsUnder(entry, path, e)
  {
    if entry.value.List? {
      var items := entry.value.items;
      assert AllStrings(items) <==> forall v | v in items :: v.Str?;
    }
  }

  // ---- Subcategories and categories -------------------------------------------------------

  /** A key the mapping should not have. */
  ghost predicate IsOddKey(entries: seq<Entry>, allowed: set<string>, path: seq<string>, e: Error) {
    && e.path == path && e.complaint.UnexpectedKey? && e.complaint.key !in allowed
    && exists i | 0 <= i < |entries| :: entries[i].key == e.complaint.key
  }

  lemma {:induction false} KeyComplaints(entries: seq<Entry>, allowed: set<string>, path: seq<string>, e: Error)
    ensures e in KeyErrors(entries, allowed, path) <==> IsOddKey(entries, allowed, path, e)
  {
    if entries != [] {
      var init, last := entries[..|entries| - 1], entries[|entries| - 1];
      KeyComplaints(init, allowed, path, e);
      assert forall i | 0 <= i < |init| :: init[i] == entries[i];
    }
  }

  /** A budget that is no number. */
  ghost predicate IsOddBudget(entries: seq<Entry>, path: seq<string>, e: Error) {
    && e == Error(path + ["Budget"], NotANumber)
    && Get(entries, "Budget").Some? && !Get(entries, "Budget").value.Num? && !Get(entries, "Budget").value.Flag?
  }

  ghost predicate IsAboutType(entries: seq<Entry>, path: seq<string>, e: Error) {
    var node := Get(entries, "Type");
    && node.Some?
    && if node.value.Dict? then IsBelow(node.value.entries, path + ["Type"], e)
       else e == Error(path + ["Type"], NotAMapping)
  }

  ghost predicate IsAboutSub(details: Yaml, path: seq<string>, e: Error) {
    if !details.Dict? then e == Error(path, NotAMapping)
    else
      || IsOddKey(details.entries, {"Budget", "Type"}, path, e)
      || IsOddBudget(details.entries, path, e)
      || IsAboutType(details.entries, path, e)
  }

  lemma {:induction false} SubComplaints(details: Yaml, path: seq<string>, e: Error)
    ensures e in SubErrors(details, path) <==> IsAboutSub(details, path, e)
  {
    if details.Dict? {
      KeyComplaints(details.entries, SUBCATEGORY_KEYS, path, e);
      var node := Get(details.entries, "Type");
      if node.Some? && node.value.Dict? {
        NestedComplaints(node.value.entries, path + ["Type"], e);
      }
    }
  }

  ghost predicate IsAboutSubs(subs: seq<Entry>, path: seq<string>, e: Error) {
    exists i | 0 <= i < |subs| :: IsAboutSub(subs[i].value, path + [subs[i].key], e)
  }

  lemma {:induction false} SubsComplaints(subs: seq<Entry>, path: seq<string>, e: Error)
    ensures e in SubsErrors(subs, path) <==> IsAboutSubs(subs, path, e)
  {
    if subs != [] {
      var init, last := subs[..|subs| - 1], subs[|subs| - 1];
      SubsComplaints(init, path, e);
      SubComplaints(last.value, path + [last.key], e);
      InConcat(e, SubsErrors(init, path), SubErrors(last.value, path + [last.key]));
      assert forall i | 0 <= i < |init| :: init[i] == subs[i];
    }
  }

  /** The subcategories' budgets together exceed the category's own; the complaint quotes both. */
  ghost predicate IsOverspent(details: seq<Entry>, subs: seq<Entry>, path: seq<string>, e: Error) {
    && Get(details, "Budget").Some? && (Get(details, "Budget").value.Num? || Get(details, "Budget").value.Flag?)
    && Sum(BudgetIn(), subs) > Amount(Get(details, "Budget").value)
    && e == Error(path, OverBudget(Sum(BudgetIn(), subs), Amount(Get(details, "Budget").value)))
  }

  ghost predicate IsAboutCategory(details: Yaml, path: seq<string>, e: Error) {
    if !details.Dict? then e == Error(path, NotAMapping)
    else
      var subs := Get(details.entries, "SubCategories");
      || IsOddKey(details.entries, {"Budget", "SubCategories"}, path, e)
      || IsOddBudget(details.entries, path, e)
      || (subs.Some? && !subs.value.Dict? && e == Error(path + ["SubCategories"], NotAMapping))
      || (subs.Some? && subs.value.Dict? && IsAboutSubs(subs.value.entries, path, e))
      || (subs.Some? && subs.value.Dict? && IsOverspent(details.entries, subs.value.entries, path, e))
      || (subs.None? && IsOverspent(details.entries, [], path, e))
  }

  lemma {:induction false} CeilingComplaints(details: seq<Entry>, subs: seq<Entry>, path: seq<string>, e: Error)
    ensures e in CeilingErrors(details, subs, path) <==> IsOverspent(details, subs, path, e)
  {
    BudgetsAddUp(subs);
  }

  lemma {:induction false} CategoryComplaints(details: Yaml, path: seq<string>, e: Error)
    ensures e in CategoryErrors(details, path) <==> IsAboutCategory(details, path, e)
  {
    if details.Dict? {
      KeyComplaints(details.entries, CATEGORY_KEYS, path, e);
      var subs := GetOrEmpty(details.entries, "SubCategories");
      if subs.Dict? {
        SubsComplaints(subs.entries, path, e);
        CeilingComplaints(details.entries, subs.entries, path, e);
      }
    }
  }

  ghost predicate IsAboutCategories(categories: seq<Entry>, e: Error) {
    exists i | 0 <= i < |categories| :: IsAboutCategory(categories[i].value, [categories[i].key], e)
  }

  lemma {:induction false} CategoriesComplaints(categories: seq<Entry>, e: Error)
    ensures e in CategoriesErrors(categories) <==> IsAboutCategories(categories, e)
  {
    if categories != [] {
      var init, last := categories[..|categories| - 1], categories[|categories| - 1];
      CategoriesComplaints(init, e);
      CategoryComplaints(last.value, [last.key], e);
      InConcat(e, CategoriesErrors(init), CategoryErrors(last.value, [last.key]));
      assert forall i | 0 <= i < |init| :: init[i] == categories[i];
    }
  }

  /** The validator makes a complaint exactly when something is wrong, there and in that way. */
  lemma {:induction false} ComplaintsAreExact(data: Yaml, e: Error)
    ensures e in MapErrors(data) <==>
      if data.Dict? then IsAboutCategories(data.entries, e) else e == Error([], NotAMapping)
  {
    if data.Dict? {
      CategoriesComplaints(data.entries, e);
    }
  }
}
