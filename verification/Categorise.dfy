/** Giving each transaction the label of the first rule whose text it contains. */
module Categorise {
  import opened Prelude
  import opened BudgetMap
  import opened BudgetRows
  import opened BudgetLeaves

  /** A flattened row, as far as categorising uses it. */
  datatype Rule = Rule(rowLabel: string, categorySK: int, text: string)

  /** A transaction after the merge; None where no rule matched. */
  datatype Labelled<T> = Labelled(txn: T, rule: Option<Rule>)

  predicate OccursAt(needle: string, hay: string, i: nat) {
    i + |needle| <= |hay| && hay[i..i + |needle|] == needle
  }

  predicate Contains(hay: string, needle: string) {
    exists i | 0 <= i <= |hay| :: OccursAt(needle, hay, i)
  }

  predicate Fires(upper: string -> string, rule: Rule, description: string) {
    Contains(upper(description), upper(rule.text))
  }

  /** The text of the first rule that fires. */
  function FirstMatch(upper: string -> string, rules: seq<Rule>, description: string): Option<string> {
    if rules == [] then None
    else if Fires(upper, rules[0], description) then Some(rules[0].text)
    else FirstMatch(upper, rules[1..], description)
  }

  function WithText(text: string): Rule -> bool {
    (rule: Rule) => rule.text == text
  }

  function LabelWith<T>(txn: T): Rule -> Labelled<T> {
    rule => Labelled(txn, Some(rule))
  }

  /** One left row of `merge(how='left')`: every rule with that text, or the row alone. */
  function Joined<T>(rules: seq<Rule>, txn: T, key: Option<string>): (r: seq<Labelled<T>>)
    ensures r != []
  {
    if key.None? || Filter(WithText(key.value), rules) == [] then [Labelled(txn, None)]
    else Map(LabelWith(txn), Filter(WithText(key.value), rules))
  }

  function Merged<T>(
    upper: string -> string, rules: seq<Rule>, describe: T -> string, txns: seq<T>): seq<Labelled<T>>
  {
    if txns == [] then []
    else
      var last := txns[|txns| - 1];
      Merged(upper, rules, describe, txns[..|txns| - 1])
      + Joined(rules, last, FirstMatch(upper, rules, describe(last)))
  }

  method CheckMatch(upper: string -> string, rules: seq<Rule>, description: string) returns (key: Option<string>)
    ensures key == FirstMatch(upper, rules, description)
  {
    for i := 0 to |rules|
      invariant FirstMatch(upper, rules, description) == FirstMatch(upper, rules[i..], description)
    {
      if Fires(upper, rules[i], description) {
        return Some(rules[i].text);
      }
      assert rules[i..][1..] == rules[i + 1..];
    }
    return None;
  }

  method MapCategories<T>(upper: string -> string, rules: seq<Rule>, describe: T -> string, txns: seq<T>)
    returns (r: seq<Labelled<T>>)
    ensures r == Merged(upper, rules, describe, txns)
  {
    r := [];
    for i := 0 to |txns|
      invariant r == Merged(upper, rules, describe, txns[..i])
    {
      var key := CheckMatch(upper, rules, describe(txns[i]));
      assert txns[..i + 1][..i] == txns[..i];
      r := r + Joined(rules, txns[i], key);
    }
    assert txns[..|txns|] == txns;
  }

  // ---- First match --------------------------------------------------------------------------

  /** The first rule that fires, by position. */
  ghost predicate IsFirst(upper: string -> string, rules: seq<Rule>, description: string, i: nat) {
    i < |rules| && Fires(upper, rules[i], description)
    && forall k | 0 <= k < i :: !Fires(upper, rules[k], description)
  }

  lemma {:induction false} FirstMatchIsFirst(upper: string -> string, rules: seq<Rule>, description: string)
    returns (i: nat)
    ensures FirstMatch(upper, rules, description).Some?
        ==> IsFirst(upper, rules, description, i) && FirstMatch(upper, rules, description) == Some(rules[i].text)
    ensures FirstMatch(upper, rules, description).None?
        ==> forall k | 0 <= k < |rules| :: !Fires(upper, rules[k], description)
  {
    i := 0;
    if rules != [] && !Fires(upper, rules[0], description) {
      var j := FirstMatchIsFirst(upper, rules[1..], description);
      i := j + 1;
      assert forall k | 0 < k < |rules| :: rules[k] == rules[1..][k - 1];
    }
  }

  ghost predicate DistinctTexts(rules: seq<Rule>) {
    forall i, j | 0 <= i < j < |rules| :: rules[i].text != rules[j].text
  }

  lemma {:induction false} OneWithText(rules: seq<Rule>, i: nat)
    requires i < |rules| && forall j | 0 <= j < |rules| && j != i :: rules[j].text != rules[i].text
    ensures Filter(WithText(rules[i].text), rules) == [rules[i]]
  {
    var keep := WithText(rules[i].text);
    var before, after := rules[..i], rules[i + 1..];
    NoneWithText(before, rules[i].text);
    NoneWithText(after, rules[i].text);
    assert rules == before + ([rules[i]] + after);
    FilterConcat(keep, before, [rules[i]] + after);
    assert ([rules[i]] + after)[1..] == after;
  }

  lemma {:induction false} NoneWithText(rules: seq<Rule>, text: string)
    requires forall j | 0 <= j < |rules| :: rules[j].text != text
    ensures Filter(WithText(text), rules) == []
  {
    if rules != [] {
      NoneWithText(rules[1..], text);
    }
  }

  ghost predicate IsFirstRule(upper: string -> string, rules: seq<Rule>, description: string, rule: Rule) {
    exists i: nat :: IsFirst(upper, rules, description, i) && rules[i] == rule
  }

  /** What a transaction should become: the label of the first rule that fires, if any does. */
  ghost predicate LabelledByFirst<T>(
    upper: string -> string, rules: seq<Rule>, describe: T -> string, txn: T, out: Labelled<T>) {
    && out.txn == txn
    && (out.rule.None? ==> forall k | 0 <= k < |rules| :: !Fires(upper, rules[k], describe(txn)))
    && (out.rule.Some? ==> IsFirstRule(upper, rules, describe(txn), out.rule.value))
  }

  lemma {:induction false} JoinsOnce<T>(upper: string -> string, rules: seq<Rule>, describe: T -> string, txn: T)
    requires DistinctTexts(rules)
    ensures var r := Joined(rules, txn, FirstMatch(upper, rules, describe(txn)));
            |r| == 1 && LabelledByFirst(upper, rules, describe, txn, r[0])
  {
    var i := FirstMatchIsFirst(upper, rules, describe(txn));
    if FirstMatch(upper, rules, describe(txn)).Some? {
      OneWithText(rules, i);
    }
  }

  /**
   * With distinct match texts, categorising keeps every transaction once and in order,
   * and labels each by the first rule that fires on it.
   */
  lemma {:induction false} CategorisingKeepsRows<T>(
    upper: string -> string, rules: seq<Rule>, describe: T -> string, txns: seq<T>)
    requires DistinctTexts(rules)
    ensures |Merged(upper, rules, describe, txns)| == |txns|
    ensures forall k | 0 <= k < |txns| ::
              LabelledByFirst(upper, rules, describe, txns[k], Merged(upper, rules, describe, txns)[k])
  {
    if txns != [] {
      var init, last := txns[..|txns| - 1], txns[|txns| - 1];
      CategorisingKeepsRows(upper, rules, describe, init);
      JoinsOnce(upper, rules, describe, last);
      var before, all := Merged(upper, rules, describe, init), Merged(upper, rules, describe, txns);
      forall k | 0 <= k < |txns| ensures LabelledByFirst(upper, rules, describe, txns[k], all[k]) {
        if k < |init| {
          assert all[k] == before[k] && txns[k] == init[k];
        }
      }
    }
  }

  // ---- Repeated texts -----------------------------------------------------------------------

  /** Another rule has this rule's text. */
  ghost predicate SharesText(rules: seq<Rule>, i: nat)
    requires i < |rules|
  {
    exists j | 0 <= j < |rules| :: j != i && rules[j].text == rules[i].text
  }

  lemma {:induction false} MatchedTextIsPresent(upper: string -> string, rules: seq<Rule>, description: string)
    requires FirstMatch(upper, rules, description).Some?
    ensures Filter(WithText(FirstMatch(upper, rules, description).value), rules) != []
  {
    var i := FirstMatchIsFirst(upper, rules, description);
    assert rules[i] in Filter(WithText(rules[i].text), rules);
  }

  lemma {:induction false} TwoWithText(rules: seq<Rule>, i: nat, j: nat)
    requires i < j < |rules| && rules[i].text == rules[j].text
    ensures |Filter(WithText(rules[i].text), rules)| > 1
  {
    var keep := WithText(rules[i].text);
    assert rules == rules[..j] + rules[j..];
    FilterConcat(keep, rules[..j], rules[j..]);
    assert rules[..j][i] in Filter(keep, rules[..j]) && rules[j..][0] in Filter(keep, rules[j..]);
  }

  /** A matched transaction becomes one row exactly when no other rule has the text it matched. */
  lemma {:induction false} JoinSize<T>(
    upper: string -> string, rules: seq<Rule>, describe: T -> string, txn: T, i: nat)
    requires IsFirst(upper, rules, describe(txn), i)
    ensures |Joined(rules, txn, FirstMatch(upper, rules, describe(txn)))| == 1 <==> !SharesText(rules, i)
  {
    var first := FirstMatchIsFirst(upper, rules, describe(txn));
    assert first == i;
    MatchedTextIsPresent(upper, rules, describe(txn));
    if SharesText(rules, i) {
      var j :| 0 <= j < |rules| && j != i && rules[j].text == rules[i].text;
      TwoWithText(rules, if i < j then i else j, if i < j then j else i);
    } else {
      OneWithText(rules, i);
    }
  }

  /** The rule that fires first on this description, if one does, shares its text with no other. */
  ghost predicate MatchIsUnshared(upper: string -> string, rules: seq<Rule>, description: string) {
    forall i: nat | IsFirst(upper, rules, description, i) :: !SharesText(rules, i)
  }

  lemma {:induction false} JoinsOnceIff<T>(upper: string -> string, rules: seq<Rule>, describe: T -> string, txn: T)
    ensures |Joined(rules, txn, FirstMatch(upper, rules, describe(txn)))| == 1
       <==> MatchIsUnshared(upper, rules, describe(txn))
  {
    var first := FirstMatchIsFirst(upper, rules, describe(txn));
    if FirstMatch(upper, rules, describe(txn)).Some? {
      JoinSize(upper, rules, describe, txn, first);
    }
  }

  /**
   * The merge never drops a transaction, and keeps the count exactly when no rule that
   * fires first on some transaction shares its text with another rule.
   */
  lemma {:induction false} RepeatedTextsMultiplyRows<T>(
    upper: string -> string, rules: seq<Rule>, describe: T -> string, txns: seq<T>)
    ensures |Merged(upper, rules, describe, txns)| >= |txns|
    ensures |Merged(upper, rules, describe, txns)| == |txns|
       <==> forall k | 0 <= k < |txns| :: MatchIsUnshared(upper, rules, describe(txns[k]))
  {
    if txns != [] {
      var init, last := txns[..|txns| - 1], txns[|txns| - 1];
      RepeatedTextsMultiplyRows(upper, rules, describe, init);
      JoinsOnceIff(upper, rules, describe, last);
      assert |Joined(rules, last, FirstMatch(upper, rules, describe(last)))| >= 1;
      assert forall k | 0 <= k < |init| :: init[k] == txns[k];
    }
  }

  /** Two rules with one text: the purchase it matches is booked twice, under both labels. */
  lemma {:induction false} OnePurchaseBookedTwice(upper: string -> string, a: Rule, b: Rule)
    requires a.text == b.text
    ensures Merged(upper, [a, b], (d: string) => d, [a.text]) == [Labelled(a.text, Some(a)), Labelled(a.text, Some(b))]
  {
    assert OccursAt(upper(a.text), upper(a.text), 0);
    assert Fires(upper, a, a.text);
    assert [a, b][1..] == [b] && [b][1..] == [];
    assert Filter(WithText(a.text), [a, b]) == [a, b];
    assert Merged(upper, [a, b], (d: string) => d, []) == [];
    assert [a.text][..0] == [];
  }

  // ---- Adding rules -------------------------------------------------------------------------

  lemma {:induction false} AppendingKeepsMatch(
    upper: string -> string, rules: seq<Rule>, more: seq<Rule>, description: string)
    requires FirstMatch(upper, rules, description).Some?
    ensures FirstMatch(upper, rules + more, description) == FirstMatch(upper, rules, description)
  {
    assert (rules + more)[0] == rules[0] && (rules + more)[1..] == rules[1..] + more;
    if !Fires(upper, rules[0], description) {
      AppendingKeepsMatch(upper, rules[1..], more, description);
    }
  }

  lemma {:induction false} MergedAt<T>(
    upper: string -> string, rules: seq<Rule>, describe: T -> string, txns: seq<T>, k: nat)
    requires DistinctTexts(rules) && k < |txns|
    ensures |Merged(upper, rules, describe, txns)| == |txns|
    ensures Merged(upper, rules, describe, txns)[k]
         == Joined(rules, txns[k], FirstMatch(upper, rules, describe(txns[k])))[0]
    decreases |txns|
  {
    var init, last := txns[..|txns| - 1], txns[|txns| - 1];
    CategorisingKeepsRows(upper, rules, describe, init);
    JoinsOnce(upper, rules, describe, last);
    if k < |init| {
      MergedAt(upper, rules, describe, init, k);
    }
  }

  lemma {:induction false} AppendingKeepsFirstJoin<T>(rules: seq<Rule>, more: seq<Rule>, txn: T, key: Option<string>)
    requires key.Some? && Filter(WithText(key.value), rules) != []
    ensures Joined(rules + more, txn, key)[0] == Joined(rules, txn, key)[0]
  {
    FilterConcat(WithText(key.value), rules, more);
  }

  /** Rules added at the end never recategorise a transaction that already had one. */
  lemma {:induction false} AppendingNeverRecategorises<T>(
    upper: string -> string, rules: seq<Rule>, more: seq<Rule>, describe: T -> string, txns: seq<T>, k: nat)
    requires DistinctTexts(rules + more) && k < |txns|
    ensures |Merged(upper, rules, describe, txns)| == |txns| == |Merged(upper, rules + more, describe, txns)|
    ensures Merged(upper, rules, describe, txns)[k].rule.Some? ==>
              Merged(upper, rules + more, describe, txns)[k] == Merged(upper, rules, describe, txns)[k]
  {
    assert DistinctTexts(rules) by {
      assert forall i | 0 <= i < |rules| :: (rules + more)[i] == rules[i];
    }
    MergedAt(upper, rules, describe, txns, k);
    MergedAt(upper, rules + more, describe, txns, k);
    var key := FirstMatch(upper, rules, describe(txns[k]));
    if key.Some? {
      MatchedTextIsPresent(upper, rules, describe(txns[k]));
      AppendingKeepsMatch(upper, rules, more, describe(txns[k]));
      AppendingKeepsFirstJoin(rules, more, txns[k], key);
    }
  }

  // ---- The rules of a document --------------------------------------------------------------

  /** A flattened row as a rule; a validated document's texts are all strings. */
  function RuleOf(key: (string, string) -> int): MapRow -> Rule {
    (row: MapRow) =>
      Rule(row.rowLabel, key(row.category, row.subCategory), if row.text.Str? then row.text.s else "")
  }

  /** The rule a leaf stands for: the key of its list, its subcategory's key and its own text. */
  function LeafRule(key: (string, string) -> int, p: Placed): Rule
    requires p.leaf.keys != [] && p.leaf.text.Str?
  {
    Rule(p.leaf.keys[|p.leaf.keys| - 1], key(p.category, p.sub), p.leaf.text.s)
  }

  ghost predicate AreTexts(leaves: seq<Placed>) {
    forall i | 0 <= i < |leaves| :: leaves[i].leaf.keys != [] && leaves[i].leaf.text.Str?
  }

  predicate Occurs(upper: string -> string, p: Placed, description: string)
    requires p.leaf.text.Str?
  {
    Contains(upper(description), upper(p.leaf.text.s))
  }

  /** The first leaf in document order whose text occurs in the description. */
  ghost predicate IsFirstLeaf(upper: string -> string, leaves: seq<Placed>, description: string, i: nat)
    requires AreTexts(leaves)
  {
    i < |leaves| && Occurs(upper, leaves[i], description)
    && forall k | 0 <= k < i :: !Occurs(upper, leaves[k], description)
  }

  /** The transaction carries the rule of the first leaf that occurs in it, or none when none does. */
  ghost predicate LabelledByLeaf<T>(
    upper: string -> string, key: (string, string) -> int, leaves: seq<Placed>, description: string, txn: T,
    out: Labelled<T>)
    requires AreTexts(leaves)
  {
    && out.txn == txn
    && (out.rule.None? ==> forall i | 0 <= i < |leaves| :: !Occurs(upper, leaves[i], description))
    && (out.rule.Some? ==>
          exists i: nat :: IsFirstLeaf(upper, leaves, description, i) && out.rule.value == LeafRule(key, leaves[i]))
  }

  lemma {:induction false} LeavesAreTexts(data: Yaml, leaves: seq<Placed>)
    requires MapErrors(data) == [] && data.Dict? && KeysOnce(data.entries) && leaves == AllLeaves(data.entries)
    ensures AreTexts(leaves)
  {
    forall i | 0 <= i < |leaves| ensures leaves[i].leaf.keys != [] && leaves[i].leaf.text.Str? {
      assert leaves[i] in leaves;
      AllLeavesHold(data.entries, leaves[i]);
      TextsAreStrings(data, leaves[i]);
    }
  }

  lemma {:induction false} RulesAreLeaves(
    key: (string, string) -> int, categories: seq<Entry>, leaves: seq<Placed>, rules: seq<Rule>)
    requires AreTexts(leaves) && rules == Map(RuleOf(key), Map(RowOf(categories), leaves))
    ensures |rules| == |leaves| && forall i | 0 <= i < |leaves| :: rules[i] == LeafRule(key, leaves[i])
  {
  }

  lemma {:induction false} LabelIsALeafs<T>(
    upper: string -> string, key: (string, string) -> int, leaves: seq<Placed>, rules: seq<Rule>,
    describe: T -> string, txn: T, out: Labelled<T>)
    requires AreTexts(leaves)
    requires |rules| == |leaves| && forall i | 0 <= i < |leaves| :: rules[i] == LeafRule(key, leaves[i])
    requires LabelledByFirst(upper, rules, describe, txn, out)
    ensures LabelledByLeaf(upper, key, leaves, describe(txn), txn, out)
  {
    var description := describe(txn);
    forall i | 0 <= i < |leaves| ensures Fires(upper, rules[i], description) == Occurs(upper, leaves[i], description) {
      assert rules[i].text == leaves[i].leaf.text.s;
    }
    if out.rule.Some? {
      var i: nat :| IsFirst(upper, rules, description, i) && rules[i] == out.rule.value;
      assert IsFirstLeaf(upper, leaves, description, i);
    }
  }

  /** The rules of a flattened document. */
  ghost function RulesOf(key: (string, string) -> int, data: Yaml): seq<Rule> {
    if Flattened(data).Ok? then Map(RuleOf(key), Flattened(data).value) else []
  }

  /**
   * From document to ledger: with distinct match strings, a validated budget map labels
   * every transaction, each in its place, with the list, subcategory and string of the
   * first leaf in document order whose string occurs in its description, or not at all
   * when none does.
   */
  lemma {:induction false} FirstLeafLabels<T>(
    upper: string -> string, key: (string, string) -> int, data: Yaml, leaves: seq<Placed>,
    describe: T -> string, txns: seq<T>, out: seq<Labelled<T>>)
    requires MapErrors(data) == [] && data.Dict? && KeysOnce(data.entries)
    requires leaves == AllLeaves(data.entries) && leaves != []
    requires forall i, j | 0 <= i < j < |leaves| :: leaves[i].leaf.text != leaves[j].leaf.text
    requires out == Merged(upper, RulesOf(key, data), describe, txns)
    ensures Flattened(data).Ok? && AreTexts(leaves) && |out| == |txns|
    ensures forall k | 0 <= k < |txns| :: LabelledByLeaf(upper, key, leaves, describe(txns[k]), txns[k], out[k])
  {
    var rules := RulesOf(key, data);
    FlatteningIsLossless(data, leaves);
    LeavesAreTexts(data, leaves);
    RulesAreLeaves(key, data.entries, leaves, rules);
    CategorisingKeepsRows(upper, rules, describe, txns);
    forall k | 0 <= k < |txns| ensures LabelledByLeaf(upper, key, leaves, describe(txns[k]), txns[k], out[k]) {
      LabelIsALeafs(upper, key, leaves, rules, describe, txns[k], out[k]);
    }
  }

  // ---- The budget table ---------------------------------------------------------------------

  datatype BudgetRow = BudgetRow(
    category: string,
    categoryBudget: Yaml,
    subCategory: string,
    subCategoryBudget: Yaml,
    categorySK: int)

  function WithoutLabel(key: (string, string) -> int): MapRow -> BudgetRow {
    (row: MapRow) => BudgetRow(row.category, row.categoryBudget, row.subCategory, row.subCategoryBudget,
      key(row.category, row.subCategory))
  }

  /** `drop(columns=['Label', 'StringMatch']).drop_duplicates()`. */
  function BudgetTable(key: (string, string) -> int, rows: seq<MapRow>): seq<BudgetRow> {
    Dedupe(Map(WithoutLabel(key), rows))
  }

  /** The one row a subcategory can have. */
  function RowForSub(key: (string, string) -> int, categories: seq<Entry>, category: string, sub: string): BudgetRow {
    BudgetRow(category, BudgetUnder(categories, category), sub, BudgetUnder(SubsUnder(categories, category), sub),
      key(category, sub))
  }

  function TableRow(key: (string, string) -> int, categories: seq<Entry>): Placed -> BudgetRow {
    (p: Placed) => RowForSub(key, categories, p.category, p.sub)
  }

  lemma {:induction false} TableRows(key: (string, string) -> int, categories: seq<Entry>, leaves: seq<Placed>)
    ensures Map(WithoutLabel(key), Map(RowOf(categories), leaves)) == Map(TableRow(key, categories), leaves)
  {
  }

  function SubOf(r: BudgetRow): (string, string) {
    (r.category, r.subCategory)
  }

  /** The budget table holds each subcategory that has a match string once, and no other. */
  lemma {:induction false} BudgetTableIsPerSubcategory(
    key: (string, string) -> int, categories: seq<Entry>, leaves: seq<Placed>, table: seq<BudgetRow>)
    requires leaves == AllLeaves(categories)
    requires table == BudgetTable(key, Map(RowOf(categories), leaves))
    ensures NoRepeats(Map(SubOf, table))
    ensures Elements(Map(SubOf, table)) == set p | p in leaves :: (p.category, p.sub)
  {
    var all := Map(TableRow(key, categories), leaves);
    TableRows(key, categories, leaves);
    forall r | r in table
      ensures r == RowForSub(key, categories, r.category, r.subCategory)
      ensures SubOf(r) in set p | p in leaves :: (p.category, p.sub)
    {
      assert r in Elements(all);
      assert leaves[Position(all, r)] in leaves;
    }
    forall p | p in leaves ensures (p.category, p.sub) in Elements(Map(SubOf, table)) {
      var r := RowForSub(key, categories, p.category, p.sub);
      assert all[Position(leaves, p)] == r;
      assert r in Elements(table);
      assert Map(SubOf, table)[Position(table, r)] == (p.category, p.sub);
    }
    forall x | x in Map(SubOf, table) ensures x in set p | p in leaves :: (p.category, p.sub) {
      assert table[Position(Map(SubOf, table), x)] in table;
    }
    MapInjective(SubOf, table);
  }
}
