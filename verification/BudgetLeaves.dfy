/** Flattening is lossless: each match string once, with its own names. */
module BudgetLeaves {
  import opened Prelude
  import opened BudgetMap
  import opened BudgetShape
  import opened BudgetRows

  /** The item the document holds at these keys and this place, found from the top down. */
  function Lookup(entries: seq<Entry>, keys: seq<string>, index: nat): Option<Yaml>
    decreases |keys|
  {
    if keys == [] then None
    else
      var value := Get(entries, keys[0]);
      if value.None? then None
      else if |keys| == 1 then
        if value.value.List? && index < |value.value.items| then Some(value.value.items[index]) else None
      else if value.value.Dict? then Lookup(value.value.entries, keys[1..], index)
      else None
  }

  function TypeUnder(subs: seq<Entry>, sub: string): seq<Entry> {
    var details := Get(subs, sub);
    if details.Some? && details.value.Dict? && GetOrEmpty(details.value.entries, "Type").Dict?
    then GetOrEmpty(details.value.entries, "Type").entries else []
  }

  /** The document holds this leaf under this category and subcategory. */
  ghost predicate Holds(categories: seq<Entry>, p: Placed) {
    Lookup(TypeUnder(SubsUnder(categories, p.category), p.sub), p.leaf.keys, p.leaf.index) == Some(p.leaf.text)
  }

  // ---- What every entry contributes ----------------------------------------------------------

  function Gather<T>(entries: seq<Entry>, part: Entry -> seq<T>): seq<T> {
    if entries == [] then [] else Gather(entries[..|entries| - 1], part) + part(entries[|entries| - 1])
  }

  ghost predicate DistinctKeys(entries: seq<Entry>) {
    forall i, j | 0 <= i < j < |entries| :: entries[i].key != entries[j].key
  }

  /** Every contribution names the entry it comes from. */
  ghost predicate Tagged<T(!new)>(part: Entry -> seq<T>, tag: T -> string) {
    forall e, x | x in part(e) :: tag(x) == e.key
  }

  lemma {:induction false} AbsentKey(entries: seq<Entry>, key: string)
    ensures Get(entries, key).None? <==> forall i | 0 <= i < |entries| :: entries[i].key != key
  {
    if entries != [] {
      AbsentKey(entries[..|entries| - 1], key);
    }
  }

  lemma {:induction false} GatherIff<T(!new)>(entries: seq<Entry>, part: Entry -> seq<T>, tag: T -> string, x: T)
    requires DistinctKeys(entries) && Tagged(part, tag)
    ensures x in Gather(entries, part)
       <==> Get(entries, tag(x)).Some? && x in part(Entry(tag(x), Get(entries, tag(x)).value))
  {
    if entries != [] {
      var init, last := entries[..|entries| - 1], entries[|entries| - 1];
      GatherIff(init, part, tag, x);
      AbsentKey(init, last.key);
    }
  }

  lemma {:induction false} ConcatNoRepeats<T>(a: seq<T>, b: seq<T>)
    requires NoRepeats(a) && NoRepeats(b) && forall x | x in b :: x !in a
    ensures NoRepeats(a + b)
  {
    forall i, j | 0 <= i < j < |a + b| ensures (a + b)[i] != (a + b)[j] {
      if i < |a| <= j {
        assert (a + b)[j] in b && (a + b)[i] in a;
      }
    }
  }

  lemma {:induction false} GatherOnce<T(!new)>(entries: seq<Entry>, part: Entry -> seq<T>, tag: T -> string)
    requires DistinctKeys(entries) && Tagged(part, tag)
    requires forall i | 0 <= i < |entries| :: NoRepeats(part(entries[i]))
    ensures NoRepeats(Gather(entries, part))
  {
    if entries != [] {
      var init, last := entries[..|entries| - 1], entries[|entries| - 1];
      GatherOnce(init, part, tag);
      forall x | x in part(last) ensures x !in Gather(init, part) {
        GatherIff(init, part, tag, x);
        AbsentKey(init, last.key);
      }
      ConcatNoRepeats(Gather(init, part), part(last));
    }
  }

  // ---- Below a Type -------------------------------------------------------------------------

  function EntryLeaves(keys: seq<string>): Entry -> seq<Leaf> {
    (e: Entry) => match e.value
      case List(items) => ItemLeaves(items, keys + [e.key])
      case Dict(below) => LeavesBelow(below, keys + [e.key])
      case _ => []
  }

  lemma {:induction false} LeavesAreGathered(entries: seq<Entry>, keys: seq<string>)
    ensures LeavesBelow(entries, keys) == Gather(entries, EntryLeaves(keys))
  {
    if entries != [] {
      LeavesAreGathered(entries[..|entries| - 1], keys);
    }
  }

  /** A leaf lies below the keys it was found under. */
  lemma {:induction false} LeavesExtend(entries: seq<Entry>, keys: seq<string>, leaf: Leaf)
    requires leaf in LeavesBelow(entries, keys)
    ensures |leaf.keys| > |keys| && leaf.keys[..|keys|] == keys
    decreases entries
  {
    var init, last := entries[..|entries| - 1], entries[|entries| - 1];
    if leaf in LeavesBelow(init, keys) {
      LeavesExtend(init, keys, leaf);
    } else if last.value.Dict? {
      LeavesExtend(last.value.entries, keys + [last.key], leaf);
      assert leaf.keys[..|keys|] == leaf.keys[..|keys| + 1][..|keys|];
    }
  }

  function KeyAfter(keys: seq<string>): Leaf -> string {
    (leaf: Leaf) => if |leaf.keys| > |keys| then leaf.keys[|keys|] else ""
  }

  lemma {:induction false} EntryLeavesAreTagged(keys: seq<string>)
    ensures Tagged(EntryLeaves(keys), KeyAfter(keys))
  {
    forall e, leaf | leaf in EntryLeaves(keys)(e) ensures KeyAfter(keys)(leaf) == e.key {
      EntryLeafIsTagged(keys, e, leaf);
    }
  }

  lemma {:induction false} EntryLeafIsTagged(keys: seq<string>, e: Entry, leaf: Leaf)
    requires leaf in EntryLeaves(keys)(e)
    ensures KeyAfter(keys)(leaf) == e.key
  {
    if e.value.Dict? {
      LeavesExtend(e.value.entries, keys + [e.key], leaf);
      assert leaf.keys[..|keys| + 1][|keys|] == e.key;
    }
  }

  ghost predicate HoldsBelow(entries: seq<Entry>, keys: seq<string>, leaf: Leaf) {
    |leaf.keys| > |keys| && leaf.keys[..|keys|] == keys
    && Lookup(entries, leaf.keys[|keys|..], leaf.index) == Some(leaf.text)
  }

  lemma {:induction false} OneEntry(e: Entry, key: string)
    ensures Get([e], key) == if e.key == key then Some(e.value) else None
  {
    assert [e][..0] == [];
  }

  lemma {:induction false} OneKeyMore(keys: seq<string>, key: string, long: seq<string>)
    ensures |long| > |keys| && long[..|keys|] == keys && long[|keys|] == key
       <==> |long| >= |keys| + 1 && long[..|keys| + 1] == keys + [key]
    ensures |long| > |keys| ==> long[|keys|..][0] == long[|keys|] && long[|keys|..][1..] == long[|keys| + 1..]
  {
    if |long| > |keys| {
      assert long[..|keys| + 1] == long[..|keys|] + [long[|keys|]];
    }
  }

  lemma {:induction false} ListEntryHolds(e: Entry, keys: seq<string>, leaf: Leaf)
    requires e.value.List?
    ensures leaf in EntryLeaves(keys)(e) <==> HoldsBelow([e], keys, leaf)
  {
    var items, at := e.value.items, keys + [e.key];
    OneKeyMore(keys, e.key, leaf.keys);
    if |leaf.keys| > |keys| {
      OneEntry(e, leaf.keys[|keys|]);
    }
    if HoldsBelow([e], keys, leaf) {
      assert leaf.keys == at && ItemLeaves(items, at)[leaf.index] == leaf;
    }
  }

  lemma {:induction false} NoEntryHolds(e: Entry, keys: seq<string>, leaf: Leaf)
    requires !e.value.List? && !e.value.Dict?
    ensures leaf !in EntryLeaves(keys)(e) && !HoldsBelow([e], keys, leaf)
  {
    if |leaf.keys| > |keys| {
      OneEntry(e, leaf.keys[|keys|..][0]);
    }
  }

  /** One entry contributes what looking up through it finds. */
  lemma {:induction false} EntryHolds(e: Entry, keys: seq<string>, leaf: Leaf)
    requires e.value.Dict? ==> KeysOnce(e.value.entries)
    ensures leaf in EntryLeaves(keys)(e) <==> HoldsBelow([e], keys, leaf)
    decreases e, 1
  {
    match e.value {
      case List(items) => ListEntryHolds(e, keys, leaf);
      case Dict(below) =>
        LeafHolds(below, keys + [e.key], leaf);
        OneKeyMore(keys, e.key, leaf.keys);
        if |leaf.keys| > |keys| {
          OneEntry(e, leaf.keys[|keys|]);
        }
      case _ => NoEntryHolds(e, keys, leaf);
    }
  }

  /** The leaves of a mapping are what looking it up finds. */
  lemma {:induction false} LeafHolds(entries: seq<Entry>, keys: seq<string>, leaf: Leaf)
    requires KeysOnce(entries)
    ensures leaf in LeavesBelow(entries, keys) <==> HoldsBelow(entries, keys, leaf)
    decreases entries, 0
  {
    LeavesAreGathered(entries, keys);
    EntryLeavesAreTagged(keys);
    var tag := KeyAfter(keys)(leaf);
    GatherIff(entries, EntryLeaves(keys), KeyAfter(keys), leaf);
    var value := Get(entries, tag);
    if value.Some? {
      GetBelow(entries, tag);
      EntryHolds(Entry(tag, value.value), keys, leaf);
    }
  }

  lemma {:induction false} GetBelow(entries: seq<Entry>, key: string)
    requires KeysOnce(entries) && Get(entries, key).Some?
    ensures Get(entries, key).value.Dict? ==> KeysOnce(Get(entries, key).value.entries)
    ensures exists i | 0 <= i < |entries| :: entries[i] == Entry(key, Get(entries, key).value)
  {
    var init := entries[..|entries| - 1];
    if entries[|entries| - 1].key != key {
      assert forall i | 0 <= i < |init| :: init[i] == entries[i];
      GetBelow(init, key);
      var i :| 0 <= i < |init| && init[i] == Entry(key, Get(entries, key).value);
      assert entries[i] == init[i];
    }
  }

  lemma {:induction false} LeavesOnce(entries: seq<Entry>, keys: seq<string>)
    requires KeysOnce(entries)
    ensures NoRepeats(LeavesBelow(entries, keys))
    decreases entries
  {
    LeavesAreGathered(entries, keys);
    EntryLeavesAreTagged(keys);
    forall i | 0 <= i < |entries| ensures NoRepeats(EntryLeaves(keys)(entries[i])) {
      if entries[i].value.Dict? {
        LeavesOnce(entries[i].value.entries, keys + [entries[i].key]);
      }
    }
    GatherOnce(entries, EntryLeaves(keys), KeyAfter(keys));
  }

  // ---- The whole document --------------------------------------------------------------------

  function InSub(category: string): Entry -> seq<Placed> {
    (e: Entry) => PlacedIn(category, e)
  }

  function InCategory(): Entry -> seq<Placed> {
    (e: Entry) => SubLeaves(e.key, SubsOf(e.value))
  }

  function SubTag(): Placed -> string {
    (p: Placed) => p.sub
  }

  function CategoryTag(): Placed -> string {
    (p: Placed) => p.category
  }

  lemma {:induction false} SubLeavesAreGathered(category: string, subs: seq<Entry>)
    ensures SubLeaves(category, subs) == Gather(subs, InSub(category))
    ensures forall p | p in SubLeaves(category, subs) :: p.category == category
  {
    if subs != [] {
      SubLeavesAreGathered(category, subs[..|subs| - 1]);
    }
  }

  lemma {:induction false} AllLeavesAreGathered(categories: seq<Entry>)
    ensures AllLeaves(categories) == Gather(categories, InCategory())
  {
    if categories != [] {
      AllLeavesAreGathered(categories[..|categories| - 1]);
    }
  }

  lemma {:induction false} InCategoryIsTagged()
    ensures Tagged(InCategory(), CategoryTag())
  {
    forall e, p | p in InCategory()(e) ensures CategoryTag()(p) == e.key {
      SubLeavesAreGathered(e.key, SubsOf(e.value));
    }
  }

  lemma {:induction false} PlacedHolds(category: string, e: Entry, p: Placed)
    requires e.value.Dict? ==> KeysOnce(e.value.entries)
    ensures p in PlacedIn(category, e)
       <==> && p.category == category && p.sub == e.key
            && Lookup(TypeUnder([e], e.key), p.leaf.keys, p.leaf.index) == Some(p.leaf.text)
  {
    assert Get([e], e.key) == Some(e.value);
    if e.value.Dict? {
      var node := GetOrEmpty(e.value.entries, "Type");
      var leaves := LeavesOf(node);
      if node.Dict? {
        GetKeepsKeysOnceOrEmpty(e.value.entries, "Type");
        LeafHolds(node.entries, [], p.leaf);
        assert p.leaf.keys[0..] == p.leaf.keys && p.leaf.keys[..0] == [];
      }
      if p.leaf in leaves && p.category == category && p.sub == e.key {
        assert PlacedIn(category, e)[Position(leaves, p.leaf)] == p;
      }
    }
  }

  lemma {:induction false} GetKeepsKeysOnceOrEmpty(entries: seq<Entry>, key: string)
    requires KeysOnce(entries)
    ensures GetOrEmpty(entries, key).Dict? ==> KeysOnce(GetOrEmpty(entries, key).entries)
  {
    if Get(entries, key).Some? && Get(entries, key).value.Dict? {
      GetKeepsKeysOnce(entries, key);
    }
  }

  lemma {:induction false} SubHolds(category: string, subs: seq<Entry>, p: Placed)
    requires KeysOnce(subs)
    ensures p in SubLeaves(category, subs)
       <==> && p.category == category
            && Lookup(TypeUnder(subs, p.sub), p.leaf.keys, p.leaf.index) == Some(p.leaf.text)
  {
    SubLeavesAreGathered(category, subs);
    GatherIff(subs, InSub(category), SubTag(), p);
    var details := Get(subs, p.sub);
    if details.Some? {
      GetBelow(subs, p.sub);
      var e := Entry(p.sub, details.value);
      PlacedHolds(category, e, p);
      assert Get([e], p.sub) == Some(e.value);
    }
  }

  /** Flattening finds a leaf exactly where the document holds one. */
  lemma {:induction false} AllLeavesHold(categories: seq<Entry>, p: Placed)
    requires KeysOnce(categories)
    ensures p in AllLeaves(categories) <==> Holds(categories, p)
  {
    AllLeavesAreGathered(categories);
    InCategoryIsTagged();
    GatherIff(categories, InCategory(), CategoryTag(), p);
    var details := Get(categories, p.category);
    if details.Some? {
      GetBelow(categories, p.category);
      if details.value.Dict? {
        SubsKeepKeysOnce(details.value);
      }
      SubHolds(p.category, SubsOf(details.value), p);
    }
  }

  lemma {:induction false} MapInjective<T, U>(f: T -> U, s: seq<T>)
    requires NoRepeats(s) && forall x, y | x in s && y in s && f(x) == f(y) :: x == y
    ensures NoRepeats(Map(f, s))
  {
    forall i, j | 0 <= i < j < |s| ensures f(s[i]) != f(s[j]) {
      assert s[i] in s && s[j] in s && s[i] != s[j];
    }
  }

  lemma {:induction false} SubLeavesOnce(category: string, subs: seq<Entry>)
    requires KeysOnce(subs)
    ensures NoRepeats(SubLeaves(category, subs))
  {
    SubLeavesAreGathered(category, subs);
    forall i | 0 <= i < |subs| ensures NoRepeats(InSub(category)(subs[i])) {
      if subs[i].value.Dict? {
        var node := GetOrEmpty(subs[i].value.entries, "Type");
        if node.Dict? {
          GetKeepsKeysOnceOrEmpty(subs[i].value.entries, "Type");
          LeavesOnce(node.entries, []);
        }
        MapInjective(PlaceIn(category, subs[i].key), LeavesOf(node));
      }
    }
    GatherOnce(subs, InSub(category), SubTag());
  }

  /** No leaf is flattened twice. */
  lemma {:induction false} AllLeavesOnce(categories: seq<Entry>)
    requires KeysOnce(categories)
    ensures NoRepeats(AllLeaves(categories))
  {
    AllLeavesAreGathered(categories);
    InCategoryIsTagged();
    forall i | 0 <= i < |categories| ensures NoRepeats(InCategory()(categories[i])) {
      if categories[i].value.Dict? {
        SubsKeepKeysOnce(categories[i].value);
      }
      SubLeavesOnce(categories[i].key, SubsOf(categories[i].value));
    }
    GatherOnce(categories, InCategory(), CategoryTag());
  }

  lemma {:induction false} ValidatedIsWalkable(data: Yaml)
    requires IsBudgetMap(data)
    ensures Walkable(data)
  {
    forall i | 0 <= i < |data.entries| ensures CategoryIsWalkable(data.entries[i].value) {
      var subs := GetOrEmpty(data.entries[i].value.entries, "SubCategories");
      assert IsCategory(data.entries[i].value);
      forall k | 0 <= k < |subs.entries| ensures subs.entries[k].value.Dict? {
        assert IsSub(subs.entries[k].value);
      }
    }
  }

  /**
   * A document the validator passes flattens to one row for each match string it
   * holds, in document order, with that string's own category, subcategory, budgets
   * and label; it is refused exactly when it holds none.
   */
  lemma {:induction false} FlatteningIsLossless(data: Yaml, leaves: seq<Placed>)
    requires MapErrors(data) == [] && data.Dict? && KeysOnce(data.entries)
    requires leaves == AllLeaves(data.entries)
    ensures Flattened(data) == if leaves == [] then Err(NoRows) else Ok(Map(RowOf(data.entries), leaves))
    ensures NoRepeats(leaves)
    ensures forall p :: p in leaves <==> Holds(data.entries, p)
  {
    ValidatorIsExact(data);
    ValidatedIsWalkable(data);
    AllLeavesOnce(data.entries);
    forall p ensures p in leaves <==> Holds(data.entries, p) {
      AllLeavesHold(data.entries, p);
    }
  }

  lemma {:induction false} LookupIsString(entries: seq<Entry>, keys: seq<string>, index: nat)
    requires KeysOnce(entries) && IsTypeTree(entries) && Lookup(entries, keys, index).Some?
    ensures Lookup(entries, keys, index).value.Str?
    decreases |keys|
  {
    GetBelow(entries, keys[0]);
    if |keys| > 1 {
      LookupIsString(Get(entries, keys[0]).value.entries, keys[1..], index);
    }
  }

  lemma {:induction false} TypeUnderIsTree(subs: seq<Entry>, sub: string)
    requires KeysOnce(subs) && AreSubs(subs)
    ensures KeysOnce(TypeUnder(subs, sub)) && IsTypeTree(TypeUnder(subs, sub))
  {
    if Get(subs, sub).Some? {
      GetBelow(subs, sub);
      var details := Get(subs, sub).value;
      assert IsSub(details);
      GetKeepsKeysOnceOrEmpty(details.entries, "Type");
    }
  }

  lemma {:induction false} SubsUnderAreSubs(data: Yaml, category: string)
    requires IsBudgetMap(data) && KeysOnce(data.entries)
    ensures KeysOnce(SubsUnder(data.entries, category)) && AreSubs(SubsUnder(data.entries, category))
  {
    if Get(data.entries, category).Some? {
      GetBelow(data.entries, category);
      assert IsCategory(Get(data.entries, category).value);
      SubsKeepKeysOnce(Get(data.entries, category).value);
    }
  }

  /** What a validated document is searched for are strings, so matching them never fails. */
  lemma {:induction false} TextsAreStrings(data: Yaml, p: Placed)
    requires MapErrors(data) == [] && data.Dict? && KeysOnce(data.entries) && Holds(data.entries, p)
    ensures p.leaf.text.Str?
  {
    ValidatorIsExact(data);
    SubsUnderAreSubs(data, p.category);
    TypeUnderIsTree(SubsUnder(data.entries, p.category), p.sub);
    LookupIsString(TypeUnder(SubsUnder(data.entries, p.category), p.sub), p.leaf.keys, p.leaf.index);
  }
}
