/** What each write does to the override table. */
module StoreWrites {
  import opened Prelude
  import opened Sorting
  import Numerals
  import opened Ir
  import opened Inference
  import opened OverrideStore

  // Said of the table's rows and of the assertion's own fields.

  // ---- What is accepted -------------------------------------------------------------------

  /** The same column pairing is stated twice, whatever the case. */
  predicate StatesTwice(lower: string -> string, p: Payload)
    requires |p.sourceColumns| == |p.targetColumns|
  {
    exists i, j | 0 <= i < j < |p.sourceColumns| ::
      (lower(p.sourceColumns[i]) == lower(p.sourceColumns[j])
       && lower(p.targetColumns[i]) == lower(p.targetColumns[j]))
  }

  /** A join names two tables and pairs their columns; a suppression names two tables and nothing else. */
  predicate IsAssertion(lower: string -> string, p: Payload) {
    && p.sourceEntity != p.targetEntity
    && if p.action == "join" then
         0 < |p.sourceColumns| == |p.targetColumns| && !StatesTwice(lower, p)
       else p.action == "suppress" && p.sourceColumns == [] && p.targetColumns == []
  }

  /** Exactly the assertions are accepted, and anything else is refused as unprocessable. */
  lemma {:induction false} OnlyAssertionsAreAccepted(lower: string -> string, p: Payload)
    ensures EndsProblem(lower, p).None? <==> IsAssertion(lower, p)
    ensures EndsProblem(lower, p).Some? ==> Status(EndsProblem(lower, p).value) == 422
  {
    if |p.sourceColumns| == |p.targetColumns| {
      TwiceIsRepeated(lower, p);
    }
  }

  lemma {:induction false} TwiceIsRepeated(lower: string -> string, p: Payload)
    requires |p.sourceColumns| == |p.targetColumns|
    ensures StatesTwice(lower, p) <==> !PairsDistinct(lower, p.sourceColumns, p.targetColumns)
  {
    forall i, j | 0 <= i < j < |p.sourceColumns|
      ensures (lower(p.sourceColumns[i]), lower(p.targetColumns[i]))
           == (lower(p.sourceColumns[j]), lower(p.targetColumns[j]))
         <==> lower(p.sourceColumns[i]) == lower(p.sourceColumns[j])
              && lower(p.targetColumns[i]) == lower(p.targetColumns[j])
    {
    }
  }

  /** The refusal names the first rule broken. */
  lemma {:induction false} RefusalsAreInOrder(lower: string -> string, p: Payload)
    ensures EndsProblem(lower, p) ==
      if p.action !in {"join", "suppress"} then Some(UnknownAction)
      else if p.sourceEntity == p.targetEntity then Some(SelfPairRefused)
      else if p.action == "suppress" then
        if |p.sourceColumns| + |p.targetColumns| > 0 then Some(SuppressWithColumns) else None
      else if |p.sourceColumns| * |p.targetColumns| == 0 then Some(MissingColumns)
      else if |p.sourceColumns| != |p.targetColumns| then Some(UnequalColumns)
      else if StatesTwice(lower, p) then Some(RepeatedPair)
      else None
  {
    if |p.sourceColumns| == 0 || |p.targetColumns| == 0 {
      assert |p.sourceColumns| * |p.targetColumns| == 0;
    } else {
      assert |p.sourceColumns| * |p.targetColumns| > 0;
    }
    OnlyAssertionsAreAccepted(lower, p);
  }

  // ---- What is stored ---------------------------------------------------------------------

  /** The row holds the assertion, its pair ordered, each table with its own columns. */
  predicate Stores(r: Row, d: Diagram, p: Payload) {
    && r.diagram == d && r.action == p.action && r.cardinality == p.cardinality && r.note == p.note
    && Less(r.entityA, r.entityB)
    && if r.manySideA then
         && r.entityA == p.sourceEntity && r.columnsA == p.sourceColumns
         && r.entityB == p.targetEntity && r.columnsB == p.targetColumns
       else
         && r.entityA == p.targetEntity && r.columnsA == p.targetColumns
         && r.entityB == p.sourceEntity && r.columnsB == p.sourceColumns
  }

  lemma {:induction false} CanonicalStores(pk: nat, d: Diagram, p: Payload)
    requires p.sourceEntity != p.targetEntity
    ensures Stores(CanonicalRow(pk, d, p), d, p) && CanonicalRow(pk, d, p).pk == pk
  {
    LessTotal(p.sourceEntity, p.targetEntity);
  }

  /** What inference is given of a row is the assertion it stores, under the row's own id. */
  lemma {:induction false} StoredIsAsserted(r: Row, d: Diagram, p: Payload)
    requires Stores(r, d, p)
    ensures var o := OverrideToIr(r);
            && o.source == End(p.sourceEntity, p.sourceColumns) && o.target == End(p.targetEntity, p.targetColumns)
            && o.cardinality == p.cardinality && o.id == "ovr:" + Numerals.NatText(r.pk)
            && (o.action == Join <==> p.action == "join")
            && o.note == if p.note == "" then None else Some(p.note)
  {
  }

  /** The row covers the two tables in this diagram. */
  predicate Covers(r: Row, d: Diagram, a: string, b: string) {
    r.diagram == d && {r.entityA, r.entityB} == {a, b}
  }

  // ---- Saving -----------------------------------------------------------------------------

  /** `after` is `before` with row `i` rewritten to hold the assertion. */
  predicate Rewrites(before: seq<Row>, after: seq<Row>, i: nat, d: Diagram, p: Payload) {
    && |after| == |before| && i < |before|
    && after[i].pk == before[i].pk && Stores(after[i], d, p)
    && forall k | 0 <= k < |before| && k != i :: after[k] == before[k]
  }

  lemma {:induction false} PairIsCovered(r: Row, pk: nat, d: Diagram, p: Payload)
    requires Less(r.entityA, r.entityB) && p.sourceEntity != p.targetEntity
    ensures SamePair(r, CanonicalRow(pk, d, p)) <==> Covers(r, d, p.sourceEntity, p.targetEntity)
  {
    CanonicalStores(pk, d, p);
    var entry := CanonicalRow(pk, d, p);
    if Covers(r, d, p.sourceEntity, p.targetEntity) {
      SameEndsSamePair(r, entry);
    }
  }

  /**
   * Saving rewrites the row that covers the pair, if the diagram has one, and adds one
   * under a new key if it has none; either way no other row is touched.
   */
  lemma {:induction false} SaveRewritesOrAdds(lower: string -> string, s: Store, d: Diagram, p: Payload)
    requires WellFormed(lower, s) && IsAssertion(lower, p)
    ensures Apply(lower, s, d, Save(p)).Ok?
    ensures var after := Apply(lower, s, d, Save(p)).value;
            if exists r | r in s.rows :: Covers(r, d, p.sourceEntity, p.targetEntity) then
              after.nextId == s.nextId
              && exists i: nat :: Rewrites(s.rows, after.rows, i, d, p)
                   && Covers(s.rows[i], d, p.sourceEntity, p.targetEntity)
            else
              after.nextId == s.nextId + 1 && |after.rows| == |s.rows| + 1 && after.rows[..|s.rows|] == s.rows
              && after.rows[|s.rows|].pk == s.nextId && Stores(after.rows[|s.rows|], d, p)
  {
    OnlyAssertionsAreAccepted(lower, p);
    var entry := CanonicalRow(s.nextId, d, p);
    CanonicalStores(s.nextId, d, p);
    var i := IndexWhere(s.rows, (r: Row) => SamePair(r, entry));
    forall r | r in s.rows ensures SamePair(r, entry) <==> Covers(r, d, p.sourceEntity, p.targetEntity) {
      PairIsCovered(r, s.nextId, d, p);
    }
    if i < |s.rows| {
      assert s.rows[i] in s.rows;
      assert Rewrites(s.rows, Saved(s, d, p).rows, i, d, p);
    } else {
      forall r | r in s.rows ensures !Covers(r, d, p.sourceEntity, p.targetEntity) {
        var k :| 0 <= k < |s.rows| && s.rows[k] == r;
      }
    }
  }

  // ---- Editing ----------------------------------------------------------------------------

  ghost predicate HasRow(rows: seq<Row>, d: Diagram, pk: nat) {
    exists r | r in rows :: r.pk == pk && r.diagram == d
  }

  ghost predicate OtherCovers(rows: seq<Row>, d: Diagram, pk: nat, p: Payload) {
    exists r | r in rows :: r.pk != pk && Covers(r, d, p.sourceEntity, p.targetEntity)
  }

  lemma {:induction false} KeyIsFound(s: Store, d: Diagram, pk: nat)
    ensures HasRow(s.rows, d, pk) <==> IndexWhere(s.rows, (r: Row) => r.pk == pk && r.diagram == d) < |s.rows|
  {
    var i := IndexWhere(s.rows, (r: Row) => r.pk == pk && r.diagram == d);
    if i < |s.rows| {
      assert s.rows[i] in s.rows;
    }
    if r :| r in s.rows && r.pk == pk && r.diagram == d {
      var k :| 0 <= k < |s.rows| && s.rows[k] == r;
    }
  }

  lemma {:induction false} ClashIsOther(lower: string -> string, s: Store, d: Diagram, pk: nat, p: Payload)
    requires WellFormed(lower, s) && p.sourceEntity != p.targetEntity
    ensures OtherCovers(s.rows, d, pk, p)
       <==> exists r | r in s.rows :: SamePair(r, CanonicalRow(pk, d, p)) && r.pk != pk
  {
    forall r | r in s.rows
      ensures SamePair(r, CanonicalRow(pk, d, p)) <==> Covers(r, d, p.sourceEntity, p.targetEntity)
    {
      PairIsCovered(r, pk, d, p);
    }
  }

  lemma {:induction false} EditedRow(s: Store, d: Diagram, pk: nat, p: Payload) returns (i: nat)
    requires p.sourceEntity != p.targetEntity && HasRow(s.rows, d, pk)
    requires !exists r | r in s.rows :: SamePair(r, CanonicalRow(pk, d, p)) && r.pk != pk
    ensures Updated(s, d, pk, p).Ok? && Updated(s, d, pk, p).value.nextId == s.nextId
    ensures Rewrites(s.rows, Updated(s, d, pk, p).value.rows, i, d, p) && s.rows[i].pk == pk
  {
    KeyIsFound(s, d, pk);
    CanonicalStores(pk, d, p);
    i := IndexWhere(s.rows, (r: Row) => r.pk == pk && r.diagram == d);
  }

  /**
   * An edit is refused 422 for what it states, 404 when the diagram has no such row and
   * 409 when another of its rows covers the pair, in that order, and otherwise rewrites
   * its own row and no other.
   */
  lemma {:induction false} EditRewritesItsRow(lower: string -> string, s: Store, d: Diagram, pk: nat, p: Payload)
    requires WellFormed(lower, s)
    ensures var r := Apply(lower, s, d, Update(pk, p));
            if !IsAssertion(lower, p) then r.Err? && Status(r.error) == 422
            else if !HasRow(s.rows, d, pk) then r.Err? && Status(r.error) == 404
            else if OtherCovers(s.rows, d, pk, p) then r.Err? && Status(r.error) == 409
            else
              r.Ok? && r.value.nextId == s.nextId
              && exists i: nat :: Rewrites(s.rows, r.value.rows, i, d, p) && s.rows[i].pk == pk
  {
    OnlyAssertionsAreAccepted(lower, p);
    if IsAssertion(lower, p) {
      KeyIsFound(s, d, pk);
      ClashIsOther(lower, s, d, pk, p);
      CanonicalStores(pk, d, p);
      if HasRow(s.rows, d, pk) && !OtherCovers(s.rows, d, pk, p) {
        var i := EditedRow(s, d, pk, p);
      }
    }
  }

  // ---- Deleting ---------------------------------------------------------------------------

  /** `after` is `before` without row `i`. */
  predicate Drops(before: seq<Row>, after: seq<Row>, i: nat) {
    && i < |before| && |after| == |before| - 1
    && (forall k | 0 <= k < i :: after[k] == before[k])
    && (forall k | i <= k < |after| :: after[k] == before[k + 1])
  }

  /** Deleting removes the row with the key from its diagram, and nothing else; a missing one is a 404. */
  lemma {:induction false} DeleteRemovesItsRow(lower: string -> string, s: Store, d: Diagram, pk: nat)
    requires WellFormed(lower, s)
    ensures var r := Apply(lower, s, d, Delete(pk));
            if !HasRow(s.rows, d, pk) then r.Err? && Status(r.error) == 404
            else
              r.Ok? && r.value.nextId == s.nextId
              && (exists i: nat :: Drops(s.rows, r.value.rows, i) && s.rows[i].pk == pk && s.rows[i].diagram == d)
              && forall t | t in r.value.rows :: t.pk != pk
  {
    KeyIsFound(s, d, pk);
    var i := IndexWhere(s.rows, (r: Row) => r.pk == pk && r.diagram == d);
    if i < |s.rows| {
      RemovingDrops(s.rows, i);
      DroppedIsGone(lower, s, s.rows[..i] + s.rows[i + 1..], i);
    }
  }

  lemma {:induction false} RemovingDrops(rows: seq<Row>, i: nat)
    requires i < |rows|
    ensures Drops(rows, rows[..i] + rows[i + 1..], i)
  {
  }

  /** Keys being distinct, the dropped row's is no longer in the table. */
  lemma {:induction false} DroppedIsGone(lower: string -> string, s: Store, after: seq<Row>, i: nat)
    requires WellFormed(lower, s) && Drops(s.rows, after, i)
    ensures forall t | t in after :: t.pk != s.rows[i].pk
  {
    forall k | 0 <= k < |after| ensures after[k].pk != s.rows[i].pk {
      assert after[k] == s.rows[if k < i then k else k + 1];
    }
  }

  // ---- Reading ----------------------------------------------------------------------------

  /** A diagram's rows are listed by their ordered pairs. */
  lemma {:induction false} RowsAreInPairOrder(s: Store, d: Diagram)
    ensures var rows := RowsFor(s, d);
            forall i, j | 0 <= i < j < |rows| ::
              || Less(rows[i].entityA, rows[j].entityA)
              || (rows[i].entityA == rows[j].entityA && !Less(rows[j].entityB, rows[i].entityB))
    ensures multiset(RowsFor(s, d)) == multiset(Filter((r: Row) => r.diagram == d, s.rows))
  {
    forall x: Row, y: Row | RowBefore(x, y) ensures !RowBefore(y, x) {
      PairOrder(x, y, x);
    }
    forall x: Row, y: Row, z: Row | RowBefore(x, z) ensures RowBefore(x, y) || RowBefore(y, z) {
      PairOrder(x, y, z);
    }
    SortBySorts(RowBefore, Filter((r: Row) => r.diagram == d, s.rows));
    var rows := RowsFor(s, d);
    forall i, j | 0 <= i < j < |rows|
      ensures || Less(rows[i].entityA, rows[j].entityA)
              || (rows[i].entityA == rows[j].entityA && !Less(rows[j].entityB, rows[i].entityB))
    {
      assert !RowBefore(rows[j], rows[i]);
      LessTotal(rows[i].entityA, rows[j].entityA);
    }
  }

  lemma {:induction false} PairOrder(x: Row, y: Row, z: Row)
    ensures RowBefore(x, y) ==> !RowBefore(y, x)
    ensures RowBefore(x, z) ==> RowBefore(x, y) || RowBefore(y, z)
  {
    if Less(x.entityA, y.entityA) {
      LessAsymmetric(x.entityA, y.entityA);
    }
    if Less(x.entityB, y.entityB) {
      LessAsymmetric(x.entityB, y.entityB);
    }
    LessIrreflexive(x.entityA);
    LessSplits(x.entityA, y.entityA, z.entityA);
    LessSplits(x.entityB, y.entityB, z.entityB);
    LessTotal(x.entityA, y.entityA);
    LessTotal(y.entityA, z.entityA);
  }

  lemma {:induction false} LessSplits(a: string, b: string, c: string)
    ensures Less(a, c) ==> Less(a, b) || Less(b, c)
  {
    LessTotal(a, b);
    if Less(b, a) && Less(a, c) {
      LessTransitive(b, a, c);
    }
  }

  /** A request is for the namespace it names, or the source's first; unknown ones are 404, a bare source 422. */
  lemma {:induction false} DiagramIsResolved(
    sources: map<string, seq<string>>, sourceId: string, namespace: Option<string>)
    ensures var r := ResolveDiagram(sources, sourceId, namespace);
            && (r.Ok? <==>
                  && sourceId in sources
                  && if namespace.Some? then namespace.value in sources[sourceId] else sources[sourceId] != [])
            && (r.Ok? ==>
                  r.value == Diagram(sourceId, if namespace.Some? then namespace.value else sources[sourceId][0]))
            && (r.Err? ==> Status(r.error) == if sourceId in sources && namespace.None? then 422 else 404)
  {
  }
}
