/**
 * The override form's state, and how its rules mirror the service's. The form holds a
 * row with the referencing side first, submits a directed assertion, and refuses a
 * draft for reasons of its own; the service canonicalises, stores and refuses for its.
 * Neither side knows the other's code, so what is proved here is that they agree: what
 * was saved comes back as it was submitted, and what the form lets through against the
 * current rows is never refused for its ends or for a clash.
 */
module OverrideDraft {
  import opened Prelude
  import opened Ir
  import opened OverrideStore
  import opened GraphService

  /** A stored row as the list endpoint sends it: directed, with its id. */
  datatype Listed = Listed(id: nat, assertion: Payload)

  datatype ColumnPair = ColumnPair(a: string, b: string)

  /** `id` is None while creating. */
  datatype Draft = Draft(
    id: Option<nat>,
    entityA: string,
    entityB: string,
    pairs: seq<ColumnPair>,
    aReferencesB: bool,
    suppress: bool,
    note: string,
    cardinality: Cardinality)

  datatype DraftProblem = PickBoth | SameTable | AlreadyCovered | NoPairs | HalfPair | ListedTwice

  function ListRow(r: Row): Listed {
    Listed(r.pk, PayloadOf(r))
  }

  /** What the admin page holds for one diagram. */
  function ListRows(s: Store, d: Diagram): seq<Listed> {
    Map(ListRow, RowsFor(s, d))
  }

  const EMPTY_PAIR := ColumnPair("", "")

  /** An existing row as the form holds it: the referencing side in slot A. */
  function DraftFrom(l: Listed): Draft {
    var p := l.assertion;
    var pairs := seq(|p.sourceColumns|, i requires 0 <= i < |p.sourceColumns| =>
      ColumnPair(p.sourceColumns[i], if i < |p.targetColumns| then p.targetColumns[i] else ""));
    Draft(Some(l.id), p.sourceEntity, p.targetEntity, if |pairs| > 0 then pairs else [EMPTY_PAIR],
      true, p.action == SUPPRESS, p.note, p.cardinality)
  }

  function ColumnsA(d: Draft): seq<string> {
    Map((pair: ColumnPair) => pair.a, d.pairs)
  }

  function ColumnsB(d: Draft): seq<string> {
    Map((pair: ColumnPair) => pair.b, d.pairs)
  }

  /** The directed assertion the form submits. */
  function DraftPayload(trim: string -> string, d: Draft): Payload {
    var (source, sourceColumns) := if d.aReferencesB then (d.entityA, ColumnsA(d)) else (d.entityB, ColumnsB(d));
    var (target, targetColumns) := if d.aReferencesB then (d.entityB, ColumnsB(d)) else (d.entityA, ColumnsA(d));
    Payload(
      source, if d.suppress then [] else sourceColumns,
      target, if d.suppress then [] else targetColumns,
      if d.suppress then SUPPRESS else JOIN, d.cardinality, trim(d.note))
  }

  predicate CoversSamePair(l: Listed, d: Draft) {
    var p := l.assertion;
    || (p.sourceEntity == d.entityA && p.targetEntity == d.entityB)
    || (p.sourceEntity == d.entityB && p.targetEntity == d.entityA)
  }

  function PairKey(lower: string -> string, pair: ColumnPair): (string, string) {
    (lower(pair.a), lower(pair.b))
  }

  /** What still stops this draft from being a legal assertion. */
  ghost function ProblemOf(lower: string -> string, d: Draft, existing: seq<Listed>): Option<DraftProblem> {
    if d.entityA == "" || d.entityB == "" then Some(PickBoth)
    else if d.entityA == d.entityB then Some(SameTable)
    else if exists l | l in existing :: Some(l.id) != d.id && CoversSamePair(l, d) then Some(AlreadyCovered)
    else if d.suppress then None
    else if d.pairs == [] then Some(NoPairs)
    else if exists pair | pair in d.pairs :: pair.a == "" || pair.b == "" then Some(HalfPair)
    else if !NoRepeats(Map((pair: ColumnPair) => PairKey(lower, pair), d.pairs)) then Some(ListedTwice)
    else None
  }

  // ---- What the form lets through, and what it sends -------------------------------------

  /** The row is about another assertion on the draft's two tables, either way round. */
  predicate Clashes(l: Listed, d: Draft) {
    && d.id != Some(l.id)
    && {l.assertion.sourceEntity, l.assertion.targetEntity} == {d.entityA, d.entityB}
  }

  /** Two tables picked, no other row about them, and unless suppressing whole column pairs, none twice. */
  ghost predicate IsComplete(lower: string -> string, d: Draft, existing: seq<Listed>) {
    && d.entityA != "" && d.entityB != "" && d.entityA != d.entityB
    && (forall l | l in existing :: !Clashes(l, d))
    && (d.suppress || PairsAreWhole(lower, d))
  }

  ghost predicate PairsAreWhole(lower: string -> string, d: Draft) {
    && |d.pairs| > 0
    && (forall i | 0 <= i < |d.pairs| :: d.pairs[i].a != "" && d.pairs[i].b != "")
    && forall i, j | 0 <= i < j < |d.pairs| ::
         lower(d.pairs[i].a) != lower(d.pairs[j].a) || lower(d.pairs[i].b) != lower(d.pairs[j].b)
  }

  lemma {:induction false} CoveringIsClashing(l: Listed, d: Draft)
    requires d.entityA != d.entityB
    ensures Some(l.id) != d.id && CoversSamePair(l, d) <==> Clashes(l, d)
  {
    var s, t := l.assertion.sourceEntity, l.assertion.targetEntity;
    if {s, t} == {d.entityA, d.entityB} {
      assert s in {d.entityA, d.entityB} && t in {d.entityA, d.entityB};
      assert d.entityA in {s, t} && d.entityB in {s, t};
    }
  }

  lemma {:induction false} KeysAreFolds(lower: string -> string, d: Draft)
    ensures NoRepeats(Map((pair: ColumnPair) => PairKey(lower, pair), d.pairs)) <==>
      forall i, j | 0 <= i < j < |d.pairs| ::
        lower(d.pairs[i].a) != lower(d.pairs[j].a) || lower(d.pairs[i].b) != lower(d.pairs[j].b)
  {
    var keys := Map((pair: ColumnPair) => PairKey(lower, pair), d.pairs);
    forall i, j | 0 <= i < j < |d.pairs|
      ensures keys[i] != keys[j] <==>
                lower(d.pairs[i].a) != lower(d.pairs[j].a) || lower(d.pairs[i].b) != lower(d.pairs[j].b)
    {
    }
  }

  /** A draft has no problem exactly when it is complete. */
  lemma {:induction false} NoProblemIffComplete(lower: string -> string, d: Draft, existing: seq<Listed>)
    ensures ProblemOf(lower, d, existing).None? <==> IsComplete(lower, d, existing)
  {
    KeysAreFolds(lower, d);
    if d.entityA != d.entityB {
      forall l | l in existing ensures Some(l.id) != d.id && CoversSamePair(l, d) <==> Clashes(l, d) {
        CoveringIsClashing(l, d);
      }
    }
    assert (exists pair | pair in d.pairs :: pair.a == "" || pair.b == "") <==>
      exists i | 0 <= i < |d.pairs| :: d.pairs[i].a == "" || d.pairs[i].b == "";
  }

  /** The form sends what it shows: the referencing side as the source, each table with its own columns. */
  lemma {:induction false} FormSendsWhatItShows(trim: string -> string, d: Draft)
    ensures var p := DraftPayload(trim, d);
            && (d.aReferencesB ==> p.sourceEntity == d.entityA && p.targetEntity == d.entityB)
            && (!d.aReferencesB ==> p.sourceEntity == d.entityB && p.targetEntity == d.entityA)
            && p.action == (if d.suppress then "suppress" else "join")
            && p.cardinality == d.cardinality && p.note == trim(d.note)
            && (d.suppress ==> p.sourceColumns == [] && p.targetColumns == [])
            && (!d.suppress ==>
                  |p.sourceColumns| == |p.targetColumns| == |d.pairs|
                  && forall i | 0 <= i < |d.pairs| ::
                       if d.aReferencesB
                       then p.sourceColumns[i] == d.pairs[i].a && p.targetColumns[i] == d.pairs[i].b
                       else p.sourceColumns[i] == d.pairs[i].b && p.targetColumns[i] == d.pairs[i].a)
  {
  }

  /** The form opens a row with its referencing side first, and its columns paired as they are. */
  lemma {:induction false} FormOpensAsListed(l: Listed)
    ensures var d, p := DraftFrom(l), l.assertion;
            && d.id == Some(l.id) && d.entityA == p.sourceEntity && d.entityB == p.targetEntity && d.aReferencesB
            && (d.suppress <==> p.action == "suppress") && d.note == p.note && d.cardinality == p.cardinality
            && (p.sourceColumns == [] ==> d.pairs == [ColumnPair("", "")])
            && (0 < |p.sourceColumns| == |p.targetColumns| ==>
                  |d.pairs| == |p.sourceColumns|
                  && forall i | 0 <= i < |d.pairs| ::
                       d.pairs[i].a == p.sourceColumns[i] && d.pairs[i].b == p.targetColumns[i])
  {
  }

  // ---- Round trip ---------------------------------------------------------------------

  /**
   * An assertion stored, listed and opened in the form comes back as it was
   * submitted, exactly when its note carries no space the form would trim.
   */
  lemma {:induction false} FormShowsWhatWasSaved(
    lower: string -> string, trim: string -> string, pk: nat, d: Diagram, p: Payload)
    requires EndsProblem(lower, p).None?
    ensures DraftPayload(trim, DraftFrom(ListRow(CanonicalRow(pk, d, p)))) == p <==> trim(p.note) == p.note
  {
    CanonicalKeepsThePayload(pk, d, p);
    var draft := DraftFrom(ListRow(CanonicalRow(pk, d, p)));
    if p.action == JOIN {
      assert ColumnsA(draft) == p.sourceColumns;
      assert ColumnsB(draft) == p.targetColumns;
    }
  }

  /** What the form submits always survives: opening and resubmitting changes nothing. */
  lemma {:induction false} ResubmittingChangesNothing(
    lower: string -> string, trim: string -> string, pk: nat, d: Diagram, draft: Draft)
    requires trim(trim(draft.note)) == trim(draft.note)
    requires EndsProblem(lower, DraftPayload(trim, draft)).None?
    ensures var p := DraftPayload(trim, draft);
            DraftPayload(trim, DraftFrom(ListRow(CanonicalRow(pk, d, p)))) == p
  {
    FormShowsWhatWasSaved(lower, trim, pk, d, DraftPayload(trim, draft));
  }

  // ---- A draft without a problem is not refused -------------------------------------------

  lemma {:induction false} DistinctKeysDistinctPairs(lower: string -> string, d: Draft)
    requires NoRepeats(Map((pair: ColumnPair) => PairKey(lower, pair), d.pairs))
    ensures PairsDistinct(lower, ColumnsA(d), ColumnsB(d)) && PairsDistinct(lower, ColumnsB(d), ColumnsA(d))
  {
    var keys := Map((pair: ColumnPair) => PairKey(lower, pair), d.pairs);
    forall i, j | 0 <= i < j < |d.pairs|
      ensures (lower(d.pairs[i].a), lower(d.pairs[i].b)) != (lower(d.pairs[j].a), lower(d.pairs[j].b))
    {
      assert keys[i] != keys[j];
    }
  }

  /** The end rules: whatever the page lists, no problem here means none there. */
  lemma {:induction false} CleanDraftHasValidEnds(
    lower: string -> string, trim: string -> string, draft: Draft, existing: seq<Listed>)
    requires ProblemOf(lower, draft, existing).None?
    ensures EndsProblem(lower, DraftPayload(trim, draft)).None?
  {
    if !draft.suppress {
      DistinctKeysDistinctPairs(lower, draft);
    }
  }

  lemma {:induction false} ListedRow(s: Store, d: Diagram, r: Row)
    requires r in s.rows && r.diagram == d
    ensures ListRow(r) in ListRows(s, d)
  {
    RowsForMembers(s, d, r);
    var k :| 0 <= k < |RowsFor(s, d)| && RowsFor(s, d)[k] == r;
    assert ListRows(s, d)[k] == ListRow(r);
  }

  /** A row over the draft's pair is one the form would have pointed at. */
  lemma {:induction false} ClashIsCovered(trim: string -> string, s: Store, d: Diagram, draft: Draft, pk: nat, r: Row)
    requires r in s.rows && SamePair(r, CanonicalRow(pk, d, DraftPayload(trim, draft)))
    ensures ListRow(r) in ListRows(s, d) && CoversSamePair(ListRow(r), draft)
  {
    ListedRow(s, d, r);
  }

  /** With the page up to date, an edit without a problem is never refused by the end rules or a clash. */
  lemma {:induction false} CleanEditIsAccepted(
    lower: string -> string, trim: string -> string, s: Store, d: Diagram, draft: Draft)
    requires draft.id.Some? && ProblemOf(lower, draft, ListRows(s, d)).None?
    ensures var r := Apply(lower, s, d, Update(draft.id.value, DraftPayload(trim, draft)));
            r.Ok? || Status(r.error) == 404
  {
    var pk := draft.id.value;
    CleanDraftHasValidEnds(lower, trim, draft, ListRows(s, d));
    forall r | r in s.rows && SamePair(r, CanonicalRow(pk, d, DraftPayload(trim, draft)))
      ensures r.pk == pk
    {
      ClashIsCovered(trim, s, d, draft, pk, r);
    }
    EditOfOwnPair(lower, s, d, pk, DraftPayload(trim, draft));
  }

  lemma {:induction false} EditOfOwnPair(lower: string -> string, s: Store, d: Diagram, pk: nat, p: Payload)
    requires EndsProblem(lower, p).None?
    requires forall r | r in s.rows && SamePair(r, CanonicalRow(pk, d, p)) :: r.pk == pk
    ensures var r := Apply(lower, s, d, Update(pk, p)); r.Ok? || Status(r.error) == 404
  {
  }

  lemma {:induction false} SaveOfNewPair(lower: string -> string, s: Store, d: Diagram, p: Payload)
    requires EndsProblem(lower, p).None?
    requires forall r | r in s.rows :: !SamePair(r, CanonicalRow(s.nextId, d, p))
    ensures Apply(lower, s, d, Save(p)) == Ok(Store(s.rows + [CanonicalRow(s.nextId, d, p)], s.nextId + 1))
  {
  }

  /** A new draft without a problem is accepted, and adds a row rather than replacing one. */
  lemma {:induction false} CleanSaveAddsARow(
    lower: string -> string, trim: string -> string, s: Store, d: Diagram, draft: Draft)
    requires draft.id.None? && ProblemOf(lower, draft, ListRows(s, d)).None?
    ensures var p := DraftPayload(trim, draft);
            Apply(lower, s, d, Save(p)) == Ok(Store(s.rows + [CanonicalRow(s.nextId, d, p)], s.nextId + 1))
  {
    var p := DraftPayload(trim, draft);
    CleanDraftHasValidEnds(lower, trim, draft, ListRows(s, d));
    forall r | r in s.rows ensures !SamePair(r, CanonicalRow(s.nextId, d, p)) {
      CleanDraftMeetsNoRow(lower, trim, s, d, draft, r);
    }
    SaveOfNewPair(lower, s, d, p);
  }

  lemma {:induction false} CleanDraftMeetsNoRow(
    lower: string -> string, trim: string -> string, s: Store, d: Diagram, draft: Draft, r: Row)
    requires draft.id.None? && ProblemOf(lower, draft, ListRows(s, d)).None? && r in s.rows
    ensures !SamePair(r, CanonicalRow(s.nextId, d, DraftPayload(trim, draft)))
  {
    if SamePair(r, CanonicalRow(s.nextId, d, DraftPayload(trim, draft))) {
      ClashIsCovered(trim, s, d, draft, s.nextId, r);
      assert false;
    }
  }
}
