/** Every inferred edge is the first claim on its pair. */
module InferredEdges {
  import opened Prelude
  import opened Ir
  import opened Inference
  import opened PairOwnership
  import opened CatalogClaims

  // ---- The order of the claims --------------------------------------------------------------

  function Flatten<T>(blocks: seq<seq<T>>): seq<T> {
    if blocks == [] then [] else Flatten(blocks[..|blocks| - 1]) + blocks[|blocks| - 1]
  }

  /** Where block `b` starts in the flattened list. */
  function StartOf<T>(blocks: seq<seq<T>>, b: nat): nat
    requires b <= |blocks|
  {
    |Flatten(blocks[..b])|
  }

  /** Element `m` of block `b` keeps its place. */
  lemma {:induction false} FlattenAt<T>(blocks: seq<seq<T>>, b: nat, m: nat)
    requires b < |blocks| && m < |blocks[b]|
    ensures StartOf(blocks, b) + m < |Flatten(blocks)|
    ensures Flatten(blocks)[StartOf(blocks, b) + m] == blocks[b][m]
    decreases |blocks|
  {
    var n := |blocks| - 1;
    if b < n {
      assert blocks[..n][..b] == blocks[..b];
      FlattenAt(blocks[..n], b, m);
    }
  }

  /** Every element of the flattened list is in some block. */
  lemma {:induction false} BlockOf<T>(blocks: seq<seq<T>>, k: nat) returns (b: nat, m: nat)
    requires k < |Flatten(blocks)|
    ensures b < |blocks| && m < |blocks[b]| && k == StartOf(blocks, b) + m
    decreases |blocks|
  {
    var n := |blocks| - 1;
    if k < |Flatten(blocks[..n])| {
      b, m := BlockOf(blocks[..n], k);
      assert blocks[..n][..b] == blocks[..b];
    } else {
      b, m := n, k - |Flatten(blocks[..n])|;
    }
  }

  lemma {:induction false} BlocksAscend<T>(blocks: seq<seq<T>>, b: nat, c: nat)
    requires b < c <= |blocks|
    ensures StartOf(blocks, b) + |blocks[b]| <= StartOf(blocks, c)
    decreases c
  {
    assert blocks[..c][..c - 1] == blocks[..c - 1];
    if b < c - 1 {
      BlocksAscend(blocks, b, c - 1);
    }
  }

  /** Guesses by entity and column. */
  function SurrogateCells(nm: Naming, cat: Catalog, e: Entity): (cells: seq<seq<Guess>>)
    requires Consistent(cat)
    ensures |cells| == |e.columns|
  {
    seq(|e.columns|, j requires 0 <= j < |e.columns| => SurrogateGuess(nm, cat, e, e.columns[j]))
  }

  function SurrogateRows(nm: Naming, cat: Catalog): (rows: seq<seq<Guess>>)
    requires Consistent(cat)
    ensures |rows| == |cat.entities|
  {
    seq(|cat.entities|, i requires 0 <= i < |cat.entities| => Flatten(SurrogateCells(nm, cat, cat.entities[i])))
  }

  lemma {:induction false} SurrogateRowIsFlat(nm: Naming, cat: Catalog, e: Entity, n: nat)
    requires Consistent(cat) && n <= |e.columns|
    ensures SurrogatesUpTo(nm, cat, e, n) == Flatten(SurrogateCells(nm, cat, e)[..n])
  {
    if n > 0 {
      SurrogateRowIsFlat(nm, cat, e, n - 1);
      var cells := SurrogateCells(nm, cat, e);
      assert cells[..n][..n - 1] == cells[..n - 1];
    }
  }

  lemma {:induction false} SurrogatesAreFlat(nm: Naming, cat: Catalog, n: nat)
    requires Consistent(cat) && n <= |cat.entities|
    ensures Surrogates(nm, cat, n) == Flatten(SurrogateRows(nm, cat)[..n])
  {
    if n > 0 {
      var e, rows := cat.entities[n - 1], SurrogateRows(nm, cat);
      SurrogatesAreFlat(nm, cat, n - 1);
      SurrogateRowIsFlat(nm, cat, e, |e.columns|);
      assert SurrogateCells(nm, cat, e)[..|e.columns|] == SurrogateCells(nm, cat, e);
      assert rows[..n][..n - 1] == rows[..n - 1];
    }
  }

  function KeyCells(nm: Naming, cat: Catalog, e: Entity): (cells: seq<seq<Guess>>)
    requires Consistent(cat)
    ensures |cells| == |e.columns|
  {
    seq(|e.columns|, j requires 0 <= j < |e.columns| => KeyGuesses(nm, cat, e, e.columns[j], |cat.keys|))
  }

  function KeyRows(nm: Naming, cat: Catalog): (rows: seq<seq<Guess>>)
    requires Consistent(cat)
    ensures |rows| == |cat.entities|
  {
    seq(|cat.entities|, i requires 0 <= i < |cat.entities| => Flatten(KeyCells(nm, cat, cat.entities[i])))
  }

  lemma {:induction false} KeyRowIsFlat(nm: Naming, cat: Catalog, e: Entity, n: nat)
    requires Consistent(cat) && n <= |e.columns|
    ensures SameNamedUpTo(nm, cat, e, n) == Flatten(KeyCells(nm, cat, e)[..n])
  {
    if n > 0 {
      KeyRowIsFlat(nm, cat, e, n - 1);
      var cells := KeyCells(nm, cat, e);
      assert cells[..n][..n - 1] == cells[..n - 1];
    }
  }

  lemma {:induction false} SameNamedAreFlat(nm: Naming, cat: Catalog, n: nat)
    requires Consistent(cat) && n <= |cat.entities|
    ensures SameNamed(nm, cat, n) == Flatten(KeyRows(nm, cat)[..n])
  {
    if n > 0 {
      var e, rows := cat.entities[n - 1], KeyRows(nm, cat);
      SameNamedAreFlat(nm, cat, n - 1);
      KeyRowIsFlat(nm, cat, e, |e.columns|);
      assert KeyCells(nm, cat, e)[..|e.columns|] == KeyCells(nm, cat, e);
      assert rows[..n][..n - 1] == rows[..n - 1];
    }
  }

  /** Entity `i`'s column `j` comes before entity `i2`'s column `j2`. */
  predicate ComesBefore(i: nat, j: nat, i2: nat, j2: nat) {
    i < i2 || (i == i2 && j < j2)
  }

  /** `k` is where cell `(i, j)`'s element `m` stands when rows and cells are laid end to end. */
  ghost predicate StandsAt<T>(rows: seq<seq<T>>, cells: seq<seq<T>>, i: nat, j: nat, m: nat, k: nat) {
    && i < |rows| && rows[i] == Flatten(cells) && j < |cells| && m < |cells[j]|
    && k == StartOf(rows, i) + (StartOf(cells, j) + m)
  }

  lemma {:induction false} StandingAt<T>(rows: seq<seq<T>>, cells: seq<seq<T>>, i: nat, j: nat, m: nat, k: nat)
    requires StandsAt(rows, cells, i, j, m, k)
    ensures k < |Flatten(rows)| && Flatten(rows)[k] == cells[j][m]
  {
    FlattenAt(cells, j, m);
    FlattenAt(rows, i, StartOf(cells, j) + m);
  }

  /** Earlier cells stand earlier. */
  lemma {:induction false} StandsEarlier<T>(
    rows: seq<seq<T>>, cells: seq<seq<T>>, i: nat, j: nat, m: nat, k: nat,
    cells2: seq<seq<T>>, i2: nat, j2: nat, m2: nat, k2: nat)
    requires StandsAt(rows, cells, i, j, m, k) && StandsAt(rows, cells2, i2, j2, m2, k2)
    requires ComesBefore(i, j, i2, j2) && (i == i2 ==> cells == cells2)
    ensures k < k2
  {
    FlattenAt(cells, j, m);
    if i < i2 {
      BlocksAscend(rows, i, i2);
    } else {
      BlocksAscend(cells, j, j2);
    }
  }

  // ---- Every inferred edge is the first claim on its pair -----------------------------------

  /** Column `j` of entity `i` claims the target's column by its surrogate-key name. */
  ghost predicate StrongClaim(nm: Naming, entities: seq<Entity>, i: nat, j: nat, target: string, column: string) {
    i < |entities| && j < |entities[i].columns|
    && ClaimsDimension(nm, entities, entities[i].columns[j], target, column)
  }

  /** It claims it by its being named like the target's one primary-key column. */
  ghost predicate WeakClaim(nm: Naming, entities: seq<Entity>, i: nat, j: nat, target: string, column: string) {
    i < |entities| && j < |entities[i].columns|
    && ClaimsKey(nm, entities, entities[i], entities[i].columns[j], target, column)
  }

  function SurrogatesIn(nm: Naming, entities: seq<Entity>): seq<Guess> {
    Surrogates(nm, CatalogOf(nm, entities), |entities|)
  }

  function SameNamedIn(nm: Naming, entities: seq<Entity>): seq<Guess> {
    SameNamed(nm, CatalogOf(nm, entities), |entities|)
  }

  lemma {:induction false} SurrogateStands(nm: Naming, entities: seq<Entity>, cat: Catalog, i: nat, j: nat)
    returns (k: nat)
    requires cat == CatalogOf(nm, entities) && i < |entities| && j < |entities[i].columns|
    requires SurrogateCells(nm, cat, entities[i])[j] != []
    ensures StandsAt(SurrogateRows(nm, cat), SurrogateCells(nm, cat, entities[i]), i, j, 0, k)
    ensures k < |SurrogatesIn(nm, entities)|
    ensures SurrogatesIn(nm, entities)[k] == SurrogateCells(nm, cat, entities[i])[j][0]
  {
    var rows, cells := SurrogateRows(nm, cat), SurrogateCells(nm, cat, entities[i]);
    k := StartOf(rows, i) + StartOf(cells, j);
    StandingAt(rows, cells, i, j, 0, k);
    SurrogatesAreFlat(nm, cat, |entities|);
    assert rows[..|entities|] == rows;
  }

  lemma {:induction false} StrongClaimStands(
    nm: Naming, entities: seq<Entity>, cat: Catalog, i: nat, j: nat, target: string, column: string)
    returns (k: nat)
    requires cat == CatalogOf(nm, entities) && StrongClaim(nm, entities, i, j, target, column)
    ensures StandsAt(SurrogateRows(nm, cat), SurrogateCells(nm, cat, entities[i]), i, j, 0, k)
    ensures k < |SurrogatesIn(nm, entities)|
    ensures var g: Guess := SurrogatesIn(nm, entities)[k]; g.source == entities[i].id && g.target == target
  {
    SurrogateGuessIsClaim(nm, entities, entities[i], entities[i].columns[j], target, column);
    var guess := SurrogateCells(nm, cat, entities[i])[j];
    assert guess[0] in guess;
    k := SurrogateStands(nm, entities, cat, i, j);
  }

  /** A surrogate guess is the claim of its column. */
  lemma {:induction false} StrongGuessClaims(nm: Naming, entities: seq<Entity>, k: nat)
    returns (i: nat, j: nat)
    requires k < |SurrogatesIn(nm, entities)|
    ensures var g: Guess := SurrogatesIn(nm, entities)[k];
            && StrongClaim(nm, entities, i, j, g.target, g.targetColumn)
            && g.source == entities[i].id && g.column == entities[i].columns[j].name && g.confidence == 0.9
    ensures var cat := CatalogOf(nm, entities);
            StandsAt(SurrogateRows(nm, cat), SurrogateCells(nm, cat, entities[i]), i, j, 0, k)
  {
    var cat := CatalogOf(nm, entities);
    var rows := SurrogateRows(nm, cat);
    SurrogatesAreFlat(nm, cat, |entities|);
    assert rows[..|entities|] == rows;
    var r;
    i, r := BlockOf(rows, k);
    var cells := SurrogateCells(nm, cat, entities[i]);
    var m;
    j, m := BlockOf(cells, r);
    StandingAt(rows, cells, i, j, m, k);
    var g: Guess := cells[j][m];
    SurrogateGuessIsClaim(nm, entities, entities[i], entities[i].columns[j], g.target, g.targetColumn);
  }

  lemma {:induction false} WeakClaimStands(
    nm: Naming, entities: seq<Entity>, i: nat, j: nat, target: string, column: string)
    returns (k: nat, m: nat)
    requires WeakClaim(nm, entities, i, j, target, column)
    ensures var cat := CatalogOf(nm, entities);
            StandsAt(KeyRows(nm, cat), KeyCells(nm, cat, entities[i]), i, j, m, k)
    ensures k < |SameNamedIn(nm, entities)|
    ensures var g: Guess := SameNamedIn(nm, entities)[k]; g.source == entities[i].id && g.target == target
  {
    var cat := CatalogOf(nm, entities);
    var rows, cells := KeyRows(nm, cat), KeyCells(nm, cat, entities[i]);
    var g0 := Guess("", "", "", "", 0.0, "");
    SameNamedGuessIsClaim(nm, entities, entities[i], entities[i].columns[j], g0, target, column);
    var g: Guess :| g in cells[j] && g.target == target && g.targetColumn == column;
    SameNamedGuessIsClaim(nm, entities, entities[i], entities[i].columns[j], g, target, column);
    m :| 0 <= m < |cells[j]| && cells[j][m] == g;
    k := StartOf(rows, i) + (StartOf(cells, j) + m);
    StandingAt(rows, cells, i, j, m, k);
    SameNamedAreFlat(nm, cat, |entities|);
    assert rows[..|entities|] == rows;
  }

  lemma {:induction false} WeakGuessClaims(nm: Naming, entities: seq<Entity>, k: nat)
    returns (i: nat, j: nat, m: nat)
    requires k < |SameNamedIn(nm, entities)|
    ensures var g: Guess := SameNamedIn(nm, entities)[k];
            && WeakClaim(nm, entities, i, j, g.target, g.targetColumn)
            && g.source == entities[i].id && g.column == entities[i].columns[j].name && g.confidence == 0.8
    ensures var cat := CatalogOf(nm, entities);
            StandsAt(KeyRows(nm, cat), KeyCells(nm, cat, entities[i]), i, j, m, k)
  {
    var cat := CatalogOf(nm, entities);
    var rows := KeyRows(nm, cat);
    SameNamedAreFlat(nm, cat, |entities|);
    assert rows[..|entities|] == rows;
    var r;
    i, r := BlockOf(rows, k);
    var cells := KeyCells(nm, cat, entities[i]);
    j, m := BlockOf(cells, r);
    StandingAt(rows, cells, i, j, m, k);
    var g: Guess := cells[j][m];
    assert g in cells[j];
    SameNamedGuessIsClaim(nm, entities, entities[i], entities[i].columns[j], g, g.target, g.targetColumn);
  }

  /** The edge runs from the claiming column to the column it claims, as a guess does. */
  ghost predicate DrawsClaim(
    e: Relationship, entities: seq<Entity>, i: nat, j: nat, target: string, column: string, confidence: real)
    requires i < |entities| && j < |entities[i].columns|
  {
    && e.source == End(entities[i].id, [entities[i].columns[j].name]) && e.target == End(target, [column])
    && e.cardinality == ManyToOne && e.origin == InferredNaming && e.confidence == confidence && e.note.Some?
    && e.id == "inf:" + entities[i].id + "." + entities[i].columns[j].name + "->" + target + "." + column
  }

  /** No column before this one claims the pair that way. */
  ghost predicate NoStrongBefore(nm: Naming, entities: seq<Entity>, i: nat, j: nat, pair: set<string>) {
    forall i0: nat, j0: nat, t0, c0 | StrongClaim(nm, entities, i0, j0, t0, c0) && ComesBefore(i0, j0, i, j) ::
      {entities[i0].id, t0} != pair
  }

  ghost predicate NoStrong(nm: Naming, entities: seq<Entity>, pair: set<string>) {
    forall i0: nat, j0: nat, t0, c0 | StrongClaim(nm, entities, i0, j0, t0, c0) :: {entities[i0].id, t0} != pair
  }

  ghost predicate NoWeakBefore(nm: Naming, entities: seq<Entity>, i: nat, j: nat, pair: set<string>) {
    forall i0: nat, j0: nat, t0, c0 | WeakClaim(nm, entities, i0, j0, t0, c0) && ComesBefore(i0, j0, i, j) ::
      {entities[i0].id, t0} != pair
  }

  ghost predicate IsStrongEdge(
    nm: Naming, entities: seq<Entity>, e: Relationship, i: nat, j: nat, target: string, column: string)
  {
    && StrongClaim(nm, entities, i, j, target, column)
    && DrawsClaim(e, entities, i, j, target, column, 0.9)
    && NoStrongBefore(nm, entities, i, j, PairOf(e))
  }

  ghost predicate IsWeakEdge(
    nm: Naming, entities: seq<Entity>, e: Relationship, i: nat, j: nat, target: string, column: string)
  {
    && WeakClaim(nm, entities, i, j, target, column)
    && DrawsClaim(e, entities, i, j, target, column, 0.8)
    && NoWeakBefore(nm, entities, i, j, PairOf(e)) && NoStrong(nm, entities, PairOf(e))
  }

  /** What stands before a first guess speaks about another pair. */
  ghost predicate NoneBefore(guesses: seq<Guess>, k: nat, pair: set<string>) {
    k <= |guesses| && forall l | 0 <= l < k :: PairOfGuess(guesses[l]) != pair
  }

  lemma {:induction false} StrongStandsEarlier(
    nm: Naming, entities: seq<Entity>, cat: Catalog, i: nat, j: nat, k: nat, pair: set<string>,
    i0: nat, j0: nat, t0: string, c0: string)
    requires i < |entities| && NoneBefore(SurrogatesIn(nm, entities), k, pair) && cat == CatalogOf(nm, entities)
    requires StandsAt(SurrogateRows(nm, cat), SurrogateCells(nm, cat, entities[i]), i, j, 0, k)
    requires StrongClaim(nm, entities, i0, j0, t0, c0) && ComesBefore(i0, j0, i, j)
    ensures {entities[i0].id, t0} != pair
  {
    var l := StrongClaimStands(nm, entities, CatalogOf(nm, entities), i0, j0, t0, c0);
    StandsEarlier(SurrogateRows(nm, cat), SurrogateCells(nm, cat, entities[i0]), i0, j0, 0, l,
      SurrogateCells(nm, cat, entities[i]), i, j, 0, k);
  }

  lemma {:induction false} NoStrongStandsBefore(
    nm: Naming, entities: seq<Entity>, cat: Catalog, i: nat, j: nat, k: nat, pair: set<string>)
    requires i < |entities| && NoneBefore(SurrogatesIn(nm, entities), k, pair) && cat == CatalogOf(nm, entities)
    requires StandsAt(SurrogateRows(nm, cat), SurrogateCells(nm, cat, entities[i]), i, j, 0, k)
    ensures NoStrongBefore(nm, entities, i, j, pair)
  {
    forall i0: nat, j0: nat, t0, c0 | StrongClaim(nm, entities, i0, j0, t0, c0) && ComesBefore(i0, j0, i, j)
      ensures {entities[i0].id, t0} != pair
    {
      StrongStandsEarlier(nm, entities, cat, i, j, k, pair, i0, j0, t0, c0);
    }
  }

  lemma {:induction false} NoStrongStands(nm: Naming, entities: seq<Entity>, pair: set<string>)
    requires NoneBefore(SurrogatesIn(nm, entities), |SurrogatesIn(nm, entities)|, pair)
    ensures NoStrong(nm, entities, pair)
  {
    forall i0: nat, j0: nat, t0, c0 | StrongClaim(nm, entities, i0, j0, t0, c0) ensures {entities[i0].id, t0} != pair {
      var l := StrongClaimStands(nm, entities, CatalogOf(nm, entities), i0, j0, t0, c0);
    }
  }

  lemma {:induction false} WeakStandsEarlier(
    nm: Naming, entities: seq<Entity>, cat: Catalog, i: nat, j: nat, m: nat, k: nat, pair: set<string>,
    i0: nat, j0: nat, t0: string, c0: string)
    requires i < |entities| && NoneBefore(SameNamedIn(nm, entities), k, pair) && cat == CatalogOf(nm, entities)
    requires StandsAt(KeyRows(nm, cat), KeyCells(nm, cat, entities[i]), i, j, m, k)
    requires WeakClaim(nm, entities, i0, j0, t0, c0) && ComesBefore(i0, j0, i, j)
    ensures {entities[i0].id, t0} != pair
  {
    var l, m0 := WeakClaimStands(nm, entities, i0, j0, t0, c0);
    StandsEarlier(KeyRows(nm, cat), KeyCells(nm, cat, entities[i0]), i0, j0, m0, l,
      KeyCells(nm, cat, entities[i]), i, j, m, k);
  }

  lemma {:induction false} NoWeakStandsBefore(
    nm: Naming, entities: seq<Entity>, cat: Catalog, i: nat, j: nat, m: nat, k: nat, pair: set<string>)
    requires i < |entities| && NoneBefore(SameNamedIn(nm, entities), k, pair) && cat == CatalogOf(nm, entities)
    requires StandsAt(KeyRows(nm, cat), KeyCells(nm, cat, entities[i]), i, j, m, k)
    ensures NoWeakBefore(nm, entities, i, j, pair)
  {
    forall i0: nat, j0: nat, t0, c0 | WeakClaim(nm, entities, i0, j0, t0, c0) && ComesBefore(i0, j0, i, j)
      ensures {entities[i0].id, t0} != pair
    {
      WeakStandsEarlier(nm, entities, cat, i, j, m, k, pair, i0, j0, t0, c0);
    }
  }

  lemma {:induction false} GuessIsDrawn(
    nm: Naming, entities: seq<Entity>, g: Guess, i: nat, j: nat, confidence: real)
    requires i < |entities| && j < |entities[i].columns|
    requires g.source == entities[i].id && g.column == entities[i].columns[j].name && g.confidence == confidence
    ensures DrawsClaim(EdgeOf(g), entities, i, j, g.target, g.targetColumn, confidence)
    ensures PairOf(EdgeOf(g)) == PairOfGuess(g)
  {
  }

  lemma {:induction false} BeforeSplits(a: seq<Guess>, b: seq<Guess>, k: nat, e: Relationship)
    requires FirstGuess(a + b, k, e)
    ensures k < |a| ==> NoneBefore(a, k, PairOf(e)) && e == EdgeOf(a[k])
    ensures k >= |a| ==> NoneBefore(a, |a|, PairOf(e)) && NoneBefore(b, k - |a|, PairOf(e))
    ensures k >= |a| ==> k - |a| < |b| && e == EdgeOf(b[k - |a|])
    ensures e.source.entity != e.target.entity
  {
    var all := a + b;
    assert PairOf(e) == PairOfGuess(all[k]);
    assert forall l | 0 <= l < |a| :: all[l] == a[l];
    assert forall l | 0 <= l < |b| :: all[|a| + l] == b[l];
  }

  lemma {:induction false} StrongGuessIsStrongEdge(nm: Naming, entities: seq<Entity>, k: nat, e: Relationship)
    returns (i: nat, j: nat)
    requires k < |SurrogatesIn(nm, entities)| && e == EdgeOf(SurrogatesIn(nm, entities)[k])
    requires NoneBefore(SurrogatesIn(nm, entities), k, PairOf(e))
    ensures var g: Guess := SurrogatesIn(nm, entities)[k];
            IsStrongEdge(nm, entities, e, i, j, g.target, g.targetColumn)
  {
    var g: Guess := SurrogatesIn(nm, entities)[k];
    i, j := StrongGuessClaims(nm, entities, k);
    GuessIsDrawn(nm, entities, g, i, j, 0.9);
    NoStrongStandsBefore(nm, entities, CatalogOf(nm, entities), i, j, k, PairOf(e));
  }

  lemma {:induction false} WeakGuessIsWeakEdge(nm: Naming, entities: seq<Entity>, k: nat, e: Relationship)
    returns (i: nat, j: nat)
    requires k < |SameNamedIn(nm, entities)| && e == EdgeOf(SameNamedIn(nm, entities)[k])
    requires NoneBefore(SameNamedIn(nm, entities), k, PairOf(e)) && NoStrong(nm, entities, PairOf(e))
    ensures var g: Guess := SameNamedIn(nm, entities)[k];
            IsWeakEdge(nm, entities, e, i, j, g.target, g.targetColumn)
  {
    var g: Guess := SameNamedIn(nm, entities)[k];
    var m;
    i, j, m := WeakGuessClaims(nm, entities, k);
    GuessIsDrawn(nm, entities, g, i, j, 0.8);
    NoWeakStandsBefore(nm, entities, CatalogOf(nm, entities), i, j, m, k, PairOf(e));
  }

  /**
   * An inferred edge is a claim some column of the catalog makes: at 0.9 of the dimension
   * its stem names, the first such claim on the pair, or at 0.8 of a primary key it is named
   * like, the first such claim on a pair no stem speaks about. It runs from that column.
   */
  lemma {:induction false} InferredEdgeIsFirstClaim(
    nm: Naming, entities: seq<Entity>, declared: seq<Relationship>, overrides: seq<Override>, e: Relationship)
    returns (i: nat, j: nat, target: string, column: string)
    requires e in TiersOf(nm, entities, declared, overrides).inferred
    ensures IsStrongEdge(nm, entities, e, i, j, target, column) || IsWeakEdge(nm, entities, e, i, j, target, column)
    ensures target != entities[i].id
  {
    InferredEdgesAreFirstGuesses(nm, entities, declared, overrides);
    var strong, weak := SurrogatesIn(nm, entities), SameNamedIn(nm, entities);
    var k: int :| FirstGuess(strong + weak, k, e);
    BeforeSplits(strong, weak, k, e);
    if k < |strong| {
      target, column := strong[k].target, strong[k].targetColumn;
      i, j := StrongGuessIsStrongEdge(nm, entities, k, e);
    } else {
      target, column := weak[k - |strong|].target, weak[k - |strong|].targetColumn;
      NoStrongStands(nm, entities, PairOf(e));
      i, j := WeakGuessIsWeakEdge(nm, entities, k - |strong|, e);
    }
  }

  /** Every claim is met: its pair is drawn, denied by a suppression that fits, or no pair at all. */
  lemma {:induction false} ClaimsAreMet(
    nm: Naming, entities: seq<Entity>, declared: seq<Relationship>, overrides: seq<Override>,
    i: nat, j: nat, target: string, column: string)
    requires StrongClaim(nm, entities, i, j, target, column) || WeakClaim(nm, entities, i, j, target, column)
    ensures var pair := {entities[i].id, target};
            || entities[i].id == target
            || pair in PairsOf(Infer(nm, entities, declared, overrides))
            || Denied(nm, ById(entities), overrides, pair)
  {
    var strong, weak := SurrogatesIn(nm, entities), SameNamedIn(nm, entities);
    var g: Guess;
    if StrongClaim(nm, entities, i, j, target, column) {
      var k := StrongClaimStands(nm, entities, CatalogOf(nm, entities), i, j, target, column);
      g := strong[k];
      assert g in strong;
    } else {
      var k, m := WeakClaimStands(nm, entities, i, j, target, column);
      g := weak[k];
      assert g in weak;
    }
    InConcat(g, strong, weak);
    EveryGuessIsCovered(nm, entities, declared, overrides, g);
  }
}
