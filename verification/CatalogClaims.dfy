/** What each naming rule claims, column by column. */
module CatalogClaims {
  import opened Prelude
  import opened Ir
  import opened Inference

  // Said of the catalog's own entities and columns, without the look-ups and guesses
  // inference makes of them; then shown to be what those guesses are.

  /** The last element with the property: what a dictionary built in order keeps. */
  ghost predicate IsLast<T(!new)>(s: seq<T>, p: T -> bool, x: T) {
    exists k | 0 <= k < |s| :: s[k] == x && p(x) && forall l | k < l < |s| :: !p(s[l])
  }

  function HasId(id: string): Entity -> bool {
    (e: Entity) => e.id == id
  }

  function HasStem(nm: Naming, stem: string): Entity -> bool {
    (e: Entity) => nm.dimensionStem(e.name) == Some(stem)
  }

  function Folds(nm: Naming, name: string): Column -> bool {
    (c: Column) => nm.lower(c.name) == nm.lower(name)
  }

  /** An entity with this id and one primary-key column, which has a name. */
  function HasKey(id: string): Entity -> bool {
    (e: Entity) => e.id == id && e.primaryKey.Some? && |e.primaryKey.value| == 1 && e.primaryKey.value[0] != ""
  }

  /** `column` is how the entity with this id spells `name`. */
  ghost predicate SpelledIn(nm: Naming, entities: seq<Entity>, id: string, name: string, column: string) {
    exists e, c :: IsLast(entities, HasId(id), e) && IsLast(e.columns, Folds(nm, name), c) && c.name == column
  }

  /** Rule 1: the column's stem is a dimension's, and the dimension has the column too. */
  ghost predicate ClaimsDimension(
    nm: Naming, entities: seq<Entity>, c: Column, target: string, column: string)
  {
    exists stem, d ::
      && nm.surrogateStem(c.name) == Some(stem) && IsLast(entities, HasStem(nm, stem), d)
      && target == d.id && SpelledIn(nm, entities, target, c.name, column)
  }

  /** Rule 2: another entity has one primary-key column, and this one, no primary key itself, is named like it. */
  ghost predicate ClaimsKey(
    nm: Naming, entities: seq<Entity>, e: Entity, c: Column, target: string, column: string)
  {
    && !c.isPrimaryKey && target != e.id && nm.lower(c.name) == nm.lower(column)
    && exists t :: IsLast(entities, HasKey(target), t) && t.primaryKey == Some([column])
  }

  // ---- Look-ups keep the last ---------------------------------------------------------------

  function LastWhere<T>(s: seq<T>, p: T -> bool): Option<T> {
    if s == [] then None
    else if p(s[|s| - 1]) then Some(s[|s| - 1])
    else LastWhere(s[..|s| - 1], p)
  }

  lemma {:induction false} LastWhereIsLast<T(!new)>(s: seq<T>, p: T -> bool, x: T)
    ensures LastWhere(s, p) == Some(x) <==> IsLast(s, p, x)
  {
    if s != [] {
      var n := |s| - 1;
      if p(s[n]) {
        if IsLast(s, p, x) {
          var k :| 0 <= k < |s| && s[k] == x && p(x) && forall l | k < l < |s| :: !p(s[l]);
          assert k == n;
        }
      } else {
        LastWhereIsLast(s[..n], p, x);
        if IsLast(s[..n], p, x) {
          var k :| 0 <= k < n && s[..n][k] == x && p(x) && forall l | k < l < n :: !p(s[..n][l]);
          assert s[k] == x && forall l | k < l < |s| :: !p(s[l]) by {
            assert forall l | k < l < n :: s[l] == s[..n][l];
          }
        }
        if IsLast(s, p, x) {
          var k :| 0 <= k < |s| && s[k] == x && p(x) && forall l | k < l < |s| :: !p(s[l]);
          assert s[..n][k] == x && forall l | k < l < n :: s[..n][l] == s[l];
        }
      }
    }
  }

  lemma {:induction false} ByIdIsLast(entities: seq<Entity>, id: string)
    ensures LastWhere(entities, HasId(id)) == if id in ById(entities) then Some(ById(entities)[id]) else None
  {
    if entities != [] {
      ByIdIsLast(entities[..|entities| - 1], id);
    }
  }

  lemma {:induction false} DimensionIsLast(nm: Naming, entities: seq<Entity>, stem: string)
    ensures LastWhere(entities, HasStem(nm, stem))
         == if stem in DimensionsOf(nm, entities) then Some(DimensionsOf(nm, entities)[stem]) else None
  {
    if entities != [] {
      DimensionIsLast(nm, entities[..|entities| - 1], stem);
    }
  }

  lemma {:induction false} NameIsLast(nm: Naming, columns: seq<Column>, name: string)
    ensures var c, names := LastWhere(columns, Folds(nm, name)), NamesOf(nm, columns);
            (c.Some? <==> nm.lower(name) in names) && (c.Some? ==> names[nm.lower(name)] == c.value.name)
  {
    if columns != [] {
      NameIsLast(nm, columns[..|columns| - 1], name);
    }
  }

  /** Each id is listed once. */
  ghost predicate IdsOnce(keys: seq<(string, string)>) {
    forall i, j | 0 <= i < j < |keys| :: keys[i].0 != keys[j].0
  }

  lemma {:induction false} PutHolds(keys: seq<(string, string)>, id: string, column: string, x: (string, string))
    requires IdsOnce(keys)
    ensures IdsOnce(Put(keys, id, column))
    ensures x in Put(keys, id, column) <==> x == (id, column) || (x in keys && x.0 != id)
  {
    if keys != [] {
      assert IdsOnce(keys[1..]);
      PutHolds(keys[1..], id, column, x);
      assert keys == [keys[0]] + keys[1..];
      if keys[0].0 == id {
        OthersStay(keys, x);
      } else {
        InConcat(x, [keys[0]], Put(keys[1..], id, column));
        forall y | y in Put(keys[1..], id, column) ensures y.0 != keys[0].0 {
          assert y == (id, column) || y in keys[1..];
        }
      }
    }
  }

  lemma {:induction false} OthersStay(keys: seq<(string, string)>, x: (string, string))
    requires IdsOnce(keys) && keys != []
    ensures x in keys[1..] <==> x in keys && x.0 != keys[0].0
  {
    assert keys == [keys[0]] + keys[1..];
  }

  lemma {:induction false} KeysListedOnce(entities: seq<Entity>)
    ensures IdsOnce(PrimaryKeys(entities))
  {
    if entities != [] {
      var init, last := entities[..|entities| - 1], entities[|entities| - 1];
      KeysListedOnce(init);
      if SinglePrimaryKey(last).Some? {
        PutHolds(PrimaryKeys(init), last.id, SinglePrimaryKey(last).value, ("", ""));
      }
    }
  }

  lemma {:induction false} KeyOf(e: Entity, id: string, column: string)
    ensures SinglePrimaryKey(e).Some? && e.id == id <==> HasKey(id)(e)
    ensures SinglePrimaryKey(e) == Some(column) ==> e.primaryKey == Some([column])
    ensures HasKey(id)(e) && e.primaryKey == Some([column]) ==> SinglePrimaryKey(e) == Some(column)
  {
    if e.primaryKey.Some? && |e.primaryKey.value| == 1 {
      assert e.primaryKey.value == [e.primaryKey.value[0]];
    }
  }

  /** The key columns are listed by entity, each the last one its id has. */
  lemma {:induction false} KeyIsLast(entities: seq<Entity>, id: string, column: string)
    ensures var t := LastWhere(entities, HasKey(id));
            (id, column) in PrimaryKeys(entities) <==> t.Some? && t.value.primaryKey == Some([column])
  {
    if entities != [] {
      var init, last := entities[..|entities| - 1], entities[|entities| - 1];
      KeyIsLast(init, id, column);
      KeysListedOnce(init);
      KeyOf(last, id, column);
      if SinglePrimaryKey(last).Some? {
        KeyOf(last, last.id, SinglePrimaryKey(last).value);
        PutHolds(PrimaryKeys(init), last.id, SinglePrimaryKey(last).value, (id, column));
      }
    }
  }

  // ---- Guesses are claims -------------------------------------------------------------------

  lemma {:induction false} SpellingIsLast(nm: Naming, entities: seq<Entity>, id: string, name: string, column: string)
    requires id in ById(entities)
    ensures var names := ColumnNames(nm, ById(entities)[id]);
            SpelledIn(nm, entities, id, name, column) <==>
              nm.lower(name) in names && names[nm.lower(name)] == column
  {
    var e := ById(entities)[id];
    ByIdIsLast(entities, id);
    NameIsLast(nm, e.columns, name);
    LastWhereIsLast(entities, HasId(id), e);
    if SpelledIn(nm, entities, id, name, column) {
      var e', c :| IsLast(entities, HasId(id), e') && IsLast(e'.columns, Folds(nm, name), c) && c.name == column;
      LastWhereIsLast(entities, HasId(id), e');
      LastWhereIsLast(e.columns, Folds(nm, name), c);
    }
    var c := LastWhere(e.columns, Folds(nm, name));
    if c.Some? {
      LastWhereIsLast(e.columns, Folds(nm, name), c.value);
    }
  }

  lemma {:induction false} DimensionClaimed(
    nm: Naming, entities: seq<Entity>, c: Column, stem: string, d: Option<Entity>, target: string, column: string)
    requires nm.surrogateStem(c.name) == Some(stem) && d == LastWhere(entities, HasStem(nm, stem))
    ensures ClaimsDimension(nm, entities, c, target, column)
       <==> d.Some? && target == d.value.id && SpelledIn(nm, entities, target, c.name, column)
  {
    if d.Some? {
      LastWhereIsLast(entities, HasStem(nm, stem), d.value);
    }
    if ClaimsDimension(nm, entities, c, target, column) {
      var d' :| IsLast(entities, HasStem(nm, stem), d') && target == d'.id
        && SpelledIn(nm, entities, target, c.name, column);
      LastWhereIsLast(entities, HasStem(nm, stem), d');
    }
  }

  lemma {:induction false} SurrogateGuessIs(nm: Naming, cat: Catalog, e: Entity, c: Column, d: Entity)
    requires Consistent(cat) && nm.surrogateStem(c.name).Some? && nm.surrogateStem(c.name).value in cat.dimensions
    requires d == cat.dimensions[nm.surrogateStem(c.name).value]
    ensures var guess, names := SurrogateGuess(nm, cat, e, c), ColumnNames(nm, cat.byId[d.id]);
            if nm.lower(c.name) !in names then guess == []
            else
              && |guess| == 1 && guess[0].source == e.id && guess[0].column == c.name && guess[0].confidence == 0.9
              && guess[0].target == d.id && guess[0].targetColumn == names[nm.lower(c.name)]
  {
  }

  /** A column makes at most one surrogate guess: its claim. */
  lemma {:induction false} SurrogateGuessIsClaim(
    nm: Naming, entities: seq<Entity>, e: Entity, c: Column, target: string, column: string)
    ensures var guess := SurrogateGuess(nm, CatalogOf(nm, entities), e, c);
            && |guess| <= 1
            && (forall g | g in guess :: g.source == e.id && g.column == c.name && g.confidence == 0.9)
            && (ClaimsDimension(nm, entities, c, target, column) <==>
                  |guess| == 1 && guess[0].target == target && guess[0].targetColumn == column)
  {
    var stem, cat := nm.surrogateStem(c.name), CatalogOf(nm, entities);
    if stem.Some? {
      DimensionIsLast(nm, entities, stem.value);
      DimensionClaimed(nm, entities, c, stem.value, LastWhere(entities, HasStem(nm, stem.value)), target, column);
      if stem.value in cat.dimensions {
        var d := cat.dimensions[stem.value];
        SurrogateGuessIs(nm, cat, e, c, d);
        SpellingIsLast(nm, entities, d.id, c.name, column);
      }
    }
  }

  lemma {:induction false} KeyGuessIsClaim(
    nm: Naming, cat: Catalog, e: Entity, c: Column, n: nat, g: Guess, key: (string, string))
    requires Consistent(cat) && n <= |cat.keys| && !c.isPrimaryKey
    ensures g in KeyGuesses(nm, cat, e, c, n) ==>
              && g.source == e.id && g.column == c.name && g.confidence == 0.8
              && g.target != e.id && nm.lower(c.name) == nm.lower(g.targetColumn)
              && (g.target, g.targetColumn) in cat.keys[..n]
    ensures key in cat.keys[..n] && key.0 != e.id && nm.lower(c.name) == nm.lower(key.1) ==>
              exists g' :: g' in KeyGuesses(nm, cat, e, c, n) && g'.target == key.0 && g'.targetColumn == key.1
  {
    if n > 0 {
      KeyGuessIsClaim(nm, cat, e, c, n - 1, g, key);
      assert cat.keys[..n] == cat.keys[..n - 1] + [cat.keys[n - 1]];
      assert cat.keys[n - 1] in cat.keys;
      var guess := PrimaryKeyGuess(nm, cat, e, c, cat.keys[n - 1]);
      InConcat(g, KeyGuesses(nm, cat, e, c, n - 1), guess);
      if guess != [] {
        InConcat(guess[0], KeyGuesses(nm, cat, e, c, n - 1), guess);
      }
    }
  }

  lemma {:induction false} SameNamedGuessIsClaim(
    nm: Naming, entities: seq<Entity>, e: Entity, c: Column, g: Guess, target: string, column: string)
    ensures var cat := CatalogOf(nm, entities);
            var guesses := KeyGuesses(nm, cat, e, c, |cat.keys|);
            && (g in guesses ==>
                  && g.source == e.id && g.column == c.name && g.confidence == 0.8
                  && ClaimsKey(nm, entities, e, c, g.target, g.targetColumn))
            && (ClaimsKey(nm, entities, e, c, target, column) ==>
                  exists g' :: g' in guesses && g'.target == target && g'.targetColumn == column)
  {
    var cat := CatalogOf(nm, entities);
    assert cat.keys[..|cat.keys|] == cat.keys;
    if !c.isPrimaryKey {
      KeyGuessIsClaim(nm, cat, e, c, |cat.keys|, g, (target, column));
      if g in KeyGuesses(nm, cat, e, c, |cat.keys|) {
        KeyIsLast(entities, g.target, g.targetColumn);
        assert (g.target, g.targetColumn) in cat.keys;
        var t := LastWhere(entities, HasKey(g.target)).value;
        LastWhereIsLast(entities, HasKey(g.target), t);
      }
      if ClaimsKey(nm, entities, e, c, target, column) {
        var t :| IsLast(entities, HasKey(target), t) && t.primaryKey == Some([column]);
        LastWhereIsLast(entities, HasKey(target), t);
        KeyIsLast(entities, target, column);
      }
    }
  }

  // ---- Overrides read against the catalog ----------------------------------------------------

  /** The entity with this id has the column, whatever its case. */
  ghost predicate HasColumn(nm: Naming, entities: seq<Entity>, id: string, name: string) {
    exists column :: SpelledIn(nm, entities, id, name, column)
  }

  /** The end is the one the override names, each column as the catalog spells it. */
  ghost predicate IsEndOf(nm: Naming, entities: seq<Entity>, stated: End, drawn: End) {
    && drawn.entity == stated.entity && |drawn.columns| == |stated.columns|
    && forall i | 0 <= i < |stated.columns| ::
         SpelledIn(nm, entities, stated.entity, stated.columns[i], drawn.columns[i])
  }

  ghost predicate HasColumns(nm: Naming, entities: seq<Entity>, stated: End) {
    forall c | c in stated.columns :: HasColumn(nm, entities, stated.entity, c)
  }

  lemma {:induction false} ColumnIsFound(nm: Naming, entities: seq<Entity>, id: string, name: string)
    requires id in ById(entities)
    ensures HasColumn(nm, entities, id, name) <==> nm.lower(name) in ColumnNames(nm, ById(entities)[id])
  {
    var names := ColumnNames(nm, ById(entities)[id]);
    if nm.lower(name) in names {
      SpellingIsLast(nm, entities, id, name, names[nm.lower(name)]);
    }
    if HasColumn(nm, entities, id, name) {
      var column :| SpelledIn(nm, entities, id, name, column);
      SpellingIsLast(nm, entities, id, name, column);
    }
  }

  lemma {:induction false} ColumnsAreFound(nm: Naming, entities: seq<Entity>, stated: End)
    requires stated.entity in ById(entities)
    ensures HasColumns(nm, entities, stated)
       <==> FirstAbsent(nm, ColumnNames(nm, ById(entities)[stated.entity]), stated.columns).None?
  {
    forall c | c in stated.columns
      ensures HasColumn(nm, entities, stated.entity, c)
         <==> nm.lower(c) in ColumnNames(nm, ById(entities)[stated.entity])
    {
      ColumnIsFound(nm, entities, stated.entity, c);
    }
  }

  lemma {:induction false} EndIsDrawn(nm: Naming, entities: seq<Entity>, stated: End, drawn: End)
    requires stated.entity in ById(entities) && drawn.entity == stated.entity
    requires var names := ColumnNames(nm, ById(entities)[stated.entity]);
             (forall c | c in stated.columns :: nm.lower(c) in names)
             && drawn.columns == CatalogSpelling(nm, names, stated.columns)
    ensures IsEndOf(nm, entities, stated, drawn)
  {
    forall i | 0 <= i < |stated.columns|
      ensures SpelledIn(nm, entities, stated.entity, stated.columns[i], drawn.columns[i])
    {
      assert stated.columns[i] in stated.columns;
      SpellingIsLast(nm, entities, stated.entity, stated.columns[i], drawn.columns[i]);
    }
  }

  /** An override fits when the catalog has both its tables, which differ, and all its columns. */
  ghost predicate Fits(nm: Naming, entities: seq<Entity>, o: Override) {
    && o.source.entity in ById(entities) && o.target.entity in ById(entities)
    && o.source.entity != o.target.entity
    && HasColumns(nm, entities, o.source) && HasColumns(nm, entities, o.target)
  }

  /** The edge says what the override says, in the catalog's spelling, and is no guess. */
  ghost predicate SaysOverride(nm: Naming, entities: seq<Entity>, o: Override, r: Relationship) {
    && IsEndOf(nm, entities, o.source, r.source) && IsEndOf(nm, entities, o.target, r.target)
    && r.id == o.id && r.cardinality == o.cardinality && r.note == o.note
    && r.origin == AdminOverride && r.confidence == 1.0
  }

  /** The first of the end's columns that its table lacks. */
  ghost predicate IsFirstAbsent(nm: Naming, entities: seq<Entity>, stated: End, name: string) {
    exists k | 0 <= k < |stated.columns| ::
      && stated.columns[k] == name && !HasColumn(nm, entities, stated.entity, name)
      && forall j | 0 <= j < k :: HasColumn(nm, entities, stated.entity, stated.columns[j])
  }

  lemma {:induction false} AbsentIsFirst(nm: Naming, names: map<string, string>, requested: seq<string>)
    returns (k: nat)
    requires FirstAbsent(nm, names, requested).Some?
    ensures k < |requested| && requested[k] == FirstAbsent(nm, names, requested).value
    ensures nm.lower(requested[k]) !in names && forall j | 0 <= j < k :: nm.lower(requested[j]) in names
  {
    k := 0;
    if nm.lower(requested[0]) in names {
      var l := AbsentIsFirst(nm, names, requested[1..]);
      k := l + 1;
      assert forall j | 0 < j < k :: requested[j] == requested[1..][j - 1];
    }
  }

  lemma {:induction false} FirstAbsentIs(nm: Naming, entities: seq<Entity>, stated: End, name: string)
    requires stated.entity in ById(entities)
    requires FirstAbsent(nm, ColumnNames(nm, ById(entities)[stated.entity]), stated.columns) == Some(name)
    ensures IsFirstAbsent(nm, entities, stated, name)
  {
    var k := AbsentIsFirst(nm, ColumnNames(nm, ById(entities)[stated.entity]), stated.columns);
    forall j | 0 <= j <= k
      ensures HasColumn(nm, entities, stated.entity, stated.columns[j])
         <==> nm.lower(stated.columns[j]) in ColumnNames(nm, ById(entities)[stated.entity])
    {
      ColumnIsFound(nm, entities, stated.entity, stated.columns[j]);
    }
  }

  /** What is wrong with an override that does not fit: the first missing of its tables, then of their columns. */
  ghost predicate IsWrong(nm: Naming, entities: seq<Entity>, o: Override, problem: Problem) {
    if o.source.entity !in ById(entities) then problem == UnknownEntity(o.source.entity)
    else if o.target.entity !in ById(entities) then problem == UnknownEntity(o.target.entity)
    else if o.source.entity == o.target.entity then problem == SelfPair(o.source.entity)
    else
      problem.UnknownColumn?
      && if HasColumns(nm, entities, o.source) then
           problem.entity == o.target.entity && IsFirstAbsent(nm, entities, o.target, problem.column)
         else
           problem.entity == o.source.entity && IsFirstAbsent(nm, entities, o.source, problem.column)
  }

  lemma {:induction false} ProblemIsTheFirst(nm: Naming, entities: seq<Entity>, o: Override)
    requires ResolveOverride(nm, o, ById(entities)).Err?
    ensures IsWrong(nm, entities, o, ResolveOverride(nm, o, ById(entities)).error)
  {
    var byId := ById(entities);
    if o.source.entity in byId && o.target.entity in byId && o.source.entity != o.target.entity {
      ColumnsAreFound(nm, entities, o.source);
      ColumnsAreFound(nm, entities, o.target);
      var problem := ResolveOverride(nm, o, byId).error;
      if HasColumns(nm, entities, o.source) {
        FirstAbsentIs(nm, entities, o.target, problem.column);
      } else {
        FirstAbsentIs(nm, entities, o.source, problem.column);
      }
    }
  }

  /** An override that fits is read as the edge it states; one that does not, as the first thing wrong with it. */
  lemma {:induction false} OverrideIsReadAsStated(nm: Naming, entities: seq<Entity>, o: Override)
    ensures var r := ResolveOverride(nm, o, ById(entities));
            && (r.Ok? <==> Fits(nm, entities, o))
            && (r.Ok? ==> SaysOverride(nm, entities, o, r.value))
            && (r.Err? ==> IsWrong(nm, entities, o, r.error))
  {
    var byId := ById(entities);
    var r := ResolveOverride(nm, o, byId);
    if r.Err? {
      ProblemIsTheFirst(nm, entities, o);
    }
    if o.source.entity in byId && o.target.entity in byId {
      ColumnsAreFound(nm, entities, o.source);
      ColumnsAreFound(nm, entities, o.target);
      if r.Ok? {
        EndIsDrawn(nm, entities, o.source, r.value.source);
        EndIsDrawn(nm, entities, o.target, r.value.target);
      }
    }
  }
}
