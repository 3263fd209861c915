/**
 * A warehouse rebuild that recases every column: inference draws the same edges,
 * in the same order, spelled the new way, while stored overrides keep theirs.
 */
module Recasing {
  import opened Prelude
  import opened Ir
  import opened Inference
  import opened PairOwnership

  /** Only the empty name folds to the empty name. */
  ghost predicate KeepsEmptiness(nm: Naming) {
    forall s :: nm.lower(s) == "" <==> s == ""
  }

  ghost predicate StemsAgree(nm: Naming, cs: seq<Column>, cs': seq<Column>) {
    forall c, c' | c in cs && c' in cs' && SameFold(nm, c.name, c'.name) ::
      nm.surrogateStem(c.name) == nm.surrogateStem(c'.name)
  }

  /** The surrogate-key pattern does not see case in the column names of the two catalogs. */
  ghost predicate CaseBlind(nm: Naming, es: seq<Entity>, es': seq<Entity>) {
    forall e, e' | e in es && e' in es' :: StemsAgree(nm, e.columns, e'.columns)
  }

  ghost predicate SameFold(nm: Naming, a: string, b: string) {
    nm.lower(a) == nm.lower(b)
  }

  ghost predicate SameFolds(nm: Naming, a: seq<string>, b: seq<string>) {
    |a| == |b| && forall i | 0 <= i < |a| :: SameFold(nm, a[i], b[i])
  }

  ghost predicate RecasedColumns(nm: Naming, cs: seq<Column>, cs': seq<Column>) {
    |cs| == |cs'|
    && forall i | 0 <= i < |cs| :: SameFold(nm, cs[i].name, cs'[i].name) && cs[i].isPrimaryKey == cs'[i].isPrimaryKey
  }

  ghost predicate RecasedEntity(nm: Naming, e: Entity, e': Entity) {
    && e.id == e'.id && e.namespace == e'.namespace && e.name == e'.name
    && RecasedColumns(nm, e.columns, e'.columns)
    && e.primaryKey.Some? == e'.primaryKey.Some?
    && (e.primaryKey.Some? ==> SameFolds(nm, e.primaryKey.value, e'.primaryKey.value))
  }

  ghost predicate Recased(nm: Naming, es: seq<Entity>, es': seq<Entity>) {
    |es| == |es'| && forall i | 0 <= i < |es| :: RecasedEntity(nm, es[i], es'[i])
  }

  ghost predicate SameEnd(nm: Naming, e: End, e': End) {
    e.entity == e'.entity && SameFolds(nm, e.columns, e'.columns)
  }

  /** The same edge up to spelling: ends, direction, tier, confidence and cardinality. */
  ghost predicate SameEdge(nm: Naming, r: Relationship, r': Relationship) {
    && SameEnd(nm, r.source, r'.source) && SameEnd(nm, r.target, r'.target)
    && r.cardinality == r'.cardinality && r.origin == r'.origin && r.confidence == r'.confidence
  }

  ghost predicate SameEdges(nm: Naming, rs: seq<Relationship>, rs': seq<Relationship>) {
    |rs| == |rs'| && forall i | 0 <= i < |rs| :: SameEdge(nm, rs[i], rs'[i])
  }

  ghost predicate SameGuess(nm: Naming, g: Guess, g': Guess) {
    && g.source == g'.source && g.target == g'.target && g.confidence == g'.confidence
    && SameFold(nm, g.column, g'.column) && SameFold(nm, g.targetColumn, g'.targetColumn)
  }

  ghost predicate SameGuesses(nm: Naming, gs: seq<Guess>, gs': seq<Guess>) {
    |gs| == |gs'| && forall i | 0 <= i < |gs| :: SameGuess(nm, gs[i], gs'[i])
  }

  // ---- The look-ups --------------------------------------------------------------

  lemma {:induction false} ByIdRecased(nm: Naming, es: seq<Entity>, es': seq<Entity>)
    requires Recased(nm, es, es')
    ensures ById(es).Keys == ById(es').Keys
    ensures forall id | id in ById(es) :: RecasedEntity(nm, ById(es)[id], ById(es')[id])
  {
    if es != [] {
      ByIdRecased(nm, es[..|es| - 1], es'[..|es'| - 1]);
    }
  }

  ghost predicate SameDimensions(dims: map<string, Entity>, dims': map<string, Entity>) {
    dims.Keys == dims'.Keys && forall k | k in dims :: dims[k].id == dims'[k].id
  }

  lemma {:induction false} SameDimensionsPut(
    dims: map<string, Entity>, dims': map<string, Entity>, k: string, e: Entity, e': Entity)
    requires SameDimensions(dims, dims') && e.id == e'.id
    ensures SameDimensions(dims[k := e], dims'[k := e'])
  {
  }

  lemma {:induction false} DimensionsRecased(nm: Naming, es: seq<Entity>, es': seq<Entity>)
    requires Recased(nm, es, es')
    ensures SameDimensions(DimensionsOf(nm, es), DimensionsOf(nm, es'))
  {
    if es != [] {
      var n := |es| - 1;
      var dims, dims' := DimensionsOf(nm, es[..n]), DimensionsOf(nm, es'[..n]);
      assert RecasedEntity(nm, es[n], es'[n]);
      DimensionsRecased(nm, es[..n], es'[..n]);
      var stem := nm.dimensionStem(es[n].name);
      if stem.Some? {
        SameDimensionsPut(dims, dims', stem.value, es[n], es'[n]);
      }
    }
  }

  ghost predicate SameKeys(nm: Naming, ks: seq<(string, string)>, ks': seq<(string, string)>) {
    |ks| == |ks'| && forall i | 0 <= i < |ks| :: ks[i].0 == ks'[i].0 && SameFold(nm, ks[i].1, ks'[i].1)
  }

  lemma {:induction false} PutRecased(
    nm: Naming, ks: seq<(string, string)>, ks': seq<(string, string)>, key: string, v: string, v': string)
    requires SameKeys(nm, ks, ks') && SameFold(nm, v, v')
    ensures SameKeys(nm, Put(ks, key, v), Put(ks', key, v'))
  {
    if ks != [] {
      PutRecased(nm, ks[1..], ks'[1..], key, v, v');
    }
  }

  lemma {:induction false} PrimaryKeysRecased(nm: Naming, es: seq<Entity>, es': seq<Entity>)
    requires KeepsEmptiness(nm) && Recased(nm, es, es')
    ensures SameKeys(nm, PrimaryKeys(es), PrimaryKeys(es'))
  {
    if es != [] {
      var last, last' := es[|es| - 1], es'[|es| - 1];
      PrimaryKeysRecased(nm, es[..|es| - 1], es'[..|es'| - 1]);
      SinglePrimaryKeyRecased(nm, last, last');
      if SinglePrimaryKey(last).Some? {
        PutRecased(nm, PrimaryKeys(es[..|es| - 1]), PrimaryKeys(es'[..|es'| - 1]), last.id,
          SinglePrimaryKey(last).value, SinglePrimaryKey(last').value);
      }
    }
  }

  lemma {:induction false} SinglePrimaryKeyRecased(nm: Naming, e: Entity, e': Entity)
    requires KeepsEmptiness(nm) && RecasedEntity(nm, e, e')
    ensures var pk, pk' := SinglePrimaryKey(e), SinglePrimaryKey(e');
            pk.Some? == pk'.Some? && (pk.Some? ==> SameFold(nm, pk.value, pk'.value))
  {
    if e.primaryKey.Some? && |e.primaryKey.value| == 1 {
      assert SameFold(nm, e.primaryKey.value[0], e'.primaryKey.value[0]);
      assert e.primaryKey.value[0] == "" <==> nm.lower(e.primaryKey.value[0]) == "";
    }
  }

  lemma {:induction false} NamesRecased(nm: Naming, cs: seq<Column>, cs': seq<Column>)
    requires RecasedColumns(nm, cs, cs')
    ensures NamesOf(nm, cs).Keys == NamesOf(nm, cs').Keys
    ensures forall k | k in NamesOf(nm, cs) :: SameFold(nm, NamesOf(nm, cs)[k], NamesOf(nm, cs')[k])
  {
    if cs != [] {
      var n := |cs| - 1;
      NamesRecased(nm, cs[..n], cs'[..n]);
      assert SameFold(nm, cs[n].name, cs'[n].name);
    }
  }

  // ---- Overrides -------------------------------------------------------------------

  ghost predicate SameResolution(nm: Naming, r: Result<Relationship, Problem>, r': Result<Relationship, Problem>) {
    && r.Ok? == r'.Ok?
    && (r.Ok? ==> r.value.id == r'.value.id && SameEdge(nm, r.value, r'.value))
    && (r.Err? ==> r.error == r'.error)
  }

  lemma {:induction false} FirstAbsentRecased(
    nm: Naming, names: map<string, string>, names': map<string, string>, requested: seq<string>)
    requires names.Keys == names'.Keys
    ensures FirstAbsent(nm, names, requested) == FirstAbsent(nm, names', requested)
  {
    if requested != [] {
      assert nm.lower(requested[0]) in names.Keys <==> nm.lower(requested[0]) in names'.Keys;
      FirstAbsentRecased(nm, names, names', requested[1..]);
    }
  }

  lemma {:induction false} SpellingRecased(
    nm: Naming, names: map<string, string>, names': map<string, string>, requested: seq<string>)
    requires names.Keys == names'.Keys && forall c | c in requested :: nm.lower(c) in names && nm.lower(c) in names'
    requires forall k | k in names :: SameFold(nm, names[k], names'[k])
    ensures SameFolds(nm, CatalogSpelling(nm, names, requested), CatalogSpelling(nm, names', requested))
  {
  }

  /** One end of an override reads alike against either spelling of its table. */
  lemma {:induction false} EndRecased(nm: Naming, requested: seq<string>, e: Entity, e': Entity)
    requires RecasedEntity(nm, e, e')
    ensures FirstAbsent(nm, ColumnNames(nm, e), requested) == FirstAbsent(nm, ColumnNames(nm, e'), requested)
    ensures FirstAbsent(nm, ColumnNames(nm, e), requested).None? ==>
              SameFolds(nm, CatalogSpelling(nm, ColumnNames(nm, e), requested),
                            CatalogSpelling(nm, ColumnNames(nm, e'), requested))
  {
    var names, names' := ColumnNames(nm, e), ColumnNames(nm, e');
    NamesRecased(nm, e.columns, e'.columns);
    FirstAbsentRecased(nm, names, names', requested);
    if FirstAbsent(nm, names, requested).None? {
      SpellingRecased(nm, names, names', requested);
    }
  }

  lemma {:induction false} BetweenRecased(nm: Naming, o: Override, s: Entity, s': Entity, t: Entity, t': Entity)
    requires RecasedEntity(nm, s, s') && RecasedEntity(nm, t, t')
    ensures SameResolution(nm, ResolveBetween(nm, o, s, t), ResolveBetween(nm, o, s', t'))
  {
    EndRecased(nm, o.source.columns, s, s');
    EndRecased(nm, o.target.columns, t, t');
  }

  /** One override, still spelled the old way, fits both catalogs or fails both alike. */
  lemma {:induction false} OverrideRecased(nm: Naming, o: Override, es: seq<Entity>, es': seq<Entity>)
    requires Recased(nm, es, es')
    ensures SameResolution(nm, ResolveOverride(nm, o, ById(es)), ResolveOverride(nm, o, ById(es')))
  {
    ByIdRecased(nm, es, es');
    var byId, byId' := ById(es), ById(es');
    assert o.source.entity in byId.Keys <==> o.source.entity in byId'.Keys;
    assert o.target.entity in byId.Keys <==> o.target.entity in byId'.Keys;
    if o.source.entity in byId && o.target.entity in byId {
      var source, target := o.source.entity, o.target.entity;
      BetweenRecased(nm, o, byId[source], byId'[source], byId[target], byId'[target]);
    }
  }

  ghost predicate SameApplied(nm: Naming, a: seq<(Override, Relationship)>, a': seq<(Override, Relationship)>) {
    |a| == |a'| && forall i | 0 <= i < |a| :: a[i].0 == a'[i].0 && SameEdge(nm, a[i].1, a'[i].1)
  }

  lemma {:induction false} SameAppliedAppend(
    nm: Naming, a: seq<(Override, Relationship)>, a': seq<(Override, Relationship)>,
    o: Override, r: Relationship, r': Relationship)
    requires SameApplied(nm, a, a') && SameEdge(nm, r, r')
    ensures SameApplied(nm, a + [(o, r)], a' + [(o, r')])
  {
  }

  lemma {:induction false} AppliedRecased(nm: Naming, overrides: seq<Override>, es: seq<Entity>, es': seq<Entity>)
    requires Recased(nm, es, es')
    ensures SameApplied(nm, Applied(nm, overrides, ById(es)), Applied(nm, overrides, ById(es')))
  {
    if overrides != [] {
      var init, last := overrides[..|overrides| - 1], overrides[|overrides| - 1];
      AppliedRecased(nm, init, es, es');
      OverrideRecased(nm, last, es, es');
      var r, r' := ResolveOverride(nm, last, ById(es)), ResolveOverride(nm, last, ById(es'));
      if r.Ok? {
        SameAppliedAppend(nm, Applied(nm, init, ById(es)), Applied(nm, init, ById(es')), last, r.value, r'.value);
      }
    }
  }

  lemma {:induction false} SamePairs(nm: Naming, a: seq<(Override, Relationship)>, a': seq<(Override, Relationship)>)
    requires SameApplied(nm, a, a')
    ensures OverriddenPairs(a) == OverriddenPairs(a')
  {
    forall x | x in a ensures PairOf(x.1) in OverriddenPairs(a') {
      var i :| 0 <= i < |a| && a[i] == x;
      assert a'[i] in a';
    }
    forall x | x in a' ensures PairOf(x.1) in OverriddenPairs(a) {
      var i :| 0 <= i < |a'| && a'[i] == x;
      assert a[i] in a;
    }
  }

  lemma {:induction false} AssertedRecased(
    nm: Naming, a: seq<(Override, Relationship)>, a': seq<(Override, Relationship)>)
    requires SameApplied(nm, a, a')
    ensures SameEdges(nm, AssertedEdges(a), AssertedEdges(a'))
  {
    var join := (x: (Override, Relationship)) => x.0.action == Join;
    var same := (x: (Override, Relationship), y: (Override, Relationship)) => SameEdge(nm, x.1, y.1);
    FilterPairwise(same, join, join, a, a');
  }

  lemma {:induction false} EdgePairs(nm: Naming, rs: seq<Relationship>, rs': seq<Relationship>)
    requires SameEdges(nm, rs, rs')
    ensures PairsOf(rs) == PairsOf(rs')
  {
    forall r | r in rs ensures PairOf(r) in PairsOf(rs') {
      var i :| 0 <= i < |rs| && rs[i] == r;
      assert rs'[i] in rs';
    }
    forall r | r in rs' ensures PairOf(r) in PairsOf(rs) {
      var i :| 0 <= i < |rs'| && rs'[i] == r;
      assert rs[i] in rs;
    }
  }

  lemma {:induction false} DeclaredRecased(
    nm: Naming, byId: map<string, Entity>, byId': map<string, Entity>,
    ds: seq<Relationship>, ds': seq<Relationship>, seen: set<set<string>>)
    requires byId.Keys == byId'.Keys && SameEdges(nm, ds, ds')
    ensures SameEdges(nm, KeptDeclared(byId, ds, seen), KeptDeclared(byId', ds', seen))
  {
    var keep := (r: Relationship) => r.source.entity in byId && r.target.entity in byId && PairOf(r) !in seen;
    var keep' := (r: Relationship) => r.source.entity in byId' && r.target.entity in byId' && PairOf(r) !in seen;
    var same := (r: Relationship, r': Relationship) => SameEdge(nm, r, r');
    forall i | 0 <= i < |ds| ensures keep(ds[i]) == keep'(ds'[i]) {
      assert SameEdge(nm, ds[i], ds'[i]);
      assert forall id :: id in byId.Keys <==> id in byId'.Keys;
    }
    FilterPairwise(same, keep, keep', ds, ds');
  }

  // ---- Guesses ------------------------------------------------------------------------

  /** Two catalogs whose look-ups agree up to spelling. */
  ghost predicate SameCatalog(nm: Naming, cat: Catalog, cat': Catalog) {
    && Consistent(cat) && Consistent(cat')
    && Recased(nm, cat.entities, cat'.entities)
    && cat.byId.Keys == cat'.byId.Keys
    && (forall id | id in cat.byId :: RecasedEntity(nm, cat.byId[id], cat'.byId[id]))
    && SameDimensions(cat.dimensions, cat'.dimensions)
    && SameKeys(nm, cat.keys, cat'.keys)
  }

  lemma {:induction false} CatalogRecased(nm: Naming, es: seq<Entity>, es': seq<Entity>)
    requires KeepsEmptiness(nm) && Recased(nm, es, es')
    ensures SameCatalog(nm, CatalogOf(nm, es), CatalogOf(nm, es'))
  {
    ByIdRecased(nm, es, es');
    DimensionsRecased(nm, es, es');
    PrimaryKeysRecased(nm, es, es');
  }

  lemma {:induction false} SurrogateRecased(
    nm: Naming, cat: Catalog, cat': Catalog, e: Entity, e': Entity, c: Column, c': Column)
    requires SameCatalog(nm, cat, cat') && e.id == e'.id && SameFold(nm, c.name, c'.name)
    requires nm.surrogateStem(c.name) == nm.surrogateStem(c'.name)
    ensures SameGuesses(nm, SurrogateGuess(nm, cat, e, c), SurrogateGuess(nm, cat', e', c'))
  {
    var stem := nm.surrogateStem(c.name);
    assert stem.Some? ==> (stem.value in cat.dimensions.Keys <==> stem.value in cat'.dimensions.Keys);
    if stem.Some? && stem.value in cat.dimensions {
      var id := cat.dimensions[stem.value].id;
      NameRecased(nm, cat.byId[id], cat'.byId[id], c, c');
    }
  }

  ghost predicate SameStems(nm: Naming, cs: seq<Column>, cs': seq<Column>) {
    |cs| == |cs'| && forall j | 0 <= j < |cs| :: nm.surrogateStem(cs[j].name) == nm.surrogateStem(cs'[j].name)
  }

  ghost predicate AllSameStems(nm: Naming, es: seq<Entity>, es': seq<Entity>) {
    |es| == |es'| && forall i | 0 <= i < |es| :: SameStems(nm, es[i].columns, es'[i].columns)
  }

  lemma {:induction false} StemsRecased(nm: Naming, es: seq<Entity>, es': seq<Entity>)
    requires CaseBlind(nm, es, es') && Recased(nm, es, es')
    ensures AllSameStems(nm, es, es')
  {
    forall i, j | 0 <= i < |es| && 0 <= j < |es[i].columns|
      ensures nm.surrogateStem(es[i].columns[j].name) == nm.surrogateStem(es'[i].columns[j].name)
    {
      assert es[i] in es && es'[i] in es' && RecasedEntity(nm, es[i], es'[i]);
      assert StemsAgree(nm, es[i].columns, es'[i].columns);
      assert es[i].columns[j] in es[i].columns && es'[i].columns[j] in es'[i].columns;
    }
  }

  lemma {:induction false} NameRecased(nm: Naming, e: Entity, e': Entity, c: Column, c': Column)
    requires RecasedEntity(nm, e, e') && SameFold(nm, c.name, c'.name)
    ensures nm.lower(c.name) in ColumnNames(nm, e) <==> nm.lower(c'.name) in ColumnNames(nm, e')
    ensures nm.lower(c.name) in ColumnNames(nm, e) ==>
      SameFold(nm, ColumnNames(nm, e)[nm.lower(c.name)], ColumnNames(nm, e')[nm.lower(c'.name)])
  {
    NamesRecased(nm, e.columns, e'.columns);
    assert nm.lower(c.name) in ColumnNames(nm, e).Keys <==> nm.lower(c.name) in ColumnNames(nm, e').Keys;
  }

  lemma {:induction false} SameGuessesConcat(nm: Naming, a: seq<Guess>, a': seq<Guess>, b: seq<Guess>, b': seq<Guess>)
    requires SameGuesses(nm, a, a') && SameGuesses(nm, b, b')
    ensures SameGuesses(nm, a + b, a' + b')
  {
  }

  lemma {:induction false} SurrogatesUpToRecased(nm: Naming, cat: Catalog, cat': Catalog, e: Entity, e': Entity, n: nat)
    requires SameStems(nm, e.columns, e'.columns)
    requires SameCatalog(nm, cat, cat') && RecasedEntity(nm, e, e') && n <= |e.columns|
    ensures SameGuesses(nm, SurrogatesUpTo(nm, cat, e, n), SurrogatesUpTo(nm, cat', e', n))
  {
    if n > 0 {
      SurrogatesUpToRecased(nm, cat, cat', e, e', n - 1);
      assert SameFold(nm, e.columns[n - 1].name, e'.columns[n - 1].name);
      SurrogateRecased(nm, cat, cat', e, e', e.columns[n - 1], e'.columns[n - 1]);
      SameGuessesConcat(nm, SurrogatesUpTo(nm, cat, e, n - 1), SurrogatesUpTo(nm, cat', e', n - 1),
        SurrogateGuess(nm, cat, e, e.columns[n - 1]), SurrogateGuess(nm, cat', e', e'.columns[n - 1]));
    }
  }

  lemma {:induction false} SurrogatesRecased(nm: Naming, cat: Catalog, cat': Catalog, n: nat)
    requires AllSameStems(nm, cat.entities, cat'.entities) && SameCatalog(nm, cat, cat') && n <= |cat.entities|
    ensures SameGuesses(nm, Surrogates(nm, cat, n), Surrogates(nm, cat', n))
  {
    if n > 0 {
      var e, e' := cat.entities[n - 1], cat'.entities[n - 1];
      assert RecasedEntity(nm, e, e');
      SurrogatesRecased(nm, cat, cat', n - 1);
      assert SameStems(nm, e.columns, e'.columns);
      SurrogatesUpToRecased(nm, cat, cat', e, e', |e.columns|);
      SameGuessesConcat(nm, Surrogates(nm, cat, n - 1), Surrogates(nm, cat', n - 1),
        SurrogatesUpTo(nm, cat, e, |e.columns|), SurrogatesUpTo(nm, cat', e', |e'.columns|));
    }
  }

  lemma {:induction false} KeyGuessesRecased(
    nm: Naming, cat: Catalog, cat': Catalog, e: Entity, e': Entity, c: Column, c': Column, n: nat)
    requires SameCatalog(nm, cat, cat') && e.id == e'.id && n <= |cat.keys|
    requires SameFold(nm, c.name, c'.name) && c.isPrimaryKey == c'.isPrimaryKey
    ensures SameGuesses(nm, KeyGuesses(nm, cat, e, c, n), KeyGuesses(nm, cat', e', c', n))
  {
    if n > 0 && !c.isPrimaryKey {
      KeyGuessesRecased(nm, cat, cat', e, e', c, c', n - 1);
      assert cat.keys[n - 1] in cat.keys && cat'.keys[n - 1] in cat'.keys;
      assert cat.keys[n - 1].0 == cat'.keys[n - 1].0 && SameFold(nm, cat.keys[n - 1].1, cat'.keys[n - 1].1);
      SameGuessesConcat(nm, KeyGuesses(nm, cat, e, c, n - 1), KeyGuesses(nm, cat', e', c', n - 1),
        PrimaryKeyGuess(nm, cat, e, c, cat.keys[n - 1]), PrimaryKeyGuess(nm, cat', e', c', cat'.keys[n - 1]));
    }
  }

  lemma {:induction false} SameNamedUpToRecased(nm: Naming, cat: Catalog, cat': Catalog, e: Entity, e': Entity, n: nat)
    requires SameCatalog(nm, cat, cat') && RecasedEntity(nm, e, e') && n <= |e.columns|
    ensures SameGuesses(nm, SameNamedUpTo(nm, cat, e, n), SameNamedUpTo(nm, cat', e', n))
  {
    if n > 0 {
      SameNamedUpToRecased(nm, cat, cat', e, e', n - 1);
      var c, c' := e.columns[n - 1], e'.columns[n - 1];
      KeyGuessesRecased(nm, cat, cat', e, e', c, c', |cat.keys|);
      SameGuessesConcat(nm, SameNamedUpTo(nm, cat, e, n - 1), SameNamedUpTo(nm, cat', e', n - 1),
        KeyGuesses(nm, cat, e, c, |cat.keys|), KeyGuesses(nm, cat', e', c', |cat'.keys|));
    }
  }

  lemma {:induction false} SameNamedRecased(nm: Naming, cat: Catalog, cat': Catalog, n: nat)
    requires SameCatalog(nm, cat, cat') && n <= |cat.entities|
    ensures SameGuesses(nm, SameNamed(nm, cat, n), SameNamed(nm, cat', n))
  {
    if n > 0 {
      var e, e' := cat.entities[n - 1], cat'.entities[n - 1];
      assert RecasedEntity(nm, e, e');
      SameNamedRecased(nm, cat, cat', n - 1);
      SameNamedUpToRecased(nm, cat, cat', e, e', |e.columns|);
      SameGuessesConcat(nm, SameNamed(nm, cat, n - 1), SameNamed(nm, cat', n - 1),
        SameNamedUpTo(nm, cat, e, |e.columns|), SameNamedUpTo(nm, cat', e', |e'.columns|));
    }
  }

  lemma {:induction false} OffersRecased(nm: Naming, seen: set<set<string>>, gs: seq<Guess>, gs': seq<Guess>)
    requires SameGuesses(nm, gs, gs')
    ensures var a, a' := OfferAll(Claims(seen, []), gs), OfferAll(Claims(seen, []), gs');
            a.seen == a'.seen && SameEdges(nm, a.edges, a'.edges)
  {
    if gs != [] {
      OffersRecased(nm, seen, gs[..|gs| - 1], gs'[..|gs'| - 1]);
      assert SameGuess(nm, gs[|gs| - 1], gs'[|gs'| - 1]);
    }
  }

  // ---- The whole answer -------------------------------------------------------------------

  lemma {:induction false} TiersRecased(
    nm: Naming, es: seq<Entity>, es': seq<Entity>, ds: seq<Relationship>, ds': seq<Relationship>,
    overrides: seq<Override>)
    requires KeepsEmptiness(nm) && CaseBlind(nm, es, es') && Recased(nm, es, es') && SameEdges(nm, ds, ds')
    ensures var t, t' := TiersOf(nm, es, ds, overrides), TiersOf(nm, es', ds', overrides);
            && SameEdges(nm, t.asserted, t'.asserted)
            && SameEdges(nm, t.declared, t'.declared)
            && SameEdges(nm, t.inferred, t'.inferred)
  {
    var cat, cat' := CatalogOf(nm, es), CatalogOf(nm, es');
    CatalogRecased(nm, es, es');
    StemsRecased(nm, es, es');
    var a, a' := Applied(nm, overrides, ById(es)), Applied(nm, overrides, ById(es'));
    AppliedRecased(nm, overrides, es, es');
    SamePairs(nm, a, a');
    AssertedRecased(nm, a, a');
    DeclaredRecased(nm, ById(es), ById(es'), ds, ds', OverriddenPairs(a));
    EdgePairs(nm, KeptDeclared(ById(es), ds, OverriddenPairs(a)), KeptDeclared(ById(es'), ds', OverriddenPairs(a)));
    SurrogatesRecased(nm, cat, cat', |es|);
    SameNamedRecased(nm, cat, cat', |es|);
    SameGuessesConcat(nm, Surrogates(nm, cat, |es|), Surrogates(nm, cat', |es|),
      SameNamed(nm, cat, |es|), SameNamed(nm, cat', |es|));
    OffersRecased(nm, OverriddenPairs(a) + PairsOf(KeptDeclared(ById(es), ds, OverriddenPairs(a))),
      Guesses(nm, cat), Guesses(nm, cat'));
  }

  /** Recasing every column changes no pair, no order, no tier and no confidence. */
  lemma {:induction false} RecasedRebuildKeepsEdges(
    nm: Naming, es: seq<Entity>, es': seq<Entity>, ds: seq<Relationship>, ds': seq<Relationship>,
    overrides: seq<Override>)
    requires KeepsEmptiness(nm) && CaseBlind(nm, es, es') && Recased(nm, es, es') && SameEdges(nm, ds, ds')
    ensures SameEdges(nm, Infer(nm, es, ds, overrides), Infer(nm, es', ds', overrides))
  {
    TiersRecased(nm, es, es', ds, ds', overrides);
    var t, t' := TiersOf(nm, es, ds, overrides), TiersOf(nm, es', ds', overrides);
    SameEdgesConcat(nm, t.asserted, t'.asserted, t.declared, t'.declared);
    SameEdgesConcat(nm, t.asserted + t.declared, t'.asserted + t'.declared, t.inferred, t'.inferred);
  }

  lemma {:induction false} SameEdgesConcat(
    nm: Naming, a: seq<Relationship>, a': seq<Relationship>, b: seq<Relationship>, b': seq<Relationship>)
    requires SameEdges(nm, a, a') && SameEdges(nm, b, b')
    ensures SameEdges(nm, a + b, a' + b')
  {
  }

  // ---- In the spelling the catalog uses now ---------------------------------------------------

  /** `column` is spelled as some table with this id spells it, as a column or as its key. */
  ghost predicate Spells(es: seq<Entity>, id: string, column: string) {
    exists e | e in es ::
      e.id == id && ((exists c | c in e.columns :: c.name == column) || SinglePrimaryKey(e) == Some(column))
  }

  ghost predicate SpelledBy(es: seq<Entity>, end: End) {
    forall c | c in end.columns :: Spells(es, end.entity, c)
  }

  lemma {:induction false} SurrogateIsSpelled(nm: Naming, es: seq<Entity>, g: Guess)
    requires g in Surrogates(nm, CatalogOf(nm, es), |es|)
    ensures Spells(es, g.source, g.column) && Spells(es, g.target, g.targetColumn)
  {
    var cat := CatalogOf(nm, es);
    var i, j := SurrogateOrigin(nm, cat, |es|, g);
    assert es[i] in es && es[i].columns[j] in es[i].columns;
    assert cat.byId[g.target] in es;
  }

  lemma {:induction false} SameNamedIsSpelled(nm: Naming, es: seq<Entity>, g: Guess)
    requires g in SameNamed(nm, CatalogOf(nm, es), |es|)
    ensures Spells(es, g.source, g.column) && Spells(es, g.target, g.targetColumn)
  {
    var cat := CatalogOf(nm, es);
    var i, j := SameNamedOrigin(nm, cat, |es|, g);
    var key := KeyOrigin(nm, cat, es[i], es[i].columns[j], |cat.keys|, g);
    assert es[i] in es && es[i].columns[j] in es[i].columns;
  }

  lemma {:induction false} OverrideIsSpelled(nm: Naming, es: seq<Entity>, o: Override)
    requires ResolveOverride(nm, o, ById(es)).Ok?
    ensures var r := ResolveOverride(nm, o, ById(es)).value; SpelledBy(es, r.source) && SpelledBy(es, r.target)
  {
    EndIsSpelled(nm, es, ById(es)[o.source.entity], o.source.columns);
    EndIsSpelled(nm, es, ById(es)[o.target.entity], o.target.columns);
  }

  lemma {:induction false} EndIsSpelled(nm: Naming, es: seq<Entity>, e: Entity, requested: seq<string>)
    requires e in es && forall c | c in requested :: nm.lower(c) in ColumnNames(nm, e)
    ensures SpelledBy(es, End(e.id, CatalogSpelling(nm, ColumnNames(nm, e), requested)))
  {
    var spelled := CatalogSpelling(nm, ColumnNames(nm, e), requested);
    forall c | c in spelled ensures Spells(es, e.id, c) {
      var i :| 0 <= i < |spelled| && spelled[i] == c;
      assert nm.lower(requested[i]) in ColumnNames(nm, e);
    }
  }

  /** Every edge inference adds names its columns the way the catalog in hand does. */
  lemma {:induction false} EdgesSpeakTheCatalog(
    nm: Naming, es: seq<Entity>, ds: seq<Relationship>, overrides: seq<Override>, r: Relationship)
    requires var t := TiersOf(nm, es, ds, overrides); r in t.asserted || r in t.inferred
    ensures SpelledBy(es, r.source) && SpelledBy(es, r.target)
  {
    if r in TiersOf(nm, es, ds, overrides).asserted {
      AssertedIffFits(nm, es, overrides, r);
      var o :| o in overrides && o.action == Join && ResolveOverride(nm, o, ById(es)) == Ok(r);
      OverrideIsSpelled(nm, es, o);
    } else {
      InferredEdgesAreFirstGuesses(nm, es, ds, overrides);
      var guesses, surrogates := GuessesFor(nm, es), Surrogates(nm, CatalogOf(nm, es), |es|);
      var k :| FirstGuess(guesses, k, r);
      if k < |surrogates| {
        assert guesses[k] in surrogates;
        SurrogateIsSpelled(nm, es, guesses[k]);
      } else {
        assert guesses[k] in SameNamed(nm, CatalogOf(nm, es), |es|);
        SameNamedIsSpelled(nm, es, guesses[k]);
      }
    }
  }
}
