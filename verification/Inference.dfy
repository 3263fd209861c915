/** The edges an ERD can justify. */
module Inference {
  import opened Prelude
  import opened Ir

  // Admin overrides, then declared constraints, then two kinds of guess from naming. The
  // first tier to claim a pair owns it.

  /**
   * The naming conventions inference reads. `lower` folds case; the two stems are
   * the lower-cased group of the surrogate-key and dimension patterns, if any.
   */
  datatype Naming = Naming(
    lower: string -> string,
    surrogateStem: string -> Option<string>,
    dimensionStem: string -> Option<string>)

  datatype OverrideAction = Join | Suppress

  datatype Override = Override(
    id: string,
    source: End,
    target: End,
    action: OverrideAction,
    cardinality: Cardinality,
    note: Option<string>)

  datatype Problem = UnknownEntity(id: string) | SelfPair(id: string) | UnknownColumn(entity: string, column: string)

  const SURROGATE_KEY_CONFIDENCE: real := 0.9
  const SAME_NAMED_PK_CONFIDENCE: real := 0.8

  // ---- Reading a catalog -------------------------------------------------------

  /** Folded name to the column's real name; the last column with a fold is kept. */
  function NamesOf(nm: Naming, columns: seq<Column>): (names: map<string, string>)
    ensures forall k | k in names :: exists c :: c in columns && nm.lower(c.name) == k && names[k] == c.name
    ensures forall c | c in columns :: nm.lower(c.name) in names
  {
    if columns == [] then map[]
    else
      var last := columns[|columns| - 1];
      assert columns == columns[..|columns| - 1] + [last];
      NamesOf(nm, columns[..|columns| - 1])[nm.lower(last.name) := last.name]
  }

  function ColumnNames(nm: Naming, e: Entity): map<string, string> {
    NamesOf(nm, e.columns)
  }

  function FirstAbsent(nm: Naming, names: map<string, string>, requested: seq<string>): (r: Option<string>)
    ensures r.None? <==> forall c | c in requested :: nm.lower(c) in names
  {
    if requested == [] then None
    else if nm.lower(requested[0]) !in names then Some(requested[0])
    else FirstAbsent(nm, names, requested[1..])
  }

  function CatalogSpelling(nm: Naming, names: map<string, string>, requested: seq<string>): (r: seq<string>)
    requires forall c | c in requested :: nm.lower(c) in names
    ensures |r| == |requested|
    ensures forall i | 0 <= i < |r| :: r[i] == names[nm.lower(requested[i])]
  {
    seq(|requested|, i requires 0 <= i < |requested| => names[nm.lower(requested[i])])
  }

  /** An override whose two entities are known, read against their columns. */
  function ResolveBetween(nm: Naming, o: Override, source: Entity, target: Entity): Result<Relationship, Problem> {
    var sourceNames, targetNames := ColumnNames(nm, source), ColumnNames(nm, target);
    var absentSource := FirstAbsent(nm, sourceNames, o.source.columns);
    var absentTarget := FirstAbsent(nm, targetNames, o.target.columns);
    if source.id == target.id then Err(SelfPair(source.id))
    else if absentSource.Some? then Err(UnknownColumn(source.id, absentSource.value))
    else if absentTarget.Some? then Err(UnknownColumn(target.id, absentTarget.value))
    else
      Ok(Relationship(
        o.id,
        End(source.id, CatalogSpelling(nm, sourceNames, o.source.columns)),
        End(target.id, CatalogSpelling(nm, targetNames, o.target.columns)),
        o.cardinality, AdminOverride, 1.0, o.note))
  }

  /** An admin's override read against the catalog in hand. */
  function ResolveOverride(nm: Naming, o: Override, byId: map<string, Entity>): Result<Relationship, Problem> {
    if o.source.entity !in byId then Err(UnknownEntity(o.source.entity))
    else if o.target.entity !in byId then Err(UnknownEntity(o.target.entity))
    else ResolveBetween(nm, o, byId[o.source.entity], byId[o.target.entity])
  }

  /** The dimension each stem names; the last entity with a stem is kept. */
  function DimensionsOf(nm: Naming, entities: seq<Entity>): (dims: map<string, Entity>)
    ensures forall k | k in dims :: dims[k] in entities
  {
    if entities == [] then map[]
    else
      var last := entities[|entities| - 1];
      var dims := DimensionsOf(nm, entities[..|entities| - 1]);
      var stem := nm.dimensionStem(last.name);
      if stem.Some? then dims[stem.value := last] else dims
  }

  function SinglePrimaryKey(e: Entity): Option<string> {
    if e.primaryKey.Some? && |e.primaryKey.value| == 1 && e.primaryKey.value[0] != ""
    then Some(e.primaryKey.value[0])
    else None
  }

  /** A dictionary write on an ordered association list: a known key keeps its place. */
  function Put(items: seq<(string, string)>, key: string, value: string): (r: seq<(string, string)>)
    ensures forall x | x in r :: x in items || x == (key, value)
  {
    if items == [] then [(key, value)]
    else if items[0].0 == key then [(key, value)] + items[1..]
    else [items[0]] + Put(items[1..], key, value)
  }

  function PrimaryKeys(entities: seq<Entity>): (keys: seq<(string, string)>)
    ensures forall x | x in keys :: exists e :: e in entities && e.id == x.0 && SinglePrimaryKey(e) == Some(x.1)
  {
    if entities == [] then []
    else
      var last := entities[|entities| - 1];
      assert entities == entities[..|entities| - 1] + [last];
      var keys := PrimaryKeys(entities[..|entities| - 1]);
      var pk := SinglePrimaryKey(last);
      if pk.Some? then Put(keys, last.id, pk.value) else keys
  }

  // ---- Guesses --------------------------------------------------------------------

  datatype Guess = Guess(
    source: string, column: string, target: string, targetColumn: string, confidence: real, note: string)

  function PairOfGuess(g: Guess): set<string> {
    {g.source, g.target}
  }

  predicate IsSelf(g: Guess) {
    g.source == g.target
  }

  function EdgeOf(g: Guess): Relationship {
    Relationship(
      "inf:" + g.source + "." + g.column + "->" + g.target + "." + g.targetColumn,
      End(g.source, [g.column]), End(g.target, [g.targetColumn]),
      ManyToOne, InferredNaming, g.confidence, Some(g.note))
  }

  /** The look-ups the source builds once per call. */
  datatype Catalog = Catalog(
    entities: seq<Entity>,
    byId: map<string, Entity>,
    dimensions: map<string, Entity>,
    keys: seq<(string, string)>)

  ghost predicate Consistent(cat: Catalog) {
    && (forall k | k in cat.dimensions :: cat.dimensions[k].id in cat.byId)
    && (forall x | x in cat.keys :: x.0 in cat.byId)
  }

  function CatalogOf(nm: Naming, entities: seq<Entity>): (cat: Catalog)
    ensures Consistent(cat)
  {
    Catalog(entities, ById(entities), DimensionsOf(nm, entities), PrimaryKeys(entities))
  }

  /** Rule 1: a surrogate-key column points at the dimension its stem names, if that has the column too. */
  function SurrogateGuess(nm: Naming, cat: Catalog, e: Entity, c: Column): (g: seq<Guess>)
    requires Consistent(cat)
  {
    var stem := nm.surrogateStem(c.name);
    if stem.None? || stem.value !in cat.dimensions then []
    else
      var dimension := cat.dimensions[stem.value];
      var names := ColumnNames(nm, cat.byId[dimension.id]);
      if nm.lower(c.name) !in names then []
      else [Guess(e.id, c.name, dimension.id, names[nm.lower(c.name)], SURROGATE_KEY_CONFIDENCE,
              "surrogate key: " + c.name + " matches the " + dimension.name + " dimension")]
  }

  /** Rule 2: a column named like another entity's single-column primary key. */
  function PrimaryKeyGuess(nm: Naming, cat: Catalog, e: Entity, c: Column, key: (string, string)): seq<Guess>
    requires key.0 in cat.byId
  {
    if key.0 == e.id || nm.lower(c.name) != nm.lower(key.1) then []
    else [Guess(e.id, c.name, key.0, key.1, SAME_NAMED_PK_CONFIDENCE,
            c.name + " matches the primary key of " + cat.byId[key.0].name)]
  }

  function SurrogatesUpTo(nm: Naming, cat: Catalog, e: Entity, j: nat): seq<Guess>
    requires Consistent(cat) && j <= |e.columns|
  {
    if j == 0 then []
    else SurrogatesUpTo(nm, cat, e, j - 1) + SurrogateGuess(nm, cat, e, e.columns[j - 1])
  }

  function Surrogates(nm: Naming, cat: Catalog, i: nat): seq<Guess>
    requires Consistent(cat) && i <= |cat.entities|
  {
    if i == 0 then []
    else
      var e := cat.entities[i - 1];
      Surrogates(nm, cat, i - 1) + SurrogatesUpTo(nm, cat, e, |e.columns|)
  }

  function KeyGuesses(nm: Naming, cat: Catalog, e: Entity, c: Column, k: nat): seq<Guess>
    requires Consistent(cat) && k <= |cat.keys|
  {
    if k == 0 || c.isPrimaryKey then []
    else
      assert cat.keys[k - 1] in cat.keys;
      KeyGuesses(nm, cat, e, c, k - 1) + PrimaryKeyGuess(nm, cat, e, c, cat.keys[k - 1])
  }

  function SameNamedUpTo(nm: Naming, cat: Catalog, e: Entity, j: nat): seq<Guess>
    requires Consistent(cat) && j <= |e.columns|
  {
    if j == 0 then []
    else SameNamedUpTo(nm, cat, e, j - 1) + KeyGuesses(nm, cat, e, e.columns[j - 1], |cat.keys|)
  }

  function SameNamed(nm: Naming, cat: Catalog, i: nat): seq<Guess>
    requires Consistent(cat) && i <= |cat.entities|
  {
    if i == 0 then []
    else
      var e := cat.entities[i - 1];
      SameNamed(nm, cat, i - 1) + SameNamedUpTo(nm, cat, e, |e.columns|)
  }

  /** Every justification the naming rules give, in the order they are offered. */
  function Guesses(nm: Naming, cat: Catalog): seq<Guess>
    requires Consistent(cat)
  {
    Surrogates(nm, cat, |cat.entities|) + SameNamed(nm, cat, |cat.entities|)
  }

  // ---- The claims -------------------------------------------------------------------

  datatype Claims = Claims(seen: set<set<string>>, edges: seq<Relationship>)

  /** One call of `emit`: a pair already seen stays with whoever claimed it. */
  function Offer(claims: Claims, g: Guess): Claims {
    if IsSelf(g) || PairOfGuess(g) in claims.seen then claims
    else Claims(claims.seen + {PairOfGuess(g)}, claims.edges + [EdgeOf(g)])
  }

  function OfferAll(claims: Claims, guesses: seq<Guess>): Claims {
    if guesses == [] then claims
    else Offer(OfferAll(claims, guesses[..|guesses| - 1]), guesses[|guesses| - 1])
  }

  /** The overrides that still fit the catalog, each with the edge it asserts or denies. */
  function Applied(nm: Naming, overrides: seq<Override>, byId: map<string, Entity>)
    : (r: seq<(Override, Relationship)>)
    ensures forall x | x in r :: x.0 in overrides && ResolveOverride(nm, x.0, byId) == Ok(x.1)
    ensures forall o | o in overrides && ResolveOverride(nm, o, byId).Ok? ::
              (o, ResolveOverride(nm, o, byId).value) in r
  {
    if overrides == [] then []
    else
      var last := overrides[|overrides| - 1];
      assert overrides == overrides[..|overrides| - 1] + [last];
      var before := Applied(nm, overrides[..|overrides| - 1], byId);
      var resolved := ResolveOverride(nm, last, byId);
      if resolved.Ok? then before + [(last, resolved.value)] else before
  }

  /** Every pair some override that fits has spoken about, to join or to suppress. */
  function OverriddenPairs(applied: seq<(Override, Relationship)>): set<set<string>> {
    set x | x in applied :: PairOf(x.1)
  }

  function AssertedEdges(applied: seq<(Override, Relationship)>): seq<Relationship> {
    Map((x: (Override, Relationship)) => x.1, Filter((x: (Override, Relationship)) => x.0.action == Join, applied))
  }

  function KeptDeclared(byId: map<string, Entity>, declared: seq<Relationship>, seen: set<set<string>>)
    : seq<Relationship>
  {
    Filter((r: Relationship) => r.source.entity in byId && r.target.entity in byId && PairOf(r) !in seen, declared)
  }

  function PairsOf(edges: seq<Relationship>): set<set<string>> {
    set r | r in edges :: PairOf(r)
  }

  /** The three blocks of the answer, most authoritative first. */
  datatype Tiers = Tiers(asserted: seq<Relationship>, declared: seq<Relationship>, inferred: seq<Relationship>)

  function TiersOf(nm: Naming, entities: seq<Entity>, declared: seq<Relationship>, overrides: seq<Override>): Tiers {
    var byId := ById(entities);
    var applied := Applied(nm, overrides, byId);
    var overridden := OverriddenPairs(applied);
    var kept := KeptDeclared(byId, declared, overridden);
    var claims := OfferAll(Claims(overridden + PairsOf(kept), []), Guesses(nm, CatalogOf(nm, entities)));
    Tiers(AssertedEdges(applied), kept, claims.edges)
  }

  function Infer(nm: Naming, entities: seq<Entity>, declared: seq<Relationship>, overrides: seq<Override>)
    : seq<Relationship>
  {
    var tiers := TiersOf(nm, entities, declared, overrides);
    tiers.asserted + tiers.declared + tiers.inferred
  }

  // ---- Inference as the source runs it ---------------------------------------------------

  method InferRelationships(
    nm: Naming, entities: seq<Entity>, declared: seq<Relationship>, overrides: seq<Override>)
    returns (edges: seq<Relationship>)
    ensures edges == Infer(nm, entities, declared, overrides)
  {
    var cat := CatalogOf(nm, entities);
    var byId := cat.byId;
    var asserted, seen := ApplyOverrides(nm, overrides, byId);
    var kept := KeptDeclared(byId, declared, seen);
    seen := seen + PairsOf(kept);
    ghost var start := Claims(seen, []);
    var inferred;
    seen, inferred := EmitSurrogates(nm, cat, seen, start);
    seen, inferred := EmitSameNamed(nm, cat, seen, inferred, start, Surrogates(nm, cat, |cat.entities|));
    edges := asserted + kept + inferred;
  }

  /** Rule 1 over every column of every entity. */
  method EmitSurrogates(nm: Naming, cat: Catalog, claimed: set<set<string>>, ghost start: Claims)
    returns (seen: set<set<string>>, inferred: seq<Relationship>)
    requires Consistent(cat) && start == Claims(claimed, [])
    ensures Claims(seen, inferred) == OfferAll(start, Surrogates(nm, cat, |cat.entities|))
  {
    seen, inferred := claimed, [];
    for i := 0 to |cat.entities|
      invariant Claims(seen, inferred) == OfferAll(start, Surrogates(nm, cat, i))
    {
      seen, inferred := EmitSurrogatesOf(nm, cat, cat.entities[i], seen, inferred, start, Surrogates(nm, cat, i));
    }
  }

  method EmitSurrogatesOf(nm: Naming, cat: Catalog, e: Entity, claimed: set<set<string>>,
                          edges: seq<Relationship>, ghost start: Claims, ghost first: seq<Guess>)
    returns (seen: set<set<string>>, inferred: seq<Relationship>)
    requires Consistent(cat) && Claims(claimed, edges) == OfferAll(start, first)
    ensures Claims(seen, inferred) == OfferAll(start, first + SurrogatesUpTo(nm, cat, e, |e.columns|))
  {
    seen, inferred := claimed, edges;
    assert first + SurrogatesUpTo(nm, cat, e, 0) == first;
    for j := 0 to |e.columns|
      invariant Claims(seen, inferred) == OfferAll(start, first + SurrogatesUpTo(nm, cat, e, j))
    {
      var guess := SurrogateGuess(nm, cat, e, e.columns[j]);
      ConcatAssociates(first, SurrogatesUpTo(nm, cat, e, j), guess);
      seen, inferred := Emit(seen, inferred, guess, start, first + SurrogatesUpTo(nm, cat, e, j));
    }
  }

  /** Rule 2 over every column of every entity. */
  method EmitSameNamed(nm: Naming, cat: Catalog, claimed: set<set<string>>, edges: seq<Relationship>,
                       ghost start: Claims, ghost first: seq<Guess>)
    returns (seen: set<set<string>>, inferred: seq<Relationship>)
    requires Consistent(cat) && Claims(claimed, edges) == OfferAll(start, first)
    ensures Claims(seen, inferred) == OfferAll(start, first + SameNamed(nm, cat, |cat.entities|))
  {
    seen, inferred := claimed, edges;
    assert first + SameNamed(nm, cat, 0) == first;
    for i := 0 to |cat.entities|
      invariant Claims(seen, inferred) == OfferAll(start, first + SameNamed(nm, cat, i))
    {
      var e := cat.entities[i];
      ConcatAssociates(first, SameNamed(nm, cat, i), SameNamedUpTo(nm, cat, e, |e.columns|));
      seen, inferred := EmitSameNamedOf(nm, cat, e, seen, inferred, start, first + SameNamed(nm, cat, i));
    }
  }

  method EmitSameNamedOf(nm: Naming, cat: Catalog, e: Entity,
                         claimed: set<set<string>>, edges: seq<Relationship>,
                         ghost start: Claims, ghost first: seq<Guess>)
    returns (seen: set<set<string>>, inferred: seq<Relationship>)
    requires Consistent(cat) && Claims(claimed, edges) == OfferAll(start, first)
    ensures Claims(seen, inferred) == OfferAll(start, first + SameNamedUpTo(nm, cat, e, |e.columns|))
  {
    seen, inferred := claimed, edges;
    assert first + SameNamedUpTo(nm, cat, e, 0) == first;
    for j := 0 to |e.columns|
      invariant Claims(seen, inferred) == OfferAll(start, first + SameNamedUpTo(nm, cat, e, j))
    {
      var c := e.columns[j];
      ConcatAssociates(first, SameNamedUpTo(nm, cat, e, j), KeyGuesses(nm, cat, e, c, |cat.keys|));
      seen, inferred := EmitKeys(nm, cat, e, c, seen, inferred, start, first + SameNamedUpTo(nm, cat, e, j));
    }
  }

  /** The loop over overrides: each that fits claims its pair; each join is drawn. */
  method ApplyOverrides(nm: Naming, overrides: seq<Override>, byId: map<string, Entity>)
    returns (asserted: seq<Relationship>, seen: set<set<string>>)
    ensures asserted == AssertedEdges(Applied(nm, overrides, byId))
    ensures seen == OverriddenPairs(Applied(nm, overrides, byId))
  {
    asserted, seen := [], {};
    for i := 0 to |overrides|
      invariant asserted == AssertedEdges(Applied(nm, overrides[..i], byId))
      invariant seen == OverriddenPairs(Applied(nm, overrides[..i], byId))
    {
      var o := overrides[i];
      var resolved := ResolveOverride(nm, o, byId);
      assert overrides[..i + 1][..i] == overrides[..i] && overrides[..i + 1][i] == o;
      ghost var before := Applied(nm, overrides[..i], byId);
      if resolved.Ok? {
        seen := seen + {PairOf(resolved.value)};
        if o.action == Join {
          asserted := asserted + [resolved.value];
        }
        AppliedOneMore(before, (o, resolved.value));
      }
    }
    assert overrides[..|overrides|] == overrides;
  }

  lemma {:induction false} AppliedOneMore(before: seq<(Override, Relationship)>, x: (Override, Relationship))
    ensures OverriddenPairs(before + [x]) == OverriddenPairs(before) + {PairOf(x.1)}
    ensures AssertedEdges(before + [x]) == AssertedEdges(before) + (if x.0.action == Join then [x.1] else [])
  {
    FilterConcat((x: (Override, Relationship)) => x.0.action == Join, before, [x]);
  }

  /** The `emit` closure, on the at most one guess a rule makes for a column. */
  method Emit(claimed: set<set<string>>, edges: seq<Relationship>, guess: seq<Guess>,
              ghost start: Claims, ghost first: seq<Guess>)
    returns (seen: set<set<string>>, inferred: seq<Relationship>)
    requires |guess| <= 1 && Claims(claimed, edges) == OfferAll(start, first)
    ensures Claims(seen, inferred) == OfferAll(start, first + guess)
  {
    seen, inferred := claimed, edges;
    if guess == [] {
      assert first + guess == first;
      return;
    }
    var g := guess[0];
    ghost var all := first + guess;
    assert all[..|all| - 1] == first && all[|all| - 1] == g;
    if g.source == g.target {
      return;
    }
    if PairOfGuess(g) in claimed {
      return;
    }
    seen := claimed + {PairOfGuess(g)};
    inferred := edges + [EdgeOf(g)];
  }

  lemma {:induction false} NextKey(nm: Naming, cat: Catalog, e: Entity, c: Column, k: nat, first: seq<Guess>)
    requires Consistent(cat) && k < |cat.keys| && !c.isPrimaryKey
    ensures cat.keys[k].0 in cat.byId
    ensures first + KeyGuesses(nm, cat, e, c, k + 1)
         == (first + KeyGuesses(nm, cat, e, c, k)) + PrimaryKeyGuess(nm, cat, e, c, cat.keys[k])
  {
    assert cat.keys[k] in cat.keys;
    ConcatAssociates(first, KeyGuesses(nm, cat, e, c, k), PrimaryKeyGuess(nm, cat, e, c, cat.keys[k]));
  }

  method EmitKeys(nm: Naming, cat: Catalog, e: Entity, c: Column,
                  claimed: set<set<string>>, edges: seq<Relationship>, ghost start: Claims, ghost first: seq<Guess>)
    returns (seen: set<set<string>>, inferred: seq<Relationship>)
    requires Consistent(cat) && Claims(claimed, edges) == OfferAll(start, first)
    ensures Claims(seen, inferred) == OfferAll(start, first + KeyGuesses(nm, cat, e, c, |cat.keys|))
  {
    seen, inferred := claimed, edges;
    assert first + KeyGuesses(nm, cat, e, c, 0) == first;
    if c.isPrimaryKey {
      assert KeyGuesses(nm, cat, e, c, |cat.keys|) == [];
      return;
    }
    for k := 0 to |cat.keys|
      invariant Claims(seen, inferred) == OfferAll(start, first + KeyGuesses(nm, cat, e, c, k))
    {
      NextKey(nm, cat, e, c, k, first);
      var guess := PrimaryKeyGuess(nm, cat, e, c, cat.keys[k]);
      seen, inferred := Emit(seen, inferred, guess, start, first + KeyGuesses(nm, cat, e, c, k));
    }
  }
}
