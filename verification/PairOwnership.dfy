/** Every unordered pair of entities is owned by one tier of inference. */
module PairOwnership {
  import opened Prelude
  import opened Ir
  import opened Inference

  /** `edge` is the guess at `k`, the first one made about its pair. */
  ghost predicate FirstGuess(guesses: seq<Guess>, k: int, edge: Relationship) {
    && 0 <= k < |guesses| && edge == EdgeOf(guesses[k]) && !IsSelf(guesses[k])
    && forall j | 0 <= j < k :: PairOfGuess(guesses[j]) != PairOfGuess(guesses[k])
  }

  /** What offering `guesses` on top of the pairs in `before` must come to. */
  ghost predicate Settled(before: set<set<string>>, guesses: seq<Guess>, after: Claims) {
    && (forall e | e in after.edges :: PairOf(e) !in before && exists k :: FirstGuess(guesses, k, e))
    && (forall i, j | 0 <= i < j < |after.edges| :: PairOf(after.edges[i]) != PairOf(after.edges[j]))
    && after.seen == before + PairsOf(after.edges)
    && (forall g | g in guesses :: IsSelf(g) || PairOfGuess(g) in after.seen)
  }

  lemma {:induction false} OffersSettle(before: set<set<string>>, guesses: seq<Guess>)
    ensures Settled(before, guesses, OfferAll(Claims(before, []), guesses))
  {
    if guesses != [] {
      var init, g := guesses[..|guesses| - 1], guesses[|guesses| - 1];
      assert guesses == init + [g];
      OffersSettle(before, init);
      OneMoreOffer(before, init, g, OfferAll(Claims(before, []), init));
    }
  }

  lemma {:induction false} OneMoreOffer(before: set<set<string>>, guesses: seq<Guess>, g: Guess, claims: Claims)
    requires Settled(before, guesses, claims)
    ensures Settled(before, guesses + [g], Offer(claims, g))
  {
    var all, after := guesses + [g], Offer(claims, g);
    forall e, k | e in claims.edges && FirstGuess(guesses, k, e) ensures FirstGuess(all, k, e) {
      assert forall j | 0 <= j <= k :: all[j] == guesses[j];
    }
    if after != claims {
      assert after.edges == claims.edges + [EdgeOf(g)];
      forall j | 0 <= j < |guesses| ensures PairOfGuess(all[j]) != PairOfGuess(g) {
        assert all[j] == guesses[j] && guesses[j] in guesses;
        if IsSelf(guesses[j]) {
          SelfIsNotPair(guesses[j], g);
        }
      }
      assert FirstGuess(all, |guesses|, EdgeOf(g));
      PairsOfAppend(claims.edges, EdgeOf(g));
      forall i | 0 <= i < |claims.edges| ensures PairOf(claims.edges[i]) != PairOfGuess(g) {
        assert claims.edges[i] in claims.edges;
        assert PairOf(claims.edges[i]) in PairsOf(claims.edges);
      }
    }
  }

  /** A self-guess and a guess between two entities never speak about the same pair. */
  lemma {:induction false} SelfIsNotPair(a: Guess, b: Guess)
    requires IsSelf(a) && !IsSelf(b)
    ensures PairOfGuess(a) != PairOfGuess(b)
  {
    assert b.source in PairOfGuess(b) && b.target in PairOfGuess(b);
    assert forall x | x in PairOfGuess(a) :: x == a.source;
  }

  lemma {:induction false} PairsOfAppend(edges: seq<Relationship>, e: Relationship)
    ensures PairsOf(edges + [e]) == PairsOf(edges) + {PairOf(e)}
  {
    var all := edges + [e];
    forall x | x in edges ensures x in all {
      var k :| 0 <= k < |edges| && edges[k] == x;
      assert all[k] == x;
    }
    assert all[|edges|] == e;
    forall p | p in PairsOf(edges) + {PairOf(e)} ensures p in PairsOf(all) {
      if p in PairsOf(edges) {
        var x :| x in edges && PairOf(x) == p;
        assert x in all;
      }
    }
  }

  // ---- The tiers ------------------------------------------------------------------

  ghost function GuessesFor(nm: Naming, entities: seq<Entity>): seq<Guess> {
    Guesses(nm, CatalogOf(nm, entities))
  }

  /** Override, declared and inferred edges sit on disjoint pairs. */
  lemma {:induction false} TiersOwnDisjointPairs(
    nm: Naming, entities: seq<Entity>, declared: seq<Relationship>, overrides: seq<Override>)
    ensures var t := TiersOf(nm, entities, declared, overrides);
            && PairsOf(t.asserted) !! PairsOf(t.declared)
            && PairsOf(t.asserted) !! PairsOf(t.inferred)
            && PairsOf(t.declared) !! PairsOf(t.inferred)
  {
    var byId := ById(entities);
    var applied := Applied(nm, overrides, byId);
    var kept := KeptDeclared(byId, declared, OverriddenPairs(applied));
    OffersSettle(OverriddenPairs(applied) + PairsOf(kept), GuessesFor(nm, entities));
    AssertedPairsAreOverridden(applied);
  }

  lemma {:induction false} AssertedPairsAreOverridden(applied: seq<(Override, Relationship)>)
    ensures PairsOf(AssertedEdges(applied)) <= OverriddenPairs(applied)
  {
    forall r | r in AssertedEdges(applied) ensures PairOf(r) in OverriddenPairs(applied) {
      var x := AssertedFrom(applied, r);
    }
  }

  lemma {:induction false} AssertedFrom(applied: seq<(Override, Relationship)>, r: Relationship)
    returns (x: (Override, Relationship))
    requires r in AssertedEdges(applied)
    ensures x in applied && x.0.action == Join && x.1 == r
  {
    var joins := Filter((x: (Override, Relationship)) => x.0.action == Join, applied);
    var k :| 0 <= k < |joins| && AssertedEdges(applied)[k] == r;
    x := joins[k];
    assert x in joins;
  }

  /** The asserted block is exactly the join overrides that fit, each spelled by the catalog. */
  lemma {:induction false} AssertedIffFits(nm: Naming, entities: seq<Entity>, overrides: seq<Override>, r: Relationship)
    ensures r in AssertedEdges(Applied(nm, overrides, ById(entities))) <==>
      exists o | o in overrides :: o.action == Join && ResolveOverride(nm, o, ById(entities)) == Ok(r)
  {
    var applied := Applied(nm, overrides, ById(entities));
    if r in AssertedEdges(applied) {
      var x := AssertedFrom(applied, r);
    }
    if o :| o in overrides && o.action == Join && ResolveOverride(nm, o, ById(entities)) == Ok(r) {
      AppliedIsAsserted(applied, o, r);
    }
  }

  lemma {:induction false} AppliedIsAsserted(applied: seq<(Override, Relationship)>, o: Override, r: Relationship)
    requires (o, r) in applied && o.action == Join
    ensures r in AssertedEdges(applied)
  {
    var joins := Filter((x: (Override, Relationship)) => x.0.action == Join, applied);
    assert (o, r) in joins;
    var k :| 0 <= k < |joins| && joins[k] == (o, r);
    assert AssertedEdges(applied)[k] == r;
  }

  ghost predicate Names(o: Override, pair: set<string>) {
    {o.source.entity, o.target.entity} == pair
  }

  /** A fitting override speaks about the pair it names. */
  lemma {:induction false} ResolvedPair(nm: Naming, o: Override, byId: map<string, Entity>)
    requires forall id | id in byId :: byId[id].id == id
    requires ResolveOverride(nm, o, byId).Ok?
    ensures Names(o, PairOf(ResolveOverride(nm, o, byId).value))
    ensures o.source.entity in byId && o.target.entity in byId && o.source.entity != o.target.entity
  {
  }

  /** No other tier claims a suppressed pair: it is drawn exactly when another override that fits joins it. */
  lemma {:induction false} SuppressedPairIsDrawnIff(
    nm: Naming, entities: seq<Entity>, declared: seq<Relationship>, overrides: seq<Override>, o: Override)
    requires o in overrides && o.action == Suppress && ResolveOverride(nm, o, ById(entities)).Ok?
    ensures var pair := {o.source.entity, o.target.entity};
            pair in PairsOf(Infer(nm, entities, declared, overrides)) <==>
              exists j | j in overrides ::
                j.action == Join && Names(j, pair) && ResolveOverride(nm, j, ById(entities)).Ok?
    ensures var t := TiersOf(nm, entities, declared, overrides);
            {o.source.entity, o.target.entity} !in PairsOf(t.declared) + PairsOf(t.inferred)
  {
    var byId, pair := ById(entities), {o.source.entity, o.target.entity};
    var applied := Applied(nm, overrides, byId);
    var t := TiersOf(nm, entities, declared, overrides);
    ResolvedPair(nm, o, byId);
    assert pair in OverriddenPairs(applied) by {
      assert (o, ResolveOverride(nm, o, byId).value) in applied;
    }
    OffersSettle(OverriddenPairs(applied) + PairsOf(t.declared), GuessesFor(nm, entities));
    assert pair in PairsOf(Infer(nm, entities, declared, overrides)) <==> pair in PairsOf(t.asserted) by {
      PairsOfTiers(t);
    }
    if pair in PairsOf(t.asserted) {
      var r :| r in t.asserted && PairOf(r) == pair;
      AssertedIffFits(nm, entities, overrides, r);
      var j :| j in overrides && j.action == Join && ResolveOverride(nm, j, byId) == Ok(r);
      ResolvedPair(nm, j, byId);
    }
    if j :| j in overrides && j.action == Join && Names(j, pair) && ResolveOverride(nm, j, byId).Ok? {
      ResolvedPair(nm, j, byId);
      AssertedIffFits(nm, entities, overrides, ResolveOverride(nm, j, byId).value);
    }
  }

  lemma {:induction false} PairsOfTiers(t: Tiers)
    ensures PairsOf(t.asserted + t.declared + t.inferred)
         == PairsOf(t.asserted) + PairsOf(t.declared) + PairsOf(t.inferred)
  {
    var all := t.asserted + t.declared + t.inferred;
    forall r ensures r in all <==> r in t.asserted || r in t.declared || r in t.inferred {
    }
  }

  /** A declared edge is kept exactly when the diagram has both ends and no override claimed its pair. */
  lemma {:induction false} DeclaredKeptIff(
    nm: Naming, entities: seq<Entity>, declared: seq<Relationship>, overrides: seq<Override>, r: Relationship)
    requires r in declared
    ensures r in TiersOf(nm, entities, declared, overrides).declared <==>
      && r.source.entity in ById(entities) && r.target.entity in ById(entities)
      && forall o | o in overrides && ResolveOverride(nm, o, ById(entities)).Ok? :: !Names(o, PairOf(r))
  {
    var byId := ById(entities);
    var applied := Applied(nm, overrides, byId);
    if PairOf(r) in OverriddenPairs(applied) {
      var x :| x in applied && PairOf(x.1) == PairOf(r);
      ResolvedPair(nm, x.0, byId);
    }
    forall o | o in overrides && ResolveOverride(nm, o, byId).Ok? && Names(o, PairOf(r))
      ensures PairOf(r) in OverriddenPairs(applied)
    {
      ResolvedPair(nm, o, byId);
      assert (o, ResolveOverride(nm, o, byId).value) in applied;
    }
  }

  /**
   * Each inferred edge is the first justification of its pair, no two share a
   * pair, and none is a self-edge.
   */
  lemma {:induction false} InferredEdgesAreFirstGuesses(
    nm: Naming, entities: seq<Entity>, declared: seq<Relationship>, overrides: seq<Override>)
    ensures var inferred := TiersOf(nm, entities, declared, overrides).inferred;
            && (forall e | e in inferred ::
                  e.source.entity != e.target.entity && exists k :: FirstGuess(GuessesFor(nm, entities), k, e))
            && (forall i, j | 0 <= i < j < |inferred| :: PairOf(inferred[i]) != PairOf(inferred[j]))
  {
    var byId := ById(entities);
    var overridden := OverriddenPairs(Applied(nm, overrides, byId));
    OffersSettle(overridden + PairsOf(KeptDeclared(byId, declared, overridden)), GuessesFor(nm, entities));
  }

  /** Some suppression that fits the catalog names the pair. */
  ghost predicate Denied(nm: Naming, byId: map<string, Entity>, overrides: seq<Override>, pair: set<string>) {
    exists o | o in overrides :: o.action == Suppress && Names(o, pair) && ResolveOverride(nm, o, byId).Ok?
  }

  /** An overridden pair is drawn by its override or denied by it. */
  lemma {:induction false} OverriddenIsAssertedOrDenied(
    nm: Naming, entities: seq<Entity>, overrides: seq<Override>, applied: seq<(Override, Relationship)>,
    pair: set<string>)
    requires applied == Applied(nm, overrides, ById(entities)) && pair in OverriddenPairs(applied)
    ensures pair in PairsOf(AssertedEdges(applied)) || Denied(nm, ById(entities), overrides, pair)
  {
    var x :| x in applied && PairOf(x.1) == pair;
    ResolvedPair(nm, x.0, ById(entities));
    if x.0.action == Join {
      AssertedIffFits(nm, entities, overrides, x.1);
    }
  }

  /** No justification is dropped: its pair is drawn, denied, or not a pair at all. */
  lemma {:induction false} EveryGuessIsCovered(
    nm: Naming, entities: seq<Entity>, declared: seq<Relationship>, overrides: seq<Override>, g: Guess)
    requires g in GuessesFor(nm, entities)
    ensures IsSelf(g)
         || PairOfGuess(g) in PairsOf(Infer(nm, entities, declared, overrides))
         || Denied(nm, ById(entities), overrides, PairOfGuess(g))
  {
    var applied := Applied(nm, overrides, ById(entities));
    var t := TiersOf(nm, entities, declared, overrides);
    var before, guesses := OverriddenPairs(applied) + PairsOf(t.declared), GuessesFor(nm, entities);
    OffersSettle(before, guesses);
    PairsOfTiers(t);
    SettledCovers(before, guesses, OfferAll(Claims(before, []), guesses), g);
    if PairOfGuess(g) in OverriddenPairs(applied) {
      OverriddenIsAssertedOrDenied(nm, entities, overrides, applied, PairOfGuess(g));
    }
  }

  lemma {:induction false} SettledCovers(before: set<set<string>>, guesses: seq<Guess>, after: Claims, g: Guess)
    requires Settled(before, guesses, after) && g in guesses
    ensures IsSelf(g) || PairOfGuess(g) in before || PairOfGuess(g) in PairsOf(after.edges)
  {
  }

  // ---- What the guesses are ---------------------------------------------------------

  lemma {:induction false} SurrogateRowStep(nm: Naming, cat: Catalog, e: Entity, n: nat, g: Guess)
    requires Consistent(cat) && 0 < n <= |e.columns|
    ensures g in SurrogatesUpTo(nm, cat, e, n)
       <==> g in SurrogatesUpTo(nm, cat, e, n - 1) || g in SurrogateGuess(nm, cat, e, e.columns[n - 1])
  {
    InConcat(g, SurrogatesUpTo(nm, cat, e, n - 1), SurrogateGuess(nm, cat, e, e.columns[n - 1]));
  }

  lemma {:induction false} SurrogateStep(nm: Naming, cat: Catalog, n: nat, last: Entity, g: Guess)
    requires Consistent(cat) && 0 < n <= |cat.entities| && last == cat.entities[n - 1]
    ensures g in Surrogates(nm, cat, n)
       <==> g in Surrogates(nm, cat, n - 1) || g in SurrogatesUpTo(nm, cat, last, |last.columns|)
  {
    InConcat(g, Surrogates(nm, cat, n - 1), SurrogatesUpTo(nm, cat, last, |last.columns|));
  }

  lemma {:induction false} SurrogateAtEnd(nm: Naming, cat: Catalog, e: Entity, n: nat, guess: seq<Guess>, g: Guess)
    requires Consistent(cat) && 0 < n <= |e.columns| && guess == SurrogateGuess(nm, cat, e, e.columns[n - 1])
    ensures g in guess || g in SurrogatesUpTo(nm, cat, e, n - 1) ==> g in SurrogatesUpTo(nm, cat, e, n)
  {
    InConcat(g, SurrogatesUpTo(nm, cat, e, n - 1), guess);
  }

  lemma {:induction false} SurrogateInRow(
    nm: Naming, cat: Catalog, e: Entity, n: nat, j: nat, guess: seq<Guess>, g: Guess)
    requires Consistent(cat) && j < n <= |e.columns| && guess == SurrogateGuess(nm, cat, e, e.columns[j]) && g in guess
    ensures g in SurrogatesUpTo(nm, cat, e, n)
  {
    if j < n - 1 {
      SurrogateInRow(nm, cat, e, n - 1, j, guess, g);
      SurrogateAtEnd(nm, cat, e, n, SurrogateGuess(nm, cat, e, e.columns[n - 1]), g);
    } else {
      SurrogateAtEnd(nm, cat, e, n, guess, g);
    }
  }

  lemma {:induction false} SurrogateKept(nm: Naming, cat: Catalog, m: nat, n: nat, g: Guess)
    requires Consistent(cat) && m <= n <= |cat.entities| && g in Surrogates(nm, cat, m)
    ensures g in Surrogates(nm, cat, n)
    decreases n
  {
    if m < n {
      SurrogateKept(nm, cat, m, n - 1, g);
      SurrogateStep(nm, cat, n, cat.entities[n - 1], g);
    }
  }

  /** Every surrogate-key justification of every column is offered... */
  lemma {:induction false} SurrogateIsOffered(nm: Naming, cat: Catalog, i: nat, e: Entity, j: nat, g: Guess)
    requires Consistent(cat) && i < |cat.entities| && e == cat.entities[i] && j < |e.columns|
    requires g in SurrogateGuess(nm, cat, e, e.columns[j])
    ensures g in Surrogates(nm, cat, |cat.entities|)
  {
    SurrogateInRow(nm, cat, e, |e.columns|, j, SurrogateGuess(nm, cat, e, e.columns[j]), g);
    SurrogateStep(nm, cat, i + 1, e, g);
    SurrogateKept(nm, cat, i + 1, |cat.entities|, g);
  }

  lemma {:induction false} SurrogateColumn(nm: Naming, cat: Catalog, e: Entity, n: nat, g: Guess) returns (j: nat)
    requires Consistent(cat) && n <= |e.columns| && g in SurrogatesUpTo(nm, cat, e, n)
    ensures j < n && g in SurrogateGuess(nm, cat, e, e.columns[j])
  {
    SurrogateRowStep(nm, cat, e, n, g);
    if g in SurrogatesUpTo(nm, cat, e, n - 1) {
      j := SurrogateColumn(nm, cat, e, n - 1, g);
    } else {
      j := n - 1;
    }
  }

  /** ...and nothing else is. */
  lemma {:induction false} SurrogateOrigin(nm: Naming, cat: Catalog, n: nat, g: Guess) returns (i: nat, j: nat)
    requires Consistent(cat) && n <= |cat.entities| && g in Surrogates(nm, cat, n)
    ensures i < n && j < |cat.entities[i].columns|
    ensures g in SurrogateGuess(nm, cat, cat.entities[i], cat.entities[i].columns[j])
  {
    SurrogateStep(nm, cat, n, cat.entities[n - 1], g);
    if g in Surrogates(nm, cat, n - 1) {
      i, j := SurrogateOrigin(nm, cat, n - 1, g);
    } else {
      i := n - 1;
      j := SurrogateColumn(nm, cat, cat.entities[i], |cat.entities[i].columns|, g);
    }
  }

  lemma {:induction false} KeyOrigin(nm: Naming, cat: Catalog, e: Entity, c: Column, n: nat, g: Guess)
    returns (key: (string, string))
    requires Consistent(cat) && n <= |cat.keys| && g in KeyGuesses(nm, cat, e, c, n)
    ensures !c.isPrimaryKey && key in cat.keys && g in PrimaryKeyGuess(nm, cat, e, c, key)
  {
    if g in KeyGuesses(nm, cat, e, c, n - 1) {
      key := KeyOrigin(nm, cat, e, c, n - 1, g);
    } else {
      key := cat.keys[n - 1];
    }
  }

  lemma {:induction false} SameNamedRowStep(nm: Naming, cat: Catalog, e: Entity, n: nat, g: Guess)
    requires Consistent(cat) && 0 < n <= |e.columns|
    ensures g in SameNamedUpTo(nm, cat, e, n)
       <==> g in SameNamedUpTo(nm, cat, e, n - 1) || g in KeyGuesses(nm, cat, e, e.columns[n - 1], |cat.keys|)
  {
    InConcat(g, SameNamedUpTo(nm, cat, e, n - 1), KeyGuesses(nm, cat, e, e.columns[n - 1], |cat.keys|));
  }

  lemma {:induction false} SameNamedStep(nm: Naming, cat: Catalog, n: nat, last: Entity, g: Guess)
    requires Consistent(cat) && 0 < n <= |cat.entities| && last == cat.entities[n - 1]
    ensures g in SameNamed(nm, cat, n)
       <==> g in SameNamed(nm, cat, n - 1) || g in SameNamedUpTo(nm, cat, last, |last.columns|)
  {
    InConcat(g, SameNamed(nm, cat, n - 1), SameNamedUpTo(nm, cat, last, |last.columns|));
  }

  lemma {:induction false} SameNamedColumn(nm: Naming, cat: Catalog, e: Entity, n: nat, g: Guess) returns (j: nat)
    requires Consistent(cat) && n <= |e.columns| && g in SameNamedUpTo(nm, cat, e, n)
    ensures j < n && g in KeyGuesses(nm, cat, e, e.columns[j], |cat.keys|)
  {
    SameNamedRowStep(nm, cat, e, n, g);
    j := n - 1;
    if g !in KeyGuesses(nm, cat, e, e.columns[n - 1], |cat.keys|) {
      j := SameNamedColumn(nm, cat, e, n - 1, g);
    }
  }

  /** The same-named guesses come from columns that share a foreign primary key's name. */
  lemma {:induction false} SameNamedOrigin(nm: Naming, cat: Catalog, n: nat, g: Guess) returns (i: nat, j: nat)
    requires Consistent(cat) && n <= |cat.entities| && g in SameNamed(nm, cat, n)
    ensures i < n && j < |cat.entities[i].columns|
    ensures g in KeyGuesses(nm, cat, cat.entities[i], cat.entities[i].columns[j], |cat.keys|)
  {
    SameNamedStep(nm, cat, n, cat.entities[n - 1], g);
    if g in SameNamed(nm, cat, n - 1) {
      i, j := SameNamedOrigin(nm, cat, n - 1, g);
    } else {
      i := n - 1;
      j := SameNamedColumn(nm, cat, cat.entities[i], |cat.entities[i].columns|, g);
    }
  }

  lemma {:induction false} SameNamedAtEnd(nm: Naming, cat: Catalog, e: Entity, n: nat, guesses: seq<Guess>, g: Guess)
    requires Consistent(cat) && 0 < n <= |e.columns| && guesses == KeyGuesses(nm, cat, e, e.columns[n - 1], |cat.keys|)
    ensures g in guesses || g in SameNamedUpTo(nm, cat, e, n - 1) ==> g in SameNamedUpTo(nm, cat, e, n)
  {
    InConcat(g, SameNamedUpTo(nm, cat, e, n - 1), guesses);
  }

  lemma {:induction false} SameNamedInRow(
    nm: Naming, cat: Catalog, e: Entity, n: nat, j: nat, guesses: seq<Guess>, g: Guess)
    requires Consistent(cat) && j < n <= |e.columns| && g in guesses
    requires guesses == KeyGuesses(nm, cat, e, e.columns[j], |cat.keys|)
    ensures g in SameNamedUpTo(nm, cat, e, n)
  {
    if j < n - 1 {
      SameNamedInRow(nm, cat, e, n - 1, j, guesses, g);
      SameNamedAtEnd(nm, cat, e, n, KeyGuesses(nm, cat, e, e.columns[n - 1], |cat.keys|), g);
    } else {
      SameNamedAtEnd(nm, cat, e, n, guesses, g);
    }
  }

  lemma {:induction false} SameNamedKept(nm: Naming, cat: Catalog, m: nat, n: nat, g: Guess)
    requires Consistent(cat) && m <= n <= |cat.entities| && g in SameNamed(nm, cat, m)
    ensures g in SameNamed(nm, cat, n)
    decreases n
  {
    if m < n {
      SameNamedKept(nm, cat, m, n - 1, g);
      SameNamedStep(nm, cat, n, cat.entities[n - 1], g);
    }
  }

  lemma {:induction false} SameNamedIsOffered(nm: Naming, cat: Catalog, i: nat, e: Entity, j: nat, g: Guess)
    requires Consistent(cat) && i < |cat.entities| && e == cat.entities[i] && j < |e.columns|
    requires g in KeyGuesses(nm, cat, e, e.columns[j], |cat.keys|)
    ensures g in SameNamed(nm, cat, |cat.entities|)
  {
    SameNamedInRow(nm, cat, e, |e.columns|, j, KeyGuesses(nm, cat, e, e.columns[j], |cat.keys|), g);
    SameNamedStep(nm, cat, i + 1, e, g);
    SameNamedKept(nm, cat, i + 1, |cat.entities|, g);
  }

  lemma {:induction false} SurrogateFacts(nm: Naming, entities: seq<Entity>, g: Guess)
    requires g in Surrogates(nm, CatalogOf(nm, entities), |entities|)
    ensures g.confidence == SURROGATE_KEY_CONFIDENCE
    ensures g.source in ById(entities) && g.target in ById(entities)
  {
    var i, j := SurrogateOrigin(nm, CatalogOf(nm, entities), |entities|, g);
    assert entities[i] in entities;
  }

  lemma {:induction false} SameNamedFacts(nm: Naming, entities: seq<Entity>, g: Guess)
    requires g in SameNamed(nm, CatalogOf(nm, entities), |entities|)
    ensures g.confidence == SAME_NAMED_PK_CONFIDENCE
    ensures g.source in ById(entities) && g.target in ById(entities)
  {
    var cat := CatalogOf(nm, entities);
    var i, j := SameNamedOrigin(nm, cat, |entities|, g);
    var key := KeyOrigin(nm, cat, entities[i], entities[i].columns[j], |cat.keys|, g);
    assert entities[i] in entities;
  }

  lemma {:induction false} KeyIsOffered(nm: Naming, cat: Catalog, e: Entity, c: Column, n: nat, k: nat, g: Guess)
    requires Consistent(cat) && k < n <= |cat.keys| && !c.isPrimaryKey
    requires cat.keys[k] in cat.keys && g in PrimaryKeyGuess(nm, cat, e, c, cat.keys[k])
    ensures g in KeyGuesses(nm, cat, e, c, n)
  {
    if k < n - 1 {
      KeyIsOffered(nm, cat, e, c, n - 1, k, g);
    }
  }

  lemma {:induction false} KeyInRow(nm: Naming, cat: Catalog, e: Entity, c: Column, g: Guess)
    requires Consistent(cat) && !c.isPrimaryKey
    requires exists key | key in cat.keys :: g in PrimaryKeyGuess(nm, cat, e, c, key)
    ensures g in KeyGuesses(nm, cat, e, c, |cat.keys|)
  {
    var key :| key in cat.keys && g in PrimaryKeyGuess(nm, cat, e, c, key);
    var k :| 0 <= k < |cat.keys| && cat.keys[k] == key;
    KeyIsOffered(nm, cat, e, c, |cat.keys|, k, g);
  }

  /** A surrogate key or a same-named primary key always leaves its pair accounted for. */
  lemma {:induction false} JustificationsAreCovered(
    nm: Naming, entities: seq<Entity>, declared: seq<Relationship>, overrides: seq<Override>,
    i: nat, j: nat, g: Guess)
    requires i < |entities| && j < |entities[i].columns|
    requires var cat, e, c := CatalogOf(nm, entities), entities[i], entities[i].columns[j];
             || g in SurrogateGuess(nm, cat, e, c)
             || (!c.isPrimaryKey && exists key | key in cat.keys :: g in PrimaryKeyGuess(nm, cat, e, c, key))
    ensures IsSelf(g)
         || PairOfGuess(g) in PairsOf(Infer(nm, entities, declared, overrides))
         || Denied(nm, ById(entities), overrides, PairOfGuess(g))
  {
    var cat, e, c := CatalogOf(nm, entities), entities[i], entities[i].columns[j];
    if g in SurrogateGuess(nm, cat, e, c) {
      SurrogateIsOffered(nm, cat, i, e, j, g);
    } else {
      KeyInRow(nm, cat, e, c, g);
      SameNamedIsOffered(nm, cat, i, e, j, g);
    }
    EveryGuessIsCovered(nm, entities, declared, overrides, g);
  }

  /** A same-named guess is drawn only where no surrogate key speaks about the pair. */
  lemma {:induction false} WeakGuessYields(
    nm: Naming, entities: seq<Entity>, declared: seq<Relationship>, overrides: seq<Override>,
    e: Relationship, g: Guess)
    requires e in TiersOf(nm, entities, declared, overrides).inferred
    requires e.confidence == SAME_NAMED_PK_CONFIDENCE
    requires g in Surrogates(nm, CatalogOf(nm, entities), |entities|)
    ensures PairOfGuess(g) != PairOf(e)
  {
    var guesses := GuessesFor(nm, entities);
    var surrogates := Surrogates(nm, CatalogOf(nm, entities), |entities|);
    InferredEdgesAreFirstGuesses(nm, entities, declared, overrides);
    var k :| FirstGuess(guesses, k, e);
    if k < |surrogates| {
      assert guesses[k] == surrogates[k] && surrogates[k] in surrogates;
      SurrogateFacts(nm, entities, surrogates[k]);
    }
    var j :| 0 <= j < |surrogates| && surrogates[j] == g;
    assert guesses[j] == g;
  }

  lemma {:induction false} AssertedEndsAreKnown(
    nm: Naming, entities: seq<Entity>, overrides: seq<Override>, r: Relationship)
    requires r in AssertedEdges(Applied(nm, overrides, ById(entities)))
    ensures r.source.entity in ById(entities) && r.target.entity in ById(entities)
    ensures r.source.entity != r.target.entity
  {
    var x := AssertedFrom(Applied(nm, overrides, ById(entities)), r);
    ResolvedPair(nm, x.0, ById(entities));
  }

  lemma {:induction false} GuessedEndsAreKnown(nm: Naming, entities: seq<Entity>, g: Guess)
    requires g in GuessesFor(nm, entities)
    ensures g.source in ById(entities) && g.target in ById(entities)
  {
    if g in Surrogates(nm, CatalogOf(nm, entities), |entities|) {
      SurrogateFacts(nm, entities, g);
    } else {
      SameNamedFacts(nm, entities, g);
    }
  }

  /** No edge leaves the diagram, and only a declared one may be a self-reference. */
  lemma {:induction false} EndsAreKnown(
    nm: Naming, entities: seq<Entity>, declared: seq<Relationship>, overrides: seq<Override>, r: Relationship)
    requires r in Infer(nm, entities, declared, overrides)
    ensures r.source.entity in ById(entities) && r.target.entity in ById(entities)
    ensures r.source.entity != r.target.entity || r in declared
  {
    var t := TiersOf(nm, entities, declared, overrides);
    if r in t.asserted {
      AssertedEndsAreKnown(nm, entities, overrides, r);
    } else if r !in t.declared {
      InferredEdgesAreFirstGuesses(nm, entities, declared, overrides);
      var k :| FirstGuess(GuessesFor(nm, entities), k, r);
      GuessedEndsAreKnown(nm, entities, GuessesFor(nm, entities)[k]);
    }
  }

  predicate IsSelfEdge(r: Relationship) {
    r.source.entity == r.target.entity
  }

  /** A self-edge is drawn exactly when it is declared on an entity of the diagram. */
  lemma {:induction false} SelfEdgeIsDeclared(
    nm: Naming, entities: seq<Entity>, declared: seq<Relationship>, overrides: seq<Override>, r: Relationship)
    requires IsSelfEdge(r)
    ensures r in Infer(nm, entities, declared, overrides) <==> r in declared && r.source.entity in ById(entities)
  {
    if r in Infer(nm, entities, declared, overrides) {
      EndsAreKnown(nm, entities, declared, overrides, r);
    }
    if r in declared && r.source.entity in ById(entities) {
      forall o | o in overrides && ResolveOverride(nm, o, ById(entities)).Ok? ensures !Names(o, PairOf(r)) {
        ResolvedPair(nm, o, ById(entities));
        SelfPairIsUnnamed(o, r);
      }
      DeclaredKeptIff(nm, entities, declared, overrides, r);
    }
  }

  lemma {:induction false} SelfPairIsUnnamed(o: Override, r: Relationship)
    requires IsSelfEdge(r) && o.source.entity != o.target.entity
    ensures !Names(o, PairOf(r))
  {
    assert o.source.entity in {o.source.entity, o.target.entity};
    assert o.target.entity in {o.source.entity, o.target.entity};
  }

  /** The diagram has a self-edge exactly when the catalog declares one on an entity it shows. */
  lemma {:induction false} SelfEdgesIffDeclared(
    nm: Naming, entities: seq<Entity>, declared: seq<Relationship>, overrides: seq<Override>)
    ensures (exists e | e in Infer(nm, entities, declared, overrides) :: IsSelfEdge(e))
       <==> exists r | r in declared :: IsSelfEdge(r) && r.source.entity in ById(entities)
  {
    if e :| e in Infer(nm, entities, declared, overrides) && IsSelfEdge(e) {
      SelfEdgeIsDeclared(nm, entities, declared, overrides, e);
    }
    if r :| r in declared && IsSelfEdge(r) && r.source.entity in ById(entities) {
      SelfEdgeIsDeclared(nm, entities, declared, overrides, r);
    }
  }

  const EMPLOYEE := Entity(
    "hr.employee", "hr", "employee", [Column("id", true), Column("manager_id", false)], Some(["id"]))

  const MANAGES := Relationship(
    "fk_manager", End("hr.employee", ["manager_id"]), End("hr.employee", ["id"]), ManyToOne, Declared, 1.0, None)

  /** A table that references itself is drawn joined to itself. */
  lemma {:induction false} SelfReferenceIsDrawn(nm: Naming)
    ensures MANAGES in Infer(nm, [EMPLOYEE], [MANAGES], []) && IsSelfEdge(MANAGES)
  {
    assert EMPLOYEE in [EMPLOYEE];
    SelfEdgeIsDeclared(nm, [EMPLOYEE], [MANAGES], [], MANAGES);
  }

  /** The admin edges among `edges` are exactly the join overrides that fit. */
  ghost predicate DrawsExactly(
    nm: Naming, byId: map<string, Entity>, overrides: seq<Override>, edges: seq<Relationship>)
  {
    && (forall e | e in edges && e.origin == AdminOverride ::
          exists o | o in overrides :: o.action == Join && ResolveOverride(nm, o, byId) == Ok(e))
    && (forall o | o in overrides && o.action == Join && ResolveOverride(nm, o, byId).Ok? ::
          ResolveOverride(nm, o, byId).value in edges)
  }

  lemma {:induction false} InferDrawsExactly(
    nm: Naming, entities: seq<Entity>, declared: seq<Relationship>, overrides: seq<Override>)
    requires forall r | r in declared :: r.origin == Declared
    ensures DrawsExactly(nm, ById(entities), overrides, Infer(nm, entities, declared, overrides))
  {
    var byId, edges := ById(entities), Infer(nm, entities, declared, overrides);
    forall e | e in edges && e.origin == AdminOverride
      ensures exists o | o in overrides :: o.action == Join && ResolveOverride(nm, o, byId) == Ok(e)
    {
      AdminEdgesAreAsserted(nm, entities, declared, overrides, e);
      AssertedIffFits(nm, entities, overrides, e);
    }
    forall o | o in overrides && o.action == Join && ResolveOverride(nm, o, byId).Ok?
      ensures ResolveOverride(nm, o, byId).value in edges
    {
      AssertedIffFits(nm, entities, overrides, ResolveOverride(nm, o, byId).value);
      assert ResolveOverride(nm, o, byId).value in TiersOf(nm, entities, declared, overrides).asserted;
    }
  }

  lemma {:induction false} AdminEdgesAreAsserted(
    nm: Naming, entities: seq<Entity>, declared: seq<Relationship>, overrides: seq<Override>, e: Relationship)
    requires forall r | r in declared :: r.origin == Declared
    requires e in Infer(nm, entities, declared, overrides) && e.origin == AdminOverride
    ensures e in TiersOf(nm, entities, declared, overrides).asserted
  {
    InferredEdgesAreFirstGuesses(nm, entities, declared, overrides);
    assert forall k :: FirstGuess(GuessesFor(nm, entities), k, e) ==> e.origin == InferredNaming;
  }
}
