/** The order of the edges inference answers with. */
module EdgeOrder {
  import opened Prelude
  import opened Ir
  import opened Inference
  import opened PairOwnership
  import opened InferredEdges

  function Rank(origin: Origin): nat {
    match origin
    case AdminOverride => 0
    case Declared => 1
    case InferredNaming => 2
  }

  /** The edges are those of the guesses at these ascending places. */
  ghost predicate DrawnAt(guesses: seq<Guess>, edges: seq<Relationship>, at: seq<nat>) {
    && |at| == |edges|
    && (forall i, j | 0 <= i < j < |at| :: at[i] < at[j])
    && forall i | 0 <= i < |at| :: at[i] < |guesses| && edges[i] == EdgeOf(guesses[at[i]])
  }

  lemma {:induction false} OffersKeepOrder(seen: set<set<string>>, guesses: seq<Guess>) returns (at: seq<nat>)
    ensures DrawnAt(guesses, OfferAll(Claims(seen, []), guesses).edges, at)
  {
    at := [];
    if guesses != [] {
      var n := |guesses| - 1;
      at := OffersKeepOrder(seen, guesses[..n]);
      if OfferAll(Claims(seen, []), guesses).edges != OfferAll(Claims(seen, []), guesses[..n]).edges {
        at := at + [n];
      }
    }
  }

  lemma {:induction false} StrongConfidence(nm: Naming, entities: seq<Entity>)
    ensures forall g | g in SurrogatesIn(nm, entities) :: g.confidence == 0.9
  {
    forall g | g in SurrogatesIn(nm, entities) ensures g.confidence == 0.9 {
      SurrogateFacts(nm, entities, g);
    }
  }

  lemma {:induction false} WeakConfidence(nm: Naming, entities: seq<Entity>)
    ensures forall g | g in SameNamedIn(nm, entities) :: g.confidence == 0.8
  {
    forall g | g in SameNamedIn(nm, entities) ensures g.confidence == 0.8 {
      SameNamedFacts(nm, entities, g);
    }
  }

  lemma {:induction false} DrawnInOrder(strong: seq<Guess>, weak: seq<Guess>, edges: seq<Relationship>, at: seq<nat>)
    requires DrawnAt(strong + weak, edges, at)
    requires (forall g | g in strong :: g.confidence == 0.9) && forall g | g in weak :: g.confidence == 0.8
    ensures forall e | e in edges :: e.origin == InferredNaming
    ensures forall i, j | 0 <= i < j < |edges| :: edges[i].confidence >= edges[j].confidence
  {
    var all := strong + weak;
    forall k: nat | k < |all| ensures all[k].confidence == if k < |strong| then 0.9 else 0.8 {
      if k < |strong| {
        assert all[k] == strong[k] && strong[k] in strong;
      } else {
        assert all[k] == weak[k - |strong|] && weak[k - |strong|] in weak;
      }
    }
  }

  /** Among the inferred, stems come before mere namesakes. */
  lemma {:induction false} InferredByConfidence(
    nm: Naming, entities: seq<Entity>, declared: seq<Relationship>, overrides: seq<Override>)
    ensures var inferred := TiersOf(nm, entities, declared, overrides).inferred;
            && (forall e | e in inferred :: e.origin == InferredNaming)
            && forall i, j | 0 <= i < j < |inferred| :: inferred[i].confidence >= inferred[j].confidence
  {
    var overridden := OverriddenPairs(Applied(nm, overrides, ById(entities)));
    var kept := KeptDeclared(ById(entities), declared, overridden);
    var at := OffersKeepOrder(overridden + PairsOf(kept), GuessesFor(nm, entities));
    StrongConfidence(nm, entities);
    WeakConfidence(nm, entities);
    DrawnInOrder(SurrogatesIn(nm, entities), SameNamedIn(nm, entities),
      TiersOf(nm, entities, declared, overrides).inferred, at);
  }

  lemma {:induction false} AssertsOneMore(
    nm: Naming, overrides: seq<Override>, byId: map<string, Entity>, edges: seq<Relationship>, at: seq<nat>, n: nat,
    r: Relationship)
    requires overrides != [] && n == |overrides| - 1 && AssertsAt(nm, overrides[..n], byId, edges, at)
    ensures AssertsAt(nm, overrides, byId, edges, at)
    ensures overrides[n].action == Join && ResolveOverride(nm, overrides[n], byId) == Ok(r) ==>
              AssertsAt(nm, overrides, byId, edges + [r], at + [n])
  {
    forall i | 0 <= i < |at| ensures at[i] < n && overrides[..n][at[i]] == overrides[at[i]] {
    }
  }

  lemma {:induction false} AssertedInOrder(nm: Naming, overrides: seq<Override>, byId: map<string, Entity>)
    returns (at: seq<nat>)
    ensures AssertsAt(nm, overrides, byId, AssertedEdges(Applied(nm, overrides, byId)), at)
  {
    at := [];
    if overrides != [] {
      var n := |overrides| - 1;
      var before, r := Applied(nm, overrides[..n], byId), ResolveOverride(nm, overrides[n], byId);
      at := AssertedInOrder(nm, overrides[..n], byId);
      var edge := if r.Ok? then r.value else Relationship("", End("", []), End("", []), ManyToOne, Declared, 0.0, None);
      AssertsOneMore(nm, overrides, byId, AssertedEdges(before), at, n, edge);
      if r.Ok? {
        AppliedOneMore(before, (overrides[n], r.value));
        if overrides[n].action == Join {
          at := at + [n];
        }
      }
    }
  }

  /** The edges are those the joins at these ascending places assert. */
  ghost predicate AssertsAt(
    nm: Naming, overrides: seq<Override>, byId: map<string, Entity>, edges: seq<Relationship>, at: seq<nat>)
  {
    && |at| == |edges|
    && (forall i, j | 0 <= i < j < |at| :: at[i] < at[j])
    && forall i | 0 <= i < |at| ::
         at[i] < |overrides| && overrides[at[i]].action == Join
         && ResolveOverride(nm, overrides[at[i]], byId) == Ok(edges[i])
  }

  /** The kept constraints are the catalog's, in its order. */
  lemma {:induction false} DeclaredInOrder(
    byId: map<string, Entity>, declared: seq<Relationship>, seen: set<set<string>>)
    returns (at: seq<nat>)
    ensures ListsAt(KeptDeclared(byId, declared, seen), declared, 0, at)
  {
    at := FilterLists(
      (r: Relationship) => r.source.entity in byId && r.target.entity in byId && PairOf(r) !in seen, declared, 0);
    assert declared[0..] == declared;
  }

  lemma {:induction false} ReadAsAdmin(nm: Naming, o: Override, byId: map<string, Entity>, r: Relationship)
    requires ResolveOverride(nm, o, byId) == Ok(r)
    ensures r.origin == AdminOverride
  {
  }

  lemma {:induction false} AssertedAreAdmin(nm: Naming, overrides: seq<Override>, byId: map<string, Entity>)
    ensures forall e | e in AssertedEdges(Applied(nm, overrides, byId)) :: e.origin == AdminOverride
  {
    forall e | e in AssertedEdges(Applied(nm, overrides, byId)) ensures e.origin == AdminOverride {
      var x := AssertedFrom(Applied(nm, overrides, byId), e);
      ReadAsAdmin(nm, x.0, byId, e);
    }
  }

  /** What the admins assert comes first, then what is declared, then what is inferred, stems before namesakes. */
  ghost predicate ByAuthority(edges: seq<Relationship>) {
    forall i, j | 0 <= i < j < |edges| ::
      && Rank(edges[i].origin) <= Rank(edges[j].origin)
      && (edges[i].origin == InferredNaming ==> edges[i].confidence >= edges[j].confidence)
  }

  /** Admin edges follow the overrides' order, declared ones the catalog's. */
  lemma {:induction false} EdgesAreByAuthority(
    nm: Naming, entities: seq<Entity>, declared: seq<Relationship>, overrides: seq<Override>,
    edges: seq<Relationship>)
    returns (asserts: seq<nat>, declares: seq<nat>)
    requires edges == Infer(nm, entities, declared, overrides)
    requires forall r | r in declared :: r.origin == Declared
    ensures ByAuthority(edges) && |asserts| + |declares| <= |edges|
    ensures AssertsAt(nm, overrides, ById(entities), edges[..|asserts|], asserts)
    ensures ListsAt(edges[|asserts|..|asserts| + |declares|], declared, 0, declares)
    ensures forall i | |asserts| + |declares| <= i < |edges| :: edges[i].origin == InferredNaming
  {
    var t := TiersOf(nm, entities, declared, overrides);
    asserts := AssertedInOrder(nm, overrides, ById(entities));
    declares := DeclaredInOrder(ById(entities), declared, OverriddenPairs(Applied(nm, overrides, ById(entities))));
    InferredByConfidence(nm, entities, declared, overrides);
    AssertedAreAdmin(nm, overrides, ById(entities));
    ThreeBlocks(t.asserted, t.declared, t.inferred, edges);
  }

  lemma {:induction false} ThreeBlocks(
    a: seq<Relationship>, d: seq<Relationship>, g: seq<Relationship>, edges: seq<Relationship>)
    requires edges == a + d + g
    requires (forall e | e in a :: e.origin == AdminOverride) && (forall e | e in d :: e.origin == Declared)
    requires forall e | e in g :: e.origin == InferredNaming
    requires forall i, j | 0 <= i < j < |g| :: g[i].confidence >= g[j].confidence
    ensures edges[..|a|] == a && edges[|a|..|a| + |d|] == d
    ensures ByAuthority(edges)
    ensures forall i | |a| + |d| <= i < |edges| :: edges[i].origin == InferredNaming
  {
    forall i | 0 <= i < |edges|
      ensures edges[i].origin ==
        if i < |a| then AdminOverride else if i < |a| + |d| then Declared else InferredNaming
    {
      if i < |a| {
        assert edges[i] == a[i] && a[i] in a;
      } else if i < |a| + |d| {
        assert edges[i] == d[i - |a|] && d[i - |a|] in d;
      } else {
        assert edges[i] == g[i - |a| - |d|] && g[i - |a| - |d|] in g;
      }
    }
  }
}
