/** One worker process over the shared override table, as the service runs it. */
module Workers {
  import opened Prelude
  import opened Ir
  import opened Inference
  import opened OverrideStore
  import opened StoreWrites
  import opened GraphCache
  import opened GraphService

  datatype Failure = Refused(refusal: Refusal) | Unavailable

  /** The table every worker writes to. */
  class OverrideTable {
    var rows: seq<Row>
    var nextId: nat

    constructor ()
      ensures Value() == Store([], 0)
    {
      rows, nextId := [], 0;
    }

    ghost function Value(): Store
      reads this
    {
      Store(rows, nextId)
    }
  }

  lemma {:induction false} PutAfterDrop(dropped: Cache, cache: Cache, d: Diagram, e: Entry)
    requires dropped == cache - {d}
    ensures dropped[d := e] == cache[d := e]
  {
  }

  class Worker {
    const table: OverrideTable
    const nm: Naming
    const sources: map<string, seq<string>>
    var cache: Cache

    constructor (table: OverrideTable, nm: Naming, sources: map<string, seq<string>>)
      ensures this.table == table && this.nm == nm && this.sources == sources && cache == map[]
    {
      this.table, this.nm, this.sources := table, nm, sources;
      cache := map[];
    }

    /** The cache miss: the overrides are read here, so the cached value has them applied. */
    method Introspect(d: Diagram, capture: Capture, now: int) returns (graph: SchemaGraph)
      ensures graph == OmniErd(nm).build(table.Value(), d, capture, now)
    {
      var overrides := StoredOverrides(Store(table.rows, table.nextId), d);
      var relationships := InferRelationships(nm, capture.entities, capture.declared, overrides);
      graph := SchemaGraph(capture.dialect, now, capture.entities, relationships);
    }

    /** `cache.get`: what has expired is gone. */
    method Cached(d: Diagram, now: int) returns (graph: Option<SchemaGraph>)
      modifies `cache
      ensures d in old(cache) && now < old(cache)[d].expires ==>
                graph == Some(old(cache)[d].graph) && cache == old(cache)
      ensures !(d in old(cache) && now < old(cache)[d].expires) ==> graph == None && cache == old(cache) - {d}
    {
      if d in cache && now < cache[d].expires {
        return Some(cache[d].graph);
      }
      cache := cache - {d};
      return None;
    }

    /** Serves the cached graph while it lives; otherwise introspects, infers and caches. */
    method ServeDiagram(d: Diagram, catalog: map<Diagram, Capture>, now: int) returns (graph: Option<SchemaGraph>)
      modifies `cache
      ensures Answer(graph, cache) == Serve(OmniErd(nm), table.Value(), catalog, old(cache), d, now)
    {
      graph := Cached(d, now);
      if graph.None? && d in catalog {
        var built := Introspect(d, catalog[d], now);
        PutAfterDrop(cache, old(cache), d, Entry(built, now + GRAPH_CACHE_TTL_SECONDS));
        cache := cache[d := Entry(built, now + GRAPH_CACHE_TTL_SECONDS)];
        graph := Some(built);
      }
    }

    /** What one request for a diagram's graph answers. */
    method BuildGraph(sourceId: string, namespace: Option<string>, catalog: map<Diagram, Capture>, now: int)
      returns (r: Result<SchemaGraph, Failure>)
      modifies `cache
      ensures match ResolveDiagram(sources, sourceId, namespace)
              case Err(e) => r == Err(Refused(e)) && cache == old(cache)
              case Ok(d) =>
                var a := Serve(OmniErd(nm), table.Value(), catalog, old(cache), d, now);
                && cache == a.cache
                && r == if a.graph.Some? then Ok(a.graph.value) else Err(Unavailable)
    {
      var resolved := ResolveDiagram(sources, sourceId, namespace);
      if resolved.Err? {
        return Err(Refused(resolved.error));
      }
      var graph := ServeDiagram(resolved.value, catalog, now);
      r := if graph.Some? then Ok(graph.value) else Err(Unavailable);
    }

    method InvalidateGraph(d: Diagram)
      modifies `cache
      ensures cache == old(cache) - {d}
    {
      cache := cache - {d};
    }

    /** What every write comes to: the table as `Apply` leaves it and this worker's copy dropped, or a refusal. */
    ghost predicate Wrote(
      before: Store, cached: Cache, resolved: Result<Diagram, Refusal>, op: Op, refusal: Option<Refusal>)
      reads this, table
    {
      match resolved
      case Err(e) => refusal == Some(e) && table.Value() == before && cache == cached
      case Ok(d) =>
        match Apply(nm.lower, before, d, op)
        case Err(e) => refusal == Some(e) && table.Value() == before && cache == cached
        case Ok(after) => refusal == None && table.Value() == after && cache == cached - {d}
    }

    method SaveOverride(sourceId: string, namespace: Option<string>, p: Payload) returns (refusal: Option<Refusal>)
      modifies table, `cache
      ensures Wrote(old(table.Value()), old(cache), ResolveDiagram(sources, sourceId, namespace), Save(p), refusal)
    {
      var resolved := ResolveDiagram(sources, sourceId, namespace);
      if resolved.Err? {
        return Some(resolved.error);
      }
      var d := resolved.value;
      var problem := RequireValidEnds(nm.lower, p);
      if problem.Some? {
        return problem;
      }
      var entry := CanonicalRow(table.nextId, d, p);
      var i := IndexWhere(table.rows, (r: Row) => SamePair(r, entry));
      if i < |table.rows| {
        table.rows := table.rows[i := entry.(pk := table.rows[i].pk)];
      } else {
        table.rows := table.rows + [entry];
        table.nextId := table.nextId + 1;
      }
      InvalidateGraph(d);
      return None;
    }

    method UpdateOverride(sourceId: string, namespace: Option<string>, pk: nat, p: Payload)
      returns (refusal: Option<Refusal>)
      modifies table, `cache
      ensures Wrote(
        old(table.Value()), old(cache), ResolveDiagram(sources, sourceId, namespace), Update(pk, p), refusal)
    {
      var resolved := ResolveDiagram(sources, sourceId, namespace);
      if resolved.Err? {
        return Some(resolved.error);
      }
      var d := resolved.value;
      var problem := RequireValidEnds(nm.lower, p);
      if problem.Some? {
        return problem;
      }
      var edited := CanonicalRow(pk, d, p);
      var i := IndexWhere(table.rows, (r: Row) => r.pk == pk && r.diagram == d);
      if i == |table.rows| {
        return Some(UnknownOverride);
      }
      if exists r | r in table.rows :: SamePair(r, edited) && r.pk != pk {
        return Some(PairTaken);
      }
      table.rows := table.rows[i := edited];
      InvalidateGraph(d);
      return None;
    }

    method DeleteOverride(sourceId: string, namespace: Option<string>, pk: nat) returns (refusal: Option<Refusal>)
      modifies table, `cache
      ensures Wrote(old(table.Value()), old(cache), ResolveDiagram(sources, sourceId, namespace), Delete(pk), refusal)
      ensures WellFormed(nm.lower, old(table.Value())) && refusal.None? ==> forall r | r in table.rows :: r.pk != pk
    {
      var resolved := ResolveDiagram(sources, sourceId, namespace);
      if resolved.Err? {
        return Some(resolved.error);
      }
      var d := resolved.value;
      var i := IndexWhere(table.rows, (r: Row) => r.pk == pk && r.diagram == d);
      if i == |table.rows| {
        return Some(UnknownOverride);
      }
      ghost var before := table.Value();
      if WellFormed(nm.lower, before) {
        DeleteRemovesItsRow(nm.lower, before, d, pk);
      }
      table.rows := table.rows[..i] + table.rows[i + 1..];
      InvalidateGraph(d);
      return None;
    }

    /** Every row of one diagram, each with the status it has against the served graph. */
    method ListOverrides(sourceId: string, namespace: Option<string>, catalog: map<Diagram, Capture>, now: int)
      returns (r: Result<seq<(Row, Option<Problem>)>, Failure>)
      modifies `cache
      ensures match ResolveDiagram(sources, sourceId, namespace)
              case Err(e) => r == Err(Refused(e)) && cache == old(cache)
              case Ok(d) =>
                var a := Serve(OmniErd(nm), table.Value(), catalog, old(cache), d, now);
                && cache == a.cache
                && r == if a.graph.None? then Err(Unavailable)
                        else Ok(Map((row: Row) => (row, ListedStatus(nm, row, a.graph.value)),
                                    RowsFor(table.Value(), d)))
    {
      var resolved := ResolveDiagram(sources, sourceId, namespace);
      if resolved.Err? {
        return Err(Refused(resolved.error));
      }
      var d := resolved.value;
      var graph := BuildGraph(sourceId, namespace, catalog, now);
      if graph.Err? {
        return Err(graph.error);
      }
      var rows := RowsFor(Store(table.rows, table.nextId), d);
      var listed := [];
      for i := 0 to |rows|
        invariant cache == Serve(OmniErd(nm), table.Value(), catalog, old(cache), d, now).cache
        invariant listed == Map((row: Row) => (row, ListedStatus(nm, row, graph.value)), rows[..i])
      {
        listed := listed + [(rows[i], ListedStatus(nm, rows[i], graph.value))];
      }
      assert rows[..|rows|] == rows;
      return Ok(listed);
    }
  }
}
