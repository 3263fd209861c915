/** The per-process graph cache in front of inference. */
module GraphCache {
  import opened Prelude
  import opened Ir
  import opened OverrideStore

  // Workers share one override table; a catalog drifts under them; a clock runs.

  const GRAPH_CACHE_TTL_SECONDS: int := 60

  /** What introspecting one diagram reports at one moment. */
  datatype Capture = Capture(dialect: string, entities: seq<Entity>, declared: seq<Relationship>)

  datatype Entry = Entry(graph: SchemaGraph, expires: int)

  type Cache = map<Diagram, Entry>

  /** What sits behind the cache: how a graph is built, and what a write does to the table. */
  datatype Backend = Backend(
    build: (Store, Diagram, Capture, int) -> SchemaGraph,
    apply: (Store, Diagram, Op) -> Result<Store, Refusal>)

  /** A graph, or none when the source cannot be read; and the cache afterwards. */
  datatype Answer = Answer(graph: Option<SchemaGraph>, cache: Cache)

  /** `build_graph`: a live entry is served as it is, an expired one is dropped and rebuilt. */
  function Serve(b: Backend, store: Store, catalog: map<Diagram, Capture>, cache: Cache, d: Diagram, now: int): Answer {
    if d in cache && now < cache[d].expires then Answer(Some(cache[d].graph), cache)
    else if d !in catalog then Answer(None, cache - {d})
    else
      var graph := b.build(store, d, catalog[d], now);
      Answer(Some(graph), cache[d := Entry(graph, now + GRAPH_CACHE_TTL_SECONDS)])
  }

  // ---- The system and its runs ------------------------------------------------------

  datatype System = System(store: Store, catalog: map<Diagram, Capture>, caches: map<nat, Cache>, clock: int)

  datatype Event =
    | Read(worker: nat, diagram: Diagram)
    | Write(worker: nat, diagram: Diagram, op: Op)
    | Rebuild(diagram: Diagram, capture: Option<Capture>)
    | Tick(seconds: nat)
    | Evict(worker: nat, diagram: Diagram)

  function CacheOf(s: System, worker: nat): Cache {
    if worker in s.caches then s.caches[worker] else map[]
  }

  function Step(b: Backend, s: System, e: Event): System {
    match e
    case Read(w, d) =>
      s.(caches := s.caches[w := Serve(b, s.store, s.catalog, CacheOf(s, w), d, s.clock).cache])
    case Write(w, d, op) =>
      var r := b.apply(s.store, d, op);
      if r.Err? then s else s.(store := r.value, caches := s.caches[w := CacheOf(s, w) - {d}])
    case Rebuild(d, capture) =>
      s.(catalog := if capture.Some? then s.catalog[d := capture.value] else s.catalog - {d})
    case Tick(seconds) => s.(clock := s.clock + seconds)
    case Evict(w, d) => s.(caches := s.caches[w := CacheOf(s, w) - {d}])
  }

  /** Any interleaving of events from freshly started workers. */
  ghost predicate IsRun(b: Backend, states: seq<System>, events: seq<Event>) {
    && |states| == |events| + 1
    && states[0].caches == map[]
    && forall i | 0 <= i < |events| :: states[i + 1] == Step(b, states[i], events[i])
  }

  /** What a worker answers a reader in this state. */
  function ServedAt(b: Backend, s: System, w: nat, d: Diagram): Option<SchemaGraph> {
    Serve(b, s.store, s.catalog, CacheOf(s, w), d, s.clock).graph
  }

  /** The event changes the overrides of `d`, through worker `w`. */
  ghost predicate WritesTo(b: Backend, s: System, e: Event, w: nat, d: Diagram) {
    e.Write? && e.worker == w && e.diagram == d && b.apply(s.store, d, e.op).Ok?
  }

  /** `graph` is what inference gave at instant `m`, and `w` has written nothing to `d` from then to `n`. */
  ghost predicate BuiltAt(
    b: Backend, states: seq<System>, events: seq<Event>, m: int, n: int, w: nat, d: Diagram, graph: SchemaGraph)
    requires |states| == |events| + 1
  {
    && 0 <= m <= n < |states| && d in states[m].catalog
    && graph == b.build(states[m].store, d, states[m].catalog[d], states[m].clock)
    && forall k | m <= k < n :: !WritesTo(b, states[k], events[k], w, d)
  }

  /** The entry was built at instant `m` and expires a minute after it. */
  ghost predicate EntryFrom(
    b: Backend, states: seq<System>, events: seq<Event>, m: int, n: int, w: nat, d: Diagram, entry: Entry)
    requires |states| == |events| + 1
  {
    && BuiltAt(b, states, events, m, n, w, d, entry.graph)
    && entry.expires == states[m].clock + 60
  }

  ghost predicate Justified(b: Backend, states: seq<System>, events: seq<Event>, n: int)
    requires |states| == |events| + 1 && 0 <= n < |states|
  {
    forall w: nat, d | d in CacheOf(states[n], w) ::
      exists m :: EntryFrom(b, states, events, m, n, w, d, CacheOf(states[n], w)[d])
  }

  /** An entry after one event was either there before it and not invalidated, or built by it. */
  lemma {:induction false} EntryAfterStep(b: Backend, s: System, e: Event, w: nat, d: Diagram)
    requires d in CacheOf(Step(b, s, e), w)
    ensures var entry := CacheOf(Step(b, s, e), w)[d];
            || (d in CacheOf(s, w) && entry == CacheOf(s, w)[d] && !WritesTo(b, s, e, w, d))
            || (e == Read(w, d) && d in s.catalog
                && entry == Entry(b.build(s.store, d, s.catalog[d], s.clock), s.clock + GRAPH_CACHE_TTL_SECONDS))
  {
  }

  lemma {:induction false} CachesAreJustified(b: Backend, states: seq<System>, events: seq<Event>, n: nat)
    requires IsRun(b, states, events) && n < |states|
    ensures Justified(b, states, events, n)
  {
    if n > 0 {
      CachesAreJustified(b, states, events, n - 1);
      forall w: nat, d | d in CacheOf(states[n], w)
        ensures exists m :: EntryFrom(b, states, events, m, n, w, d, CacheOf(states[n], w)[d])
      {
        EntryIsJustified(b, states, events, n - 1, n, w, d);
      }
    }
  }

  lemma {:induction false} KeptEntry(
    b: Backend, states: seq<System>, events: seq<Event>, n: nat, next: nat, w: nat, d: Diagram, entry: Entry)
    requires |states| == |events| + 1 && next == n + 1 < |states|
    requires exists m :: EntryFrom(b, states, events, m, n, w, d, entry)
    requires !WritesTo(b, states[n], events[n], w, d)
    ensures exists m :: EntryFrom(b, states, events, m, next, w, d, entry)
  {
    var m :| EntryFrom(b, states, events, m, n, w, d, entry);
    assert EntryFrom(b, states, events, m, next, w, d, entry);
  }

  lemma {:induction false} BuiltEntry(
    b: Backend, states: seq<System>, events: seq<Event>, n: nat, next: nat, w: nat, d: Diagram, entry: Entry)
    requires |states| == |events| + 1 && next == n + 1 < |states|
    requires events[n] == Read(w, d) && d in states[n].catalog
    requires var s := states[n];
             entry == Entry(b.build(s.store, d, s.catalog[d], s.clock), s.clock + GRAPH_CACHE_TTL_SECONDS)
    ensures exists m :: EntryFrom(b, states, events, m, next, w, d, entry)
  {
    assert EntryFrom(b, states, events, n, next, w, d, entry);
  }

  lemma {:induction false} EntryIsJustified(
    b: Backend, states: seq<System>, events: seq<Event>, n: nat, next: nat, w: nat, d: Diagram)
    requires |states| == |events| + 1 && next == n + 1 < |states| && states[next] == Step(b, states[n], events[n])
    requires Justified(b, states, events, n) && d in CacheOf(states[next], w)
    ensures exists m :: EntryFrom(b, states, events, m, next, w, d, CacheOf(states[next], w)[d])
  {
    var entry := CacheOf(states[next], w)[d];
    EntryAfterStep(b, states[n], events[n], w, d);
    if d in CacheOf(states[n], w) && entry == CacheOf(states[n], w)[d] && !WritesTo(b, states[n], events[n], w, d) {
      KeptEntry(b, states, events, n, next, w, d, entry);
    } else {
      BuiltEntry(b, states, events, n, next, w, d, entry);
    }
  }

  ghost predicate RecentlyBuilt(
    b: Backend, states: seq<System>, events: seq<Event>, m: int, n: int, w: nat, d: Diagram, graph: SchemaGraph)
    requires |states| == |events| + 1
  {
    BuiltAt(b, states, events, m, n, w, d, graph) && states[n].clock - states[m].clock < 60
  }

  /**
   * Every graph any worker ever serves is what inference gives over the catalog
   * and the overrides of some instant less than a minute old, and no older than
   * the last write made through that same worker.
   */
  lemma {:induction false} ServedGraphsAreRecent(
    b: Backend, states: seq<System>, events: seq<Event>, n: nat, w: nat, d: Diagram, graph: SchemaGraph)
    requires IsRun(b, states, events) && n < |states|
    requires ServedAt(b, states[n], w, d) == Some(graph)
    ensures exists m :: RecentlyBuilt(b, states, events, m, n, w, d, graph)
  {
    CachesAreJustified(b, states, events, n);
    var s := states[n];
    if d in CacheOf(s, w) && s.clock < CacheOf(s, w)[d].expires {
      var m :| EntryFrom(b, states, events, m, n, w, d, CacheOf(s, w)[d]);
      assert RecentlyBuilt(b, states, events, m, n, w, d, graph);
    } else {
      assert RecentlyBuilt(b, states, events, n, n, w, d, graph);
    }
  }

  /**
   * A copy lives for a minute: whatever becomes of the table and the catalog meanwhile, a
   * worker that keeps the copy a read left it serves it for sixty seconds, and then no more.
   */
  lemma {:induction false} CopyLivesAMinute(b: Backend, s: System, w: nat, d: Diagram, later: System, seconds: nat)
    requires d in s.catalog && !(d in CacheOf(s, w) && s.clock < CacheOf(s, w)[d].expires)
    requires later.clock == s.clock + seconds && CacheOf(later, w) == CacheOf(Step(b, s, Read(w, d)), w)
    ensures ServedAt(b, s, w, d) == Some(b.build(s.store, d, s.catalog[d], s.clock))
    ensures seconds < 60 ==> ServedAt(b, later, w, d) == ServedAt(b, s, w, d)
    ensures seconds >= 60 && d in later.catalog ==>
              ServedAt(b, later, w, d) == Some(b.build(later.store, d, later.catalog[d], later.clock))
    ensures seconds >= 60 && d !in later.catalog ==> ServedAt(b, later, w, d) == None
  {
  }

  /** A state one worker's read and then a sibling's write lead to. */
  function ReadThenWrite(b: Backend, store: Store, d: Diagram, capture: Capture, now: int, op: Op): System {
    var start := System(store, map[d := capture], map[], now);
    Step(b, Step(b, start, Read(1, d)), Write(0, d, op))
  }

  /** The write reaches the table and the writer's cache, not the sibling's. */
  lemma {:induction false} SiblingServesTheOldGraph(
    b: Backend, store: Store, d: Diagram, capture: Capture, now: int, op: Op, after: Store)
    requires b.apply(store, d, op) == Ok(after)
    ensures var s := ReadThenWrite(b, store, d, capture, now, op);
            && s.store == after
            && ServedAt(b, s, 0, d) == Some(b.build(after, d, capture, now))
            && ServedAt(b, s, 1, d) == Some(b.build(store, d, capture, now))
  {
  }
}
