/** The dialect-agnostic schema document every Omni-ERD component passes around. */
module Ir {
  import opened Prelude

  datatype Column = Column(name: string, isPrimaryKey: bool)

  datatype Entity = Entity(
    id: string,
    namespace: string,
    name: string,
    columns: seq<Column>,
    primaryKey: Option<seq<string>>)

  datatype Cardinality = ManyToOne | OneToOne

  datatype Origin = AdminOverride | Declared | InferredNaming

  datatype End = End(entity: string, columns: seq<string>)

  /** `source` is the referencing (many) side, `target` the referenced one. */
  datatype Relationship = Relationship(
    id: string,
    source: End,
    target: End,
    cardinality: Cardinality,
    origin: Origin,
    confidence: real,
    note: Option<string>)

  datatype SchemaGraph = SchemaGraph(
    dialect: string,
    capturedAt: int,
    entities: seq<Entity>,
    relationships: seq<Relationship>)

  /** The unordered pair of entities a relationship draws a line between. */
  function PairOf(r: Relationship): set<string> {
    {r.source.entity, r.target.entity}
  }

  /** A dictionary keyed by id: the last entity with an id is the one kept. */
  function ById(entities: seq<Entity>): (m: map<string, Entity>)
    ensures forall id :: id in m <==> exists e :: e in entities && e.id == id
    ensures forall id | id in m :: m[id] in entities && m[id].id == id
  {
    if entities == [] then map[]
    else
      var last := entities[|entities| - 1];
      assert entities == entities[..|entities| - 1] + [last];
      ById(entities[..|entities| - 1])[last.id := last]
  }

  lemma {:induction false} ByIdUnfolds(entities: seq<Entity>, n: nat)
    requires entities != [] && n == |entities| - 1
    ensures ById(entities) == ById(entities[..n])[entities[n].id := entities[n]]
  {
  }

  /** Entity `k` has the id, and no later one does. */
  ghost predicate IsLastWith(entities: seq<Entity>, id: string, k: nat) {
    k < |entities| && entities[k].id == id && forall l | k < l < |entities| :: entities[l].id != id
  }

  lemma {:induction false} StillLast(entities: seq<Entity>, n: nat, id: string, k: nat)
    requires n == |entities| - 1 && IsLastWith(entities[..n], id, k) && entities[n].id != id
    ensures IsLastWith(entities, id, k) && entities[..n][k] == entities[k]
  {
    assert forall l | 0 <= l < n :: entities[..n][l] == entities[l];
  }

  lemma {:induction false} ByIdKeepsTheLast(entities: seq<Entity>, id: string) returns (k: nat)
    requires id in ById(entities)
    ensures IsLastWith(entities, id, k) && entities[k] == ById(entities)[id]
  {
    var n := |entities| - 1;
    k := n;
    ByIdUnfolds(entities, n);
    if entities[n].id != id {
      k := ByIdKeepsTheLast(entities[..n], id);
      StillLast(entities, n, id, k);
    }
  }
}
