/**
  The part of the Qdrant vector database that the retriever relies on: named
  collections, each a map from point id to vector and payload, where an upsert
  overwrites the point with the same id, and a search that returns at most
  `limit` hits of the database's own ranking. The ranking itself (cosine
  similarity over an approximate index, with payload filtering) belongs to the
  database and is a parameter of the model.
 */
module VectorStore {
  import opened Wrappers
  import opened Text

  datatype Distance = Cosine | Euclid | Dot | Manhattan

  datatype VectorParams = VectorParams(size: nat, distance: Distance)

  type Payload = map<string, string>

  datatype Point = Point(id: nat, vector: seq<real>, payload: Payload)

  datatype Stored = Stored(vector: seq<real>, payload: Payload)

  datatype Collection = Collection(config: VectorParams, points: map<nat, Stored>)

  /** A search hit; Qdrant may return it without a payload. */
  datatype ScoredPoint = ScoredPoint(id: nat, score: real, payload: Option<Payload>)

  /** The one kind of filter the retriever builds: payload field `key` must equal `value`. */
  datatype Filter = MatchValue(key: string, value: string)

  /** The ranking of a collection's points for a query vector and an optional filter, best first. */
  type Ranking = (Collection, seq<real>, Option<Filter>) -> seq<ScoredPoint>

  /** A freshly (re)created collection holds no points. */
  function Empty(config: VectorParams): Collection
  {
    Collection(config, map[])
  }

  /**
    Upserting one point: the point with that id now holds the new vector and
    payload, whether or not it existed; every other point is as it was.
   */
  function Put(c: Collection, p: Point): (r: Collection)
    ensures r.config == c.config
    ensures r.points.Keys == c.points.Keys + {p.id}
    ensures r.points[p.id] == Stored(p.vector, p.payload)
    ensures forall id :: id in c.points && id != p.id ==> r.points[id] == c.points[id]
  {
    c.(points := c.points[p.id := Stored(p.vector, p.payload)])
  }

  /** A second upsert under the same id replaces the first one entirely. */
  lemma PutTwice(c: Collection, p: Point, q: Point)
    requires p.id == q.id
    ensures Put(Put(c, p), q) == Put(c, q)
  {
    assert Put(Put(c, p), q).points == Put(c, q).points;
  }

  /** The first `limit` items of a ranking; a limit of zero or less gives none. */
  function Take(ranked: seq<ScoredPoint>, limit: int): (r: seq<ScoredPoint>)
    ensures |r| == if limit <= 0 then 0 else if limit < |ranked| then limit else |ranked|
    ensures r == ranked[..|r|]
  {
    if limit <= 0 then [] else Prefix(ranked, limit)
  }

  /** A Qdrant server: its collections, which its clients change in place. */
  class Server {
    var collections: map<string, Collection>
    const rank: Ranking

    constructor (rank: Ranking)
      ensures collections == map[] && this.rank == rank
    {
      collections := map[];
      this.rank := rank;
    }

    /** collection_exists */
    method CollectionExists(name: string) returns (b: bool)
      ensures b <==> name in collections
    {
      b := name in collections;
    }

    /** recreate_collection: drop the collection if it exists and create it empty. */
    method RecreateCollection(name: string, config: VectorParams)
      modifies this
      ensures collections == old(collections)[name := Empty(config)]
    {
      collections := collections[name := Empty(config)];
    }

    /**
      upsert with a single point. The server accepts only a vector of the
      collection's dimension; otherwise it rejects the request and stores
      nothing.
     */
    method Upsert(name: string, p: Point) returns (ok: bool)
      requires name in collections
      modifies this
      ensures ok <==> |p.vector| == old(collections)[name].config.size
      ensures collections == if ok then old(collections)[name := Put(old(collections)[name], p)] else old(collections)
    {
      ok := |p.vector| == collections[name].config.size;
      if ok {
        collections := collections[name := Put(collections[name], p)];
      }
    }

    /** search: the best `limit` hits of the ranking, best first. */
    method Search(name: string, vector: seq<real>, limit: int, filter: Option<Filter>) returns (hits: seq<ScoredPoint>)
      requires name in collections
      ensures hits == Take(rank(collections[name], vector, filter), limit)
    {
      hits := Take(rank(collections[name], vector, filter), limit);
    }
  }
}
