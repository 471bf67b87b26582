/**
  The query endpoint of the API (api/main.py): the `X-Variant` header is
  checked first; then the embedder and the retriever are initialised lazily,
  once each, and the search results are returned unchanged with the variant.
 */
module Api {
  import opened Wrappers
  import opened VectorStore
  import opened Retriever

  const EmbedModel := "BAAI/bge-small-en-v1.5"
  const QdrantUrl := "http://qdrant:6333"
  const CollectionName := "docs"
  const DefaultTopK := 5
  const DefaultVariant := "A"

  datatype QueryIn = QueryIn(query: string, topK: int, lang: Option<string>)

  /** The request body with pydantic's defaults for the fields the client left out. */
  function Body(query: string, topK: Option<int>, lang: Option<string>): (b: QueryIn)
    ensures b.query == query && b.lang == lang
    ensures topK == None ==> b.topK == DefaultTopK
    ensures topK.Some? ==> b.topK == topK.value
  {
    QueryIn(query, topK.GetOr(DefaultTopK), lang)
  }

  /** The variant the handler sees: the header's value, or "A" when it is absent. */
  function HeaderVariant(header: Option<string>): (v: string)
    ensures header == None ==> v == DefaultVariant
    ensures header.Some? ==> v == header.value
  {
    header.GetOr(DefaultVariant)
  }

  predicate IsVariant(v: string)
  {
    v == "A" || v == "B"
  }

  datatype QueryOut = QueryOut(variant: string, contexts: seq<Context>)

  datatype HttpError = HttpError(status: int, detail: string)

  const BadVariant := HttpError(400, "X-Variant must be 'A' or 'B'")

  /**
    The module globals `_embed` and `_retriever` with the collaborators they
    are built from: the Qdrant server, `get_embedder` and SHA-1.
   */
  class Service {
    var embed: Option<Embedder>
    var retriever: QdrantRetriever?
    const server: Server
    const getEmbedder: string -> Embedder
    const sha1: Sha1

    /** A retriever exists only once the embedder does, and it uses that embedder and the "docs" collection. */
    ghost predicate Valid()
      reads this, retriever, server
    {
      retriever != null ==>
        embed == Some(retriever.embed) && retriever.client == server &&
        retriever.url == QdrantUrl && retriever.collection == CollectionName &&
        retriever.sha1 == sha1 && retriever.Valid()
    }

    /** Before the first request neither global is set. */
    constructor (server: Server, getEmbedder: string -> Embedder, sha1: Sha1)
      ensures this.server == server && this.getEmbedder == getEmbedder && this.sha1 == sha1
      ensures embed == None && retriever == null
      ensures Valid()
    {
      this.server := server;
      this.getEmbedder := getEmbedder;
      this.sha1 := sha1;
      embed := None;
      retriever := null;
    }

    /**
      _ensure_services (lines 15-23): afterwards both globals are set. A global
      already set is kept; a missing embedder is loaded for EmbedModel, and a
      missing retriever is built with the embedder held at that moment.
     */
    method EnsureServices()
      requires Valid()
      modifies this, server
      ensures Valid() && embed.Some? && retriever != null
      ensures old(embed).Some? ==> embed == old(embed)
      ensures old(embed) == None ==> embed == Some(getEmbedder(EmbedModel))
      ensures old(retriever) != null ==> retriever == old(retriever) && server.collections == old(server.collections)
      ensures old(retriever) == null ==>
        fresh(retriever) && retriever.embed == embed.value &&
        server.collections == Ensured(old(server.collections), CollectionName, embed.value)
    {
      if embed == None {
        embed := Some(getEmbedder(EmbedModel));
      }
      if retriever == null {
        retriever := new QdrantRetriever(server, QdrantUrl, CollectionName, embed.value, sha1);
      }
    }

    /**
      The /query handler (lines 47-62). A variant other than "A" or "B" is
      refused with status 400 before anything is initialised; otherwise the
      response carries the variant and exactly what the retriever's search
      returns for the body's query, top_k and lang.
     */
    method Query(body: QueryIn, header: Option<string>) returns (r: Result<QueryOut, HttpError>)
      requires Valid()
      modifies this, server
      ensures var v := HeaderVariant(header);
        !IsVariant(v) ==> r == Failure(BadVariant) && unchanged(this, server)
      ensures var v := HeaderVariant(header);
        IsVariant(v) ==>
          Valid() && embed.Some? && retriever != null &&
          embed == (if old(embed).Some? then old(embed) else Some(getEmbedder(EmbedModel))) &&
          server.collections ==
            (if old(retriever) == null then Ensured(old(server.collections), CollectionName, embed.value)
             else old(server.collections)) &&
          r == Success(QueryOut(v, Retrieve(server.rank, server.collections[CollectionName],
                                            embed.value(body.query), body.topK, v, body.lang)))
    {
      var variant := HeaderVariant(header);
      if !(variant == "A" || variant == "B") {
        return Failure(BadVariant);
      }
      EnsureServices();
      var results := retriever.Search(body.query, body.topK, variant, body.lang);
      return Success(QueryOut(variant, results));
    }
  }
}
