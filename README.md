# Retrieval and experimentation core of a NiFi-orchestrated RAG system

This project is a Dafny model of the deterministic logic that sits around the
external collaborators (Qdrant, the sentence-embedding model, the FastAPI
framework) of a retrieval-augmented question-answering service. It has five
parts:

- **The ingestion chunker** (`nifi/scripts/chunk.py`), in `chunker.dfy`.
  - It strips the raw text and splits it after `.`, `!` or `?` followed by whitespace.
  - It packs the stripped, non-empty sentences greedily into chunks joined by single spaces, tracking the length in the `curr_len` counter against the 480-character bound.
  - It emits one payload record per chunk.
  - The packing loop is a `method` with a `for` loop over the same variables as the script (`buf`, `curr_len`, `chunks`). A ghost `groups` records which sentences went into each chunk.
  - The Python string behaviour it needs is in `text.dfy`: `str.isspace`, `str.strip`, `sep.join`, and `s[:n]` for any integer `n`.
- **The retriever** (`api/RAG/retriever.py`), in `retriever.dfy`, over a model of the Qdrant server in `vector_store.dfy`.
  - Content-addressed point ids: UTF-8, SHA-1 hex digest, `int(…, 16) % 10**16`.
  - A document upsert whose payload always carries the text.
  - Lazy creation of the collection.
  - The search: a variant-dependent fetch limit, mapping of hits to context records with defaults, and truncation for variant B.
  - The server is a class over a map from collection name to collection. A collection is a map from id to (vector, payload), and an upsert overwrites.
  - The retriever is a class whose methods change the server's state.
- **The prompt builder** (`build_prompt` in `api/RAG/generator.py`), in `generator.dfy`.
- **The query endpoint** (`api/main.py`), in `api.dfy`.
  - The `X-Variant` header is checked before anything else.
  - `_ensure_services` initialises the two module globals once each, and the search results are passed through unchanged.
  - The globals are the fields of a `Service` class.
- **The offline evaluation** (`scripts/offline_eval.py`), in `offline_eval.dfy`: the zero-norm guard of `cos`, the winner rule, the B-win counter, the per-item records and the summary. The evaluation loop is a `method`.

Things the model treats as parameters:

- SHA-1: a function from bytes to 20-byte digests.
- The embedding model: a function from a text to a vector.
- The vector norm.
- Qdrant's ranking: a function of the collection, the query vector and the filter, giving hits best first.
- `get_embedder`.
- The replies of the HTTP endpoint.
- The elapsed time.

Some consequences of the code that the proofs make explicit:

- **Chunk lengths.** The chunker splits a text into chunks of at most 480 characters unless a chunk is a single sentence. Because of how `curr_len` counts, the first chunk can be at most 479 characters when it has two or more sentences.
- **Variants.** Variant B fetches `2 * top_k` hits and keeps the first `top_k`, which is exactly what variant A returns (`Retriever.VariantsAgree`). This holds under the model's assumption that the ranking does not depend on the limit.
- **Offline evaluation.** The offline evaluation reads an `"answer"` field that the query endpoint never returns, since the reply holds only `variant` and `contexts`. So every item of such a run is a tie and `b_wins` is 0 (`OfflineEval.NoAnswersNoWins`).

## Model

| member | source | states |
|---|---|---|
| Text.IsSpace | nifi/scripts/chunk.py:13 | the whitespace characters of `str.isspace`, which are also those of `\s` in a `re` pattern on `str` |
| Text.Strip | nifi/scripts/chunk.py:21 | `s.strip()` is empty exactly when `s` is all whitespace (the `isspace` set, which is also `\s` of `re`) |
| Text.SpaceRunEnd | nifi/scripts/chunk.py:13 | the end of the whitespace run starting at `i`: everything between is whitespace and the next character is not |
| Text.SpaceRunStart | nifi/scripts/chunk.py:21 | the start of the whitespace run ending at `j`: everything between is whitespace and the character before it (if within bounds) is not |
| Text.StripFacts | nifi/scripts/chunk.py:8 | the stripped text has no whitespace at either end, is the infix of the input between two whitespace runs, and a stripped text is left unchanged |
| Text.JoinWith | nifi/scripts/chunk.py:29 | `sep.join(xs)` is empty for no items, and otherwise has the items' total length plus one separator between each two items |
| Text.JoinWithSnoc | nifi/scripts/chunk.py:29 | joining one more item appends the separator and the item |
| Text.JoinWithEndsWithLast | nifi/scripts/chunk.py:29 | the join is at least as long as its last item |
| Text.JoinWithCons | nifi/scripts/chunk.py:29 | `sep.join([x] + xs)` is `x + sep + sep.join(xs)` for non-empty `xs` |
| Text.JoinWithConcat | nifi/scripts/chunk.py:29 | joining the concatenation of two non-empty lists is the two joins with one separator between them |
| Text.Prefix | api/RAG/retriever.py:66 | `s[:n]` as Python slices: a prefix of length `min(n, len)` for `n >= 0`, and `len + n` items (or none) for negative `n` |
| Chunker.FindSplit | nifi/scripts/chunk.py:13 | the first position at or after `i` where `\s` follows `.`, `!` or `?`, or the end of the text |
| Chunker.FindSplitAt | nifi/scripts/chunk.py:13 | the first match is the index before which there is none |
| Chunker.SplitSentences | nifi/scripts/chunk.py:13 | `re.split` with the look-behind pattern returns at least one piece (what the pieces are is stated by the SplitPieces and SplitTiles lemmas) |
| Chunker.Gaps | nifi/scripts/chunk.py:13 | the whitespace runs the split consumes: exactly one fewer than the pieces |
| Chunker.SplitTiles | nifi/scripts/chunk.py:13 | the pieces with the consumed runs put back between them give the input again: the split loses nothing else |
| Chunker.GapsAreSpaceRuns | nifi/scripts/chunk.py:13 | every consumed run is non-empty and all whitespace |
| Chunker.SplitPiecesStartSolid | nifi/scripts/chunk.py:13 | `\s+` is greedy: every piece after the first is empty or starts with a non-whitespace character |
| Chunker.SplitHead | nifi/scripts/chunk.py:13 | the first piece is non-empty, ends with its terminator and holds no match; the whitespace run after it is consumed; for a stripped text both the piece and the rest are stripped |
| Chunker.SplitCons | nifi/scripts/chunk.py:13 | a terminated sentence, one space and a text starting with a non-space split into that sentence followed by the split of the text |
| Chunker.JoinWithStartsWithFirst | nifi/scripts/chunk.py:29 | the join of sentences starts with the first sentence |
| Chunker.SplitPiecesNoMatch | nifi/scripts/chunk.py:13 | no piece of the split contains a terminator followed by whitespace |
| Chunker.SplitPiecesTerminated | nifi/scripts/chunk.py:13 | every piece but the last is non-empty and ends with its terminator |
| Chunker.SplitPiecesStripped | nifi/scripts/chunk.py:13 | splitting a stripped, non-empty text gives only stripped, non-empty pieces |
| Chunker.SplitJoined | nifi/scripts/chunk.py:13 | splitting the single-space join of terminated, stripped sentences gives those sentences back |
| Chunker.Join | nifi/scripts/chunk.py:29 | `" ".join(buf)` has the sentences' total length plus one space between each two, and is empty for no sentences |
| Chunker.Cleaned | nifi/scripts/chunk.py:20-23 | the sentences the loop keeps, each stripped, in order; never more than it is given |
| Chunker.CleanedWellFormed | nifi/scripts/chunk.py:20-23 | every sentence the loop keeps is stripped and non-empty |
| Chunker.CleanedNoOp | nifi/scripts/chunk.py:20-23 | sentences that are already stripped and non-empty are all kept, unchanged and in order |
| Chunker.CleanedSnoc | nifi/scripts/chunk.py:20-23 | one more sentence adds its stripped form to the kept ones exactly when that is non-empty |
| Chunker.FlattenSnoc | nifi/scripts/chunk.py:29 | emitting one more chunk appends its sentences to those of the earlier chunks |
| Chunker.JoinSnocLength | nifi/scripts/chunk.py:25-26 | appending a sentence to a non-empty buffer lengthens its join by one space and the sentence |
| Chunker.AppendStep | nifi/scripts/chunk.py:24-26 | the append branch keeps `curr_len` equal to the joined length of `buf` (+1 when the append branch began the buffer), and `curr_len <= 480` once `buf` has two sentences |
| Chunker.Flush | nifi/scripts/chunk.py:28-29 | flushing a non-empty `buf` appends its join, which fits the bound when it has two or more sentences |
| Chunker.RestartStep | nifi/scripts/chunk.py:30-31 | after the else branch `buf == [s]`, `curr_len == len(s)`, and the chunk just closed could not take `s` |
| Chunker.SkipInv | nifi/scripts/chunk.py:21-23 | a sentence that strips to nothing changes none of `buf`, `curr_len`, `chunks` |
| Chunker.AppendInv | nifi/scripts/chunk.py:24-26 | the append branch keeps the loop invariant |
| Chunker.RestartInv | nifi/scripts/chunk.py:27-31 | the else branch with a non-empty `buf` emits it and keeps the loop invariant |
| Chunker.FirstLongInv | nifi/scripts/chunk.py:27-31 | the else branch with an empty `buf` (a first sentence of 480 or more characters) emits nothing and keeps the invariant |
| Chunker.FinalInv | nifi/scripts/chunk.py:33-34 | the final flush emits `buf` only when non-empty, and the sentences of all chunks are then exactly the kept sentences |
| Chunker.EmittedMeans | nifi/scripts/chunk.py:16-34 | every emitted chunk is non-empty, is the join of its sentences, fits when it has two or more of them, and was closed only because the next sentence did not fit |
| Chunker.FitsWithinMax | nifi/scripts/chunk.py:24-31 | a chunk of two or more sentences has at most 480 characters |
| Chunker.PackSentences | nifi/scripts/chunk.py:16-34 | the chunks' sentences, in emission order, are exactly the non-empty stripped sentences in input order; each chunk is their single-space join; the bound and the closing rule hold |
| Chunker.ChunksJoinBack | nifi/scripts/chunk.py:16-34 | joining the chunks with single spaces gives the join of all kept sentences: no text is lost or reordered |
| Chunker.DropNone | nifi/scripts/chunk.py:43 | the filtered payload has exactly the keys whose value is not None, with their values |
| Chunker.RawPayload | nifi/scripts/chunk.py:37-42 | the unfiltered payload has exactly the keys text, lang, url, section, none of them None, with the chunk as text |
| Chunker.PayloadOfChunk | nifi/scripts/chunk.py:37-43 | a chunk's record has exactly the keys text, lang, url, section, with the chunk, "en", "test", "test" |
| Chunker.Payloads | nifi/scripts/chunk.py:36-44 | one record per chunk, in order, each carrying its chunk |
| Chunker.Chunk | nifi/scripts/chunk.py:8-44 | an input that strips to nothing gives no records; otherwise the chunks hold exactly the split sentences of the stripped input, are non-empty, obey the packing contract, and each has its record |
| VectorStore.Put | api/RAG/retriever.py:33-36 | an upsert stores the point under its id, replacing any earlier one, and leaves the other points and the configuration alone |
| VectorStore.Server.constructor | api/RAG/retriever.py:9 | a new server holds no collections |
| VectorStore.PutTwice | api/RAG/retriever.py:33-36 | a second upsert under the same id replaces the first entirely |
| VectorStore.Take | api/RAG/retriever.py:47-52 | search returns the first `min(limit, hits)` hits of the ranking, none for a limit of zero or less |
| VectorStore.Server.CollectionExists | api/RAG/retriever.py:15 | true exactly when the collection exists |
| VectorStore.Server.RecreateCollection | api/RAG/retriever.py:19-22 | the collection is (re)created empty with the given configuration |
| VectorStore.Server.Upsert | api/RAG/retriever.py:33-36 | a vector of the collection's dimension is stored by Put; otherwise nothing changes |
| VectorStore.Server.Search | api/RAG/retriever.py:47-52 | the hits are the first `limit` of the ranking for the vector and filter |
| Retriever.EncodeChar | api/RAG/retriever.py:26 | UTF-8 uses one to four bytes per character |
| Retriever.EncodeCharShape | api/RAG/retriever.py:26 | a one-byte encoding is below 0x80; a longer one has a lead byte and continuation bytes |
| Retriever.EncodeCharRoundTrip | api/RAG/retriever.py:26 | the UTF-8 bytes of a character decode back to it |
| Retriever.Utf8 | api/RAG/retriever.py:26 | `text.encode("utf-8")`: the characters' encodings in order; empty exactly for the empty text |
| Retriever.Utf8Length | api/RAG/retriever.py:26 | the encoding of a text has between `len` and `4 * len` bytes |
| Retriever.Utf8Append | api/RAG/retriever.py:26 | encoding distributes over concatenation |
| Retriever.HexDigest | api/RAG/retriever.py:26 | `hexdigest()` has two hexadecimal digits per byte |
| Retriever.DigitValue | api/RAG/retriever.py:26 | `int(ch, 16)` of a hexadecimal digit lies in `[0, 16)` |
| Retriever.HexValue | api/RAG/retriever.py:26 | `int(s, 16)` of `n` hexadecimal digits is below `16^n` |
| Retriever.HexValueOfDigest | api/RAG/retriever.py:26 | `int(hexdigest, 16)` is the big-endian value of the digest |
| Retriever.MakeId | api/RAG/retriever.py:25-26 | `_make_id` depends on the text alone, lies in `[0, 10^16)`, and is the digest of the UTF-8 bytes read as a big-endian number modulo `10^16` |
| Retriever.MergedPayload | api/RAG/retriever.py:31 | the stored payload has the input's keys plus "text", "text" set to the text (overriding), every other key unchanged |
| Retriever.DocPoint | api/RAG/retriever.py:29-31 | the point upsert_doc stores has the text's id (below `10^16`), the text's embedding, and the merged payload holding the text |
| Retriever.UpsertSameTextTwice | api/RAG/retriever.py:28-36 | upserting the same text twice leaves one point under the same id, holding the second payload |
| Retriever.Ensured | api/RAG/retriever.py:14-22 | an existing collection is untouched; a missing one is created empty with the probe embedding's dimension and cosine distance; other collections are unchanged |
| Retriever.EnsuredIdempotent | api/RAG/retriever.py:14-22 | ensuring the collection twice is the same as once |
| Retriever.Get | api/RAG/retriever.py:58-62 | `dict.get` gives the value when the key is present and None otherwise |
| Retriever.ToContext | api/RAG/retriever.py:56-63 | a hit without a payload gives text "" and no url, lang or section; otherwise the present fields are copied and missing ones default; the score is the hit's |
| Retriever.Mapped | api/RAG/retriever.py:54-63 | output entry i is the record of hit i, so ranking order is kept |
| Retriever.LangFilter | api/RAG/retriever.py:41-43 | a filter on "lang" exists exactly when `lang` is set and non-empty |
| Retriever.SearchLimit | api/RAG/retriever.py:45 | the fetch limit is never below a non-negative `top_k`, and is positive exactly when `top_k` is |
| Retriever.Retrieve | api/RAG/retriever.py:45-66 | the search result: at most `top_k` contexts, no more than the ranked hits, each the record of the hit at its rank |
| Retriever.RetrieveSpec | api/RAG/retriever.py:45-66 | for either variant the result is the records of the first `top_k` ranked hits (none for `top_k <= 0`), in ranking order; so B returns at most `top_k` entries, a prefix of its mapped hits |
| Retriever.VariantsAgree | api/RAG/retriever.py:45-66 | fetching `2 * top_k` and trimming to `top_k` returns the same contexts as fetching `top_k` |
| Retriever.QdrantRetriever.constructor | api/RAG/retriever.py:8-12 | the retriever holds the client, collection and embedder, and the collection exists afterwards |
| Retriever.QdrantRetriever.EnsureCollection | api/RAG/retriever.py:14-22 | the server's collections become `Ensured(old collections)` |
| Retriever.QdrantRetriever.UpsertDoc | api/RAG/retriever.py:28-36 | the point with the text's id, embedding and merged payload is put into the collection (when the dimension matches) |
| Retriever.QdrantRetriever.Search | api/RAG/retriever.py:38-68 | the result is `Retrieve` of the current collection and the query's embedding |
| Generator.Item | api/RAG/generator.py:16 | a bullet is "- " and the first `min(500, len)` characters of the context |
| Generator.Items | api/RAG/generator.py:16 | one bullet per context, in order |
| Generator.ContextBlock | api/RAG/generator.py:16 | the context block is empty exactly when there are no contexts |
| Generator.ContextBlockCons | api/RAG/generator.py:16 | the block is the first bullet, a blank line, and the block of the rest, in context order |
| Generator.TotalLengthBound | api/RAG/generator.py:16 | items of at most `m` characters add up to at most `n * m` characters |
| Generator.JoinWithBound | api/RAG/generator.py:16 | joining items of at most `m` characters gives at most `n * m + (n - 1) * len(sep)` characters |
| Generator.ContextBlockBound | api/RAG/generator.py:15-16 | the block never exceeds three bullets of 502 characters and two separators |
| Generator.PromptDependsOnHeads | api/RAG/generator.py:16 | the prompt depends only on the first three contexts and their first 500 characters |
| Generator.BuildPrompt | api/RAG/generator.py:14-21 | the prompt is the instruction line and "Context:\n", then the context block, then "\n\nQuestion: " + question + "\nAnswer:" |
| Api.Body | api/main.py:26-29 | `top_k` defaults to 5 and `lang` is None unless given |
| Api.HeaderVariant | api/main.py:48 | the variant is the header's value, "A" when the header is absent |
| Api.Service.constructor | api/main.py:12-13 | before the first request neither global is set |
| Api.Service.EnsureServices | api/main.py:15-23 | afterwards both globals are set; one already set is kept; the retriever is built with the embedder held at that moment |
| Api.Service.Query | api/main.py:47-62 | a variant other than "A"/"B" gives status 400 and changes nothing; otherwise the reply echoes the variant and carries exactly the search result for the body's query, top_k and lang |
| OfflineEval.Cos | scripts/offline_eval.py:13-17 | `cos` is exactly 0.0 when either norm is zero |
| OfflineEval.Decide | scripts/offline_eval.py:62-67 | "A" exactly when score_A > score_B, "B" exactly when score_B > score_A, "tie" exactly when they are equal |
| OfflineEval.AnswerOf | scripts/offline_eval.py:51 | a reply without "answer" yields "" |
| OfflineEval.ItemFor | scripts/offline_eval.py:46-80 | a record copies question and gold, holds both answers and their cosine scores against the gold answer, and its winner is the winner rule applied to the two scores |
| OfflineEval.SameAnswerTies | scripts/offline_eval.py:51-67 | two replies with the same answer give a tie |
| OfflineEval.CountB | scripts/offline_eval.py:69-70 | the B-win count never exceeds the number of items |
| OfflineEval.BWinsSnoc | scripts/offline_eval.py:69-70 | one more record adds its position to the B wins exactly when B won it |
| OfflineEval.CountBIsCardinality | scripts/offline_eval.py:69-70 | the B-win count is the number of items whose winner is B |
| OfflineEval.CountBNone | scripts/offline_eval.py:69-70 | without B wins the counter stays 0 |
| OfflineEval.EvaluateStep | scripts/offline_eval.py:69-80 | appending the next item's record keeps every record equal to its item's, and adds one to the B-win count exactly when B won it |
| OfflineEval.Evaluate | scripts/offline_eval.py:45-87 | one record per item in input order; `b_wins` is the count of B winners; `num_samples` is the number of items; the duration is the measured one |
| OfflineEval.NoAnswersNoWins | scripts/offline_eval.py:51-70 | when no reply has an "answer" (as the query endpoint's replies do not), every item is a tie and `b_wins` is 0 |

## Left out

- Standard input and output, `sys.exit`, and `json.dumps` of the payload lines in `chunk.py`: the model returns the records as maps.
- Lone surrogate code points. Python strings can hold them and `encode("utf-8")` then raises; Dafny characters are Unicode scalar values, so the model has no such input.
- The internals of SHA-1. SHA-1 is a parameter that returns 20 bytes.
- The embedding model and `api/RAG/embedder.py`: the float embeddings cannot be modelled, so the embedder is a parameter from text to vector. The batch call `embed([text])[0]` is modelled as applying it to one text.
- Qdrant's similarity ranking and payload filtering. The ranking is a parameter, assumed not to depend on the limit. Its dimension check on a search vector is not modelled, and neither are network failures.
- VectorStore.Take: a limit of zero or less is modelled as returning no hits. Qdrant's own validation of such a limit (for `top_k <= 0`) is not modelled.
- Payload values are modelled as strings, the only kind the ingestion path stores.
- Floating point: `float(h.score)`, the numpy `dot`/`norm` values, `round(score, 4)` in the records and `round(time…, 2)`. Scores are reals, and a record holds the unrounded score that the winner rule compares.
- The offline script calls `embed.encode(...)` on the function that `get_embedder` returns, which has no such attribute. The model applies the embedder directly.
- HTTP, files and JSON in `offline_eval.py` (`http_post_json`, `load_embedder`, reading the test set, writing the output), and the FastAPI and pydantic machinery of `main.py`. Replies, the embedder and the elapsed time are parameters.
- `scripts/daily_report.py` (report rendering) and `_ensure_loaded` / `generate_answer` in `generator.py` (model loading and generation) are not part of this model.
- Concurrency of the lazy globals and of the server under parallel requests: the model is sequential.
- `main.py` composes no answer, keeps no feedback or stats counters and mints no query ids: its reply has only `variant` and `contexts`, and so does the model's.
- Key errors on malformed test items (`qa["q"]`): a test item is a record with both fields.
- Retriever.VariantsAgree: holds because the modelled ranking does not depend on the limit. Qdrant's approximate (HNSW) search may return hits for `limit = 2 * top_k` whose first `top_k` differ from its `limit = top_k` result, and then the two variants can disagree; the model does not capture that.
- The default arguments of `search` (`top_k=5`, `variant="A"`, `lang=None`, retriever.py:38) are not modelled: the only caller, the query handler, passes all four.
