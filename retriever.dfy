/**
  The retriever (api/RAG/retriever.py): content-addressed point ids, document
  upserts whose payload always carries the text, lazy collection creation and
  the post-processing of search hits into context records.
 */
module Retriever {
  import opened Wrappers
  import opened Text
  import opened VectorStore

  newtype Byte = b: int | 0 <= b < 256

  /** A SHA-1 digest: twenty bytes. */
  type Digest = d: seq<Byte> | |d| == 20 witness seq(20, _ => 0)

  /** SHA-1 itself is a parameter of the model. */
  type Sha1 = seq<Byte> -> Digest

  /** The embedding model applied to one text (`embed([text])[0]`). */
  type Embedder = string -> seq<real>

  const IdModulus: nat := 10_000_000_000_000_000

  // ---------------------------------------------------------------------------
  // text.encode("utf-8")
  // ---------------------------------------------------------------------------

  predicate IsContinuation(b: Byte)
  {
    0x80 <= b < 0xC0
  }

  /** The UTF-8 bytes of one Unicode scalar value. */
  function EncodeChar(c: char): (r: seq<Byte>)
    ensures 1 <= |r| <= 4
  {
    var cp := c as int;
    if cp < 0x80 then [cp as Byte]
    else if cp < 0x800 then [(0xC0 + cp / 64) as Byte, (0x80 + cp % 64) as Byte]
    else if cp < 0x1_0000 then
      [(0xE0 + cp / 4096) as Byte, (0x80 + (cp / 64) % 64) as Byte, (0x80 + cp % 64) as Byte]
    else
      [(0xF0 + cp / 262144) as Byte, (0x80 + (cp / 4096) % 64) as Byte,
       (0x80 + (cp / 64) % 64) as Byte, (0x80 + cp % 64) as Byte]
  }

  /** A lone byte is below 0x80; in a longer sequence the lead byte is not and the others are continuation bytes. */
  lemma EncodeCharShape(c: char)
    ensures var r := EncodeChar(c);
      ((r[0] < 0x80) <==> |r| == 1) && forall k :: 1 <= k < |r| ==> IsContinuation(r[k])
  {
  }

  /** The scalar value that one well-formed UTF-8 sequence of one to four bytes stands for. */
  function DecodeScalar(bs: seq<Byte>): int
    requires 1 <= |bs| <= 4
  {
    if |bs| == 1 then bs[0] as int
    else if |bs| == 2 then (bs[0] as int - 0xC0) * 64 + (bs[1] as int - 0x80)
    else if |bs| == 3 then
      (bs[0] as int - 0xE0) * 4096 + (bs[1] as int - 0x80) * 64 + (bs[2] as int - 0x80)
    else
      (bs[0] as int - 0xF0) * 262144 + (bs[1] as int - 0x80) * 4096 +
      (bs[2] as int - 0x80) * 64 + (bs[3] as int - 0x80)
  }

  /** The encoding of a character decodes back to that character. */
  lemma EncodeCharRoundTrip(c: char)
    ensures DecodeScalar(EncodeChar(c)) == c as int
  {
    var cp := c as int;
    if cp >= 0x1_0000 {
      assert cp / 4096 == (cp / 262144) * 64 + (cp / 4096) % 64;
    }
    if cp >= 0x800 {
      assert cp / 64 == (cp / 4096) * 64 + (cp / 64) % 64;
    }
  }

  /** The UTF-8 encoding of a string: the encodings of its characters, in order. */
  function Utf8(s: string): (r: seq<Byte>)
    ensures r == [] <==> s == []
  {
    if s == [] then [] else Utf8(s[..|s| - 1]) + EncodeChar(s[|s| - 1])
  }

  /** Every character takes one to four bytes. */
  lemma {:induction false} Utf8Length(s: string)
    ensures |s| <= |Utf8(s)| <= 4 * |s|
    decreases |s|
  {
    if s != [] {
      Utf8Length(s[..|s| - 1]);
    }
  }

  /** Encoding distributes over concatenation. */
  lemma {:induction false} Utf8Append(s: string, t: string)
    ensures Utf8(s + t) == Utf8(s) + Utf8(t)
    decreases |t|
  {
    if t == [] {
      assert s + t == s;
    } else {
      var t', c := t[..|t| - 1], t[|t| - 1];
      var st := s + t;
      assert st[..|st| - 1] == s + t' && st[|st| - 1] == c;
      assert Utf8(st) == Utf8(s + t') + EncodeChar(c);
      Utf8Append(s, t');
      assert Utf8(t) == Utf8(t') + EncodeChar(c);
      var u, v, w := Utf8(s), Utf8(t'), EncodeChar(c);
      assert (u + v) + w == u + (v + w);
    }
  }

  // ---------------------------------------------------------------------------
  // int(hashlib.sha1(...).hexdigest(), 16) % (10**16)
  // ---------------------------------------------------------------------------

  /** The lower-case hexadecimal digit of `n`. */
  function HexDigit(n: int): char
    requires 0 <= n < 16
  {
    if n < 10 then ('0' as int + n) as char else ('a' as int + n - 10) as char
  }

  predicate IsHexDigit(ch: char)
  {
    '0' <= ch <= '9' || 'a' <= ch <= 'f' || 'A' <= ch <= 'F'
  }

  function DigitValue(ch: char): (v: int)
    requires IsHexDigit(ch)
    ensures 0 <= v < 16
  {
    if '0' <= ch <= '9' then ch as int - '0' as int
    else if 'a' <= ch <= 'f' then ch as int - 'a' as int + 10
    else ch as int - 'A' as int + 10
  }

  /** hexdigest(): two lower-case hexadecimal digits per byte, most significant first. */
  function HexDigest(d: seq<Byte>): (r: string)
    ensures |r| == 2 * |d|
    ensures forall k :: 0 <= k < |r| ==> IsHexDigit(r[k])
  {
    if d == [] then ""
    else
      var b := d[|d| - 1] as int;
      HexDigest(d[..|d| - 1]) + [HexDigit(b / 16), HexDigit(b % 16)]
  }

  /** 16 to the power `n`. */
  function Pow16(n: nat): nat
  {
    if n == 0 then 1 else 16 * Pow16(n - 1)
  }

  /** int(s, 16) on a string of hexadecimal digits: below 16 to the power of the number of digits. */
  function HexValue(s: string): (v: nat)
    requires forall k :: 0 <= k < |s| ==> IsHexDigit(s[k])
    ensures v < Pow16(|s|)
  {
    if s == [] then 0
    else
      var init := HexValue(s[..|s| - 1]);
      assert init * 16 <= (Pow16(|s| - 1) - 1) * 16;
      init * 16 + DigitValue(s[|s| - 1])
  }

  /** A byte string read as an unsigned big-endian number. */
  function BigEndian(d: seq<Byte>): nat
  {
    if d == [] then 0 else BigEndian(d[..|d| - 1]) * 256 + d[|d| - 1] as int
  }

  /** Reading the hex digest as a base-16 number gives the digest's big-endian value. */
  lemma {:induction false} HexValueOfDigest(d: seq<Byte>)
    ensures HexValue(HexDigest(d)) == BigEndian(d)
    decreases |d|
  {
    if d != [] {
      var init, b := d[..|d| - 1], d[|d| - 1] as int;
      var h := HexDigest(init);
      var hi, lo := HexDigit(b / 16), HexDigit(b % 16);
      HexValueOfDigest(init);
      assert DigitValue(hi) == b / 16 && DigitValue(lo) == b % 16;
      var full := h + [hi, lo];
      assert full[..|full| - 1] == h + [hi];
      assert (h + [hi])[..|h|] == h;
      assert HexValue(full) == (HexValue(h) * 16 + b / 16) * 16 + b % 16;
    }
  }

  /**
    _make_id: a function of the text alone, below 10^16. It is the SHA-1
    digest of the text's UTF-8 bytes, read as a big-endian number, modulo 10^16.
   */
  function MakeId(sha1: Sha1, text: string): (id: nat)
    ensures id < IdModulus
    ensures id == BigEndian(sha1(Utf8(text))) % IdModulus
  {
    var digest := sha1(Utf8(text));
    HexValueOfDigest(digest);
    HexValue(HexDigest(digest)) % IdModulus
  }

  // ---------------------------------------------------------------------------
  // upsert_doc
  // ---------------------------------------------------------------------------

  /** {**payload, "text": text}: the payload's fields, with "text" set to the text. */
  function MergedPayload(payload: Payload, text: string): (r: Payload)
    ensures r.Keys == payload.Keys + {"text"}
    ensures r["text"] == text
    ensures forall k :: k in payload && k != "text" ==> r[k] == payload[k]
  {
    map k | k in payload.Keys + {"text"} :: if k == "text" then text else payload[k]
  }

  /** The point upsert_doc stores for a text and a payload. */
  function DocPoint(sha1: Sha1, embed: Embedder, text: string, payload: Payload): (p: Point)
    ensures p.id == MakeId(sha1, text) && p.id < IdModulus
    ensures p.vector == embed(text)
    ensures p.payload.Keys == payload.Keys + {"text"} && p.payload["text"] == text
  {
    Point(MakeId(sha1, text), embed(text), MergedPayload(payload, text))
  }

  /**
    Upserting the same text twice leaves a single point under the text's id,
    holding the second payload (with the text).
   */
  lemma UpsertSameTextTwice(sha1: Sha1, embed: Embedder, c: Collection, text: string, p1: Payload, p2: Payload)
    ensures var c2 := Put(Put(c, DocPoint(sha1, embed, text, p1)), DocPoint(sha1, embed, text, p2));
      c2 == Put(c, DocPoint(sha1, embed, text, p2)) &&
      c2.points.Keys == c.points.Keys + {MakeId(sha1, text)} &&
      c2.points[MakeId(sha1, text)] == Stored(embed(text), MergedPayload(p2, text))
  {
    PutTwice(c, DocPoint(sha1, embed, text, p1), DocPoint(sha1, embed, text, p2));
  }

  // ---------------------------------------------------------------------------
  // _ensure_collection
  // ---------------------------------------------------------------------------

  /**
    The collections after _ensure_collection: unchanged if `name` exists;
    otherwise `name` is created empty, with the probe embedding's dimension
    and cosine distance, and no other collection changes.
   */
  function Ensured(cols: map<string, Collection>, name: string, embed: Embedder): (r: map<string, Collection>)
    ensures r.Keys == cols.Keys + {name}
    ensures name in cols ==> r == cols
    ensures name !in cols ==> r[name] == Empty(VectorParams(|embed("probe")|, Cosine))
    ensures forall n :: n in cols ==> r[n] == cols[n]
  {
    if name in cols then cols else cols[name := Empty(VectorParams(|embed("probe")|, Cosine))]
  }

  /** Ensuring a collection a second time changes nothing. */
  lemma EnsuredIdempotent(cols: map<string, Collection>, name: string, embed: Embedder)
    ensures Ensured(Ensured(cols, name, embed), name, embed) == Ensured(cols, name, embed)
  {
  }

  // ---------------------------------------------------------------------------
  // search
  // ---------------------------------------------------------------------------

  /** One entry of the search result. */
  datatype Context = Context(text: string, score: real, url: Option<string>, lang: Option<string>, section: Option<string>)

  /** dict.get(key) */
  function Get(m: Payload, key: string): (r: Option<string>)
    ensures r.Some? <==> key in m
    ensures r.Some? ==> r.value == m[key]
  {
    if key in m then Some(m[key]) else None
  }

  /**
    The record of one hit (lines 56-63): a missing payload counts as an empty
    one; the fields it has are copied, and a missing field gives the empty
    text or no url, language or section.
   */
  function ToContext(h: ScoredPoint): (r: Context)
    ensures r.score == h.score
    ensures h.payload == None ==> r == Context("", h.score, None, None, None)
    ensures h.payload.Some? ==>
      var p := h.payload.value;
      r == Context(if "text" in p then p["text"] else "", h.score,
        if "url" in p then Some(p["url"]) else None,
        if "lang" in p then Some(p["lang"]) else None,
        if "section" in p then Some(p["section"]) else None)
  {
    var p := h.payload.GetOr(map[]);
    Context(Get(p, "text").GetOr(""), h.score, Get(p, "url"), Get(p, "lang"), Get(p, "section"))
  }

  /** The records of the hits, in the order of the hits. */
  function Mapped(hits: seq<ScoredPoint>): (r: seq<Context>)
    ensures |r| == |hits|
    ensures forall k :: 0 <= k < |hits| ==> r[k] == ToContext(hits[k])
  {
    if hits == [] then [] else Mapped(hits[..|hits| - 1]) + [ToContext(hits[|hits| - 1])]
  }

  /** The filter of lines 41-43: only a non-empty language restricts the search. */
  function LangFilter(lang: Option<string>): (r: Option<Filter>)
    ensures r.Some? <==> lang.Some? && lang.value != ""
    ensures r.Some? ==> r.value == MatchValue("lang", lang.value)
  {
    if lang.Some? && lang.value != "" then Some(MatchValue("lang", lang.value)) else None
  }

  /**
    The fetch limit of line 45: never fewer hits than `top_k` asks for, and
    positive exactly when `top_k` is.
   */
  function SearchLimit(topK: int, variant: string): (limit: int)
    ensures topK >= 0 ==> limit >= topK
    ensures limit > 0 <==> topK > 0
  {
    if variant == "B" then topK * 2 else topK
  }

  /** search on the collection `col`, for the query vector `qvec`. */
  function Retrieve(rank: Ranking, col: Collection, qvec: seq<real>, topK: int, variant: string, lang: Option<string>): (r: seq<Context>)
    ensures var ranked := rank(col, qvec, LangFilter(lang));
      |r| <= |ranked| && (topK >= 0 ==> |r| <= topK) &&
      forall k :: 0 <= k < |r| ==> r[k] == ToContext(ranked[k])
  {
    var out := Mapped(Take(rank(col, qvec, LangFilter(lang)), SearchLimit(topK, variant)));
    if variant == "B" then Prefix(out, topK) else out
  }

  /**
    Whatever the variant, the result holds the records of the first `top_k`
    hits of the ranking (none when `top_k <= 0`), in ranking order.
   */
  lemma RetrieveSpec(rank: Ranking, col: Collection, qvec: seq<real>, topK: int, variant: string, lang: Option<string>)
    ensures var ranked, r := rank(col, qvec, LangFilter(lang)), Retrieve(rank, col, qvec, topK, variant, lang);
      |r| == (if topK <= 0 then 0 else if topK < |ranked| then topK else |ranked|) &&
      forall k :: 0 <= k < |r| ==> r[k] == ToContext(ranked[k])
  {
    var ranked := rank(col, qvec, LangFilter(lang));
    var hits := Take(ranked, SearchLimit(topK, variant));
    if variant == "B" && topK > 0 {
      assert Retrieve(rank, col, qvec, topK, variant, lang) == Prefix(Mapped(hits), topK);
    }
  }

  /**
    Fetching `2 * top_k` hits and keeping the first `top_k` gives exactly what
    fetching `top_k` gives: the two variants return the same contexts.
   */
  lemma VariantsAgree(rank: Ranking, col: Collection, qvec: seq<real>, topK: int, lang: Option<string>)
    ensures Retrieve(rank, col, qvec, topK, "B", lang) == Retrieve(rank, col, qvec, topK, "A", lang)
  {
    RetrieveSpec(rank, col, qvec, topK, "B", lang);
    RetrieveSpec(rank, col, qvec, topK, "A", lang);
  }

  // ---------------------------------------------------------------------------
  // The retriever object
  // ---------------------------------------------------------------------------

  class QdrantRetriever {
    const client: Server
    const url: string
    const collection: string
    const embed: Embedder
    const sha1: Sha1

    ghost predicate Valid()
      reads this, client
    {
      collection in client.collections
    }

    /** __init__: connect and make sure the collection exists. */
    constructor (server: Server, url: string, collection: string, embed: Embedder, sha1: Sha1)
      modifies server
      ensures this.client == server && this.url == url && this.collection == collection
      ensures this.embed == embed && this.sha1 == sha1
      ensures Valid()
      ensures server.collections == Ensured(old(server.collections), collection, embed)
    {
      this.client := server;
      this.url := url;
      this.collection := collection;
      this.embed := embed;
      this.sha1 := sha1;
      new;
      EnsureCollection();
    }

    /** _ensure_collection (lines 14-22). */
    method EnsureCollection()
      modifies client
      ensures client.collections == Ensured(old(client.collections), collection, embed)
    {
      var present := client.CollectionExists(collection);
      if present {
        return;
      }
      var dim := |embed("probe")|;
      client.RecreateCollection(collection, VectorParams(dim, Cosine));
    }

    /** upsert_doc (lines 28-36); `ok` is false when the store rejects the vector's dimension. */
    method UpsertDoc(text: string, payload: Payload) returns (ok: bool)
      requires Valid()
      modifies client
      ensures Valid()
      ensures ok <==> |embed(text)| == old(client.collections)[collection].config.size
      ensures client.collections ==
        if ok then old(client.collections)[collection := Put(old(client.collections)[collection], DocPoint(sha1, embed, text, payload))]
        else old(client.collections)
    {
      var vec := embed(text);
      var pid := MakeId(sha1, text);
      var data := MergedPayload(payload, text);
      ok := client.Upsert(collection, Point(pid, vec, data));
    }

    /** search (lines 38-68). */
    method Search(query: string, topK: int, variant: string, lang: Option<string>) returns (out: seq<Context>)
      requires Valid()
      ensures out == Retrieve(client.rank, client.collections[collection], embed(query), topK, variant, lang)
    {
      var qvec := embed(query);
      var qfilter: Option<Filter> := None;
      if lang.Some? && lang.value != "" {
        qfilter := Some(MatchValue("lang", lang.value));
      }
      var limit := if variant == "B" then topK * 2 else topK;
      var hits := client.Search(collection, qvec, limit, qfilter);
      out := [];
      for i := 0 to |hits|
        invariant out == Mapped(hits[..i])
      {
        assert hits[..i + 1][..i] == hits[..i];
        out := out + [ToContext(hits[i])];
      }
      assert hits[..|hits|] == hits;
      if variant == "B" {
        out := Prefix(out, topK);
      }
    }
  }
}
