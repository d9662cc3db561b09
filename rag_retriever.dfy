/**
 * The hybrid retriever of the ingestion pipeline: a keyword (BM25) retriever over every
 * stored chunk, cached in an index file, combined with the vector-store retriever. The cached
 * index is reused unless an update is forced or it cannot be loaded; a rebuilt index is saved
 * back, and a failed save only costs the cache. Ranking itself is not modelled: a BM25
 * retriever is its corpus, the tokens of every chunk and the number of hits it returns.
 */
module RagRetriever {
  import opened Wrappers
  import opened Text
  import opened Docs

  /** Hits returned when `search_kwargs` has no `k`. */
  const DefaultK: int := 20

  /** `BM25Retriever`: the indexed documents, their tokens, and `k`. */
  datatype Bm25 = Bm25(docs: seq<Document>, tokens: seq<seq<string>>, k: int)

  /** `vector_store.as_retriever(search_kwargs=search_kwargs)`. */
  datatype VectorRetriever = VectorRetriever(searchKwargs: map<string, int>)

  /** What `get_retriever` returns. */
  datatype Retriever =
    | VectorOnly(vector: VectorRetriever)
    | Ensemble(bm25: Bm25, vector: VectorRetriever, weights: seq<real>)

  /** The cached index on disk: `None` when the file does not exist. */
  class IndexFile {
    var stored: Option<Bm25>

    constructor (initial: Option<Bm25>)
      ensures stored == initial
    {
      stored := initial;
    }

    /** `pickle.dump(bm25_retriever, f)` into a fresh file. */
    method Save(b: Bm25)
      modifies this
      ensures stored == Some(b)
    {
      stored := Some(b);
    }
  }

  /** `search_kwargs.get("k", 20)`. */
  function KOf(searchKwargs: map<string, int>): int {
    if "k" in searchKwargs then searchKwargs["k"] else DefaultK
  }

  /**
   * `BM25Retriever.from_documents(documents, preprocess_func=...)` followed by setting `k`; the
   * tokenizer is `default_tokenizer`, `text.split()`, as the Korean morphological analyser is not
   * part of this model.
   */
  function Build(docs: seq<Document>, k: int): (b: Bm25)
    ensures b.docs == docs && b.k == k && |b.tokens| == |docs|
    ensures forall i :: 0 <= i < |docs| ==> b.tokens[i] == SplitWhitespace(docs[i].pageContent)
  {
    Bm25(docs, seq(|docs|, i requires 0 <= i < |docs| => SplitWhitespace(docs[i].pageContent)), k)
  }

  /** `[Document(page_content=t, metadata=m) for t, m in zip(texts, metadatas)]`. */
  method ZipDocuments(texts: seq<string>, metadatas: seq<Metadata>) returns (documents: seq<Document>)
    ensures |documents| == if |texts| <= |metadatas| then |texts| else |metadatas|
    ensures forall i :: 0 <= i < |documents| ==> documents[i] == Document(texts[i], metadatas[i])
  {
    var n := if |texts| <= |metadatas| then |texts| else |metadatas|;
    documents := [];
    for i := 0 to n
      invariant |documents| == i
      invariant forall j :: 0 <= j < i ==> documents[j] == Document(texts[j], metadatas[j])
    {
      documents := documents + [Document(texts[i], metadatas[i])];
    }
  }

  /** The chunks the collection holds, as documents. */
  function StoredDocs(rs: seq<Record>): (ds: seq<Document>)
    ensures |ds| == |rs| && forall i :: 0 <= i < |rs| ==> ds[i] == rs[i].doc
  {
    seq(|rs|, i requires 0 <= i < |rs| => rs[i].doc)
  }

  /** What one `get_retriever` call leaves behind: its result, the index file, and whether the collection was read. */
  datatype State = State(retriever: Retriever, stored: Option<Bm25>, fetched: bool)

  /**
   * The behaviour of `get_retriever`: the cached index, with `k` updated, when no update is
   * forced and it loads; otherwise the vector retriever alone for an empty collection, or an
   * ensemble over an index rebuilt from every stored chunk, which replaces the file when the
   * save succeeds.
   */
  function Get(records: seq<Record>, stored: Option<Bm25>, loadOk: bool, saveOk: bool,
               searchKwargs: map<string, int>, weights: seq<real>, forceUpdate: bool): State
  {
    var vector := VectorRetriever(searchKwargs);
    if !forceUpdate && stored.Some? && loadOk then
      State(Ensemble(stored.value.(k := KOf(searchKwargs)), vector, weights), stored, false)
    else if records == [] then
      State(VectorOnly(vector), stored, true)
    else
      var built := Build(StoredDocs(records), KOf(searchKwargs));
      State(Ensemble(built, vector, weights), if saveOk then Some(built) else stored, true)
  }

  /**
   * `get_retriever(search_kwargs, ensemble_weights, force_update)`. `loadOk` says whether
   * unpickling the index file succeeds and `saveOk` whether writing it does; `fetched` tells
   * whether the whole collection was read.
   */
  method GetRetriever(store: Collection, index: IndexFile, loadOk: bool, saveOk: bool,
                      searchKwargs: map<string, int> := map["k" := DefaultK],
                      weights: seq<real> := [0.5, 0.5], forceUpdate: bool := false)
    returns (retriever: Retriever, fetched: bool)
    modifies index
    ensures State(retriever, index.stored, fetched)
      == Get(store.records, old(index.stored), loadOk, saveOk, searchKwargs, weights, forceUpdate)
  {
    var vectorRetriever := VectorRetriever(searchKwargs);
    var bm25Retriever: Option<Bm25> := None;
    fetched := false;
    if !forceUpdate && index.stored.Some? {
      if loadOk {
        bm25Retriever := Some(index.stored.value.(k := KOf(searchKwargs)));
      }
    }
    if bm25Retriever.None? {
      var texts := Texts(store.records);
      var metadatas := Metadatas(store.records);
      fetched := true;
      if texts == [] {
        return VectorOnly(vectorRetriever), fetched;
      }
      var documents := ZipDocuments(texts, metadatas);
      assert documents == StoredDocs(store.records);
      var built := Build(documents, KOf(searchKwargs));
      if saveOk {
        index.Save(built);
      }
      bm25Retriever := Some(built);
    }
    retriever := Ensemble(bm25Retriever.value, vectorRetriever, weights);
  }

  /** A forced update never reads the index file: its result depends on the stored chunks alone. */
  lemma ForcedIgnoresCache(records: seq<Record>, s1: Option<Bm25>, s2: Option<Bm25>, l1: bool, l2: bool,
                           saveOk: bool, searchKwargs: map<string, int>, weights: seq<real>)
    ensures Get(records, s1, l1, saveOk, searchKwargs, weights, true).retriever
         == Get(records, s2, l2, saveOk, searchKwargs, weights, true).retriever
  {
  }

  /**
   * A cache that loads is used as it is, with `k` taken from the arguments (20 by default), and
   * the collection is not read; an index that is rebuilt and saved is what the next call loads.
   */
  lemma CacheRoundTrip(records: seq<Record>, stored: Option<Bm25>, saveOk: bool,
                       searchKwargs: map<string, int>, weights: seq<real>, forceUpdate: bool)
    requires records != [] && saveOk && (forceUpdate || stored.None?)
    ensures var first := Get(records, stored, true, saveOk, searchKwargs, weights, forceUpdate);
      var second := Get(records, first.stored, true, saveOk, searchKwargs, weights, false);
      second.retriever == first.retriever && !second.fetched && second.stored == first.stored
  {
  }

  /**
   * A rebuilt index covers exactly the stored chunks, in store order, and every chunk's tokens
   * are its whitespace-separated words.
   */
  lemma BuiltIndexCoversStore(rs: seq<Record>, k: int)
    ensures var b := Build(StoredDocs(rs), k);
      |b.docs| == |rs| && |b.tokens| == |rs| && b.k == k
      && (forall i :: 0 <= i < |rs| ==> b.docs[i] == rs[i].doc)
      && (forall i :: 0 <= i < |rs| ==> Concat(b.tokens[i]) == RemoveSpaces(rs[i].doc.pageContent))
  {
    var b := Build(StoredDocs(rs), k);
    forall i | 0 <= i < |rs|
      ensures Concat(b.tokens[i]) == RemoveSpaces(rs[i].doc.pageContent)
    {
      SplitWhitespaceKeepsText(rs[i].doc.pageContent);
    }
  }
}
