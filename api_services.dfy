/**
 * The document-management services of the API: listing the documents the vector store holds,
 * and deleting one document everywhere it lives (its chunks in the collection, its thumbnail
 * directory, and the keyword index behind the application's retriever).
 */
module ApiServices {
  import opened Wrappers
  import opened Docs
  import opened Ordering
  import opened Paths
  import opened RagRetriever

  /** The metadata key that names a chunk's source document. */
  const DocNameKey: string := "doc_name"

  /** Where a document's page thumbnails live, one directory per document. */
  const ThumbnailRoot: string := "assets/images"

  /** The two `get_retriever` calls of a deletion use the defaults. */
  const DefaultKwargs: map<string, int> := map["k" := DefaultK]
  const DefaultWeights: seq<real> := [0.5, 0.5]

  /** The truthy `doc_name` values of the records, in store order, repeats kept. */
  function DocNames(rs: seq<Record>): (ns: seq<string>)
    ensures forall n :: n in ns <==> exists i :: 0 <= i < |rs| && TruthyString(rs[i].doc.metadata, DocNameKey) == Some(n)
  {
    if rs == [] then []
    else
      var v := TruthyString(rs[0].doc.metadata, DocNameKey);
      assert forall i :: 0 <= i < |rs[1..]| ==> rs[1..][i] == rs[i + 1];
      (if v.Some? then [v.value] else []) + DocNames(rs[1..])
  }

  /**
   * `get_indexed_documents()`: the distinct document names of the stored chunks, sorted; none
   * for an empty collection.
   */
  function IndexedDocuments(rs: seq<Record>): (names: seq<string>)
    ensures Increasing(names)
    ensures rs == [] ==> names == []
    ensures forall n :: n in names <==> exists i :: 0 <= i < |rs| && TruthyString(rs[i].doc.metadata, DocNameKey) == Some(n)
  {
    SortedDistinct(DocNames(rs))
  }

  /** The summary `delete_document` returns. */
  datatype Deletion = Deletion(message: string, deletedDbEntries: int, thumbnailDeleted: bool)

  /** The `ValueError` raised for a name no chunk carries. */
  function NotFoundMessage(docName: string): string {
    "'" + docName + "' 문서를 찾을 수 없습니다."
  }

  function DeletedMessage(docName: string): string {
    "'" + docName + "' 문서가 성공적으로 삭제되었습니다."
  }

  /** The web application's shared state. */
  class AppState {
    var retriever: Retriever

    constructor (initial: Retriever)
      ensures retriever == initial
    {
      retriever := initial;
    }
  }

  /**
   * The index refresh after a deletion, as written: a forced rebuild whose result is dropped,
   * then a normal call, which loads whatever the index file holds, for the application.
   */
  function Refresh(rs: seq<Record>, stored: Option<Bm25>, loadOk: bool, saveOk: bool): State {
    var forced := Get(rs, stored, loadOk, saveOk, DefaultKwargs, DefaultWeights, true);
    Get(rs, forced.stored, loadOk, saveOk, DefaultKwargs, DefaultWeights, false)
  }

  /**
   * `delete_document(doc_name, app_state)`. `loadOk` and `saveOk` say whether reading and
   * writing the index file succeed; both retriever calls see the same answers.
   */
  method DeleteDocument(docName: string, store: Collection, fs: FileSystem, index: IndexFile, app: AppState,
                        loadOk: bool, saveOk: bool)
    returns (result: Result<Deletion, string>)
    modifies store, fs, index, app
    ensures var matched := MatchCount(old(store.records), DocNameKey, VStr(docName));
      matched == 0 ==>
        result == Err(NotFoundMessage(docName))
        && unchanged(store) && unchanged(fs) && unchanged(index) && unchanged(app)
    ensures var matched := MatchCount(old(store.records), DocNameKey, VStr(docName));
      var dir := PathJoin(ThumbnailRoot, docName);
      matched > 0 ==>
        result == Ok(Deletion(DeletedMessage(docName), matched, dir in old(fs.dirs)))
        && store.records == Unmatched(old(store.records), DocNameKey, VStr(docName))
        && store.addCalls == old(store.addCalls)
        && (dir in old(fs.dirs) ==>
              fs.dirs == (set x | x in old(fs.dirs) && x != dir && !Under(x, dir))
              && fs.files == (set f | f in old(fs.files) && !Under(f, dir)))
        && (dir !in old(fs.dirs) ==> fs.dirs == old(fs.dirs) && fs.files == old(fs.files))
        && fs.saves == old(fs.saves)
        && var after := Refresh(store.records, old(index.stored), loadOk, saveOk);
        app.retriever == after.retriever && index.stored == after.stored
  {
    var initialCount := store.Count();
    var key, value := DocNameKey, VStr(docName);
    if MatchCount(store.records, key, value) == 0 {
      return Err(NotFoundMessage(docName));
    }
    UnmatchedCount(store.records, key, value);
    store.DeleteWhere(key, value);
    var deletedCount := initialCount - store.Count();

    var thumbnailDir := PathJoin(ThumbnailRoot, docName);
    var thumbnailDeleted: bool;
    if thumbnailDir in fs.dirs {
      fs.RemoveTree(thumbnailDir);
      thumbnailDeleted := true;
    } else {
      thumbnailDeleted := false;
    }

    var rebuilt, rebuildFetched := GetRetriever(store, index, loadOk, saveOk, DefaultKwargs, DefaultWeights, true);
    var reloaded, reloadFetched := GetRetriever(store, index, loadOk, saveOk, DefaultKwargs, DefaultWeights, false);
    app.retriever := reloaded;
    return Ok(Deletion(DeletedMessage(docName), deletedCount, thumbnailDeleted));
  }

  /**
   * After a deletion no stored chunk carries the document's name, and every other chunk stays
   * as often as it was stored.
   */
  lemma DeletionRemovesDocument(rs: seq<Record>, docName: string)
    ensures var after := Unmatched(rs, DocNameKey, VStr(docName));
      MatchCount(after, DocNameKey, VStr(docName)) == 0
      && |after| == |rs| - MatchCount(rs, DocNameKey, VStr(docName))
      && docName !in IndexedDocuments(after)
      && forall r :: !Matches(r, DocNameKey, VStr(docName)) ==> multiset(after)[r] == multiset(rs)[r]
  {
    var after := Unmatched(rs, DocNameKey, VStr(docName));
    UnmatchedCount(rs, DocNameKey, VStr(docName));
    UnmatchedMultiset(rs, DocNameKey, VStr(docName));
    MatchCountPositive(after, DocNameKey, VStr(docName));
  }

  /**
   * When some chunks remain and the index file can be written, the refresh gives an ensemble
   * over exactly the remaining chunks, whatever the file held before.
   */
  lemma RefreshRebuilds(rs: seq<Record>, stored: Option<Bm25>, loadOk: bool)
    requires rs != []
    ensures var built := Build(StoredDocs(rs), DefaultK);
      Refresh(rs, stored, loadOk, true) == State(Ensemble(built, VectorRetriever(DefaultKwargs), DefaultWeights), Some(built), !loadOk)
  {
  }

  /**
   * As written, deleting the last document leaves its chunks in the application's keyword
   * index: the forced rebuild finds an empty collection and returns without touching the
   * index file, and the second call loads the stale file.
   */
  lemma StaleIndexAfterLastDelete()
    ensures var meta := map[DocNameKey := VStr("a")];
      var rs := [Record(None, Document("x", meta))];
      var after := Unmatched(rs, DocNameKey, VStr("a"));
      var s := Refresh(after, Some(Build(StoredDocs(rs), DefaultK)), true, true);
      after == [] && s.retriever.Ensemble? && Document("x", meta) in s.retriever.bm25.docs
  {
    var meta := map[DocNameKey := VStr("a")];
    var rs := [Record(None, Document("x", meta))];
    assert Matches(rs[0], DocNameKey, VStr("a"));
    assert Unmatched(rs, DocNameKey, VStr("a")) == [] + Unmatched(rs[1..], DocNameKey, VStr("a"));
    assert StoredDocs(rs)[0] == Document("x", meta);
  }

  /**
   * The refresh as evidently intended: the application gets the forced rebuild itself, and an
   * empty collection also removes the index file, so no stale index can be loaded later.
   */
  function RefreshCorrected(rs: seq<Record>, stored: Option<Bm25>, saveOk: bool): State {
    var forced := Get(rs, stored, true, saveOk, DefaultKwargs, DefaultWeights, true);
    if rs == [] then forced.(stored := None) else forced
  }

  /**
   * With the corrected refresh, the application's keyword index holds exactly the remaining
   * chunks, so none of the deleted document, and so does the index file whenever it exists
   * and could be written.
   */
  lemma CorrectedRefreshForgets(rs: seq<Record>, stored: Option<Bm25>, saveOk: bool, docName: string)
    ensures var after := Unmatched(rs, DocNameKey, VStr(docName));
      var s := RefreshCorrected(after, stored, saveOk);
      (s.retriever.Ensemble? ==> s.retriever.bm25.docs == StoredDocs(after))
      && (s.retriever.Ensemble? <==> after != [])
      && (after == [] ==> s.stored == None)
      && (saveOk && s.stored.Some? ==> s.stored.value.docs == StoredDocs(after))
      && (s.retriever.Ensemble? ==>
            forall d :: d in s.retriever.bm25.docs ==> !(DocNameKey in d.metadata && d.metadata[DocNameKey] == VStr(docName)))
  {
    var after := Unmatched(rs, DocNameKey, VStr(docName));
    var s := RefreshCorrected(after, stored, saveOk);
    if s.retriever.Ensemble? {
      forall d | d in s.retriever.bm25.docs
        ensures !(DocNameKey in d.metadata && d.metadata[DocNameKey] == VStr(docName))
      {
        var i :| 0 <= i < |after| && StoredDocs(after)[i] == d;
        assert after[i] in after;
        assert !Matches(after[i], DocNameKey, VStr(docName));
      }
    }
  }
}
