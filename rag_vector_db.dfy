/**
 * Turning one parsed page into vector-store chunks (`create_documents_from_page_content`) and
 * storing them under deterministic ids (`add_page_content_to_vector_db`).
 *
 * A page gives, in this order: one text chunk when the text has more than ten characters
 * once stripped, one chunk per table, and one chunk per image with a non-empty description.
 * Every chunk carries the same page-level metadata plus its own `chunk_type` and position.
 */
module RagVectorDb {
  import opened Wrappers
  import opened Text
  import opened Paths
  import opened Docs
  import opened RagSchema
  import opened RagChunks
  import RagThumbnail

  /** Every image with a non-empty description is kept. */
  lemma {:induction false} KeptImagesComplete(images: seq<Image>, i: nat)
    requires i < |images| && images[i].description != []
    ensures i in KeptImages(images)
  {
    var n := |images| - 1;
    var init := images[..n];
    var rest := KeptImages(init);
    var last := if images[n].description != [] then [n] else [];
    assert KeptImages(images) == rest + last;
    if i < n {
      assert init[i] == images[i];
      KeptImagesComplete(init, i);
      assert i in rest;
    } else {
      assert last == [i];
    }
  }

  /**
   * `create_documents_from_page_content(page_content, page_num, thumbnail_path)`: the text
   * step, then the table loop, then the image loop, each appending to `documents`.
   */
  method CreateDocuments(page: PageContent, pageNum: int, thumbnailPath: string) returns (documents: seq<Document>)
    ensures documents == Chunks(page, pageNum, thumbnailPath)
  {
    var base := BaseMetadata(page, pageNum, thumbnailPath);
    documents := [];
    if KeepsText(page.text) {
      documents := documents + [TextChunk(page.text, base)];
    }
    ghost var textPart := documents;
    assert textPart == TextDocs(page.text, base);
    for i := 0 to |page.tables|
      invariant documents == textPart + TableDocs(page.tables[..i], base)
    {
      TableDocsSnoc(page.tables, i, base);
      AppendAssoc(textPart, TableDocs(page.tables[..i], base), [TableChunk(page.tables[i], i, base)]);
      documents := documents + [TableChunk(page.tables[i], i, base)];
    }
    assert page.tables[..|page.tables|] == page.tables;
    ghost var tablePart := documents;
    assert tablePart == TextDocs(page.text, base) + TableDocs(page.tables, base);
    for i := 0 to |page.images|
      invariant documents == tablePart + ImageDocs(page.images[..i], base)
    {
      ImageDocsSnoc(page.images, i, base);
      if page.images[i].description != [] {
        AppendAssoc(tablePart, ImageDocs(page.images[..i], base), [ImageChunk(page.images[i], i, base)]);
        documents := documents + [ImageChunk(page.images[i], i, base)];
      }
    }
    assert page.images[..|page.images|] == page.images;
    assert documents == tablePart + ImageDocs(page.images, base);
  }

  /** One more table adds its chunk at the end. */
  lemma TableDocsSnoc(tables: seq<string>, i: nat, base: Metadata)
    requires i < |tables|
    ensures TableDocs(tables[..i + 1], base) == TableDocs(tables[..i], base) + [TableChunk(tables[i], i, base)]
  {
    assert tables[..i + 1][..i] == tables[..i];
  }

  /** One more image adds its chunk at the end exactly when it has a description. */
  lemma ImageDocsSnoc(images: seq<Image>, i: nat, base: Metadata)
    requires i < |images|
    ensures ImageDocs(images[..i + 1], base)
      == ImageDocs(images[..i], base) + if images[i].description != [] then [ImageChunk(images[i], i, base)] else []
  {
    assert images[..i + 1][..i] == images[..i];
  }

  /** Table `i` becomes chunk `i` of the table part, with `table_index` equal to `i`. */
  lemma {:induction false} TableDocsAt(tables: seq<string>, base: Metadata)
    ensures |TableDocs(tables, base)| == |tables|
    ensures forall i :: 0 <= i < |tables| ==> TableDocs(tables, base)[i] == TableChunk(tables[i], i, base)
  {
    if tables != [] {
      var init := tables[..|tables| - 1];
      TableDocsAt(init, base);
      assert forall i :: 0 <= i < |init| ==> init[i] == tables[i];
    }
  }

  /**
   * The image part holds, in order, one chunk per kept image; a chunk's content is the
   * description and its `image_index` the image's original position.
   */
  lemma {:induction false} ImageDocsAt(images: seq<Image>, base: Metadata)
    ensures |ImageDocs(images, base)| == |KeptImages(images)|
    ensures forall j :: 0 <= j < |KeptImages(images)| ==>
      ImageDocs(images, base)[j] == ImageChunk(images[KeptImages(images)[j]], KeptImages(images)[j], base)
  {
    if images != [] {
      var i := |images| - 1;
      var init := images[..i];
      ImageDocsAt(init, base);
      forall j | 0 <= j < |KeptImages(init)|
        ensures images[KeptImages(init)[j]] == init[KeptImages(init)[j]]
      {
      }
    }
  }

  /**
   * The layout of a page's chunks: the unstripped text first when it is kept, then table `i`
   * at offset `i`, then the `j`-th described image; nothing else.
   */
  lemma PageDocsLayout(page: PageContent, base: Metadata)
    ensures var ds, t, ks := PageDocs(page, base), (if KeepsText(page.text) then 1 else 0), KeptImages(page.images);
      |ds| == t + |page.tables| + |ks|
      && (KeepsText(page.text) ==> ds[0] == TextChunk(page.text, base))
      && (forall i :: 0 <= i < |page.tables| ==> ds[t + i] == TableChunk(page.tables[i], i, base))
      && (forall j :: 0 <= j < |ks| ==> ds[t + |page.tables| + j] == ImageChunk(page.images[ks[j]], ks[j], base))
  {
    TableDocsAt(page.tables, base);
    ImageDocsAt(page.images, base);
  }

  /** Number of chunks: the text chunk if kept, every table, and every described image. */
  lemma ChunksCount(page: PageContent, pageNum: int, thumbnailPath: string)
    ensures |Chunks(page, pageNum, thumbnailPath)|
      == (if KeepsText(page.text) then 1 else 0) + |page.tables| + |KeptImages(page.images)|
  {
    PageDocsLayout(page, BaseMetadata(page, pageNum, thumbnailPath));
  }

  lemma TextDocsKinds(text: string, base: Metadata)
    ensures |TextDocs(text, base)| == if KeepsText(text) then 1 else 0
    ensures forall k :: 0 <= k < |TextDocs(text, base)| ==> ChunkType(TextDocs(text, base)[k]) == "text"
  {
    TextChunkFacts(text, base);
  }

  lemma TableDocsKinds(tables: seq<string>, base: Metadata)
    ensures |TableDocs(tables, base)| == |tables|
    ensures forall k :: 0 <= k < |tables| ==>
      ChunkType(TableDocs(tables, base)[k]) == "table" && IndexOf(TableDocs(tables, base)[k], "table_index") == k
  {
    TableDocsAt(tables, base);
    forall k | 0 <= k < |tables|
      ensures ChunkType(TableDocs(tables, base)[k]) == "table" && IndexOf(TableDocs(tables, base)[k], "table_index") == k
    {
      TableChunkFacts(tables[k], k, base);
    }
  }

  lemma ImageDocsKinds(images: seq<Image>, base: Metadata)
    ensures |ImageDocs(images, base)| == |KeptImages(images)|
    ensures forall j :: 0 <= j < |KeptImages(images)| ==>
      ChunkType(ImageDocs(images, base)[j]) == "image_description"
      && IndexOf(ImageDocs(images, base)[j], "image_index") == KeptImages(images)[j]
  {
    ImageDocsAt(images, base);
    var ks := KeptImages(images);
    forall j | 0 <= j < |ks|
      ensures ChunkType(ImageDocs(images, base)[j]) == "image_description"
        && IndexOf(ImageDocs(images, base)[j], "image_index") == ks[j]
    {
      ImageChunkFacts(images[ks[j]], ks[j], base);
    }
  }

  /**
   * Every chunk is a text, table or image chunk, in that order: chunk `k` has type `text`
   * before offset `t`, `table` up to `t + |tables|`, and `image_description` after.
   */
  lemma PageDocsKinds(page: PageContent, base: Metadata)
    ensures var ds, t := PageDocs(page, base), (if KeepsText(page.text) then 1 else 0);
      |ds| == t + |page.tables| + |KeptImages(page.images)|
      && forall k :: 0 <= k < |ds| ==>
        ChunkType(ds[k]) == (if k < t then "text" else if k < t + |page.tables| then "table" else "image_description")
  {
    var x, y, z := TextDocs(page.text, base), TableDocs(page.tables, base), ImageDocs(page.images, base);
    TextDocsKinds(page.text, base);
    TableDocsKinds(page.tables, base);
    ImageDocsKinds(page.images, base);
    forall k | 0 <= k < |x + y + z|
      ensures ChunkType((x + y + z)[k]) == (if k < |x| then "text" else if k < |x| + |y| then "table" else "image_description")
    {
      Concat3Index(x, y, z, k);
    }
  }

  /** A text chunk is emitted exactly when the text is non-empty and longer than ten characters once stripped. */
  lemma TextChunkIff(page: PageContent, base: Metadata)
    ensures (exists k :: 0 <= k < |PageDocs(page, base)| && ChunkType(PageDocs(page, base)[k]) == "text")
      <==> page.text != [] && |Strip(page.text)| > 10
  {
    var ds := PageDocs(page, base);
    PageDocsKinds(page, base);
    if KeepsText(page.text) {
      assert ChunkType(ds[0]) == "text";
    }
  }

  lemma ImageChunkKept(page: PageContent, base: Metadata, i: nat)
    requires i < |page.images| && page.images[i].description != []
    ensures HasImageChunk(PageDocs(page, base), i)
  {
    var x, y, z := TextDocs(page.text, base), TableDocs(page.tables, base), ImageDocs(page.images, base);
    var ks := KeptImages(page.images);
    ImageDocsKinds(page.images, base);
    KeptImagesComplete(page.images, i);
    var j :| 0 <= j < |ks| && ks[j] == i;
    var k := |x| + |y| + j;
    Concat3Index(x, y, z, k);
    assert ChunkType(z[j]) == "image_description" && IndexOf(z[j], "image_index") == i;
    assert 0 <= k < |x + y + z| && (x + y + z)[k] == z[j];
  }

  lemma ImageChunkDropped(page: PageContent, base: Metadata, i: nat)
    requires i < |page.images| && page.images[i].description == []
    ensures !HasImageChunk(PageDocs(page, base), i)
  {
    var x, y, z := TextDocs(page.text, base), TableDocs(page.tables, base), ImageDocs(page.images, base);
    var ks := KeptImages(page.images);
    TextDocsKinds(page.text, base);
    TableDocsKinds(page.tables, base);
    ImageDocsKinds(page.images, base);
    forall k | 0 <= k < |x + y + z|
      ensures !(ChunkType((x + y + z)[k]) == "image_description" && IndexOf((x + y + z)[k], "image_index") == i)
    {
      Concat3Index(x, y, z, k);
      if k >= |x| + |y| {
        assert page.images[ks[k - |x| - |y|]].description != [];
      }
    }
  }

  /**
   * Image `i` yields an image chunk exactly when its description is non-empty, and that
   * chunk's `image_index` is `i` itself, so the emitted indices may skip positions.
   */
  lemma ImageChunkIff(page: PageContent, base: Metadata, i: nat)
    requires i < |page.images|
    ensures HasImageChunk(PageDocs(page, base), i) <==> page.images[i].description != []
  {
    if page.images[i].description != [] {
      ImageChunkKept(page, base, i);
    } else {
      ImageChunkDropped(page, base, i);
    }
  }

  /** Every chunk of a page carries the page's base metadata unchanged. */
  lemma PageDocsShareBase(page: PageContent, base: Metadata)
    requires PageLevelKeys(base)
    ensures AllExtend(PageDocs(page, base), base)
  {
    TableDocsAt(page.tables, base);
    ImageDocsAt(page.images, base);
    var tables, images := TableDocs(page.tables, base), ImageDocs(page.images, base);
    var ks := KeptImages(page.images);
    forall k | 0 <= k < |tables| ensures Extends(tables[k].metadata, base) {
      TableChunkFacts(page.tables[k], k, base);
    }
    forall k | 0 <= k < |images| ensures Extends(images[k].metadata, base) {
      ImageChunkFacts(page.images[ks[k]], ks[k], base);
    }
    TextChunkFacts(page.text, base);
    AllExtendConcat(TextDocs(page.text, base), tables, base);
    AllExtendConcat(TextDocs(page.text, base) + tables, images, base);
  }

  /** The base metadata of a page holds only page-level keys. */
  lemma BaseMetadataKeys(page: PageContent, pageNum: int, thumbnailPath: string)
    ensures PageLevelKeys(BaseMetadata(page, pageNum, thumbnailPath))
    ensures "doc_name" in BaseMetadata(page, pageNum, thumbnailPath)
    ensures BaseMetadata(page, pageNum, thumbnailPath)["doc_name"] == VStr(DocNameOf(thumbnailPath))
  {
  }

  /** The keywords field is the keywords joined by `", "`, and `""` when there are none. */
  lemma KeywordsFieldJoin(keywords: seq<string>)
    ensures KeywordsField(keywords) == Join(keywords, ", ")
    ensures keywords == [] ==> KeywordsField(keywords) == ""
  {
  }

  /** Pages thumbnailed by the ingestion pipeline are filed under their own document's name. */
  lemma DocNameOfThumbnail(baseDir: string, docName: string, index: nat)
    requires Plain(docName)
    ensures DocNameOf(RagThumbnail.ThumbnailPath(baseDir, docName, index)) == docName
  {
    DirBaseOfJoin(baseDir, docName, RagThumbnail.PageFileName(index + 1));
  }

  /** `f"{doc_name}_p{page_num}_chunk_{i}"`. */
  function ChunkId(docName: string, pageNum: int, i: nat): string {
    docName + "_p" + IntToString(pageNum) + "_chunk_" + NatToString(i)
  }

  /** The ids of the first `n` chunks of a page. */
  function ChunkIds(docName: string, pageNum: int, n: nat): (ids: seq<string>)
    ensures |ids| == n
    ensures forall i :: 0 <= i < n ==> ids[i] == ChunkId(docName, pageNum, i)
  {
    seq(n, i requires 0 <= i < n => ChunkId(docName, pageNum, i))
  }

  /** Chunks of the same page get different ids. */
  lemma ChunkIdsDistinct(docName: string, pageNum: int, i: nat, j: nat)
    requires i != j
    ensures ChunkId(docName, pageNum, i) != ChunkId(docName, pageNum, j)
  {
    var prefix := docName + "_p" + IntToString(pageNum) + "_chunk_";
    if ChunkId(docName, pageNum, i) == ChunkId(docName, pageNum, j) {
      SuffixCancel(prefix, NatToString(i), NatToString(j));
      NatToStringInjective(i, j);
    }
  }

  /** `metadata.get("doc_name", "unknown_doc")` as the f-string renders it. */
  function IdDocName(m: Metadata): string {
    if "doc_name" in m then Show(m["doc_name"]) else "unknown_doc"
  }

  /** Each chunk with its `doc_id` metadata set to its id. */
  function StampIds(docs: seq<Document>, ids: seq<string>): (out: seq<Document>)
    requires |ids| == |docs|
    ensures |out| == |docs|
    ensures forall i :: 0 <= i < |docs| ==>
      out[i].pageContent == docs[i].pageContent && out[i].metadata == docs[i].metadata["doc_id" := VStr(ids[i])]
  {
    seq(|docs|, i requires 0 <= i < |docs| => Document(docs[i].pageContent, docs[i].metadata["doc_id" := VStr(ids[i])]))
  }

  /** The loop that sets `doc.metadata["doc_id"] = ids[i]` on every chunk. */
  method StampDocIds(documents: seq<Document>, ids: seq<string>) returns (stamped: seq<Document>)
    requires |ids| == |documents|
    ensures stamped == StampIds(documents, ids)
  {
    stamped := documents;
    for i := 0 to |documents|
      invariant |stamped| == |documents|
      invariant forall k :: 0 <= k < i ==> stamped[k] == StampIds(documents, ids)[k]
      invariant forall k :: i <= k < |documents| ==> stamped[k] == documents[k]
    {
      var doc := stamped[i];
      stamped := stamped[i := Document(doc.pageContent, doc.metadata["doc_id" := VStr(ids[i])])];
    }
  }

  /** The records one page adds to the store. */
  function PageRecords(page: PageContent, pageNum: int, thumbnailPath: string): seq<Record> {
    var ds := Chunks(page, pageNum, thumbnailPath);
    var ids := ChunkIds(DocNameOf(thumbnailPath), pageNum, |ds|);
    Tagged(StampIds(ds, ids), Some(ids))
  }

  /**
   * `add_page_content_to_vector_db(page_content, page_num, thumbnail_path, vector_store)`:
   * a page without chunks leaves the store untouched; otherwise one `add_documents` call
   * stores every chunk, stamped with its id, under that id, replacing any record stored under
   * the same id before.
   */
  method AddPageContent(page: PageContent, pageNum: int, thumbnailPath: string, store: Collection)
    modifies store
    ensures Chunks(page, pageNum, thumbnailPath) == [] ==>
      store.records == old(store.records) && store.addCalls == old(store.addCalls)
    ensures Chunks(page, pageNum, thumbnailPath) != [] ==>
      store.records == Upsert(old(store.records), PageRecords(page, pageNum, thumbnailPath))
      && store.addCalls == old(store.addCalls) + 1
  {
    var documents := CreateDocuments(page, pageNum, thumbnailPath);
    if documents == [] {
      return;
    }
    var base := BaseMetadata(page, pageNum, thumbnailPath);
    BaseMetadataKeys(page, pageNum, thumbnailPath);
    PageDocsShareBase(page, base);
    assert Extends(documents[0].metadata, base);
    var docName := IdDocName(documents[0].metadata);
    assert docName == DocNameOf(thumbnailPath);
    var ids := ChunkIds(docName, pageNum, |documents|);
    forall i, j | 0 <= i < j < |ids| ensures ids[i] != ids[j] {
      ChunkIdsDistinct(docName, pageNum, i, j);
    }
    documents := StampDocIds(documents, ids);
    store.AddDocuments(documents, Some(ids));
  }

  /**
   * What a page adds: record `i` has id `{doc}_p{page}_chunk_{i}`, its `doc_id` metadata
   * equals that id, its content and all other metadata are chunk `i`'s, and no two records
   * share an id.
   */
  lemma PageRecordsIds(page: PageContent, pageNum: int, thumbnailPath: string)
    ensures var ds, rs := Chunks(page, pageNum, thumbnailPath), PageRecords(page, pageNum, thumbnailPath);
      |rs| == |ds|
      && (forall i :: 0 <= i < |rs| ==>
          rs[i].id == Some(ChunkId(DocNameOf(thumbnailPath), pageNum, i))
          && rs[i].doc.metadata == ds[i].metadata["doc_id" := VStr(ChunkId(DocNameOf(thumbnailPath), pageNum, i))]
          && rs[i].doc.pageContent == ds[i].pageContent)
      && (forall i, j :: 0 <= i < j < |rs| ==> rs[i].id != rs[j].id)
  {
    var rs := PageRecords(page, pageNum, thumbnailPath);
    forall i, j | 0 <= i < j < |rs| ensures rs[i].id != rs[j].id {
      ChunkIdsDistinct(DocNameOf(thumbnailPath), pageNum, i, j);
    }
  }

  /**
   * Ingesting the same page again, as uploading the same manual twice does, leaves the store
   * as the first ingestion left it: the page's chunks are stored once.
   */
  lemma ReingestPage(rs: seq<Record>, page: PageContent, pageNum: int, thumbnailPath: string)
    ensures var batch := PageRecords(page, pageNum, thumbnailPath);
      Upsert(Upsert(rs, batch), batch) == Upsert(rs, batch)
  {
    var batch := PageRecords(page, pageNum, thumbnailPath);
    PageRecordsIds(page, pageNum, thumbnailPath);
    UpsertIdempotent(rs, batch);
  }
}
