/**
 * The older ingestion step (`add_page_content_to_vector_db` of the storage package): one
 * parsed page becomes a text document when the text is non-empty, one document per table and
 * one document per image, every one of them carrying the page's base metadata and a
 * `content_type`. The documents go to the store in one call, without ids, and only when
 * there is at least one.
 */
module LegacyVectorDb {
  import opened Wrappers
  import opened Docs
  import opened RagSchema
  import RagChunks

  /** The metadata every document of the page shares. */
  function BaseMetadata(page: PageContent, pageNumber: int, imagePath: string): Metadata {
    map[
      "page_number" := VInt(pageNumber),
      "chapter_path" := OptionValue(page.chapterPath),
      "image_path" := VStr(imagePath),
      "keywords" := VStr(RagChunks.KeywordsField(page.keywords)),
      "summary" := VStr(RagChunks.SummaryField(page.summary))]
  }

  function TextChunk(text: string, base: Metadata): Document {
    Document(text, base + map["content_type" := VStr("text")])
  }

  function TableChunk(table: string, index: nat, base: Metadata): Document {
    Document(table, base + map["content_type" := VStr("table"), "table_index" := VInt(index)])
  }

  function ImageChunk(image: Image, index: nat, base: Metadata): Document {
    Document(image.description, base + map[
      "content_type" := VStr("image_description"),
      "image_index" := VInt(index),
      "image_caption" := OptionValue(image.caption)])
  }

  /** The text step: a document exactly when the text is non-empty. */
  function TextDocs(text: string, base: Metadata): seq<Document> {
    if text != [] then [TextChunk(text, base)] else []
  }

  /** The table loop: one document per table, in list order. */
  function TableDocs(tables: seq<string>, base: Metadata): seq<Document> {
    if tables == [] then []
    else TableDocs(tables[..|tables| - 1], base) + [TableChunk(tables[|tables| - 1], |tables| - 1, base)]
  }

  /** The image loop: one document per image, whatever its description. */
  function ImageDocs(images: seq<Image>, base: Metadata): seq<Document> {
    if images == [] then []
    else ImageDocs(images[..|images| - 1], base) + [ImageChunk(images[|images| - 1], |images| - 1, base)]
  }

  /** The documents of a page over the given base metadata. */
  function PageDocs(page: PageContent, base: Metadata): seq<Document> {
    TextDocs(page.text, base) + TableDocs(page.tables, base) + ImageDocs(page.images, base)
  }

  /** The documents `add_page_content_to_vector_db` builds for one page. */
  function Documents(page: PageContent, pageNumber: int, imagePath: string): seq<Document> {
    PageDocs(page, BaseMetadata(page, pageNumber, imagePath))
  }

  /** The content type of a document (`""` if absent). */
  function ContentType(d: Document): string {
    if "content_type" in d.metadata && d.metadata["content_type"].VStr? then d.metadata["content_type"].str else ""
  }

  lemma TableDocsSnoc(tables: seq<string>, i: nat, base: Metadata)
    requires i < |tables|
    ensures TableDocs(tables[..i + 1], base) == TableDocs(tables[..i], base) + [TableChunk(tables[i], i, base)]
  {
    assert tables[..i + 1][..i] == tables[..i];
  }

  lemma ImageDocsSnoc(images: seq<Image>, i: nat, base: Metadata)
    requires i < |images|
    ensures ImageDocs(images[..i + 1], base) == ImageDocs(images[..i], base) + [ImageChunk(images[i], i, base)]
  {
    assert images[..i + 1][..i] == images[..i];
  }

  /** The page-level keys, which no document-specific key overrides. */
  predicate BaseKeys(base: Metadata) {
    forall k :: k in base ==> k in {"page_number", "chapter_path", "image_path", "keywords", "summary"}
  }

  lemma BaseMetadataKeys(page: PageContent, pageNumber: int, imagePath: string)
    ensures BaseKeys(BaseMetadata(page, pageNumber, imagePath))
  {
  }

  lemma TextChunkFacts(text: string, base: Metadata)
    ensures ContentType(TextChunk(text, base)) == "text"
    ensures BaseKeys(base) ==> RagChunks.Extends(TextChunk(text, base).metadata, base)
  {
  }

  lemma TableChunkFacts(table: string, index: nat, base: Metadata)
    ensures ContentType(TableChunk(table, index, base)) == "table"
    ensures RagChunks.IndexOf(TableChunk(table, index, base), "table_index") == index
    ensures BaseKeys(base) ==> RagChunks.Extends(TableChunk(table, index, base).metadata, base)
  {
  }

  lemma ImageChunkFacts(image: Image, index: nat, base: Metadata)
    ensures ContentType(ImageChunk(image, index, base)) == "image_description"
    ensures RagChunks.IndexOf(ImageChunk(image, index, base), "image_index") == index
    ensures ImageChunk(image, index, base).metadata["image_caption"] == OptionValue(image.caption)
    ensures BaseKeys(base) ==> RagChunks.Extends(ImageChunk(image, index, base).metadata, base)
  {
  }

  /** Steps 1 to 3 of `add_page_content_to_vector_db`: the text, table and image documents over `base`. */
  method BuildDocuments(page: PageContent, base: Metadata) returns (documents: seq<Document>)
    ensures documents == PageDocs(page, base)
  {
    documents := [];
    if page.text != [] {
      documents := documents + [TextChunk(page.text, base)];
    }
    ghost var textPart := documents;
    for i := 0 to |page.tables|
      invariant documents == textPart + TableDocs(page.tables[..i], base)
    {
      TableDocsSnoc(page.tables, i, base);
      AppendAssoc(textPart, TableDocs(page.tables[..i], base), [TableChunk(page.tables[i], i, base)]);
      documents := documents + [TableChunk(page.tables[i], i, base)];
    }
    assert page.tables[..|page.tables|] == page.tables;
    ghost var tablePart := documents;
    for i := 0 to |page.images|
      invariant documents == tablePart + ImageDocs(page.images[..i], base)
    {
      ImageDocsSnoc(page.images, i, base);
      AppendAssoc(tablePart, ImageDocs(page.images[..i], base), [ImageChunk(page.images[i], i, base)]);
      documents := documents + [ImageChunk(page.images[i], i, base)];
    }
    assert page.images[..|page.images|] == page.images;
  }

  /**
   * `add_page_content_to_vector_db(page_content, page_number, image_path, vector_db)`: builds
   * the documents over the page's base metadata and adds them in one call without ids when
   * there is at least one, so the store gives them new ids and they are appended; an empty
   * page leaves the store untouched.
   */
  method AddPageContent(page: PageContent, pageNumber: int, imagePath: string, store: Collection)
    modifies store
    ensures Documents(page, pageNumber, imagePath) == [] ==>
      store.records == old(store.records) && store.addCalls == old(store.addCalls)
    ensures Documents(page, pageNumber, imagePath) != [] ==>
      store.records == old(store.records) + Tagged(Documents(page, pageNumber, imagePath), None)
      && store.addCalls == old(store.addCalls) + 1
  {
    var base := BaseMetadata(page, pageNumber, imagePath);
    var documents := BuildDocuments(page, base);
    if documents != [] {
      UpsertWithoutIds(store.records, Tagged(documents, None));
      store.AddDocuments(documents, None);
    }
  }

  /** Table `i` becomes document `i` of the table part. */
  lemma {:induction false} TableDocsAt(tables: seq<string>, base: Metadata)
    ensures |TableDocs(tables, base)| == |tables|
    ensures forall i :: 0 <= i < |tables| ==> TableDocs(tables, base)[i] == TableChunk(tables[i], i, base)
  {
    if tables != [] {
      var init := tables[..|tables| - 1];
      TableDocsAt(init, base);
      assert forall i :: 0 <= i < |init| ==> init[i] == tables[i];
    }
  }

  /** Image `j` becomes document `j` of the image part: none is skipped. */
  lemma {:induction false} ImageDocsAt(images: seq<Image>, base: Metadata)
    ensures |ImageDocs(images, base)| == |images|
    ensures forall j :: 0 <= j < |images| ==> ImageDocs(images, base)[j] == ImageChunk(images[j], j, base)
  {
    if images != [] {
      var init := images[..|images| - 1];
      ImageDocsAt(init, base);
      assert forall j :: 0 <= j < |init| ==> init[j] == images[j];
    }
  }

  /**
   * The layout of a page's documents: the text first when it is non-empty, then table `i`,
   * then image `j`; nothing else.
   */
  lemma PageDocsLayout(page: PageContent, base: Metadata)
    ensures var ds, t := PageDocs(page, base), (if page.text != [] then 1 else 0);
      |ds| == t + |page.tables| + |page.images|
      && (page.text != [] ==> ds[0] == TextChunk(page.text, base))
      && (forall i :: 0 <= i < |page.tables| ==> ds[t + i] == TableChunk(page.tables[i], i, base))
      && (forall j :: 0 <= j < |page.images| ==> ds[t + |page.tables| + j] == ImageChunk(page.images[j], j, base))
  {
    TableDocsAt(page.tables, base);
    ImageDocsAt(page.images, base);
  }

  /** Nothing is added exactly when the text is empty and there are no tables and no images. */
  lemma DocumentsEmptyIff(page: PageContent, base: Metadata)
    ensures PageDocs(page, base) == [] <==> page.text == [] && page.tables == [] && page.images == []
  {
    TableDocsAt(page.tables, base);
    ImageDocsAt(page.images, base);
  }

  lemma TableDocsKinds(tables: seq<string>, base: Metadata)
    ensures |TableDocs(tables, base)| == |tables|
    ensures forall k :: 0 <= k < |tables| ==>
      ContentType(TableDocs(tables, base)[k]) == "table" && RagChunks.IndexOf(TableDocs(tables, base)[k], "table_index") == k
    ensures BaseKeys(base) ==> RagChunks.AllExtend(TableDocs(tables, base), base)
  {
    TableDocsAt(tables, base);
    forall k | 0 <= k < |tables|
      ensures ContentType(TableDocs(tables, base)[k]) == "table" && RagChunks.IndexOf(TableDocs(tables, base)[k], "table_index") == k
      ensures BaseKeys(base) ==> RagChunks.Extends(TableDocs(tables, base)[k].metadata, base)
    {
      TableChunkFacts(tables[k], k, base);
    }
  }

  lemma ImageDocsKinds(images: seq<Image>, base: Metadata)
    ensures |ImageDocs(images, base)| == |images|
    ensures forall k :: 0 <= k < |images| ==>
      ContentType(ImageDocs(images, base)[k]) == "image_description"
      && RagChunks.IndexOf(ImageDocs(images, base)[k], "image_index") == k
      && ImageDocs(images, base)[k].pageContent == images[k].description
      && "image_caption" in ImageDocs(images, base)[k].metadata
      && ImageDocs(images, base)[k].metadata["image_caption"] == OptionValue(images[k].caption)
    ensures BaseKeys(base) ==> RagChunks.AllExtend(ImageDocs(images, base), base)
  {
    ImageDocsAt(images, base);
    forall k | 0 <= k < |images|
      ensures ContentType(ImageDocs(images, base)[k]) == "image_description"
        && RagChunks.IndexOf(ImageDocs(images, base)[k], "image_index") == k
        && ImageDocs(images, base)[k].pageContent == images[k].description
        && "image_caption" in ImageDocs(images, base)[k].metadata
        && ImageDocs(images, base)[k].metadata["image_caption"] == OptionValue(images[k].caption)
      ensures BaseKeys(base) ==> RagChunks.Extends(ImageDocs(images, base)[k].metadata, base)
    {
      ImageChunkFacts(images[k], k, base);
    }
  }

  lemma TextDocsKinds(text: string, base: Metadata)
    ensures |TextDocs(text, base)| == if text != [] then 1 else 0
    ensures forall k :: 0 <= k < |TextDocs(text, base)| ==> ContentType(TextDocs(text, base)[k]) == "text"
    ensures BaseKeys(base) ==> RagChunks.AllExtend(TextDocs(text, base), base)
  {
    TextChunkFacts(text, base);
  }

  /**
   * The content type by position: `text` for the text document, `table` for the table
   * documents, `image_description` for the rest.
   */
  lemma DocumentKinds(page: PageContent, base: Metadata)
    ensures var ds, t := PageDocs(page, base), (if page.text != [] then 1 else 0);
      forall k :: 0 <= k < |ds| ==>
        ContentType(ds[k]) == if k < t then "text" else if k < t + |page.tables| then "table" else "image_description"
  {
    var x, y, z := TextDocs(page.text, base), TableDocs(page.tables, base), ImageDocs(page.images, base);
    TextDocsKinds(page.text, base);
    TableDocsKinds(page.tables, base);
    ImageDocsKinds(page.images, base);
    forall k | 0 <= k < |x + y + z|
      ensures ContentType((x + y + z)[k]) == if k < |x| then "text" else if k < |x| + |y| then "table" else "image_description"
    {
      Concat3Index(x, y, z, k);
    }
  }

  /**
   * Every image, described or not, gives a document of type `image_description` whose
   * `image_index` is its position and whose content is its description.
   */
  lemma EveryImageStored(page: PageContent, base: Metadata, j: nat)
    requires j < |page.images|
    ensures var ds, k := PageDocs(page, base), (if page.text != [] then 1 else 0) + |page.tables| + j;
      k < |ds|
      && ContentType(ds[k]) == "image_description"
      && RagChunks.IndexOf(ds[k], "image_index") == j
      && ds[k].pageContent == page.images[j].description
  {
    var x, y, z := TextDocs(page.text, base), TableDocs(page.tables, base), ImageDocs(page.images, base);
    assert |x| == if page.text != [] then 1 else 0;
    TableDocsAt(page.tables, base);
    ImageDocsAt(page.images, base);
    ImageChunkFacts(page.images[j], j, base);
    Concat3Index(x, y, z, |x| + |y| + j);
  }

  /** Every document keeps the page's base metadata unchanged. */
  lemma PageDocsShareBase(page: PageContent, base: Metadata)
    requires BaseKeys(base)
    ensures RagChunks.AllExtend(PageDocs(page, base), base)
  {
    var x, y, z := TextDocs(page.text, base), TableDocs(page.tables, base), ImageDocs(page.images, base);
    TextDocsKinds(page.text, base);
    TableDocsKinds(page.tables, base);
    ImageDocsKinds(page.images, base);
    RagChunks.AllExtendConcat(x, y, base);
    RagChunks.AllExtendConcat(x + y, z, base);
  }
}
