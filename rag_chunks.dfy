/**
 * The chunks one parsed page becomes in the ingestion pipeline's vector store: an optional
 * text chunk, one chunk per table and one per described image, all sharing the page's base
 * metadata. These functions state what `create_documents_from_page_content` builds.
 */
module RagChunks {
  import opened Wrappers
  import opened Text
  import opened Paths
  import opened Docs
  import opened RagSchema

  /** `", ".join(keywords) if keywords else ""`. */
  function KeywordsField(keywords: seq<string>): string {
    if keywords != [] then Join(keywords, ", ") else ""
  }

  /** `summary if summary else ""`. */
  function SummaryField(summary: Option<string>): string {
    if summary.Some? && summary.value != [] then summary.value else ""
  }

  /** `os.path.basename(os.path.dirname(thumbnail_path))`: the document folder's name. */
  function DocNameOf(thumbnailPath: string): string {
    Basename(Dirname(thumbnailPath))
  }

  /** The metadata every chunk of the page shares. */
  function BaseMetadata(page: PageContent, pageNum: int, thumbnailPath: string): Metadata {
    map[
      "page" := VInt(pageNum),
      "image_path" := VStr(thumbnailPath),
      "doc_name" := VStr(DocNameOf(thumbnailPath)),
      "chapter_path" := OptionValue(page.chapterPath),
      "keywords" := VStr(KeywordsField(page.keywords)),
      "summary" := VStr(SummaryField(page.summary))]
  }

  /** `page_content.text and len(page_content.text.strip()) > 10`. */
  predicate KeepsText(text: string) {
    text != [] && |Strip(text)| > 10
  }

  function TextChunk(text: string, base: Metadata): Document {
    Document(text, base["chunk_type" := VStr("text")])
  }

  function TableChunk(table: string, index: nat, base: Metadata): Document {
    Document(table, base + map["chunk_type" := VStr("table"), "table_index" := VInt(index)])
  }

  function ImageChunk(image: Image, index: nat, base: Metadata): Document {
    Document(image.description, base + map[
      "chunk_type" := VStr("image_description"),
      "image_index" := VInt(index),
      "image_caption" := OptionValue(image.caption)])
  }

  /** The text step: zero or one chunk. */
  function TextDocs(text: string, base: Metadata): seq<Document> {
    if KeepsText(text) then [TextChunk(text, base)] else []
  }

  /** The table loop: one chunk per table, in list order. */
  function TableDocs(tables: seq<string>, base: Metadata): seq<Document> {
    if tables == [] then []
    else TableDocs(tables[..|tables| - 1], base) + [TableChunk(tables[|tables| - 1], |tables| - 1, base)]
  }

  /** The image loop: one chunk per image whose description is non-empty. */
  function ImageDocs(images: seq<Image>, base: Metadata): seq<Document> {
    if images == [] then []
    else
      var i := |images| - 1;
      ImageDocs(images[..i], base) + if images[i].description != [] then [ImageChunk(images[i], i, base)] else []
  }

  /** The chunks of a page over the given base metadata: text part, table part, image part. */
  function PageDocs(page: PageContent, base: Metadata): seq<Document> {
    TextDocs(page.text, base) + TableDocs(page.tables, base) + ImageDocs(page.images, base)
  }

  /** The chunks `create_documents_from_page_content` returns for one page. */
  function Chunks(page: PageContent, pageNum: int, thumbnailPath: string): seq<Document> {
    PageDocs(page, BaseMetadata(page, pageNum, thumbnailPath))
  }

  /** The positions of the images that have a non-empty description, in increasing order. */
  function KeptImages(images: seq<Image>): (ks: seq<nat>)
    ensures forall j :: 0 <= j < |ks| ==> ks[j] < |images| && images[ks[j]].description != []
    ensures forall j, k :: 0 <= j < k < |ks| ==> ks[j] < ks[k]
  {
    if images == [] then []
    else
      var i := |images| - 1;
      var init := images[..i];
      var rest := KeptImages(init);
      assert forall j :: 0 <= j < |rest| ==> images[rest[j]] == init[rest[j]];
      rest + if images[i].description != [] then [i] else []
  }

  /** The chunk type of a chunk (`""` if absent). */
  function ChunkType(d: Document): string {
    if "chunk_type" in d.metadata && d.metadata["chunk_type"].VStr? then d.metadata["chunk_type"].str else ""
  }

  /** The integer under `key`, or -1 when there is none. */
  function IndexOf(d: Document, key: string): int {
    if key in d.metadata && d.metadata[key].VInt? then d.metadata[key].num else -1
  }

  /** An image chunk with `image_index` `i` is among the chunks. */
  predicate HasImageChunk(ds: seq<Document>, i: nat) {
    exists k :: 0 <= k < |ds| && ChunkType(ds[k]) == "image_description" && IndexOf(ds[k], "image_index") == i
  }

  /** `m` contains every entry of `base` unchanged. */
  predicate Extends(m: Metadata, base: Metadata) {
    forall k :: k in base ==> k in m && m[k] == base[k]
  }

  /** Every document of `ds` carries the entries of `base`. */
  predicate AllExtend(ds: seq<Document>, base: Metadata) {
    forall k :: 0 <= k < |ds| ==> Extends(ds[k].metadata, base)
  }

  lemma AllExtendConcat(a: seq<Document>, b: seq<Document>, base: Metadata)
    requires AllExtend(a, base) && AllExtend(b, base)
    ensures AllExtend(a + b, base)
  {
    forall k | 0 <= k < |a + b| ensures Extends((a + b)[k].metadata, base) {
      if k >= |a| {
        assert (a + b)[k] == b[k - |a|];
      }
    }
  }

  /** The page-level keys, which no chunk-specific key overrides. */
  predicate PageLevelKeys(base: Metadata) {
    forall k :: k in base ==> k in {"page", "image_path", "doc_name", "chapter_path", "keywords", "summary"}
  }

  lemma TextChunkFacts(text: string, base: Metadata)
    ensures ChunkType(TextChunk(text, base)) == "text"
    ensures PageLevelKeys(base) ==> Extends(TextChunk(text, base).metadata, base)
  {
  }

  lemma TableChunkFacts(table: string, index: nat, base: Metadata)
    ensures ChunkType(TableChunk(table, index, base)) == "table"
    ensures IndexOf(TableChunk(table, index, base), "table_index") == index
    ensures PageLevelKeys(base) ==> Extends(TableChunk(table, index, base).metadata, base)
  {
  }

  lemma ImageChunkFacts(image: Image, index: nat, base: Metadata)
    ensures ChunkType(ImageChunk(image, index, base)) == "image_description"
    ensures IndexOf(ImageChunk(image, index, base), "image_index") == index
    ensures PageLevelKeys(base) ==> Extends(ImageChunk(image, index, base).metadata, base)
  {
  }
}
