/**
 * The page record the multimodal parser returns: running text, Markdown tables, image
 * descriptions, and the optional chapter path, keywords and summary (with their defaults).
 */
module RagSchema {
  import opened Wrappers

  /** An image on a page: a required description and an optional caption (default `None`). */
  datatype Image = Image(description: string, caption: Option<string> := None)

  /**
   * One parsed page. `text`, `tables` and `images` are required; `chapterPath` and `summary`
   * default to `None`, `keywords` to a fresh empty list.
   */
  datatype PageContent = PageContent(
    text: string,
    tables: seq<string>,
    images: seq<Image>,
    chapterPath: Option<string> := None,
    keywords: seq<string> := [],
    summary: Option<string> := None)

  /** An image built from its description alone has no caption. */
  lemma ImageDefaults(description: string)
    ensures Image(description).description == description
    ensures Image(description).caption == None
  {
  }

  /** A page built from its three required fields has no chapter path, no keywords and no summary. */
  lemma PageContentDefaults(text: string, tables: seq<string>, images: seq<Image>)
    ensures var p := PageContent(text, tables, images);
      p.text == text && p.tables == tables && p.images == images
      && p.chapterPath == None && p.keywords == [] && p.summary == None
  {
  }
}
