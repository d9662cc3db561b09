# Multimodal manual RAG pipeline: a verified model of its core

This project models, in Dafny, the sequential logic at the heart of a retrieval-augmented
question-answering system for PDF manuals. Each page of a manual is parsed by a multimodal
model into a `PageContent` record and rendered to a thumbnail. It is cut into text, table and
image-description chunks and stored in a Chroma collection. Questions are answered from
retrieved chunks, and the answer names its source images.

The model covers these parts:

- the page record and its defaults (`RagSchema`);
- page-to-chunk conversion with deterministic chunk ids (`RagChunks`, `RagVectorDb`) and the
  older storage variant (`LegacyVectorDb`);
- answer post-processing (`RagGenerator`):
  - context formatting;
  - the sorted image list;
  - parsing of the trailing `[[Cited Images: ...]]` tag;
  - the event order of the streaming answer;
- the first-generation one-shot answer (`RetrievalGenerator`);
- the parser's bounded retry with exponential backoff (`RagParser`);
- the BM25 index cache/rebuild decision of the hybrid retriever (`RagRetriever`);
- the document catalogue and document deletion of the API (`ApiServices`);
- the two thumbnail naming schemes (`RagThumbnail`, `PreprocessingThumbnail`).

The collaborators are modelled as abstract state or as inputs:

- the Chroma collection and the filesystem are classes (`Docs.Collection`, `Docs.FileSystem`);
- the pickled BM25 index file is `RagRetriever.IndexFile`;
- model responses, the outcome of each parser attempt, and load/save success are inputs.

The helper modules are:

- `Text`: Python's `strip`, `split`, `join`, `replace`, `find` and integer formatting;
- `Ordering`: string order and `sorted(set(...))`;
- `Paths`: `os.path.join`, `basename` and `dirname`;
- `Docs`: metadata, documents, the store and the filesystem;
- `Wrappers`.

## Model

| member | source | states |
|---|---|---|
| RagSchema.ImageDefaults | src/rag_pipeline/schema.py:4-6 | an `Image` built from its description alone has that description and caption `None` |
| RagSchema.PageContentDefaults | src/rag_pipeline/schema.py:8-14 | a page built from `text`, `tables`, `images` alone has no chapter path, an empty keyword list and no summary |
| RagChunks.KeptImages | src/rag_pipeline/vector_db.py:72-73 | the positions of the images with a non-empty description, strictly increasing |
| RagVectorDb.KeptImagesComplete | src/rag_pipeline/vector_db.py:72-73 | every image with a non-empty description is among the kept positions |
| RagChunks.TextChunkFacts | src/rag_pipeline/vector_db.py:59-62 | a text chunk has `chunk_type` `text` and keeps the base metadata |
| RagChunks.TableChunkFacts | src/rag_pipeline/vector_db.py:66-69 | a table chunk has `chunk_type` `table`, `table_index` its position, and keeps the base metadata |
| RagChunks.ImageChunkFacts | src/rag_pipeline/vector_db.py:74-82 | an image chunk has `chunk_type` `image_description`, `image_index` its position, and keeps the base metadata |
| RagChunks.AllExtendConcat | src/rag_pipeline/vector_db.py:57-84 | two chunk lists that both carry the base metadata still carry it when concatenated |
| RagVectorDb.CreateDocuments | src/rag_pipeline/vector_db.py:39-84 | the three appending loops build exactly the chunk list `Chunks` of the page |
| RagVectorDb.TableDocsSnoc | src/rag_pipeline/vector_db.py:65-69 | one more table appends exactly its chunk |
| RagVectorDb.ImageDocsSnoc | src/rag_pipeline/vector_db.py:72-82 | one more image appends its chunk exactly when its description is non-empty |
| RagVectorDb.TableDocsAt | src/rag_pipeline/vector_db.py:65-69 | table `i` becomes chunk `i` of the table part, one chunk per table |
| RagVectorDb.ImageDocsAt | src/rag_pipeline/vector_db.py:72-82 | the image part holds one chunk per kept image, in order; its `image_index` is the image's original position, so indices may have gaps |
| RagVectorDb.PageDocsLayout | src/rag_pipeline/vector_db.py:57-84 | the order is the text chunk if kept, then every table, then every described image, and nothing else |
| RagVectorDb.ChunksCount | src/rag_pipeline/vector_db.py:57-84 | number of chunks = [text kept] + number of tables + number of described images |
| RagVectorDb.TextDocsKinds | src/rag_pipeline/vector_db.py:58-62 | the text part has one chunk exactly when the text is kept, and its type is `text` |
| RagVectorDb.TableDocsKinds | src/rag_pipeline/vector_db.py:65-69 | every table chunk has type `table` and `table_index` equal to its position |
| RagVectorDb.ImageDocsKinds | src/rag_pipeline/vector_db.py:72-82 | every image chunk has type `image_description` and `image_index` the kept image's position |
| RagVectorDb.PageDocsKinds | src/rag_pipeline/vector_db.py:57-84 | chunk `k` is a text, table or image chunk according to the region it falls in |
| RagVectorDb.TextChunkIff | src/rag_pipeline/vector_db.py:58 | a text chunk is emitted if and only if the text is non-empty and longer than ten characters once stripped |
| RagVectorDb.ImageChunkKept | src/rag_pipeline/vector_db.py:73-82 | an image with a description yields a chunk with its `image_index` |
| RagVectorDb.ImageChunkDropped | src/rag_pipeline/vector_db.py:73 | an image without a description yields no chunk with its `image_index` |
| RagVectorDb.ImageChunkIff | src/rag_pipeline/vector_db.py:72-82 | an image yields a chunk if and only if its description is non-empty |
| RagVectorDb.PageDocsShareBase | src/rag_pipeline/vector_db.py:48-82 | every chunk carries the page's base metadata unchanged |
| RagVectorDb.BaseMetadataKeys | src/rag_pipeline/vector_db.py:48-55 | the base metadata holds only page-level keys, and `doc_name` is the thumbnail's parent directory name |
| RagVectorDb.KeywordsFieldJoin | src/rag_pipeline/vector_db.py:53 | the keywords field is the keywords joined by `", "`, and `""` when there are none |
| RagVectorDb.DocNameOfThumbnail | src/rag_pipeline/vector_db.py:51 | for a thumbnail made by the ingestion pipeline, `doc_name` is the document's own name |
| RagVectorDb.ChunkIdsDistinct | src/rag_pipeline/vector_db.py:98 | two chunks of one page never share an id |
| RagVectorDb.StampDocIds | src/rag_pipeline/vector_db.py:101-102 | the stamping loop gives exactly `StampIds` |
| RagVectorDb.AddPageContent | src/rag_pipeline/vector_db.py:87-104 | a page without chunks leaves the store untouched; otherwise one `add_documents` call upserts exactly the stamped chunks under their ids, replacing the records stored under those ids |
| RagVectorDb.ReingestPage | src/rag_pipeline/vector_db.py:97-104 | ingesting the same page again leaves the store as the first ingestion left it, so the page's chunks are stored once |
| RagVectorDb.PageRecordsIds | src/rag_pipeline/vector_db.py:97-104 | record `i` has id `{doc}_p{page}_chunk_{i}`, `doc_id` metadata equal to it, and chunk `i`'s content; ids are pairwise distinct |
| LegacyVectorDb.TableDocsSnoc | src/storage/vector_db.py:89-93 | one more table appends exactly its document |
| LegacyVectorDb.ImageDocsSnoc | src/storage/vector_db.py:96-105 | one more image always appends its document |
| LegacyVectorDb.BaseMetadataKeys | src/storage/vector_db.py:71-79 | the base metadata's keys are among `page_number`, `chapter_path`, `image_path`, `keywords` and `summary`, so no document-specific key collides with them |
| LegacyVectorDb.TextChunkFacts | src/storage/vector_db.py:82-86 | the text document has `content_type` `text` and keeps the base metadata |
| LegacyVectorDb.TableChunkFacts | src/storage/vector_db.py:89-93 | a table document has `content_type` `table`, `table_index` its position, and the base metadata |
| LegacyVectorDb.ImageChunkFacts | src/storage/vector_db.py:96-105 | an image document has `content_type` `image_description`, `image_index` its position, `image_caption` the caption or `None`, and the base metadata |
| LegacyVectorDb.BuildDocuments | src/storage/vector_db.py:68-105 | the three appending steps build exactly `PageDocs` |
| LegacyVectorDb.AddPageContent | src/storage/vector_db.py:50-109 | no document leaves the store untouched; otherwise exactly one add call appends the documents without ids |
| LegacyVectorDb.TableDocsAt | src/storage/vector_db.py:89-93 | table `i` becomes document `i` of the table part |
| LegacyVectorDb.ImageDocsAt | src/storage/vector_db.py:96-105 | image `j` becomes document `j` of the image part; none is skipped |
| LegacyVectorDb.PageDocsLayout | src/storage/vector_db.py:81-105 | text if non-empty, then every table, then every image: count = [text non-empty] + tables + images |
| LegacyVectorDb.DocumentsEmptyIff | src/storage/vector_db.py:108-109 | nothing is added if and only if the text is empty and there are no tables and no images |
| LegacyVectorDb.TextDocsKinds | src/storage/vector_db.py:82-86 | a text document exactly when the text is non-empty (no length threshold), of type `text` |
| LegacyVectorDb.TableDocsKinds | src/storage/vector_db.py:89-93 | every table document has type `table`, `table_index` its position, and the base metadata |
| LegacyVectorDb.ImageDocsKinds | src/storage/vector_db.py:96-105 | every image document has type `image_description`, `image_index` its position, and the base metadata |
| LegacyVectorDb.DocumentKinds | src/storage/vector_db.py:81-105 | document `k` is of type text, table or image according to its region |
| LegacyVectorDb.EveryImageStored | src/storage/vector_db.py:96-105 | every image, even one with an empty description, gives a document whose content is its description |
| LegacyVectorDb.PageDocsShareBase | src/storage/vector_db.py:73-105 | every document carries the base metadata unchanged |
| RagGenerator.FormatDocs | src/rag_pipeline/generator.py:15-25 | the loop's result is the blocks joined by `"\n\n"` |
| RagGenerator.SourceLabelAbsent | src/rag_pipeline/generator.py:22 | the label is `N/A` exactly when the key is absent (or its value renders as `N/A`); a string value is shown as it is |
| RagGenerator.BlockParts | src/rag_pipeline/generator.py:23 | a block is `[Image Source: P]\n` followed by the document's content unchanged |
| RagGenerator.FormatDocsShape | src/rag_pipeline/generator.py:25 | no documents give `""`; otherwise the first block, a blank line and the rest |
| RagGenerator.ImagePathValues | src/rag_pipeline/generator.py:33-35 | exactly the truthy `image_path` values of the documents |
| RagGenerator.GetImagePaths | src/rag_pipeline/generator.py:27-36 | the result is strictly increasing and holds exactly the truthy `image_path` values |
| RagGenerator.FindTagSpec | src/rag_pipeline/generator.py:135 | the tag is the leftmost `[[Cited Images: ` with the nearest `]]` after it, newlines allowed; there is none exactly when no opening is followed by `]]` |
| RagGenerator.UntaggedResponse | src/rag_pipeline/generator.py:132-145 | without a tag the answer is the response unchanged and no image is cited |
| RagGenerator.CitedImagesEmpty | src/rag_pipeline/generator.py:137-140 | the image list is empty if and only if the body lowers to `none` |
| RagGenerator.CitedImagesPieces | src/rag_pipeline/generator.py:139-140 | otherwise there are commas + 1 paths, each a comma-separated piece stripped |
| RagGenerator.FindTagFrom | src/rag_pipeline/generator.py:135 | the tag is located by the first opening and the first `]]` after it |
| RagGenerator.NoBracketNoOpening | src/rag_pipeline/generator.py:135 | an answer without any `[` has no tag opening starting in it |
| RagGenerator.TagOpenPosition | src/rag_pipeline/generator.py:135 | in `a + open + body + close`, when no opening starts in `a`, the first opening follows `a` |
| RagGenerator.TagClosePosition | src/rag_pipeline/generator.py:135 | with `body` free of `]`, the first `]]` after the opening ends the body |
| RagGenerator.TagPosition | src/rag_pipeline/generator.py:135 | when no opening starts in `a` and `body` has no `]`, the tag of `a + open + body + close` opens right after `a` and closes right after `body` |
| RagGenerator.TagOpensInAnswer | src/rag_pipeline/generator.py:135 | conversely, an opening that starts inside `a` is where the found tag opens, or it opens earlier |
| RagGenerator.ParseFound | src/rag_pipeline/generator.py:136-143 | once the tag is located, parsing removes the whole match and reads the body |
| RagGenerator.RemoveTrailingTag | src/rag_pipeline/generator.py:143 | removing the matched tag text from `a + tag` leaves `a` when no opening starts in `a` |
| RagGenerator.ParseTrailingTag | src/rag_pipeline/generator.py:135-143 | when no opening starts in `a` and `body` has no `]`, `a + tag(body)` parses to `strip(a)` and the paths of `body` |
| RagGenerator.CitedImagesJoin | src/rag_pipeline/generator.py:139-140 | a `", "`-joined list of clean paths is read back as the same list |
| RagGenerator.ParseRoundTrip | src/rag_pipeline/generator.py:132-145 | round trip: a response ending in a well-formed tag, with no other tag opening before it, parses to its stripped answer and exactly its paths; other brackets in the answer are allowed |
| RagGenerator.StreamAnswer | src/rag_pipeline/generator.py:210-244 | one token event per model chunk, in order, then one metadata event parsed from the concatenated response by the one-shot rule, then one end event |
| RagGenerator.StreamTokensConcat | src/rag_pipeline/generator.py:213-215 | the token payloads concatenate to the full response |
| RetrievalGenerator.MetadataPaths | src/retrieval/generator.py:30-31 | exactly the truthy `image_path` values of the metadata |
| RetrievalGenerator.GenerateAnswer | src/retrieval/generator.py:16-62 | the answer is `Answer`: the apology if nothing was found, the error text if `metadatas` is missing or the model fails, else the response with the image list; the model is consulted exactly when the search found something and `metadatas` is present |
| RetrievalGenerator.NothingFoundApology | src/retrieval/generator.py:16-17 | no result, no `documents` or an empty first hit list gives the apology, whatever the model would say |
| RetrievalGenerator.FailureCases | src/retrieval/generator.py:26-62 | a missing `metadatas` list or a failing model call gives the fixed error text |
| RetrievalGenerator.Paths | src/retrieval/generator.py:28-56 | the listed paths are strictly increasing and are exactly the truthy `image_path` values of the paired (zip-truncated) metadata |
| RetrievalGenerator.AnsweredWithImages | src/retrieval/generator.py:52-56 | with no image path the answer is the response; otherwise response + header + sorted `- path` lines joined by `"\n"` |
| RetrievalGenerator.AnswerExtendsResponse | src/retrieval/generator.py:52-56 | the answer always begins with the model's response |
| RagParser.FirstSuccess | src/rag_pipeline/parser.py:74-78 | the first succeeding attempt in a range, with no success before it |
| RagParser.ParsePageMultimodal | src/rag_pipeline/parser.py:37-91 | the retry loop returns, invokes and sleeps exactly as `Run` says |
| RagParser.BackoffTotal | src/rag_pipeline/parser.py:85-88 | the waits after `k` failures add up to `2^k - 1` seconds |
| RagParser.RunBounds | src/rag_pipeline/parser.py:74-85 | at most `max_retries + 1` invocations; one wait fewer than invocations, so none after the last attempt |
| RagParser.RunSuccess | src/rag_pipeline/parser.py:74-88 | a first success at attempt `k` is returned after `k + 1` invocations and `k` waits |
| RagParser.RunAllFail | src/rag_pipeline/parser.py:74-91 | if every attempt fails: `None` after exactly `max_retries + 1` invocations and `2^max_retries - 1` seconds of waiting |
| RagParser.DefaultAllFail | tests/rag_pipeline/test_parsing.py:59-64 | with the default of three retries, a page that never parses costs 4 invocations and 7 seconds |
| RagParser.ErrorsAlike | src/rag_pipeline/parser.py:80-83 | validation errors and other errors are handled identically |
| RagParser.SameFirstSuccess | src/rag_pipeline/parser.py:80-83 | the first success depends only on which attempts succeed |
| Text.SplitWhitespace | src/rag_pipeline/retriever.py:40-41 | the default tokenizer's tokens are non-empty and whitespace-free |
| Text.SplitWhitespaceKeepsText | src/rag_pipeline/retriever.py:40-41 | the tokens keep every non-whitespace character, in their original order |
| Text.SplitWhitespaceJoin | src/rag_pipeline/retriever.py:40-41 | tokenizing words joined by single spaces gives the words back |
| RagRetriever.ZipDocuments | src/rag_pipeline/retriever.py:90 | texts and metadata are paired positionally; the extras of the longer list are dropped |
| RagRetriever.GetRetriever | src/rag_pipeline/retriever.py:48-117 | result, index file and whether the corpus was read are as `Get` gives them: cache reused with `k` updated when not forced, present and loadable; vector-only for an empty corpus with the file untouched; otherwise a rebuilt ensemble, saved when the save succeeds |
| RagRetriever.ForcedIgnoresCache | src/rag_pipeline/retriever.py:69 | a forced update's retriever does not depend on the index file or on its loading |
| RagRetriever.CacheRoundTrip | src/rag_pipeline/retriever.py:69-109 | a rebuilt and saved index is what the next normal call reuses, without reading the corpus |
| RagRetriever.BuiltIndexCoversStore | src/rag_pipeline/retriever.py:79-100 | a rebuilt index covers exactly the stored chunks, in order, each chunk's tokens spelling its non-whitespace text |
| ApiServices.DocNames | src/api/services.py:19 | exactly the truthy `doc_name` values |
| ApiServices.IndexedDocuments | src/api/services.py:8-21 | strictly increasing, exactly the truthy `doc_name` values, and empty for an empty store |
| ApiServices.DeleteDocument | src/api/services.py:23-57 | no match: the not-found error, nothing changed; otherwise the matching records removed and the rest kept in order, count = number removed, thumbnail directory removed with `thumbnail_deleted` true exactly if it existed, and the retriever and index file as the two-call refresh leaves them |
| ApiServices.DeletionRemovesDocument | src/api/services.py:38-39 | after the delete no record carries the name, the name is no longer listed, `before - after` = number of matches, and every other record stays as often as it was stored |
| ApiServices.RefreshRebuilds | src/api/services.py:50-51 | with chunks left and a working save, the application gets an ensemble over exactly the remaining chunks |
| ApiServices.StaleIndexAfterLastDelete | src/api/services.py:50-51 | as written, deleting the last document leaves its chunks in the application's keyword index |
| ApiServices.CorrectedRefreshForgets | src/api/services.py:50-51 | with the corrected refresh, neither the application's index nor a written index file holds a chunk of the deleted document |
| RagThumbnail.PageFileName | src/rag_pipeline/thumbnail.py:25 | `page_NNN.png` is a plain file name |
| RagThumbnail.PageFileNameInjective | src/rag_pipeline/thumbnail.py:25 | different page numbers give different file names |
| RagThumbnail.ThumbnailPathsDistinct | src/rag_pipeline/thumbnail.py:19-25 | two pages never share a path |
| RagThumbnail.ThumbnailPaths | src/rag_pipeline/thumbnail.py:22-39 | one path per page, `base/doc/page_{i+1:03d}.png`, in page order |
| RagThumbnail.ThumbnailNotOutputDir | src/rag_pipeline/thumbnail.py:19-25 | no thumbnail path is the output directory |
| RagThumbnail.ThumbnailFileName | src/rag_pipeline/thumbnail.py:25 | the file name of path `i` is `page_{i+1:03d}.png` |
| RagThumbnail.Missing | src/rag_pipeline/thumbnail.py:28-38 | the pages that get rendered are exactly those whose path did not exist |
| RagThumbnail.MissingAppend | src/rag_pipeline/thumbnail.py:28-38 | one more page is rendered exactly when its path is absent |
| RagThumbnail.MissingDistinct | src/rag_pipeline/thumbnail.py:33-38 | dropping the present paths keeps a duplicate-free list duplicate-free |
| RagThumbnail.ThumbnailPathsAllDistinct | src/rag_pipeline/thumbnail.py:22-39 | the returned paths are pairwise distinct |
| RagThumbnail.RenderedOnce | src/rag_pipeline/thumbnail.py:33-38 | each missing page is rendered and saved once |
| RagThumbnail.AllExistAfter | src/rag_pipeline/thumbnail.py:28-38 | afterwards every returned path exists |
| RagThumbnail.NextPathFresh | src/rag_pipeline/thumbnail.py:23-25 | page `i`'s path is neither an earlier page's path nor the output directory |
| RagThumbnail.RenderStep | src/rag_pipeline/thumbnail.py:28-38 | one loop step: an existing path is skipped, a new one is saved and recorded |
| RagThumbnail.RenderIfAbsent | src/rag_pipeline/thumbnail.py:28-38 | the loop body saves the page only when its path does not exist |
| RagThumbnail.CreateThumbnails | src/rag_pipeline/thumbnail.py:5-39 | returns one path per page in page order; creates the output directory; saves exactly the pages whose path did not exist |
| PreprocessingThumbnail.PageFileName | src/preprocessing/thumbnail.py:23 | `{doc}_pNNN.png` is non-empty and starts like the document name |
| PreprocessingThumbnail.ThumbnailPaths | src/preprocessing/thumbnail.py:19-27 | one path per page, `out/{doc}_p{i+1:03d}.png`, in page order |
| PreprocessingThumbnail.PageFileNameInjective | src/preprocessing/thumbnail.py:23 | different page numbers give different file names |
| PreprocessingThumbnail.ThumbnailPathsDistinct | src/preprocessing/thumbnail.py:23 | two pages never share a path |
| PreprocessingThumbnail.ThumbnailLocation | src/preprocessing/thumbnail.py:23 | the thumbnail lies directly in the output directory, named `doc_pNNN.png` |
| PreprocessingThumbnail.CreateThumbnails | src/preprocessing/thumbnail.py:5-27 | the output directory exists afterwards; every page is saved, overwriting, and the paths are returned in page order |
| PreprocessingThumbnail.SavedOnce | src/preprocessing/thumbnail.py:19-26 | every page is saved exactly once per call |
| Text.StripFixed | src/rag_pipeline/generator.py:140 | a string without outer whitespace is its own `strip()` |
| Text.SplitOnCount | src/rag_pipeline/generator.py:140 | `split(',')` gives one more piece than there are commas |
| Text.JoinSplitOn | src/rag_pipeline/generator.py:140 | joining the pieces of `split(c)` with `c` gives the string back |
| Text.SplitOnJoin | src/rag_pipeline/generator.py:140 | splitting undoes joining when no piece holds the separator |
| Text.SplitCommaJoin | src/rag_pipeline/generator.py:140 | stripping the pieces of a `", "`-joined list gives the list back |
| Text.IndexFrom | src/rag_pipeline/generator.py:135 | the first occurrence at or after a position, or none |
| Text.RemoveAll | src/rag_pipeline/generator.py:143 | `replace(pat, "")` never lengthens the string |
| Text.RemoveAllAbsent | src/rag_pipeline/generator.py:143 | a string without the pattern is left as it is |
| Text.RemoveAllTrailing | src/rag_pipeline/generator.py:143 | removing a pattern from `a + pat` leaves `a` when no occurrence of the pattern starts inside `a` |
| Text.NatToStringValue | src/rag_pipeline/vector_db.py:98 | the decimal rendering of a number reads back as the number |
| Text.NatToStringInjective | src/rag_pipeline/vector_db.py:98 | different numbers render differently |
| Text.Pad3Value | src/rag_pipeline/thumbnail.py:25 | the zero-padded `:03d` rendering reads back as the number |
| Text.Pad3Injective | src/rag_pipeline/thumbnail.py:25 | different numbers give different `:03d` renderings |
| Ordering.SortedDistinct | src/rag_pipeline/generator.py:36 | `sorted(set(xs))`: strictly increasing, with exactly the elements of `xs` |
| Ordering.IncreasingUnique | src/rag_pipeline/generator.py:36 | a strictly increasing list is determined by its elements |
| Ordering.SortSet | src/retrieval/generator.py:56 | `sorted(list(s))`: strictly increasing, exactly the elements of `s`, empty only for the empty set |
| Paths.BasenameOfJoin | src/rag_pipeline/vector_db.py:51 | `basename(join(dir, f)) == f` for a plain file name |
| Paths.DirnameOfJoin | src/preprocessing/thumbnail.py:23 | `dirname(join(dir, f)) == dir` for a plain file name |
| Paths.DirBaseOfJoin | src/rag_pipeline/vector_db.py:51 | the parent directory name of `dir/name/file` is `name` |
| Paths.PathJoinDistinct | src/rag_pipeline/thumbnail.py:25 | different file names give different paths in one directory |
| Docs.Unmatched | src/api/services.py:38 | deleting by filter keeps exactly the non-matching records |
| Docs.UnmatchedCount | src/api/services.py:33-39 | the delete removes exactly the number of matching records |
| Docs.UnmatchedMultiset | src/api/services.py:38 | the delete keeps every non-matching record exactly as often as it was stored |
| Docs.MatchCountPositive | src/api/services.py:34-36 | some record matches exactly when the match count is positive |
| Docs.Collection.AddDocuments | src/rag_pipeline/vector_db.py:104 | one add call upserts the documents: stored records under the same ids give way, and the new records follow the rest |
| Docs.UpsertIdempotent | src/rag_pipeline/vector_db.py:104 | adding the same batch with ids twice leaves the store as adding it once |
| Docs.UpsertWithoutIds | src/storage/vector_db.py:109 | a batch without ids gets new ids from the store and is appended |
| Docs.Collection.DeleteWhere | src/api/services.py:38 | the collection keeps exactly its non-matching records |
| Docs.FileSystem.RemoveTree | src/api/services.py:44 | the directory and everything under it are gone; nothing else changes |

## Left out

- Foreign calls are not modelled:
  - the Gemini model calls (structured page parsing, answering, streaming);
  - embeddings;
  - Chroma's internals and the pickle format.
  The model's output, each parser attempt's outcome, and load/save success are inputs.
- Docs.Collection.AddDocuments: places a record that replaces one stored under the same id after the records that stay. Where Chroma lists a replaced record is not modelled.
- BM25 scoring and the ensemble's rank fusion happen inside LangChain. A retriever is its corpus, its tokens, `k` and the weights.
- The Korean morphological tokenizer (`Okt`) is a foreign library. Only the fallback `text.split()` tokenizer is modelled.
- The asynchronous parser wrapper `parse_page_multimodal_async` (a semaphore and a thread offload) is left out.
- Timing, prints and log output are left out: the streaming generator's timers, the parser's retry messages, and the retriever's progress bar.
- The prompt texts and query expansion are left out. `expanded_query` is an input of `RagGenerator.StreamAnswer`.
- The module-level caches of the vector store and the embedding function are left out. Every call receives the store.
- `parse_page_multimodal`'s PDF encoding and message construction (src/rag_pipeline/parser.py:51-72) are left out. They only shape the request.
- RagGenerator.GetImagePaths: skips a truthy `image_path` that is not a string. Python would add it, and `sorted` could then raise on mixed types.
- RetrievalGenerator.GenerateAnswer: has the same omission for `image_path`. It also does not model a `None` metadata entry, which Python would turn into the error text through the `except`.
- ApiServices.IndexedDocuments: skips a truthy `doc_name` that is not a string. It also does not model a `None` metadata entry, on which `metadata.get` raises `AttributeError`.
- RagGenerator.IsNoneWord: applies `str.lower()` to ASCII letters only. No other code point lowers to `n`, `o` or `e`, so the comparison with `"none"` is unaffected.
- RagRetriever.GetRetriever: does not model a `None` metadata entry returned by the store. It also does not model the creation of the index file's parent directory.
- ApiServices.DeleteDocument: both `get_retriever` calls share one "load succeeds" flag and one "save succeeds" flag.
- Text.SplitWhitespace: splits on the code points Python's `str.isspace` accepts, as listed in `Text.IsSpace`. There is no Unicode database.
- `src/storage/vector_db.py` imports `PageContent` from `src/parsing/schema.py`, which has no `keywords` or `summary`. Those two fields are read at lines 71 and 78 anyway, so the legacy step is modelled against the richer record of `src/rag_pipeline/schema.py`.
- Two tests are stale and not followed. One expects a `doc_name` of `my_doc` and no `doc_id` (tests/rag_pipeline/test_storage.py:110-120). The others expect functions that the modules do not define.

## Findings

| source | as written | input that shows it | evidently intended | confidence | as-written member | corrected member |
|---|---|---|---|---|---|---|
| src/api/services.py:50-51 | a forced `get_retriever` whose result is dropped, then a normal `get_retriever` that loads the index file; a forced rebuild over an empty collection returns before writing the file | delete the only document of a collection whose index file holds its chunks: the second call loads that stale file, and the application's keyword retriever still returns the deleted chunks | after a deletion the application's keyword index, and any index file, hold only the remaining chunks | high, not executed | ApiServices.StaleIndexAfterLastDelete | ApiServices.CorrectedRefreshForgets |
