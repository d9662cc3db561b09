/**
 * Answer post-processing of the retrieval-augmented generator: the context handed to the
 * model (one block per retrieved document, headed by its image source), the distinct sorted
 * image paths of the retrieved documents, and the parsing of the trailing
 * `[[Cited Images: p1, p2, ...]]` tag out of the model's response, in its one-shot and its
 * streaming form. The model's response is an input.
 */
module RagGenerator {
  import opened Wrappers
  import opened Text
  import opened Docs
  import opened Ordering

  // ---------------------------------------------------------------- context blocks

  /** `doc.metadata.get('image_path', 'N/A')` as an f-string renders it. */
  function SourceLabel(m: Metadata): string {
    if "image_path" in m then Show(m["image_path"]) else "N/A"
  }

  /** `f"[Image Source: {image_path}]\n{doc.page_content}"`. */
  function Block(d: Document): string {
    "[Image Source: " + SourceLabel(d.metadata) + "]\n" + d.pageContent
  }

  function Blocks(docs: seq<Document>): (bs: seq<string>)
    ensures |bs| == |docs| && forall k :: 0 <= k < |docs| ==> bs[k] == Block(docs[k])
  {
    seq(|docs|, k requires 0 <= k < |docs| => Block(docs[k]))
  }

  /** `format_docs(docs)`: the blocks, in document order, joined by a blank line. */
  method FormatDocs(docs: seq<Document>) returns (context: string)
    ensures context == Join(Blocks(docs), "\n\n")
  {
    var formatted: seq<string> := [];
    for i := 0 to |docs|
      invariant |formatted| == i
      invariant forall k :: 0 <= k < i ==> formatted[k] == Block(docs[k])
    {
      var content := "[Image Source: " + SourceLabel(docs[i].metadata) + "]\n" + docs[i].pageContent;
      formatted := formatted + [content];
    }
    assert formatted == Blocks(docs);
    context := Join(formatted, "\n\n");
  }

  /** The label is `N/A` when the key is absent, and otherwise only when the stored value renders as `N/A`. */
  lemma SourceLabelAbsent(m: Metadata)
    ensures SourceLabel(m) == "N/A" <==> "image_path" !in m || Show(m["image_path"]) == "N/A"
    ensures "image_path" in m && m["image_path"].VStr? ==> SourceLabel(m) == m["image_path"].str
  {
  }

  /** A block starts with the source header and ends with the document's content unchanged. */
  lemma BlockParts(d: Document)
    ensures var b := Block(d);
      |b| >= 15 + |d.pageContent|
      && b[..15] == "[Image Source: "
      && b[|b| - |d.pageContent|..] == d.pageContent
  {
    var b := Block(d);
    assert b == "[Image Source: " + (SourceLabel(d.metadata) + "]\n") + d.pageContent;
  }

  /** No documents give an empty context; otherwise the first block, a blank line, and the rest. */
  lemma FormatDocsShape(docs: seq<Document>)
    ensures docs == [] ==> Join(Blocks(docs), "\n\n") == ""
    ensures |docs| == 1 ==> Join(Blocks(docs), "\n\n") == Block(docs[0])
    ensures |docs| >= 2 ==> Join(Blocks(docs), "\n\n") == Block(docs[0]) + "\n\n" + Join(Blocks(docs[1..]), "\n\n")
  {
    if |docs| >= 2 {
      assert Blocks(docs)[1..] == Blocks(docs[1..]);
    }
  }

  // ---------------------------------------------------------------- image paths

  /** The truthy string `image_path` values of the documents, in order, repeats kept. */
  function ImagePathValues(docs: seq<Document>): (ps: seq<string>)
    ensures forall p :: p in ps <==> exists i :: 0 <= i < |docs| && TruthyString(docs[i].metadata, "image_path") == Some(p)
  {
    if docs == [] then []
    else
      var init, v := docs[..|docs| - 1], TruthyString(docs[|docs| - 1].metadata, "image_path");
      assert forall i :: 0 <= i < |init| ==> init[i] == docs[i];
      ImagePathValues(init) + if v.Some? then [v.value] else []
  }

  lemma ImagePathValuesSnoc(docs: seq<Document>, i: nat)
    requires i < |docs|
    ensures var v := TruthyString(docs[i].metadata, "image_path");
      ImagePathValues(docs[..i + 1]) == ImagePathValues(docs[..i]) + if v.Some? then [v.value] else []
  {
    assert docs[..i + 1][..i] == docs[..i];
  }

  /**
   * `get_image_paths(docs)`: the distinct truthy `image_path` values, sorted. The result is
   * strictly increasing and holds exactly the paths some document carries.
   */
  method GetImagePaths(docs: seq<Document>) returns (paths: seq<string>)
    ensures paths == SortedDistinct(ImagePathValues(docs))
    ensures Increasing(paths)
    ensures forall p :: p in paths <==> exists i :: 0 <= i < |docs| && TruthyString(docs[i].metadata, "image_path") == Some(p)
  {
    var imagePaths: set<string> := {};
    for i := 0 to |docs|
      invariant forall p :: p in imagePaths <==> p in ImagePathValues(docs[..i])
    {
      ImagePathValuesSnoc(docs, i);
      var v := TruthyString(docs[i].metadata, "image_path");
      if v.Some? {
        imagePaths := imagePaths + {v.value};
      }
    }
    assert docs[..|docs|] == docs;
    paths := SortSet(imagePaths);
    IncreasingUnique(paths, SortedDistinct(ImagePathValues(docs)));
  }

  // ---------------------------------------------------------------- the cited-images tag

  const CitedOpen: string := "[[Cited Images: "
  const CitedClose: string := "]]"

  /** Where the tag sits: its opening text starts at `start`, its closing `]]` at `close`. */
  datatype Tag = Tag(start: nat, close: nat)

  /** The response holds an opening text followed, somewhere after it, by `]]`. */
  ghost predicate HasCitedTag(s: string) {
    exists p, c :: OccursAt(s, CitedOpen, p) && p + |CitedOpen| <= c && OccursAt(s, CitedClose, c)
  }

  /**
   * `re.search(r"\[\[Cited Images: (.*?)\]\]", s, re.DOTALL)`: the leftmost opening text, then
   * the nearest `]]` after it; the body in between may hold newlines.
   */
  function FindTag(s: string): Option<Tag> {
    match IndexFrom(s, CitedOpen, 0)
    case None => None
    case Some(p) =>
      match IndexFrom(s, CitedClose, p + |CitedOpen|)
      case None => None
      case Some(c) => Some(Tag(p, c))
  }

  /**
   * The tag found is the leftmost opening text with the nearest `]]` after it, and there is
   * none exactly when no opening text is followed by a `]]`.
   */
  lemma FindTagSpec(s: string)
    ensures var r := FindTag(s);
      r.Some? ==> var t := r.value;
        OccursAt(s, CitedOpen, t.start) && t.start + |CitedOpen| <= t.close && OccursAt(s, CitedClose, t.close)
        && (forall i :: 0 <= i < t.start ==> !OccursAt(s, CitedOpen, i))
        && (forall j :: t.start + |CitedOpen| <= j < t.close ==> !OccursAt(s, CitedClose, j))
    ensures FindTag(s).None? <==> !HasCitedTag(s)
  {
    var o := IndexFrom(s, CitedOpen, 0);
    if o.Some? {
      var p := o.value;
      if IndexFrom(s, CitedClose, p + |CitedOpen|).None? {
        forall q, c | OccursAt(s, CitedOpen, q) && q + |CitedOpen| <= c
          ensures !OccursAt(s, CitedClose, c)
        {
          assert p <= q;
        }
      } else {
        var c := IndexFrom(s, CitedClose, p + |CitedOpen|).value;
        assert OccursAt(s, CitedOpen, p) && p + |CitedOpen| <= c && OccursAt(s, CitedClose, c);
      }
    }
  }

  /** ASCII lower case; no other code point lowers to `n`, `o` or `e`. */
  function LowerAscii(c: char): char {
    if 'A' <= c <= 'Z' then (c as int + 32) as char else c
  }

  /** `s.lower() == "none"`. */
  predicate IsNoneWord(s: string) {
    |s| == 4 && LowerAscii(s[0]) == 'n' && LowerAscii(s[1]) == 'o' && LowerAscii(s[2]) == 'n' && LowerAscii(s[3]) == 'e'
  }

  /** `[] if body.lower() == "none" else [img.strip() for img in body.split(',')]`. */
  function CitedImages(body: string): seq<string> {
    if IsNoneWord(body) then [] else StripAll(SplitOn(body, ','))
  }

  /** The answer text and the cited image paths. */
  datatype Parsed = Parsed(answer: string, imagePaths: seq<string>)

  /**
   * The parsing step of `generate_answer_with_rag`: without a tag the response is the answer
   * and nothing is cited; with one, the tag text is removed everywhere it occurs, the rest is
   * stripped, and the body gives the cited paths.
   */
  function ParseResponse(response: string): Parsed {
    match FindTag(response)
    case None => Parsed(response, [])
    case Some(t) => ParseAt(response, t.start, t.close)
  }

  /** The answer and the paths of a response whose tag opens at `start` and closes at `close`. */
  function ParseAt(response: string, start: nat, close: nat): Parsed
    requires start + |CitedOpen| <= close && close + |CitedClose| <= |response|
  {
    var body := response[start + |CitedOpen|..close];
    var whole := response[start..close + |CitedClose|];
    Parsed(Strip(RemoveAll(response, whole)), CitedImages(body))
  }

  /** A response without a tag is returned unchanged and cites nothing. */
  lemma UntaggedResponse(response: string)
    requires !HasCitedTag(response)
    ensures ParseResponse(response) == Parsed(response, [])
  {
    FindTagSpec(response);
  }

  /** The list is empty exactly when the body is a spelling of `none`. */
  lemma CitedImagesEmpty(body: string)
    ensures CitedImages(body) == [] <==> IsNoneWord(body)
  {
  }

  /** Otherwise there is one path per comma-separated piece, each the piece stripped. */
  lemma CitedImagesPieces(body: string)
    requires !IsNoneWord(body)
    ensures |CitedImages(body)| == Count(body, ',') + 1
    ensures forall k :: 0 <= k < |CitedImages(body)| ==> CitedImages(body)[k] == Strip(SplitOn(body, ',')[k])
  {
    SplitOnCount(body, ',');
  }

  /** The tag is found from the two searches it is made of. */
  lemma FindTagFrom(s: string, p: nat, c: nat)
    requires IndexFrom(s, CitedOpen, 0) == Some(p)
    requires IndexFrom(s, CitedClose, p + |CitedOpen|) == Some(c)
    ensures FindTag(s) == Some(Tag(p, c))
  {
  }

  /**
   * No opening text starts inside the answer part `a`, not even one that runs on into the tag
   * after it. An answer may hold other brackets, such as `[1]` or `[Image Source: p]`.
   */
  predicate NoOpeningIn(a: string) {
    forall i :: 0 <= i < |a| ==> !OccursAt(a + CitedOpen, CitedOpen, i)
  }

  /** An answer without any `[` has no opening text in it. */
  lemma NoBracketNoOpening(a: string)
    requires '[' !in a
    ensures NoOpeningIn(a)
  {
    forall i | 0 <= i < |a| ensures !OccursAt(a + CitedOpen, CitedOpen, i) {
      assert (a + CitedOpen)[i] == a[i];
    }
  }

  /** In `a + CitedOpen + body + CitedClose`, the first opening text follows `a`. */
  lemma TagOpenPosition(a: string, body: string)
    requires NoOpeningIn(a)
    ensures IndexFrom(a + CitedOpen + body + CitedClose, CitedOpen, 0) == Some(|a|)
  {
    AppendAssoc(a + CitedOpen, body, CitedClose);
    IndexAfterPrefix(a, CitedOpen, body + CitedClose);
  }

  /**
   * In `a + CitedOpen + body + CitedClose`, the first `]]` at or after `from`, the end of the
   * opening text, is at `at`, the end of `body`.
   */
  lemma TagClosePosition(a: string, body: string, from: nat, at: nat)
    requires ']' !in body && from == |a| + |CitedOpen| && at == from + |body|
    ensures IndexFrom(a + CitedOpen + body + CitedClose, CitedClose, from) == Some(at)
  {
    IndexAfterBody(a + CitedOpen, body, CitedClose, from, at);
  }

  /** Where the tag of `a + CitedOpen + body + CitedClose` sits. */
  lemma TagPosition(a: string, body: string)
    requires NoOpeningIn(a) && ']' !in body
    ensures FindTag(a + CitedOpen + body + CitedClose) == Some(Tag(|a|, |a| + |CitedOpen| + |body|))
  {
    var from := |a| + |CitedOpen|;
    TagOpenPosition(a, body);
    TagClosePosition(a, body, from, from + |body|);
    FindTagFrom(a + CitedOpen + body + CitedClose, |a|, from + |body|);
  }

  /**
   * The hypothesis on the answer cannot be dropped: an opening text that starts at `i` inside
   * `a` is where the tag found opens, or the tag opens even earlier.
   */
  lemma TagOpensInAnswer(a: string, body: string, i: nat)
    requires i < |a| && OccursAt(a + CitedOpen, CitedOpen, i)
    ensures var s := a + CitedOpen + body + CitedClose;
      FindTag(s).Some? && FindTag(s).value.start <= i
  {
    var s := a + CitedOpen + body + CitedClose;
    var c := |a| + |CitedOpen| + |body|;
    assert s[i..i + |CitedOpen|] == (a + CitedOpen)[i..i + |CitedOpen|];
    assert OccursAt(s, CitedOpen, i);
    assert s[c..c + |CitedClose|] == CitedClose;
    assert OccursAt(s, CitedClose, c);
    var p := IndexFrom(s, CitedOpen, 0).value;
    assert p <= i;
    assert IndexFrom(s, CitedClose, p + |CitedOpen|).Some?;
  }

  /** What parsing makes of a response once its tag is located. */
  lemma ParseFound(s: string, t: Tag)
    requires FindTag(s) == Some(t)
    ensures t.start + |CitedOpen| <= t.close && t.close + |CitedClose| <= |s|
    ensures ParseResponse(s) == ParseAt(s, t.start, t.close)
  {
    FindTagSpec(s);
  }

  /** Removing the trailing tag text leaves the answer part when no opening text starts in it. */
  lemma RemoveTrailingTag(a: string, body: string)
    requires NoOpeningIn(a)
    ensures RemoveAll(a + CitedOpen + body + CitedClose, CitedOpen + body + CitedClose) == a
  {
    var whole := CitedOpen + body + CitedClose;
    assert whole == CitedOpen + (body + CitedClose);
    NoOccurrenceExtends(a, CitedOpen, body + CitedClose);
    Slice4(a, CitedOpen, body, CitedClose);
    RemoveAllTrailing(a, whole);
  }

  /** Parsing `a + CitedOpen + body + CitedClose`: the answer is `a` stripped, the body gives the paths. */
  lemma ParseTrailingTag(a: string, body: string)
    requires NoOpeningIn(a) && ']' !in body
    ensures ParseResponse(a + CitedOpen + body + CitedClose) == Parsed(Strip(a), CitedImages(body))
  {
    var s := a + CitedOpen + body + CitedClose;
    var c := |a| + |CitedOpen| + |body|;
    TagPosition(a, body);
    ParseFound(s, Tag(|a|, c));
    ParseAtTrailing(a, body, c);
  }

  /** The parse of `a + CitedOpen + body + CitedClose` at the tag that closes at `c`, the end of `body`. */
  lemma ParseAtTrailing(a: string, body: string, c: nat)
    requires NoOpeningIn(a) && c == |a| + |CitedOpen| + |body|
    ensures ParseAt(a + CitedOpen + body + CitedClose, |a|, c) == Parsed(Strip(a), CitedImages(body))
  {
    var s := a + CitedOpen + body + CitedClose;
    Slice4(a, CitedOpen, body, CitedClose);
    assert s[|a|..c + |CitedClose|] == CitedOpen + body + CitedClose;
    RemoveTrailingTag(a, body);
  }

  /**
   * A comma-and-space separated list of clean paths holds no `]` and is read back as the
   * same list.
   */
  lemma CitedImagesJoin(ps: seq<string>)
    requires |ps| >= 1
    requires forall k :: 0 <= k < |ps| ==> ',' !in ps[k] && ']' !in ps[k] && EdgeFree(ps[k])
    requires !IsNoneWord(Join(ps, ", "))
    ensures ']' !in Join(ps, ", ")
    ensures CitedImages(Join(ps, ", ")) == ps
  {
    JoinExcludes(ps, ", ", ']');
    SplitCommaJoin(ps);
  }

  /**
   * A response that ends with a well-formed tag parses back to its stripped answer and its
   * paths: no opening text starts in the answer, the paths hold no `,` or `]` and no outer
   * whitespace, and the list is not a spelling of `none`.
   */
  lemma ParseRoundTrip(a: string, ps: seq<string>)
    requires NoOpeningIn(a)
    requires |ps| >= 1
    requires forall k :: 0 <= k < |ps| ==> ',' !in ps[k] && ']' !in ps[k] && EdgeFree(ps[k])
    requires !IsNoneWord(Join(ps, ", "))
    ensures ParseResponse(a + CitedOpen + Join(ps, ", ") + CitedClose) == Parsed(Strip(a), ps)
  {
    CitedImagesJoin(ps);
    ParseTrailingTag(a, Join(ps, ", "));
  }

  // ---------------------------------------------------------------- streaming

  /** What the streaming generator yields. */
  datatype Event =
    | Token(payload: string)
    | MetadataEvent(imagePaths: seq<string>, expandedQuery: string, finalAnswer: string)
    | End(message: string)

  /**
   * `generate_answer_with_rag_streaming` once the context is built: one token event per model
   * chunk, in order, accumulating the full response; then one metadata event parsed from the
   * full response by the same rule as the one-shot answer; then the end event.
   */
  method StreamAnswer(chunks: seq<string>, expandedQuery: string) returns (events: seq<Event>)
    ensures |events| == |chunks| + 2
    ensures forall i :: 0 <= i < |chunks| ==> events[i] == Token(chunks[i])
    ensures var parsed := ParseResponse(Concat(chunks));
      events[|chunks|] == MetadataEvent(parsed.imagePaths, expandedQuery, parsed.answer)
    ensures events[|chunks| + 1] == End("Stream ended")
  {
    var fullResponse := "";
    events := [];
    for i := 0 to |chunks|
      invariant fullResponse == Concat(chunks[..i])
      invariant |events| == i
      invariant forall k :: 0 <= k < i ==> events[k] == Token(chunks[k])
    {
      ConcatSnoc(chunks[..i], chunks[i]);
      assert chunks[..i + 1] == chunks[..i] + [chunks[i]];
      fullResponse := fullResponse + chunks[i];
      events := events + [Token(chunks[i])];
    }
    assert chunks[..|chunks|] == chunks;
    var parsed := ParseResponse(fullResponse);
    events := events + [MetadataEvent(parsed.imagePaths, expandedQuery, parsed.answer)];
    events := events + [End("Stream ended")];
  }

  /** The text of the token events, in order. */
  function TokenText(events: seq<Event>): string {
    if events == [] then "" else (if events[0].Token? then events[0].payload else "") + TokenText(events[1..])
  }

  /** The token payloads of a stream concatenate to the full response the metadata was parsed from. */
  lemma {:induction false} StreamTokensConcat(chunks: seq<string>, events: seq<Event>)
    requires |events| >= |chunks|
    requires forall i :: 0 <= i < |chunks| ==> events[i] == Token(chunks[i])
    requires forall i :: |chunks| <= i < |events| ==> !events[i].Token?
    ensures TokenText(events) == Concat(chunks)
  {
    if events != [] {
      if chunks == [] {
        StreamTokensConcat(chunks, events[1..]);
      } else {
        StreamTokensConcat(chunks[1..], events[1..]);
      }
    }
  }
}
