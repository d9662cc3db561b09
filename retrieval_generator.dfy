/**
 * The one-shot answer of the first-generation search service: the retrieved chunk texts
 * become one context string, the truthy `image_path` values of their metadata are collected
 * as a set, the model answers from the context, and the sorted image paths are appended to
 * the answer as a bullet list. The model is a parameter; `None` stands for a call that raised.
 */
module RetrievalGenerator {
  import opened Wrappers
  import opened Text
  import opened Docs
  import opened Ordering

  /** Returned when the search found nothing; the model is not consulted. */
  const Apology: string := "죄송합니다, 관련 정보를 찾을 수 없습니다."

  /** Returned when anything inside the `try` block raises. */
  const Failure: string := "답변을 생성하는 중에 오류가 발생했습니다."

  /** Put between the answer and the image list. */
  const ImagesHeader: string := "\n\n**관련 이미지:**\n"

  /** Put between two chunk texts of the context. */
  const Separator: string := "\n---\n"

  /**
   * The two keys of a Chroma query result that are read: one list per query, each holding
   * the texts (or the metadata) of the hits. `None` is a key that is absent or holds `None`.
   */
  datatype SearchResults = SearchResults(documents: Option<seq<seq<string>>>, metadatas: Option<seq<seq<Metadata>>>)

  /** The guard before the `try`: no result, no `documents`, or no hit for the first query. */
  predicate NothingFound(r: SearchResults) {
    r.documents.None? || r.documents.value == [] || r.documents.value[0] == []
  }

  /** `search_results['metadatas'][0]` raises: the key is absent or holds no list. */
  predicate MetadatasMissing(r: SearchResults) {
    r.metadatas.None? || r.metadatas.value == []
  }

  function Min(a: nat, b: nat): nat {
    if a <= b then a else b
  }

  /** The truthy string `image_path` values of the metadata, in order, repeats kept. */
  function MetadataPaths(metas: seq<Metadata>): (ps: seq<string>)
    ensures forall p :: p in ps <==> exists i :: 0 <= i < |metas| && TruthyString(metas[i], "image_path") == Some(p)
  {
    if metas == [] then []
    else
      var init, v := metas[..|metas| - 1], TruthyString(metas[|metas| - 1], "image_path");
      assert forall i :: 0 <= i < |init| ==> init[i] == metas[i];
      MetadataPaths(init) + if v.Some? then [v.value] else []
  }

  lemma MetadataPathsSnoc(metas: seq<Metadata>, i: nat)
    requires i < |metas|
    ensures var v := TruthyString(metas[i], "image_path");
      MetadataPaths(metas[..i + 1]) == MetadataPaths(metas[..i]) + if v.Some? then [v.value] else []
  {
    assert metas[..i + 1][..i] == metas[..i];
  }

  /** `f"- {path}"` for every path. */
  function Bullets(ps: seq<string>): (bs: seq<string>)
    ensures |bs| == |ps| && forall k :: 0 <= k < |ps| ==> bs[k] == "- " + ps[k]
  {
    seq(|ps|, k requires 0 <= k < |ps| => "- " + ps[k])
  }

  /** The image section appended to the model's answer; nothing when there are no paths. */
  function WithImages(response: string, paths: seq<string>): string {
    if paths == [] then response else response + ImagesHeader + Join(Bullets(paths), "\n")
  }

  /** The answer `generate_answer(query, search_results)` returns. */
  function Answer(query: string, r: SearchResults, llm: (string, string) -> Option<string>): string {
    if NothingFound(r) then Apology
    else if MetadatasMissing(r) then Failure
    else
      match llm(Context(r), query)
      case None => Failure
      case Some(response) => WithImages(response, Paths(r))
  }

  /**
   * `generate_answer`: `consulted` tells whether the model was called. The loop runs over
   * the pairs of `zip(documents, metadatas)`, so it stops at the shorter list.
   */
  method GenerateAnswer(query: string, r: SearchResults, llm: (string, string) -> Option<string>)
    returns (answer: string, consulted: bool)
    ensures answer == Answer(query, r, llm)
    ensures consulted <==> !NothingFound(r) && !MetadatasMissing(r)
  {
    if r.documents.None? || r.documents.value == [] || r.documents.value[0] == [] {
      return Apology, false;
    }
    if r.metadatas.None? || r.metadatas.value == [] {
      return Failure, false;
    }
    var documents := r.documents.value[0];
    var metadatas := r.metadatas.value[0];
    var n := Min(|documents|, |metadatas|);
    var contextParts: seq<string> := [];
    var imagePaths: set<string> := {};
    for i := 0 to n
      invariant contextParts == documents[..i]
      invariant forall p :: p in imagePaths <==> p in MetadataPaths(metadatas[..i])
    {
      MetadataPathsSnoc(metadatas, i);
      assert documents[..i + 1] == documents[..i] + [documents[i]];
      contextParts := contextParts + [documents[i]];
      var v := TruthyString(metadatas[i], "image_path");
      if v.Some? {
        imagePaths := imagePaths + {v.value};
      }
    }
    var contextStr := Join(contextParts, Separator);
    var response := llm(contextStr, query);
    consulted := true;
    if response.None? {
      return Failure, consulted;
    }
    answer := response.value;
    var sorted := SortSet(imagePaths);
    IncreasingUnique(sorted, SortedDistinct(MetadataPaths(metadatas[..n])));
    if imagePaths != {} {
      assert sorted != [] by {
        var p :| p in imagePaths;
        assert p in sorted;
      }
      answer := answer + ImagesHeader + Join(Bullets(sorted), "\n");
    }
  }

  /** Nothing found: the apology, whatever the model would say. */
  lemma NothingFoundApology(query: string, r: SearchResults, llm: (string, string) -> Option<string>)
    requires NothingFound(r)
    ensures Answer(query, r, llm) == Apology
  {
  }

  /** A missing `metadatas` list or a failing model call gives the error message. */
  lemma FailureCases(query: string, r: SearchResults, llm: (string, string) -> Option<string>)
    requires !NothingFound(r)
    ensures MetadatasMissing(r) ==> Answer(query, r, llm) == Failure
    ensures !MetadatasMissing(r) && llm(Context(r), query).None? ==> Answer(query, r, llm) == Failure
  {
  }

  /** The context handed to the model: the paired chunk texts joined by the separator. */
  function Context(r: SearchResults): string
    requires !NothingFound(r) && !MetadatasMissing(r)
  {
    var docs, metas := r.documents.value[0], r.metadatas.value[0];
    Join(docs[..Min(|docs|, |metas|)], Separator)
  }

  /** The image paths of the answer: the distinct truthy paths of the paired metadata, sorted. */
  function Paths(r: SearchResults): (ps: seq<string>)
    requires !NothingFound(r) && !MetadatasMissing(r)
    ensures Increasing(ps)
    ensures forall p :: p in ps <==> exists i :: 0 <= i < Min(|r.documents.value[0]|, |r.metadatas.value[0]|) && TruthyString(r.metadatas.value[0][i], "image_path") == Some(p)
  {
    var docs, metas := r.documents.value[0], r.metadatas.value[0];
    var n := Min(|docs|, |metas|);
    assert forall i :: 0 <= i < n ==> metas[..n][i] == metas[i];
    SortedDistinct(MetadataPaths(metas[..n]))
  }

  /**
   * When the model answers `response`: with no image path the answer is the response as it
   * is; otherwise the response is followed by the header and one `- path` line per distinct
   * path, in sorted order.
   */
  lemma AnsweredWithImages(query: string, r: SearchResults, llm: (string, string) -> Option<string>, response: string)
    requires !NothingFound(r) && !MetadatasMissing(r) && llm(Context(r), query) == Some(response)
    ensures Paths(r) == [] ==> Answer(query, r, llm) == response
    ensures Paths(r) != [] ==> Answer(query, r, llm) == response + ImagesHeader + Join(Bullets(Paths(r)), "\n")
  {
  }

  /** The answer always begins with the model's response, and every listed path is one of the hits'. */
  lemma AnswerExtendsResponse(query: string, r: SearchResults, llm: (string, string) -> Option<string>, response: string)
    requires !NothingFound(r) && !MetadatasMissing(r) && llm(Context(r), query) == Some(response)
    ensures |Answer(query, r, llm)| >= |response| && Answer(query, r, llm)[..|response|] == response
  {
    AnsweredWithImages(query, r, llm, response);
    if Paths(r) != [] {
      var rest := ImagesHeader + Join(Bullets(Paths(r)), "\n");
      assert response + ImagesHeader + Join(Bullets(Paths(r)), "\n") == response + rest;
      assert (response + rest)[..|response|] == response;
    }
  }
}
