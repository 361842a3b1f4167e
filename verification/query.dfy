/**
 * The RAG query processor's `lambda_handler`: validate the query, retrieve
 * passages from the knowledge base, number them into a context, ask the
 * language model for an answer grounded in that context, and return the
 * answer together with one source citation per passage.
 *
 * The knowledge base and the model are the parameters `retrieve` and
 * `generate`; each call made to them is returned, in order, as a `Call`, so
 * that what is (and is not) called is part of the result.
 */
module QueryProcessor {
  import opened Wrappers
  import opened Text

  /** Characters of a passage kept in its excerpt before the ellipsis. */
  const ExcerptLength := 200
  /** The `numberOfResults` asked of every retrieval. */
  const NumberOfResults := 5
  /** The `max_tokens` sent with every generation request. */
  const MaxTokens := 1000

  const QueryRequired := "Query is required"
  const InternalServerError := "Internal server error"
  const NotFoundAnswer := "I could not find relevant information to answer your question."

  /** Headers of every response, the permissive cross-origin one included. */
  const Headers: seq<(string, string)> :=
    [("Content-Type", "application/json"), ("Access-Control-Allow-Origin", "*")]

  /** The fixed text before the context in the prompt. */
  const PromptHead :=
    "Human: You are a helpful AI assistant specializing in AWS services and best practices. "
    + "Answer the following question based on the provided context. "
    + "If the context doesn't contain enough information, say so clearly.\n\nContext:\n"
  /** The fixed text between the context and the query. */
  const QuestionLabel := "\n\nQuestion: "
  /** The fixed text after the query. */
  const PromptTail :=
    "\n\nProvide a clear, concise answer and mention which documents you used. "
    + "Format your response in a helpful way.\n\nAssistant:"

  /** A retrieval result as the knowledge base returns it; any field may be missing. */
  datatype Content = Content(text: Option<string>)
  datatype S3Location = S3Location(uri: Option<string>)
  datatype Location = Location(s3Location: Option<S3Location>)
  datatype RetrievedDoc = RetrievedDoc(content: Option<Content>, location: Option<Location>, score: Option<real>)

  /** One citation in the answer. */
  datatype Source = Source(document: string, score: real, excerpt: string)

  /** The request body: one that cannot be read, or the optional `query` field of one that can. */
  datatype RequestBody = Malformed | Body(query: Option<string>)

  /** One call to a collaborator. */
  datatype Call = Retrieve(query: string, numberOfResults: nat) | Generate(prompt: string, maxTokens: nat)

  datatype ResponseBody = ErrorBody(error: string) | AnswerBody(answer: string, sources: seq<Source>)

  datatype Response = Response(statusCode: int, headers: seq<(string, string)>, body: ResponseBody)

  /** `doc.get('content', {}).get('text', '')`. */
  function DocText(d: RetrievedDoc): string {
    match d.content
    case None => ""
    case Some(c) => c.text.GetOr("")
  }

  /** `doc.get('location', {}).get('s3Location', {}).get('uri', 'Unknown')`. */
  function DocUri(d: RetrievedDoc): string {
    match d.location
    case None => "Unknown"
    case Some(l) =>
      match l.s3Location
      case None => "Unknown"
      case Some(s) => s.uri.GetOr("Unknown")
  }

  /** `doc.get('score', 0)`. */
  function DocScore(d: RetrievedDoc): real {
    d.score.GetOr(0.0)
  }

  /** `text[:200] + '...' if len(text) > 200 else text`. */
  function Excerpt(text: string): string {
    if |text| > ExcerptLength then text[..ExcerptLength] + "..." else text
  }

  /** The citation of one retrieved passage. */
  function SourceOf(d: RetrievedDoc): Source {
    Source(DocUri(d), DocScore(d), Excerpt(DocText(d)))
  }

  /** `f"Document {idx + 1}:{doc_content}"`: the passage at position `idx`, numbered from 1. */
  function ContextPart(idx: nat, d: RetrievedDoc): string {
    "Document " + NatToString(idx + 1) + ":" + DocText(d)
  }

  /** The numbered passages, in retrieval order. */
  function ContextParts(docs: seq<RetrievedDoc>): (parts: seq<string>)
    ensures |parts| == |docs|
  {
    seq(|docs|, i requires 0 <= i < |docs| => ContextPart(i, docs[i]))
  }

  /** `"".join(context_parts)`. */
  function Context(docs: seq<RetrievedDoc>): string {
    Join(ContextParts(docs), "")
  }

  /** The citations, in retrieval order. */
  function Sources(docs: seq<RetrievedDoc>): (sources: seq<Source>)
    ensures |sources| == |docs|
  {
    seq(|docs|, i requires 0 <= i < |docs| => SourceOf(docs[i]))
  }

  /** The prompt sent to the model. */
  function Prompt(context: string, query: string): string {
    PromptHead + context + QuestionLabel + query + PromptTail
  }

  /**
   * The loop over the retrieved passages: one numbered context part and one
   * citation per passage, in retrieval order, the parts then joined with "".
   */
  method AssembleContext(docs: seq<RetrievedDoc>) returns (context: string, sources: seq<Source>)
    ensures |sources| == |docs|
    ensures forall i :: 0 <= i < |docs| ==> sources[i] == SourceOf(docs[i])
    ensures context == Context(docs)
  {
    var contextParts: seq<string> := [];
    sources := [];
    for idx := 0 to |docs|
      invariant |contextParts| == idx && |sources| == idx
      invariant forall i :: 0 <= i < idx ==> contextParts[i] == ContextPart(i, docs[i])
      invariant forall i :: 0 <= i < idx ==> sources[i] == SourceOf(docs[i])
    {
      var doc := docs[idx];
      var docContent := DocText(doc);
      contextParts := contextParts + ["Document " + NatToString(idx + 1) + ":" + docContent];
      var excerpt := if |docContent| > ExcerptLength then docContent[..ExcerptLength] + "..." else docContent;
      sources := sources + [Source(DocUri(doc), DocScore(doc), excerpt)];
    }
    assert contextParts == ContextParts(docs);
    context := Join(contextParts, "");
  }

  /**
   * The handler. A request that cannot be read fails with 500; a missing or
   * empty query is refused with 400 before anything is called; otherwise the
   * knowledge base is asked once, an empty result is answered with the fixed
   * not-found text and no citations without calling the model, and
   * otherwise the model is asked once with the prompt built from the
   * numbered passages, and its text is returned verbatim with the citations.
   * Any failed call ends in a 500 that says nothing about the failure.
   */
  method LambdaHandler(
    request: RequestBody,
    retrieve: string -> Outcome<seq<RetrievedDoc>>,
    generate: string -> Outcome<string>)
    returns (response: Response, calls: seq<Call>)
    ensures response.headers == Headers
    ensures response.statusCode in {200, 400, 500}
    ensures response.body.ErrorBody? <==> response.statusCode != 200
    ensures response.statusCode == 500 ==> response.body == ErrorBody(InternalServerError)
    ensures response.statusCode == 400 <==> request.Body? && request.query.GetOr("") == ""
    ensures request.Malformed? ==> response.statusCode == 500 && calls == []
    ensures request.Body? && request.query.GetOr("") == "" ==>
      response.body == ErrorBody(QueryRequired) && calls == []
    ensures request.Body? && request.query.GetOr("") != "" ==>
      var query := request.query.value;
      |calls| >= 1 && calls[0] == Retrieve(query, NumberOfResults)
      && match retrieve(query)
         case Failed => response.statusCode == 500 && calls == [Retrieve(query, NumberOfResults)]
         case Ok(docs) =>
           if docs == [] then
             response == Response(200, Headers, AnswerBody(NotFoundAnswer, [])) && calls == [Retrieve(query, NumberOfResults)]
           else
             var prompt := Prompt(Context(docs), query);
             calls == [Retrieve(query, NumberOfResults), Generate(prompt, MaxTokens)]
             && match generate(prompt)
                case Failed => response.statusCode == 500
                case Ok(answer) => response == Response(200, Headers, AnswerBody(answer, Sources(docs)))
  {
    calls := [];
    var internalError := Response(500, Headers, ErrorBody(InternalServerError));
    if request.Malformed? {
      return internalError, calls;
    }
    var userQuery := request.query.GetOr("");
    if userQuery == "" {
      return Response(400, Headers, ErrorBody(QueryRequired)), calls;
    }
    calls := calls + [Retrieve(userQuery, NumberOfResults)];
    var retrieved := retrieve(userQuery);
    if retrieved.Failed? {
      return internalError, calls;
    }
    var retrievedDocs := retrieved.value;
    if retrievedDocs == [] {
      return Response(200, Headers, AnswerBody(NotFoundAnswer, [])), calls;
    }
    var context, sources := AssembleContext(retrievedDocs);
    var prompt := Prompt(context, userQuery);
    calls := calls + [Generate(prompt, MaxTokens)];
    var generated := generate(prompt);
    if generated.Failed? {
      return internalError, calls;
    }
    assert sources == Sources(retrievedDocs);
    response := Response(200, Headers, AnswerBody(generated.value, sources));
  }

  /**
   * The excerpt rule: a passage over 200 characters is cut to its first 200
   * and marked with "...", 203 characters in all; a shorter one is kept
   * whole. Either way the excerpt starts with the passage's first
   * `min(200, len)` characters.
   */
  lemma ExcerptRule(text: string)
    ensures |text| > ExcerptLength ==> Excerpt(text) == text[..ExcerptLength] + "..." && |Excerpt(text)| == 203
    ensures |text| <= ExcerptLength ==> Excerpt(text) == text
    ensures Prefix(text, ExcerptLength) <= Excerpt(text)
  {
  }

  /**
   * Missing fields get defaults, at every level of nesting: no content, or
   * content without text, reads as the empty passage; no location, a
   * location without `s3Location`, or an `s3Location` without `uri` cites the
   * document "Unknown"; no score cites 0. Present values are cited unchanged.
   */
  lemma SourceDefaults(d: RetrievedDoc)
    ensures d.content.None? ==> DocText(d) == "" && SourceOf(d).excerpt == ""
    ensures d.content.Some? && d.content.value.text.None? ==> DocText(d) == "" && SourceOf(d).excerpt == ""
    ensures d.content.Some? && d.content.value.text.Some? ==> DocText(d) == d.content.value.text.value
    ensures d.location.None? ==> SourceOf(d).document == "Unknown"
    ensures d.location.Some? && d.location.value.s3Location.None? ==> SourceOf(d).document == "Unknown"
    ensures d.location.Some? && d.location.value.s3Location.Some? && d.location.value.s3Location.value.uri.None?
      ==> SourceOf(d).document == "Unknown"
    ensures d.location.Some? && d.location.value.s3Location.Some? && d.location.value.s3Location.value.uri.Some?
      ==> SourceOf(d).document == d.location.value.s3Location.value.uri.value
    ensures d.score.None? ==> SourceOf(d).score == 0.0
    ensures d.score.Some? ==> SourceOf(d).score == d.score.value
  {
  }

  /** One more passage adds its numbered part, numbered by its position, at the end of the context. */
  lemma {:induction false} ContextSnoc(docs: seq<RetrievedDoc>, d: RetrievedDoc)
    ensures Context(docs + [d]) == Context(docs) + ContextPart(|docs|, d)
  {
    assert ContextParts(docs + [d]) == ContextParts(docs) + [ContextPart(|docs|, d)];
    JoinSnoc(ContextParts(docs), ContextPart(|docs|, d), "");
  }

  /**
   * Passage `i` appears in the context as "Document {i+1}:" and its text,
   * right after the parts of the passages before it.
   */
  lemma {:induction false} ContextInOrder(docs: seq<RetrievedDoc>, i: nat)
    requires i < |docs|
    ensures Context(docs[..i]) + ContextPart(i, docs[i]) <= Context(docs)
    decreases |docs|
  {
    var init := docs[..|docs| - 1];
    assert docs == init + [docs[|docs| - 1]];
    ContextSnoc(init, docs[|docs| - 1]);
    if i < |docs| - 1 {
      assert docs[..i] == init[..i];
      ContextInOrder(init, i);
    }
  }

  /**
   * The prompt is the fixed instruction, the context, the label
   * "Question: " with the query verbatim, and the fixed closing
   * instruction, in that order.
   */
  lemma PromptLayout(context: string, query: string)
    ensures var p := Prompt(context, query);
      var c := |PromptHead|;
      var q := c + |context| + |QuestionLabel|;
      |p| == q + |query| + |PromptTail|
      && p[..c] == PromptHead
      && p[c..c + |context|] == context
      && p[c + |context|..q] == QuestionLabel
      && p[q..q + |query|] == query
      && p[q + |query|..] == PromptTail
  {
  }
}
