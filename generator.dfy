/** `AnswerGenerator`: the reference check against the retrieved pages and diagrams, and the
    handling of the model's reply in `generate_structured_answer`. The model call is a
    parameter `complete(query, context, pages, mediaFiles)` standing for the reply to the
    prompt built from those; JSON parsing is a parameter `parse`. */
module Generator {
  import opened Wrappers
  import opened PyText
  import opened Json
  import opened Models
  import opened Reranker

  /** What `validate_answer_against_context` raises: a `KeyError` for a missing key, a
      `ValueError` with its message for a reference not retrieved. */
  datatype CheckError = KeyError(key: string) | ValueError(message: string)

  /** The first item not among `allowed`, if any. */
  function FirstNotIn(items: seq<string>, allowed: seq<string>): (r: Option<string>)
    ensures r.None? <==> forall i :: 0 <= i < |items| ==> items[i] in allowed
    ensures r.Some? ==> exists i :: (0 <= i < |items| && items[i] == r.value && r.value !in allowed &&
      forall j :: 0 <= j < i ==> items[j] in allowed)
  {
    if items == [] then None
    else if items[0] !in allowed then Some(items[0])
    else
      var rest := FirstNotIn(items[1..], allowed);
      if rest.Some? then
        var i :| 0 <= i < |items[1..]| && items[1..][i] == rest.value && rest.value !in allowed &&
          forall j :: 0 <= j < i ==> items[1..][j] in allowed;
        assert items[i + 1] == rest.value;
        rest
      else rest
  }

  function LinkMessage(p: string): string {
    "Hallucinated page link: " + p
  }

  function ImageMessage(img: string): string {
    "Hallucinated image reference: " + img
  }

  /** `validate_answer_against_context(model_output, context, pages, media_files)`: links
      first, then images; the word check that follows has no effect, but the keys it reads
      must be there. On success the output comes back unchanged. */
  function ValidateAnswerAgainstContext(output: AnswerDict, context: string, pages: seq<string>, mediaFiles: seq<string>): (r: Result<AnswerDict, CheckError>)
    ensures r.Ok? ==> r.value == output
    ensures r.Ok? <==>
      output.links.Some? && output.media.Some? && output.media.value.images.Some? &&
      output.answer.Some? && output.answer.value.summary.Some? && output.answer.value.steps.Some? &&
      (forall i :: 0 <= i < |output.links.value| ==> output.links.value[i] in pages) &&
      (forall i :: 0 <= i < |output.media.value.images.value| ==> output.media.value.images.value[i] in mediaFiles)
  {
    if output.links.None? then Err(KeyError("links"))
    else match FirstNotIn(output.links.value, pages)
    case Some(p) => Err(ValueError(LinkMessage(p)))
    case None =>
      if output.media.None? then Err(KeyError("media"))
      else if output.media.value.images.None? then Err(KeyError("images"))
      else match FirstNotIn(output.media.value.images.value, mediaFiles)
      case Some(img) => Err(ValueError(ImageMessage(img)))
      case None =>
        if output.answer.None? then Err(KeyError("answer"))
        else if output.answer.value.summary.None? then Err(KeyError("summary"))
        else if output.answer.value.steps.None? then Err(KeyError("steps"))
        else Ok(output)
  }

  /** A link not among the pages is reported before any image is looked at: the error names
      the first such link. */
  lemma LinksCheckedFirst(output: AnswerDict, context: string, pages: seq<string>, mediaFiles: seq<string>, mediaFiles2: seq<string>)
    requires output.links.Some? && exists i :: 0 <= i < |output.links.value| && output.links.value[i] !in pages
    ensures ValidateAnswerAgainstContext(output, context, pages, mediaFiles) == ValidateAnswerAgainstContext(output, context, pages, mediaFiles2)
    ensures var r := ValidateAnswerAgainstContext(output, context, pages, mediaFiles);
      r.Err? && exists i :: (0 <= i < |output.links.value| && output.links.value[i] !in pages &&
        r.error == ValueError(LinkMessage(output.links.value[i])) &&
        forall j :: 0 <= j < i ==> output.links.value[j] in pages)
  {
  }

  /** The context plays no part in the verdict. */
  lemma ContextIgnored(output: AnswerDict, c1: string, c2: string, pages: seq<string>, mediaFiles: seq<string>)
    ensures ValidateAnswerAgainstContext(output, c1, pages, mediaFiles) == ValidateAnswerAgainstContext(output, c2, pages, mediaFiles)
  {
  }

  /** Why `generate_structured_answer` raises: neither the reply nor its extraction is JSON,
      or the JSON does not validate as an `AnswerResponse`. */
  datatype AnswerError = NotJson(cleaned: string) | InvalidAnswer(data: Json)

  /** `json.loads(raw)`, falling back to the brace extraction only on a decode error. */
  function ParseAnswerJson(raw: string, parse: string -> Option<Json>): (r: Option<Json>)
    ensures parse(raw).Some? ==> r == parse(raw)
    ensures parse(raw).None? ==> r == parse(ExtractBraces(raw))
  {
    match parse(raw)
    case Some(j) => Some(j)
    case None => parse(ExtractBraces(raw))
  }

  /** The reply handling of `generate_structured_answer`: parse, then `AnswerResponse(**json)`;
      the result is returned as validated, with no filtering of links or images. */
  function ParseAnswerReply(raw: string, parse: string -> Option<Json>): (r: Result<AnswerResponse, AnswerError>)
    ensures r.Ok? <==> ParseAnswerJson(raw, parse).Some? && ToAnswerResponse(ParseAnswerJson(raw, parse).value).Some?
    ensures r.Ok? ==> ToAnswerResponse(ParseAnswerJson(raw, parse).value) == Some(r.value)
    ensures ParseAnswerJson(raw, parse).None? ==> r == Err(NotJson(ExtractBraces(raw)))
  {
    match ParseAnswerJson(raw, parse)
    case None => Err(NotJson(ExtractBraces(raw)))
    case Some(data) =>
      match ToAnswerResponse(data)
      case None => Err(InvalidAnswer(data))
      case Some(a) => Ok(a)
  }

  /** `generate_structured_answer(query, context, pages, media_files)`. */
  function GenerateStructuredAnswer(query: string, context: string, pages: seq<string>, mediaFiles: seq<string>,
                                    complete: (string, string, seq<string>, seq<string>) -> string,
                                    parse: string -> Option<Json>): Result<AnswerResponse, AnswerError>
  {
    ParseAnswerReply(complete(query, context, pages, mediaFiles), parse)
  }

  /** Whatever JSON object the reply parses to, once it validates the answer's links and
      images are exactly the string lists of its `links` and `media.images` keys, whether
      or not they are among `pages` and `mediaFiles`: nothing is filtered. */
  lemma GenerateUnfiltered(query: string, context: string, pages: seq<string>, mediaFiles: seq<string>,
                           complete: (string, string, seq<string>, seq<string>) -> string,
                           parse: string -> Option<Json>, data: Json)
    requires ParseAnswerJson(complete(query, context, pages, mediaFiles), parse) == Some(data)
    requires ToAnswerResponse(data).Some?
    ensures GenerateStructuredAnswer(query, context, pages, mediaFiles, complete, parse) == Ok(ToAnswerResponse(data).value)
    ensures var a := ToAnswerResponse(data).value;
      data.JObj? && "links" in data.fields && data.fields["links"].JArr? &&
      AsStrings(data.fields["links"].items) == Some(a.links) &&
      "media" in data.fields && data.fields["media"].JObj? && "images" in data.fields["media"].fields &&
      data.fields["media"].fields["images"].JArr? &&
      AsStrings(data.fields["media"].fields["images"].items) == Some(a.media.images)
  {
  }

  /** A reply that parses directly is used as it is, whatever its extraction would give. */
  lemma DirectParseFirst(raw: string, parse: string -> Option<Json>, data: Json)
    requires parse(raw) == Some(data)
    ensures ParseAnswerReply(raw, parse) == match ToAnswerResponse(data) case Some(a) => Ok(a) case None => Err(InvalidAnswer(data))
  {
  }

  /** A reply whose JSON, parsed directly or after extraction, is the dump of a response
      gives exactly that response: its links and images are those of the reply, none
      filtered out. */
  lemma ParseAnswerReplyDump(raw: string, parse: string -> Option<Json>, a: AnswerResponse)
    requires ParseAnswerJson(raw, parse) == Some(AnswerResponseToJson(a))
    ensures ParseAnswerReply(raw, parse) == Ok(a)
    ensures ParseAnswerReply(raw, parse).value.links == a.links
    ensures ParseAnswerReply(raw, parse).value.media.images == a.media.images
  {
    AnswerResponseRoundTrip(a);
  }
}
