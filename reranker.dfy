/** `LlamaReranker.score_passages`: the prompt's passage blocks and the handling of the
    model's reply. The model call is a parameter `complete(query, passagesBlock)` standing
    for the reply to the prompt built from the query and the passage blocks; JSON parsing
    is a parameter `parse`. */
module Reranker {
  import opened Wrappers
  import opened PyText
  import opened Json
  import opened Models
  import opened Records

  /** How much of each passage's text goes into the prompt. */
  const PassageTextLimit: nat := 1000
  const BlockSeparator := "\n\n"
  const HeaderPrefix := "## Passage "

  /** `f"## Passage {i}\n"`. */
  function PassageHeader(i: nat): string {
    HeaderPrefix + NatToString(i) + "\n"
  }

  /** The block of the passage at position `i` of the list. */
  function PassageBlock(i: nat, p: Passage): string {
    PassageHeader(i) + Take(p.text, PassageTextLimit)
  }

  /** The blocks of all passages, in list order. */
  function Blocks(passages: seq<Passage>): (bs: seq<string>)
    ensures |bs| == |passages|
  {
    seq(|passages|, i requires 0 <= i < |passages| => PassageBlock(i, passages[i]))
  }

  /** Each block is its header followed by at most the first 1000 characters of its
      passage's text; the number in the header reads back as the position in the list. */
  lemma BlockFacts(passages: seq<Passage>, i: nat)
    requires i < |passages|
    ensures var b := Blocks(passages)[i]; var h := PassageHeader(i);
      h <= b &&
      b[|h|..] <= passages[i].text &&
      |b[|h|..]| == (if |passages[i].text| < PassageTextLimit then |passages[i].text| else PassageTextLimit)
    ensures var h := PassageHeader(i);
      HeaderPrefix <= h && h[|h| - 1] == '\n' &&
      DecimalValue(h[|HeaderPrefix|..|h| - 1]) == i
  {
    var h := PassageHeader(i);
    var b := Blocks(passages)[i];
    assert b == h + Take(passages[i].text, PassageTextLimit);
    assert b[|h|..] == Take(passages[i].text, PassageTextLimit);
    assert h[|HeaderPrefix|..|h| - 1] == NatToString(i);
    NatToStringRoundTrip(i);
  }

  /** The header is the position in the list: the passages' own `id` fields play no part. */
  lemma BlocksIgnoreIds(ps: seq<Passage>, qs: seq<Passage>)
    requires |ps| == |qs| && forall i :: 0 <= i < |ps| ==> ps[i].text == qs[i].text
    ensures Blocks(ps) == Blocks(qs)
  {
  }

  /** The `blocks` loop of `score_passages`. */
  method BuildBlocks(passages: seq<Passage>) returns (blocks: seq<string>)
    ensures blocks == Blocks(passages)
  {
    blocks := [];
    var i := 0;
    while i < |passages|
      invariant 0 <= i <= |passages|
      invariant blocks == Blocks(passages)[..i]
    {
      blocks := blocks + [PassageBlock(i, passages[i])];
      i := i + 1;
    }
  }

  /** `raw[raw.find("{") : raw.rfind("}") + 1]` with Python's slice rules. */
  function ExtractBraces(raw: string): string {
    Slice(raw, Find(raw, '{'), RFind(raw, '}') + 1)
  }

  /** When the first `{` comes no later than the last `}`, the extraction is the text from
      the one to the other, both included; otherwise, when there is a `{`, it is empty. */
  lemma ExtractBracesSpan(raw: string)
    requires '{' in raw
    ensures var i := Find(raw, '{'); var j := RFind(raw, '}');
      0 <= i &&
      (i <= j ==> ExtractBraces(raw) == raw[i..j + 1]) &&
      (j < i ==> ExtractBraces(raw) == [])
    ensures var i := Find(raw, '{'); var j := RFind(raw, '}');
      i <= j ==> '{' !in raw[..i] && '}' !in raw[j + 1..]
  {
  }

  /** A reply that is a bare object, starting with `{` and ending with `}`, is kept whole. */
  lemma ExtractBracesWhole(raw: string)
    requires raw != [] && raw[0] == '{' && raw[|raw| - 1] == '}'
    ensures ExtractBraces(raw) == raw
  {
  }

  /** A reply without `}` extracts to the empty string. */
  lemma ExtractBracesNoClose(raw: string)
    requires '}' !in raw
    ensures ExtractBraces(raw) == []
  {
  }

  /** A reply without `{`: `find` gives -1, so the slice starts at the last character,
      and the extraction is `}` if the reply ends with one and empty otherwise. */
  lemma ExtractBracesNoOpen(raw: string)
    requires '{' !in raw
    ensures ExtractBraces(raw) == if raw != [] && raw[|raw| - 1] == '}' then "}" else []
  {
    if raw != [] && raw[|raw| - 1] == '}' {
      assert raw[|raw| - 1..|raw|] == "}";
    }
  }

  /** Extracting again changes nothing. */
  lemma ExtractBracesIdempotent(raw: string)
    ensures ExtractBraces(ExtractBraces(raw)) == ExtractBraces(raw)
  {
    var c := ExtractBraces(raw);
    if '{' in raw {
      ExtractBracesSpan(raw);
      var i := Find(raw, '{');
      var j := RFind(raw, '}');
      if i <= j {
        assert c[0] == raw[i] && c[|c| - 1] == raw[j];
        ExtractBracesWhole(c);
      }
    } else {
      ExtractBracesNoOpen(raw);
      if c != [] {
        ExtractBracesNoOpen(c);
      }
    }
  }

  /** Why `score_passages` raises: the extracted text is not JSON (the error is logged and
      re-raised), or it does not validate as a `RerankResult`. */
  datatype RerankError = ReplyNotJson(cleaned: string) | ReplyInvalid(data: Json)

  /** The reply handling of `score_passages`: extraction always runs, with no direct parse
      first; then `json.loads` and `RerankResult(**data)`. */
  function ParseRerankReply(raw: string, parse: string -> Option<Json>): (r: Result<RerankResult, RerankError>)
    ensures r.Ok? <==> parse(ExtractBraces(raw)).Some? && ToRerankResult(parse(ExtractBraces(raw)).value).Some?
    ensures r.Ok? ==> ToRerankResult(parse(ExtractBraces(raw)).value) == Some(r.value)
    ensures parse(ExtractBraces(raw)).None? ==> r == Err(ReplyNotJson(ExtractBraces(raw)))
  {
    var cleaned := ExtractBraces(raw);
    match parse(cleaned)
    case None => Err(ReplyNotJson(cleaned))
    case Some(data) =>
      match ToRerankResult(data)
      case None => Err(ReplyInvalid(data))
      case Some(rr) => Ok(rr)
  }

  /** Replying with the JSON text of a rerank result, with or without text around it,
      gives that result back. */
  lemma ParseRerankReplyDump(raw: string, parse: string -> Option<Json>, rr: RerankResult)
    requires parse(ExtractBraces(raw)) == Some(RerankResultToJson(rr))
    ensures ParseRerankReply(raw, parse) == Ok(rr)
  {
    RerankResultRoundTrip(rr);
  }

  /** Handling the extraction of a reply is handling the reply itself. */
  lemma ParseRerankReplyExtracted(raw: string, parse: string -> Option<Json>)
    ensures ParseRerankReply(ExtractBraces(raw), parse) == ParseRerankReply(raw, parse)
  {
    ExtractBracesIdempotent(raw);
  }

  /** `score_passages(query, passages)`. */
  method ScorePassages(query: string, passages: seq<Passage>, complete: (string, string) -> string, parse: string -> Option<Json>)
    returns (r: Result<RerankResult, RerankError>)
    ensures r == ParseRerankReply(complete(query, Join(BlockSeparator, Blocks(passages))), parse)
  {
    var blocks := BuildBlocks(passages);
    var passagesBlock := Join(BlockSeparator, blocks);
    var raw := complete(query, passagesBlock);
    r := ParseRerankReply(raw, parse);
  }

  /** The passages `retrieve` and `hybrid_search` send: `{"id": i, "text": r["text"]}`. */
  function PassagesOf(results: seq<Hit>): (ps: seq<Passage>)
    ensures |ps| == |results|
    ensures forall i :: 0 <= i < |results| ==> ps[i] == Passage(i, results[i].text)
  {
    seq(|results|, i requires 0 <= i < |results| => Passage(i, results[i].text))
  }
}
