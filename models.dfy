/** The response and reranking records (`AnswerContent`, `Media`, `AnswerResponse`,
    `RerankResult`) and how a parsed JSON value is validated into them, as the
    `Model(**data)` calls do: required fields must be present with the right type, fields
    with a default may be missing, unknown keys are ignored. */
module Models {
  import opened Wrappers
  import opened Json

  datatype AnswerContent = AnswerContent(title: string, summary: string, steps: seq<string>, verification: seq<string>)

  datatype Media = Media(images: seq<string>)

  datatype AnswerResponse = AnswerResponse(mode: string, answer: AnswerContent, links: seq<string>, media: Media, latencyMs: int)

  const DefaultMode := "answer"
  const DefaultLatencyMs := 0

  /** One scored passage of a reranker reply; `id` is the passage's position in the list
      that was sent. */
  datatype RerankEntry = RerankEntry(id: int, score: real)

  datatype RerankResult = RerankResult(results: seq<RerankEntry>)

  /** A required `str` field. */
  function StrField(o: map<string, Json>, key: string): (r: Option<string>)
    ensures r.Some? <==> key in o && o[key].JStr?
    ensures r.Some? ==> o[key] == JStr(r.value)
  {
    if key in o && o[key].JStr? then Some(o[key].s) else None
  }

  /** A required `List[str]` field. */
  function StrListField(o: map<string, Json>, key: string): (r: Option<seq<string>>)
    ensures r.Some? ==> key in o && o[key].JArr? && AsStrings(o[key].items) == r
  {
    if key in o && o[key].JArr? then AsStrings(o[key].items) else None
  }

  /** `AnswerContent(**j)`: the four fields with their types, and nothing else required. */
  function ToAnswerContent(j: Json): (r: Option<AnswerContent>)
    ensures r.Some? <==>
      j.JObj? && StrField(j.fields, "title").Some? && StrField(j.fields, "summary").Some? &&
      StrListField(j.fields, "steps").Some? && StrListField(j.fields, "verification").Some?
    ensures r.Some? ==>
      StrField(j.fields, "title") == Some(r.value.title) && StrField(j.fields, "summary") == Some(r.value.summary) &&
      StrListField(j.fields, "steps") == Some(r.value.steps) && StrListField(j.fields, "verification") == Some(r.value.verification)
  {
    if !j.JObj? then None
    else
      var o := j.fields;
      match (StrField(o, "title"), StrField(o, "summary"), StrListField(o, "steps"), StrListField(o, "verification"))
      case (Some(t), Some(s), Some(st), Some(v)) => Some(AnswerContent(t, s, st, v))
      case _ => None
  }

  /** `Media(**j)`: an `images` list of strings. */
  function ToMedia(j: Json): (r: Option<Media>)
    ensures r.Some? <==> j.JObj? && StrListField(j.fields, "images").Some?
    ensures r.Some? ==> StrListField(j.fields, "images") == Some(r.value.images)
  {
    if !j.JObj? then None
    else
      match StrListField(j.fields, "images")
      case Some(imgs) => Some(Media(imgs))
      case None => None
  }

  /** `AnswerResponse(**data)`: `None` stands for the error raised when `data` is not an
      object or fails validation. */
  function ToAnswerResponse(data: Json): (r: Option<AnswerResponse>)
    ensures r.Some? <==>
      data.JObj? && "answer" in data.fields && "media" in data.fields &&
      ToAnswerContent(data.fields["answer"]).Some? && StrListField(data.fields, "links").Some? &&
      ToMedia(data.fields["media"]).Some? &&
      ("mode" in data.fields ==> data.fields["mode"].JStr?) &&
      ("latency_ms" in data.fields ==> AsInt(data.fields["latency_ms"]).Some?)
    ensures r.Some? ==>
      ToAnswerContent(data.fields["answer"]) == Some(r.value.answer) &&
      StrListField(data.fields, "links") == Some(r.value.links) &&
      ToMedia(data.fields["media"]) == Some(r.value.media)
    ensures r.Some? ==> r.value.mode == (if "mode" in data.fields then data.fields["mode"].s else DefaultMode)
    ensures r.Some? ==> ("latency_ms" in data.fields ==> AsInt(data.fields["latency_ms"]) == Some(r.value.latencyMs))
    ensures r.Some? ==> ("latency_ms" !in data.fields ==> r.value.latencyMs == DefaultLatencyMs)
  {
    if !data.JObj? then None
    else
      var o := data.fields;
      var mode := if "mode" in o then StrField(o, "mode") else Some(DefaultMode);
      var latency := if "latency_ms" in o then AsInt(o["latency_ms"]) else Some(DefaultLatencyMs);
      var answer := if "answer" in o then ToAnswerContent(o["answer"]) else None;
      var media := if "media" in o then ToMedia(o["media"]) else None;
      match (mode, answer, StrListField(o, "links"), media, latency)
      case (Some(m), Some(a), Some(l), Some(md), Some(ms)) => Some(AnswerResponse(m, a, l, md, ms))
      case _ => None
  }

  /** `response.model_dump()` written out as JSON. */
  function AnswerResponseToJson(r: AnswerResponse): Json
  {
    JObj(map[
      "mode" := JStr(r.mode),
      "answer" := JObj(map[
        "title" := JStr(r.answer.title),
        "summary" := JStr(r.answer.summary),
        "steps" := StringsToJson(r.answer.steps),
        "verification" := StringsToJson(r.answer.verification)]),
      "links" := StringsToJson(r.links),
      "media" := JObj(map["images" := StringsToJson(r.media.images)]),
      "latency_ms" := JNum(r.latencyMs as real)])
  }

  lemma StringsRoundTrip(xs: seq<string>)
    ensures AsStrings(StringsToJson(xs).items) == Some(xs)
  {
    var r := AsStrings(StringsToJson(xs).items);
    assert r.value == xs;
  }

  /** Validating the dump of a response gives the response back. */
  lemma AnswerResponseRoundTrip(r: AnswerResponse)
    ensures ToAnswerResponse(AnswerResponseToJson(r)) == Some(r)
  {
    StringsRoundTrip(r.answer.steps);
    StringsRoundTrip(r.answer.verification);
    StringsRoundTrip(r.links);
    StringsRoundTrip(r.media.images);
  }

  /** `RerankResult(**data)`: `data` must be an object whose `results` is a list of objects
      each with an integer `id` and a numeric `score`. */
  function ToRerankEntries(items: seq<Json>): (r: Option<seq<RerankEntry>>)
    ensures r.Some? ==> |r.value| == |items|
    ensures r.Some? ==> forall i :: 0 <= i < |items| ==>
      items[i].JObj? && "id" in items[i].fields && "score" in items[i].fields &&
      AsInt(items[i].fields["id"]) == Some(r.value[i].id) && items[i].fields["score"] == JNum(r.value[i].score)
  {
    if items == [] then Some([])
    else
      var it := items[0];
      if !it.JObj? || "id" !in it.fields || "score" !in it.fields || !it.fields["score"].JNum? then None
      else
        match (AsInt(it.fields["id"]), ToRerankEntries(items[1..]))
        case (Some(id), Some(rest)) => Some([RerankEntry(id, it.fields["score"].n)] + rest)
        case _ => None
  }

  function ToRerankResult(data: Json): Option<RerankResult>
  {
    if data.JObj? && "results" in data.fields && data.fields["results"].JArr? then
      match ToRerankEntries(data.fields["results"].items)
      case Some(es) => Some(RerankResult(es))
      case None => None
    else None
  }

  function RerankEntryToJson(e: RerankEntry): Json {
    JObj(map["id" := JNum(e.id as real), "score" := JNum(e.score)])
  }

  function RerankEntriesToJson(es: seq<RerankEntry>): (js: seq<Json>)
    ensures |js| == |es|
    ensures forall i :: 0 <= i < |es| ==> js[i] == RerankEntryToJson(es[i])
  {
    seq(|es|, i requires 0 <= i < |es| => RerankEntryToJson(es[i]))
  }

  function RerankResultToJson(r: RerankResult): Json {
    JObj(map["results" := JArr(RerankEntriesToJson(r.results))])
  }

  lemma {:induction false} RerankEntriesRoundTrip(es: seq<RerankEntry>)
    ensures ToRerankEntries(RerankEntriesToJson(es)) == Some(es)
  {
    var js := RerankEntriesToJson(es);
    if es != [] {
      RerankEntriesRoundTrip(es[1..]);
      assert js[1..] == RerankEntriesToJson(es[1..]);
      var e := es[0];
      assert js[0].fields["id"] == JNum(e.id as real) && js[0].fields["score"] == JNum(e.score);
      assert (e.id as real).Floor == e.id;
      assert AsInt(js[0].fields["id"]) == Some(e.id);
      assert ToRerankEntries(js) == Some([RerankEntry(e.id, e.score)] + es[1..]);
      assert [RerankEntry(e.id, e.score)] + es[1..] == es;
    }
  }

  /** Validating the dump of a rerank result gives it back. */
  lemma RerankResultRoundTrip(r: RerankResult)
    ensures ToRerankResult(RerankResultToJson(r)) == Some(r)
  {
    RerankEntriesRoundTrip(r.results);
  }

  /** The dictionary checked by the output guardrail, seen key by key: `None` is a missing key.
      Values present are taken to have the types the response model gives them. */
  datatype AnswerFields = AnswerFields(title: Option<string>, summary: Option<string>, steps: Option<seq<string>>, verification: Option<seq<string>>)
  datatype MediaFields = MediaFields(images: Option<seq<string>>)
  datatype AnswerDict = AnswerDict(mode: Option<string>, answer: Option<AnswerFields>, links: Option<seq<string>>, media: Option<MediaFields>)

  /** `response.model_dump()` as a dictionary: every key present. */
  function Dump(r: AnswerResponse): AnswerDict {
    AnswerDict(Some(r.mode),
      Some(AnswerFields(Some(r.answer.title), Some(r.answer.summary), Some(r.answer.steps), Some(r.answer.verification))),
      Some(r.links), Some(MediaFields(Some(r.media.images))))
  }
}
