/** `rerank` and `retrieve_with_reranking`: per-candidate scoring by the model, a stable
    descending sort and a top-k prefix, then the context and the allowed-reference lists.
    The model call is a parameter `reply(query, text)` standing for the reply to the scoring
    prompt for one candidate; `float()` is a parameter `parseFloat`, `None` standing for the
    exception it raises. */
module Retriever {
  import opened Wrappers
  import opened PyText
  import opened Ordering
  import opened Records
  import opened Utils

  const DefaultTopK: int := 5
  const DefaultCandidateK: int := 20
  const ContextSeparator := "\n\n---\n\n"

  /** `float(reply.strip())`, or 0.0 when that raises. */
  function ReplyScore(reply: string, parseFloat: string -> Option<real>): (s: real)
    ensures parseFloat(Strip(reply)).Some? ==> s == parseFloat(Strip(reply)).value
    ensures parseFloat(Strip(reply)).None? ==> s == 0.0
  {
    match parseFloat(Strip(reply))
    case Some(v) => v
    case None => 0.0
  }

  function ScoreKey(p: (real, Chunk)): real {
    p.0
  }

  /** The `scored` list as the loop leaves it: each candidate, in input order, with its score. */
  function Scored(query: string, candidates: seq<Chunk>, reply: (string, string) -> string, parseFloat: string -> Option<real>): (r: seq<(real, Chunk)>)
    ensures |r| == |candidates|
    ensures forall i :: 0 <= i < |candidates| ==>
      r[i] == (ReplyScore(reply(query, candidates[i].text), parseFloat), candidates[i])
  {
    seq(|candidates|, i requires 0 <= i < |candidates| => (ReplyScore(reply(query, candidates[i].text), parseFloat), candidates[i]))
  }

  /** `[item[1] for item in pairs]`. */
  function Seconds(pairs: seq<(real, Chunk)>): (r: seq<Chunk>)
    ensures |r| == |pairs|
    ensures forall i :: 0 <= i < |pairs| ==> r[i] == pairs[i].1
  {
    seq(|pairs|, i requires 0 <= i < |pairs| => pairs[i].1)
  }

  /** The first `topK` scored candidates after the stable sort, high to low. */
  function TopScored(query: string, candidates: seq<Chunk>, reply: (string, string) -> string, parseFloat: string -> Option<real>, topK: int): seq<(real, Chunk)>
  {
    Take(SortByKeyDesc(Scored(query, candidates, reply, parseFloat), ScoreKey), topK)
  }

  /** `rerank(query, faiss_results, top_k)`. */
  method Rerank(query: string, candidates: seq<Chunk>, reply: (string, string) -> string, parseFloat: string -> Option<real>, topK: int)
    returns (r: seq<Chunk>)
    ensures r == Seconds(TopScored(query, candidates, reply, parseFloat, topK))
  {
    ghost var all := Scored(query, candidates, reply, parseFloat);
    var scored: seq<(real, Chunk)> := [];
    var i := 0;
    while i < |candidates|
      invariant 0 <= i <= |candidates|
      invariant scored == all[..i]
    {
      var content := reply(query, candidates[i].text);
      var score := ReplyScore(content, parseFloat);
      assert all[..i + 1] == all[..i] + [(score, candidates[i])];
      scored := scored + [(score, candidates[i])];
      i := i + 1;
    }
    assert scored == all;
    scored := SortByKeyDesc(scored, ScoreKey);
    r := Seconds(Take(scored, topK));
  }

  /** What `rerank` returns: for `topK >= 0`, `min(topK, |candidates|)` candidates, each
      with its own score; scores non-increasing; a selection from the input, no candidate
      repeated beyond its multiplicity; no candidate left out scores higher than one kept;
      and the sort is stable — candidates of equal score keep their input order. */
  lemma RerankFacts(query: string, candidates: seq<Chunk>, reply: (string, string) -> string, parseFloat: string -> Option<real>, topK: int)
    ensures var top := TopScored(query, candidates, reply, parseFloat, topK);
      (0 <= topK ==> |top| == if topK < |candidates| then topK else |candidates|) &&
      SortedDesc(top, ScoreKey) &&
      multiset(top) <= multiset(Scored(query, candidates, reply, parseFloat))
    ensures var all := SortByKeyDesc(Scored(query, candidates, reply, parseFloat), ScoreKey);
      var top := TopScored(query, candidates, reply, parseFloat, topK);
      top <= all &&
      (forall i, j :: 0 <= i < |top| <= j < |all| ==> all[j].0 <= top[i].0) &&
      forall v :: WithKey(all, ScoreKey, v) == WithKey(Scored(query, candidates, reply, parseFloat), ScoreKey, v)
  {
    var scored := Scored(query, candidates, reply, parseFloat);
    TopKFacts(scored, ScoreKey, topK);
    SortByKeyDescFacts(scored, ScoreKey);
  }

  /** A candidate whose reply is not a number scores 0. */
  lemma UnparsedScoresZero(query: string, candidates: seq<Chunk>, reply: (string, string) -> string, parseFloat: string -> Option<real>, i: int)
    requires 0 <= i < |candidates| && parseFloat(Strip(reply(query, candidates[i].text))).None?
    ensures Scored(query, candidates, reply, parseFloat)[i].0 == 0.0
  {
  }

  /** `f"[Page {r['page']}]\n{r['text']}"`. */
  function PageBlock(c: Chunk): string {
    "[Page " + IntToString(c.page) + "]\n" + c.text
  }

  /** The context: the page blocks of the reranked chunks, in order, joined by the separator. */
  function RerankedContext(reranked: seq<Chunk>): string {
    Join(ContextSeparator, seq(|reranked|, i requires 0 <= i < |reranked| => PageBlock(reranked[i])))
  }

  function DiagramIdsOf(reranked: seq<Chunk>): seq<seq<string>> {
    seq(|reranked|, i requires 0 <= i < |reranked| => reranked[i].diagramIds)
  }

  function MediaOf(reranked: seq<Chunk>): seq<seq<string>> {
    seq(|reranked|, i requires 0 <= i < |reranked| => reranked[i].media)
  }

  datatype Retrieved = Retrieved(context: string, pages: seq<string>, mediaFiles: seq<string>)

  /** The assembly part of `retrieve_with_reranking`; `None` is the `(None, None, None)`
      returned when the query shares no word with the context. */
  function Assemble(query: string, reranked: seq<Chunk>): (r: Option<Retrieved>)
    ensures r.None? <==> !ContextIsRelevant(query, RerankedContext(reranked))
    ensures r.Some? ==> r.value.context == RerankedContext(reranked)
    ensures r.Some? ==> StrictlySorted(r.value.mediaFiles) && StrictlySorted(r.value.pages)
    ensures r.Some? ==> forall m :: m in r.value.mediaFiles <==> exists i :: 0 <= i < |reranked| && m in reranked[i].diagramIds
    ensures r.Some? ==> forall m :: m in r.value.pages <==> exists i :: 0 <= i < |reranked| && m in reranked[i].media
  {
    var context := RerankedContext(reranked);
    var mediaFiles := SortedSet(Flatten(DiagramIdsOf(reranked)));
    var pages := SortedSet(Flatten(MediaOf(reranked)));
    FlattenFields(reranked);
    if !ContextIsRelevant(query, context) then None
    else Some(Retrieved(context, pages, mediaFiles))
  }

  lemma FlattenFields(reranked: seq<Chunk>)
    ensures forall m :: m in Flatten(DiagramIdsOf(reranked)) <==> exists i :: 0 <= i < |reranked| && m in reranked[i].diagramIds
    ensures forall m :: m in Flatten(MediaOf(reranked)) <==> exists i :: 0 <= i < |reranked| && m in reranked[i].media
  {
    var d := DiagramIdsOf(reranked);
    var md := MediaOf(reranked);
    assert forall i :: 0 <= i < |reranked| ==> d[i] == reranked[i].diagramIds && md[i] == reranked[i].media;
  }

  /** Nothing retrieved is never relevant. */
  lemma AssembleNothing(query: string)
    ensures Assemble(query, []) == None
  {
    ContextIsRelevantEmpty(query, RerankedContext([]));
  }

  /** `retrieve_with_reranking(query, top_k, candidate_k)`, given the FAISS candidates. */
  method RetrieveWithReranking(query: string, candidates: seq<Chunk>, reply: (string, string) -> string, parseFloat: string -> Option<real>, topK: int)
    returns (r: Option<Retrieved>)
    ensures r == Assemble(query, Seconds(TopScored(query, candidates, reply, parseFloat, topK)))
  {
    var reranked := Rerank(query, candidates, reply, parseFloat, topK);
    r := Assemble(query, reranked);
  }
}
