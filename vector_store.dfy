/** The tail of `VectorStoreManager.hybrid_search`: converting the ensemble's documents to
    results and the optional reranker selection. The ensemble's output is an input. */
module VectorStore {
  import opened Wrappers
  import opened PyText
  import opened Ordering
  import opened Json
  import opened Models
  import opened Records
  import opened Reranker

  /** The metadata keys `hybrid_search` reads. */
  datatype DocMeta = DocMeta(page: int, media: seq<string>, diagramIds: seq<string>, isTable: bool)

  /** A LangChain `Document`. */
  datatype Document = Document(pageContent: string, metadata: DocMeta)

  /** The result dictionary built from one document. */
  function ToHit(d: Document): (h: Hit)
    ensures h.text == d.pageContent && h.page == d.metadata.page && h.media == d.metadata.media
    ensures h.diagramIds == d.metadata.diagramIds && h.isTable == d.metadata.isTable
  {
    Hit(d.metadata.page, d.pageContent, d.metadata.media, d.metadata.diagramIds, d.metadata.isTable)
  }

  function ToHits(docs: seq<Document>): (hs: seq<Hit>)
    ensures |hs| == |docs|
  {
    seq(|docs|, i requires 0 <= i < |docs| => ToHit(docs[i]))
  }

  /** The `results` loop over `docs[:candidate_k]`: at most `candidateK` results, in
      ensemble order, each converted from the document at its position. */
  method ConvertDocs(docs: seq<Document>, candidateK: int) returns (results: seq<Hit>)
    ensures results == ToHits(Take(docs, candidateK))
    ensures 0 <= candidateK ==> |results| == if candidateK < |docs| then candidateK else |docs|
    ensures forall i :: 0 <= i < |results| ==> results[i] == ToHit(docs[i])
  {
    var selected := Take(docs, candidateK);
    results := [];
    var i := 0;
    while i < |selected|
      invariant 0 <= i <= |selected|
      invariant results == ToHits(selected)[..i]
    {
      var md := selected[i].metadata;
      results := results + [Hit(md.page, selected[i].pageContent, md.media, md.diagramIds, md.isTable)];
      i := i + 1;
    }
  }

  /** An `IndexError` from `results[item.id]`. */
  datatype SelectError = IdOutOfRange(id: int)

  function EntryScore(e: RerankEntry): real {
    e.score
  }

  /** `results[id]` does not raise. */
  predicate InRange(results: seq<Hit>, id: int) {
    -|results| <= id < |results|
  }

  /** `[results[item.id] for item in entries]`, Python indexing included: a negative id
      counts from the end, and the first id out of range raises. */
  function Pick(results: seq<Hit>, entries: seq<RerankEntry>): (r: Result<seq<Hit>, SelectError>)
    ensures r.Ok? <==> forall i :: 0 <= i < |entries| ==> InRange(results, entries[i].id)
    ensures r.Ok? ==> |r.value| == |entries| && forall i :: 0 <= i < |entries| ==> Index(results, entries[i].id) == Some(r.value[i])
    ensures r.Err? ==> exists i :: (0 <= i < |entries| && r.error == IdOutOfRange(entries[i].id) &&
      !InRange(results, entries[i].id) && forall j :: 0 <= j < i ==> InRange(results, entries[j].id))
  {
    if entries == [] then Ok([])
    else
      match Index(results, entries[0].id)
      case None => Err(IdOutOfRange(entries[0].id))
      case Some(h) =>
        var tail := entries[1..];
        match Pick(results, tail)
        case Err(e) =>
          var k :| 0 <= k < |tail| && e == IdOutOfRange(tail[k].id) && !InRange(results, tail[k].id) &&
            forall j :: 0 <= j < k ==> InRange(results, tail[j].id);
          assert entries[k + 1] == tail[k];
          assert forall j :: 0 < j <= k ==> entries[j] == tail[j - 1];
          Err(e)
        case Ok(rest) =>
          assert forall i :: 0 < i < |entries| ==> entries[i] == tail[i - 1];
          Ok([h] + rest)
  }

  /** The entries ranked by score, high to low, ties in reply order. */
  function Ranked(ranking: RerankResult): seq<RerankEntry> {
    SortByKeyDesc(ranking.results, EntryScore)
  }

  /** `[results[item.id] for item in sorted(ranking.results, key=score, reverse=True)[:top_k]]`. */
  function SelectByRanking(results: seq<Hit>, ranking: RerankResult, topK: int): Result<seq<Hit>, SelectError> {
    Pick(results, Take(Ranked(ranking), topK))
  }

  /** The selection is the results named by the `topK` highest-scoring entries: at most
      `topK` of them; their entries come from the reply, in non-increasing score order with
      ties in reply order, and no entry left out scores higher than one used. */
  lemma SelectByRankingFacts(results: seq<Hit>, ranking: RerankResult, topK: int)
    ensures var top := Take(Ranked(ranking), topK); var r := SelectByRanking(results, ranking, topK);
      (r.Ok? ==> (|r.value| == |top| && (0 <= topK ==> |r.value| <= topK) &&
        forall i :: 0 <= i < |top| ==> Index(results, top[i].id) == Some(r.value[i]))) &&
      SortedDesc(top, EntryScore) &&
      multiset(top) <= multiset(ranking.results) &&
      forall i, j :: 0 <= i < |top| <= j < |Ranked(ranking)| ==> Ranked(ranking)[j].score <= top[i].score
    ensures forall v :: WithKey(Ranked(ranking), EntryScore, v) == WithKey(ranking.results, EntryScore, v)
  {
    TopKFacts(ranking.results, EntryScore, topK);
    SortByKeyDescFacts(ranking.results, EntryScore);
  }

  /** Why `hybrid_search` raises. */
  datatype SearchError = RerankFailed(e: RerankError) | BadRerankId(s: SelectError)

  /** What `hybrid_search` returns once the documents are converted and, with the
      reranker, its reply handled. */
  function SearchResult(results: seq<Hit>, ranking: Result<RerankResult, RerankError>, topK: int, useReranker: bool): (r: Result<seq<Hit>, SearchError>)
    ensures !useReranker ==> r == Ok(Take(results, topK))
  {
    if !useReranker then Ok(Take(results, topK))
    else
      match ranking
      case Err(e) => Err(RerankFailed(e))
      case Ok(rr) =>
        match SelectByRanking(results, rr, topK)
        case Err(e) => Err(BadRerankId(e))
        case Ok(final) => Ok(final)
  }

  /** `hybrid_search(query, top_k, candidate_k, use_reranker)`, given the ensemble's
      documents; the reranker's model call and JSON parser are parameters. */
  method HybridSearch(query: string, docs: seq<Document>, topK: int, candidateK: int, useReranker: bool,
                      complete: (string, string) -> string, parse: string -> Option<Json>)
    returns (r: Result<seq<Hit>, SearchError>)
    ensures var results := ToHits(Take(docs, candidateK));
      r == SearchResult(results, ParseRerankReply(complete(query, Join(BlockSeparator, Blocks(PassagesOf(results)))), parse), topK, useReranker)
  {
    var results := ConvertDocs(docs, candidateK);
    if useReranker {
      var ranking := ScorePassages(query, PassagesOf(results), complete, parse);
      match ranking {
        case Err(e) =>
          r := Err(RerankFailed(e));
        case Ok(rr) =>
          var final := SelectByRanking(results, rr, topK);
          match final {
            case Err(e) =>
              r := Err(BadRerankId(e));
            case Ok(f) =>
              r := Ok(f);
          }
      }
    } else {
      r := Ok(Take(results, topK));
    }
  }
}
