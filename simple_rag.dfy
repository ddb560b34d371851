/** `SimpleRAG.retrieve`: the page-to-diagrams map over all chunks, the reranker selection,
    the context, and the page images and diagrams handed to the generator. Loading the index
    and the ensemble search are inputs (`chunks`, `docs`); the reranker's model call and JSON
    parser are parameters. */
module SimpleRag {
  import opened Wrappers
  import opened PyText
  import opened Ordering
  import opened Json
  import opened Models
  import opened Records
  import opened Reranker
  import opened VectorStore

  /** `TOP_K` and `CANDIDATE_K` in the configuration. */
  const TopK: int := 5
  const CandidateK: int := 30
  /** The most diagrams handed on. */
  const MaxImages: nat := 25
  const ContextSeparator := "\n\n---\n\n"

  // ---------------------------------------------------------------------------------
  // The page-to-diagrams map
  // ---------------------------------------------------------------------------------

  /** The pages that occur in `chunks`. */
  function PagesOf(chunks: seq<Chunk>): set<int> {
    set i | 0 <= i < |chunks| :: chunks[i].page
  }

  /** The diagram ids of the chunks on page `p`, in chunk order. */
  function DiagramsOnPage(chunks: seq<Chunk>, p: int): seq<string>
    decreases |chunks|
  {
    if chunks == [] then []
    else
      var last := chunks[|chunks| - 1];
      DiagramsOnPage(chunks[..|chunks| - 1], p) + (if last.page == p then last.diagramIds else [])
  }

  lemma {:induction false} DiagramsOnPageMembers(chunks: seq<Chunk>, p: int)
    ensures forall w :: w in DiagramsOnPage(chunks, p) <==>
      exists i :: 0 <= i < |chunks| && chunks[i].page == p && w in chunks[i].diagramIds
    decreases |chunks|
  {
    if chunks != [] {
      var init := chunks[..|chunks| - 1];
      DiagramsOnPageMembers(init, p);
      forall w ensures w in DiagramsOnPage(chunks, p) <==>
        exists i :: 0 <= i < |chunks| && chunks[i].page == p && w in chunks[i].diagramIds
      {
        if exists i :: 0 <= i < |chunks| && chunks[i].page == p && w in chunks[i].diagramIds {
          var i :| 0 <= i < |chunks| && chunks[i].page == p && w in chunks[i].diagramIds;
          if i < |chunks| - 1 {
            assert init[i] == chunks[i];
          }
        }
        if w in DiagramsOnPage(init, p) {
          var i :| 0 <= i < |init| && init[i].page == p && w in init[i].diagramIds;
          assert chunks[i] == init[i];
        }
      }
    }
  }

  lemma {:induction false} DiagramsOffPage(chunks: seq<Chunk>, p: int)
    requires p !in PagesOf(chunks)
    ensures DiagramsOnPage(chunks, p) == []
    decreases |chunks|
  {
    if chunks != [] {
      var init := chunks[..|chunks| - 1];
      assert chunks[|chunks| - 1].page in PagesOf(chunks);
      assert PagesOf(init) <= PagesOf(chunks) by {
        forall q | q in PagesOf(init) ensures q in PagesOf(chunks) {
          var j :| 0 <= j < |init| && init[j].page == q;
          assert chunks[j] == init[j];
        }
      }
      DiagramsOffPage(init, p);
    }
  }

  /** `page_diagram_map` after the conversion to sorted lists. */
  function PageMap(chunks: seq<Chunk>): map<int, seq<string>> {
    map p | p in PagesOf(chunks) :: SortedSet(DiagramsOnPage(chunks, p))
  }

  /** Every page of a chunk, and only those, is a key; its value is the sorted,
      duplicate-free union of the diagram ids of all chunks on that page. */
  lemma PageMapFacts(chunks: seq<Chunk>, p: int)
    ensures p in PageMap(chunks) <==> exists i :: 0 <= i < |chunks| && chunks[i].page == p
    ensures p in PageMap(chunks) ==> StrictlySorted(PageMap(chunks)[p])
    ensures p in PageMap(chunks) ==> forall w :: w in PageMap(chunks)[p] <==>
      exists i :: 0 <= i < |chunks| && chunks[i].page == p && w in chunks[i].diagramIds
  {
    DiagramsOnPageMembers(chunks, p);
  }

  /** One more chunk adds its diagrams to its own page only. */
  lemma DiagramsOnPageSnoc(chunks: seq<Chunk>, i: int, p: int)
    requires 0 <= i < |chunks|
    ensures DiagramsOnPage(chunks[..i + 1], p) ==
      DiagramsOnPage(chunks[..i], p) + (if chunks[i].page == p then chunks[i].diagramIds else [])
  {
    assert chunks[..i + 1][..i] == chunks[..i];
  }

  /** One more chunk adds its page. */
  lemma PagesOfSnoc(chunks: seq<Chunk>, i: int)
    requires 0 <= i < |chunks|
    ensures PagesOf(chunks[..i + 1]) == PagesOf(chunks[..i]) + {chunks[i].page}
  {
    assert chunks[..i + 1][i] == chunks[i];
    forall q | q in PagesOf(chunks[..i + 1]) ensures q in PagesOf(chunks[..i]) + {chunks[i].page} {
      var j :| 0 <= j < i + 1 && chunks[..i + 1][j].page == q;
      if j < i {
        assert chunks[..i][j] == chunks[j];
      }
    }
  }

  /** The loop filling `page_diagram_map`, then its conversion to sorted lists. The sets
      being filled are lists here; converting them gives the same sorted lists. */
  method BuildPageDiagramMap(chunks: seq<Chunk>) returns (m: map<int, seq<string>>)
    ensures m == PageMap(chunks)
  {
    var acc: map<int, seq<string>> := map[];
    var i := 0;
    while i < |chunks|
      invariant 0 <= i <= |chunks|
      invariant acc.Keys == PagesOf(chunks[..i])
      invariant forall p :: p in acc ==> acc[p] == DiagramsOnPage(chunks[..i], p)
    {
      var page := chunks[i].page;
      var diagrams := chunks[i].diagramIds;
      if page !in acc {
        DiagramsOffPage(chunks[..i], page);
        acc := acc[page := []];
      }
      acc := acc[page := acc[page] + diagrams];
      forall p | p in acc ensures acc[p] == DiagramsOnPage(chunks[..i + 1], p) {
        DiagramsOnPageSnoc(chunks, i, p);
      }
      PagesOfSnoc(chunks, i);
      i := i + 1;
    }
    assert chunks[..i] == chunks;
    m := map p | p in acc :: SortedSet(acc[p]);
  }

  // ---------------------------------------------------------------------------------
  // Selection, context, pages and images
  // ---------------------------------------------------------------------------------

  /** `list(set(xs))`: the elements of `xs`, each once. Python's order for it is
      unspecified; this one keeps each element's last occurrence. */
  function Dedup<T(==,!new)>(xs: seq<T>): (r: seq<T>)
    ensures forall x :: x in r <==> x in xs
    ensures forall i, j :: 0 <= i < j < |r| ==> r[i] != r[j]
  {
    if xs == [] then []
    else if xs[0] in xs[1..] then Dedup(xs[1..])
    else [xs[0]] + Dedup(xs[1..])
  }

  /** The diagrams of the given pages, page by page: `all_diagrams` after its loop. */
  function AllDiagrams(pages: seq<int>, pageMap: map<int, seq<string>>): seq<string>
    decreases |pages|
  {
    if pages == [] then []
    else
      var p := pages[|pages| - 1];
      AllDiagrams(pages[..|pages| - 1], pageMap) + (if p in pageMap && pageMap[p] != [] then pageMap[p] else [])
  }

  lemma {:induction false} AllDiagramsMembers(pages: seq<int>, pageMap: map<int, seq<string>>)
    ensures forall w :: w in AllDiagrams(pages, pageMap) <==>
      exists i :: 0 <= i < |pages| && pages[i] in pageMap && w in pageMap[pages[i]]
    decreases |pages|
  {
    if pages != [] {
      var init := pages[..|pages| - 1];
      AllDiagramsMembers(init, pageMap);
      forall w ensures w in AllDiagrams(pages, pageMap) <==>
        exists i :: 0 <= i < |pages| && pages[i] in pageMap && w in pageMap[pages[i]]
      {
        if exists i :: 0 <= i < |pages| && pages[i] in pageMap && w in pageMap[pages[i]] {
          var i :| 0 <= i < |pages| && pages[i] in pageMap && w in pageMap[pages[i]];
          if i < |pages| - 1 {
            assert init[i] == pages[i];
          }
        }
        if w in AllDiagrams(init, pageMap) {
          var i :| 0 <= i < |init| && init[i] in pageMap && w in pageMap[init[i]];
          assert pages[i] == init[i];
        }
      }
    }
  }

  /** The cap on the number of diagrams. */
  function CapImages(images: seq<string>): seq<string> {
    if |images| > MaxImages then images[..MaxImages] else images
  }

  /** The `all_diagrams` loop, then `sorted(list(set(...)))` and the cap. */
  method CollectImages(uniquePages: seq<int>, pageMap: map<int, seq<string>>) returns (images: seq<string>)
    ensures images == CapImages(SortedSet(AllDiagrams(uniquePages, pageMap)))
  {
    var allDiagrams: seq<string> := [];
    var i := 0;
    while i < |uniquePages|
      invariant 0 <= i <= |uniquePages|
      invariant allDiagrams == AllDiagrams(uniquePages[..i], pageMap)
    {
      var page := uniquePages[i];
      if page in pageMap && pageMap[page] != [] {
        allDiagrams := allDiagrams + pageMap[page];
      }
      assert uniquePages[..i + 1][..i] == uniquePages[..i];
      i := i + 1;
    }
    assert uniquePages[..i] == uniquePages;
    images := SortedSet(allDiagrams);
    if |images| > MaxImages {
      images := images[..MaxImages];
    }
  }

  /** The diagrams handed on are sorted without duplicates and at most 25; each belongs to
      one of the pages; and a diagram of those pages is missing only when 25 smaller ones
      were kept. */
  lemma CapImagesFacts(pages: seq<int>, pageMap: map<int, seq<string>>)
    ensures var images := CapImages(SortedSet(AllDiagrams(pages, pageMap)));
      StrictlySorted(images) && |images| <= MaxImages &&
      (forall w :: w in images ==> exists i :: 0 <= i < |pages| && pages[i] in pageMap && w in pageMap[pages[i]]) &&
      forall w :: (exists i :: 0 <= i < |pages| && pages[i] in pageMap && w in pageMap[pages[i]]) ==>
        w in images || (|images| == MaxImages && forall x :: x in images ==> Less(x, w))
  {
    var all := SortedSet(AllDiagrams(pages, pageMap));
    var images := CapImages(all);
    AllDiagramsMembers(pages, pageMap);
    assert images <= all;
    assert StrictlySorted(images) by {
      forall i, j | 0 <= i < j < |images| ensures Less(images[i], images[j]) {
        assert images[i] == all[i] && images[j] == all[j];
      }
    }
    forall w | w in images ensures w in AllDiagrams(pages, pageMap) {
      var i :| 0 <= i < |images| && images[i] == w;
      assert all[i] == w;
    }
    forall w | w in all && w !in images ensures |images| == MaxImages && forall x :: x in images ==> Less(x, w) {
      var j :| 0 <= j < |all| && all[j] == w;
      forall x | x in images ensures Less(x, w) {
        var i :| 0 <= i < |images| && images[i] == x;
        assert all[i] == x;
      }
    }
  }

  function Texts(final: seq<Hit>): (ts: seq<string>)
    ensures |ts| == |final| && forall i :: 0 <= i < |final| ==> ts[i] == final[i].text
  {
    seq(|final|, i requires 0 <= i < |final| => final[i].text)
  }

  function PageNumbers(final: seq<Hit>): (ps: seq<int>)
    ensures |ps| == |final| && forall i :: 0 <= i < |final| ==> ps[i] == final[i].page
  {
    seq(|final|, i requires 0 <= i < |final| => final[i].page)
  }

  function MediaLists(final: seq<Hit>): (ms: seq<seq<string>>)
    ensures |ms| == |final| && forall i :: 0 <= i < |final| ==> ms[i] == final[i].media
  {
    seq(|final|, i requires 0 <= i < |final| => final[i].media)
  }

  /** What `retrieve` returns: the context, the page images, and the diagrams. */
  datatype RagContext = RagContext(context: string, pages: seq<string>, images: seq<string>)

  /** The part of `retrieve` after the selection. */
  function AssembleContext(chunks: seq<Chunk>, final: seq<Hit>): RagContext {
    RagContext(
      Join(ContextSeparator, Texts(final)),
      Dedup(Flatten(MediaLists(final))),
      CapImages(SortedSet(AllDiagrams(Dedup(PageNumbers(final)), PageMap(chunks)))))
  }

  /** The context is the selected texts joined by the separator, with no page header; the
      page images are the union of the selected results' media, each once; and every
      diagram is on the page of a selected result — possibly from a chunk not selected —
      at most 25 of them, sorted. */
  lemma AssembleContextFacts(chunks: seq<Chunk>, final: seq<Hit>)
    ensures AssembleContext(chunks, final).context == Join(ContextSeparator, Texts(final))
    ensures var ps := AssembleContext(chunks, final).pages;
      (forall m :: m in ps <==> exists i :: 0 <= i < |final| && m in final[i].media) &&
      forall i, j :: 0 <= i < j < |ps| ==> ps[i] != ps[j]
    ensures var images := AssembleContext(chunks, final).images;
      StrictlySorted(images) && |images| <= MaxImages &&
      forall w :: w in images ==> exists k, c :: (0 <= k < |final| && 0 <= c < |chunks| &&
        chunks[c].page == final[k].page && w in chunks[c].diagramIds)
  {
    var ms := MediaLists(final);
    assert forall m :: m in Flatten(ms) <==> exists i :: 0 <= i < |final| && m in final[i].media by {
      assert forall i :: 0 <= i < |final| ==> ms[i] == final[i].media;
    }
    var pages := Dedup(PageNumbers(final));
    var pm := PageMap(chunks);
    CapImagesFacts(pages, pm);
    var images := AssembleContext(chunks, final).images;
    forall w | w in images ensures exists k, c :: (0 <= k < |final| && 0 <= c < |chunks| &&
      chunks[c].page == final[k].page && w in chunks[c].diagramIds)
    {
      var i :| 0 <= i < |pages| && pages[i] in pm && w in pm[pages[i]];
      var p := pages[i];
      assert p in PageNumbers(final);
      var k :| 0 <= k < |final| && PageNumbers(final)[k] == p;
      PageMapFacts(chunks, p);
      var c :| 0 <= c < |chunks| && chunks[c].page == p && w in chunks[c].diagramIds;
    }
  }

  /** Every diagram on a selected page is handed on, unless 25 smaller ones were. */
  lemma AssembleContextComplete(chunks: seq<Chunk>, final: seq<Hit>, k: int, c: int, w: string)
    requires 0 <= k < |final| && 0 <= c < |chunks| && chunks[c].page == final[k].page && w in chunks[c].diagramIds
    ensures var images := AssembleContext(chunks, final).images;
      w in images || (|images| == MaxImages && forall x :: x in images ==> Less(x, w))
  {
    var pages := Dedup(PageNumbers(final));
    var pm := PageMap(chunks);
    var p := final[k].page;
    assert PageNumbers(final)[k] == p;
    assert p in pages;
    var i :| 0 <= i < |pages| && pages[i] == p;
    PageMapFacts(chunks, p);
    CapImagesFacts(pages, pm);
  }

  /** What `retrieve` returns, given the search results and the reranker's verdict. */
  function RetrieveResult(chunks: seq<Chunk>, results: seq<Hit>, ranking: Result<RerankResult, RerankError>, topK: int): Result<RagContext, SearchError> {
    match ranking
    case Err(e) => Err(RerankFailed(e))
    case Ok(rr) =>
      match SelectByRanking(results, rr, topK)
      case Err(e) => Err(BadRerankId(e))
      case Ok(final) => Ok(AssembleContext(chunks, final))
  }

  /** `retrieve(query)` on an instance with the given `top_k` and `candidate_k`. */
  method Retrieve(query: string, chunks: seq<Chunk>, docs: seq<Document>, topK: int, candidateK: int,
                  complete: (string, string) -> string, parse: string -> Option<Json>)
    returns (r: Result<RagContext, SearchError>)
    ensures var results := Take(ToHits(Take(docs, candidateK)), topK);
      r == RetrieveResult(chunks, results, ParseRerankReply(complete(query, Join(BlockSeparator, Blocks(PassagesOf(results)))), parse), topK)
  {
    var pageMap := BuildPageDiagramMap(chunks);
    var search := HybridSearch(query, docs, topK, candidateK, false, complete, parse);
    var results := search.value;
    var ranking := ScorePassages(query, PassagesOf(results), complete, parse);
    match ranking {
      case Err(e) =>
        r := Err(RerankFailed(e));
      case Ok(rr) =>
        var selected := SelectByRanking(results, rr, topK);
        match selected {
          case Err(e) =>
            r := Err(BadRerankId(e));
          case Ok(final) =>
            var context := Join(ContextSeparator, Texts(final));
            var uniquePages := Dedup(PageNumbers(final));
            var pages := Dedup(Flatten(MediaLists(final)));
            var images := CollectImages(uniquePages, pageMap);
            r := Ok(RagContext(context, pages, images));
        }
    }
  }
}
