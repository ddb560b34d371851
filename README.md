# Fire-safety RAG assistant: a verified model of its deterministic core

The assistant answers questions about a fire-safety PDF. A query passes the input
guardrails, is sanitised, and retrieves chunks of the document. An LLM reranks the
candidates and the top ones are assembled into a context (text, page images, diagram
identifiers). An LLM then writes a structured JSON answer, which is validated and passes
the output guardrails. This project models the parts of that pipeline that are plain
computation, and proves what they promise:

- **Guardrails** (`src/guardrails.py`).
  - Input: sanitising a query, the length and injection checks, and `validate_input`.
  - Output: the structure and reference checks, and `validate_output`.
  - The context length checks and `validate_context`.
  - Each error is a `Violation` value. `Reason` gives the message the source raises.
- **Utilities** (`src/utils.py`): `find_diagram_ids`, the `Diagram\s+\d+\.\d+` regex
  under `re.IGNORECASE` followed by `sorted(set(...))`; and the word-overlap test
  `context_is_relevant`.
- **Response models** (`src/models.py`): validating parsed JSON into `AnswerResponse`,
  with its defaults, and into `RerankResult`. `src/reranker.py` imports `RerankResult`
  from `src/models.py`, but that file does not define it. The model gives it the fields
  its users read (`simple_rag.py:62,65`): a list of entries, each with an integer `id`
  and a numeric `score`.
- **Reranker reply handling** (`src/reranker.py`): the passage blocks of the prompt, the
  `{...}` extraction from the reply, and its validation.
- **Retrieval post-processing**:
  - `src/retriever.py`: per-candidate scoring, the stable descending sort, the top-k cut,
    context assembly and the relevance gate.
  - `src/vector_store.py`: the document conversion and the rerank selection of
    `hybrid_search`.
  - `src/simple_rag.py`: `retrieve` with its page-to-diagram map, the selection, the
    deduplicated pages and the 25-image cap.
- **Answer generation** (`src/generator.py`): the reference check
  `validate_answer_against_context`, and the parse-with-fallback of
  `generate_structured_answer`.
- **PDF processing** (`src/pdf_processor.py`): `table_to_markdown`, `extract_paragraphs`
  and `build_chunk_record`.

Python's string operations are modelled exactly in module `PyText`: `split`, `strip`,
`join`, `find`, `rfind`, slicing with negative and out-of-range bounds, substring
`split`, and `str(int)`; `lower` is modelled on ASCII letters only. The whitespace behind `split()` and `strip()` is
Python's set of 29 `str.isspace()` characters. Module `Ordering` holds Python's string
order, `sorted(set(...))`, and the stable `sorted(..., reverse=True)` by a key.
Everything outside the process becomes a parameter:

- an LLM call is a function from its prompt inputs to the reply text;
- `json.loads` is `parse: string -> Option<Json>`;
- `float()` is `parseFloat`;
- the injection regexes are `suspicious`;
- the ensemble retriever's output is the list of documents it returns.

Operations that loop in the source are methods with loop invariants. Each is proved equal
to a specification function, and the properties are lemmas about that function.

Where the tests and the code differ, the model follows the code:

- `validate_context` returns `None`. The tests expect it to return the context
  (tests/test_guardrails.py:210, 257).
- The query minimum is 3 characters, as `MIN_QUERY_LENGTH` says.
- The reranker never tries a direct `json.loads`: it always extracts `{...}` first.
- The reranker does not range-check passage ids. `hybrid_search` and `retrieve` index
  `results[item.id]`, so a negative id counts from the end and an id out of range raises.
- `generate_structured_answer` does no reference filtering: that call is commented out.
- In strict mode, images starting with `"Diagram "` are accepted whatever `allowed_media`
  holds.
- Whitespace is collapsed before tags are removed, so `"a <b> c"` sanitises to `"a  c"`.
- `retrieve` passes `use_reranker=False`, so it reranks at most `top_k` results, not
  `candidate_k`.
- Its images include diagrams of chunks that were not selected, if they are on a
  selected page.

## Model

| member | source | states |
|---|---|---|
| Guardrails.SanitizeNoTag | src/guardrails.py:56-77 | whatever the query, the sanitised text contains no match of `<[^>]+>`, even though removing a tag can join two pieces of text |
| Guardrails.SanitizeAvoids | src/guardrails.py:65-77 | the sanitised text contains no character of `[\x00-\x1f\x7f-\x9f]` and none of `{}[]\` |
| Guardrails.SanitizeCollapses | src/guardrails.py:56-77 | on a query without tags, brackets or non-space control characters, sanitising gives exactly the words of the query joined by single spaces |
| Guardrails.SanitizeDoubleSpace | src/guardrails.py:65-77 | whitespace is collapsed before tags go: `"a <b> c"` sanitises to `"a  c"`, with two spaces |
| Guardrails.CheckInputSafety | src/guardrails.py:80-101 | too short iff the stripped length is below 3; too long iff above 500; passes iff the length is in range and no injection pattern matches the lower-cased query; fails with nothing else |
| Guardrails.LengthBeforeInjection | src/guardrails.py:88-101 | a query of the wrong length is refused for its length, whatever the injection patterns say |
| Guardrails.ValidateInput | src/guardrails.py:254-287 | a missing or empty query is refused as not a non-empty string; otherwise the result is the check's verdict and, on success, the sanitised query |
| Guardrails.ValidateInputClean | src/guardrails.py:254-287 | an accepted query comes back with no tag, no control character and no bracket or backslash |
| Guardrails.ValidateInputMayEmpty | src/guardrails.py:281-284 | the checks see the raw query, so `"<ab>"` is accepted and sanitises to the empty string |
| Guardrails.CheckOutputStructure | src/guardrails.py:111-146 | passes iff every required key is present, the stripped title has at least 5 characters, the stripped summary has 10 to 2000, and there are at most 10 steps; a missing `mode` is reported first |
| Guardrails.StructureMissingKey | src/guardrails.py:119-129 | a missing key is reported iff it is the first one absent, in the order mode, answer, links, media, then title, summary, steps, verification |
| Guardrails.StructureBoundFailure | src/guardrails.py:131-146 | with every key present: the short title is reported iff the stripped title is under 5; the short summary iff the title is fine and the stripped summary is under 10; too long iff the title is fine and the summary over 2000; too many steps iff the earlier bounds all hold and there are more than 10 |
| Guardrails.MissingVerificationExample | tests/test_guardrails.py:80-95 | the test answer with title "Test" and no `verification` is refused for that missing field, with the message "Missing required answer field: verification" |
| Guardrails.DumpStructure | src/guardrails.py:111-146 | the dump of a validated response never lacks a key: only the title, summary and step bounds can refuse it |
| Guardrails.FirstProblem | src/guardrails.py:172-188 | the first refused item is reported, and it passes iff no item is refused |
| Guardrails.CheckOutputReferences | src/guardrails.py:149-188 | passes iff there are at most 10 links and 5 images and every link and image is acceptable; more than 10 links is always reported as too many links |
| Guardrails.FirstProblemAt | src/guardrails.py:172-188 | when item i is the first refused one, its own problem is the one reported |
| Guardrails.LinkFailureReported | src/guardrails.py:168-176 | with at most 10 links, the first refused link's problem is reported, whatever the images |
| Guardrails.TooManyMediaReported | src/guardrails.py:179-181 | with every link accepted, more than 5 images are refused as too many media files |
| Guardrails.ImageFailureReported | src/guardrails.py:179-188 | with every link accepted and at most 5 images, the first refused image's problem is reported |
| Guardrails.HallucinatedLinkExample | tests/test_guardrails.py:97-113 | in strict mode a well-formed answer linking `/media/page_999.png` when only `/media/page_42.png` is allowed is refused with an invalid page reference naming that link |
| Guardrails.HallucinatedImageExample | tests/test_guardrails.py:115-132 | in strict mode a well-formed answer with the image `/media/fake_img.png`, not among the allowed media, is refused with an invalid media reference naming it |
| Guardrails.LenientIgnoresAllowed | src/guardrails.py:172-188 | outside strict mode the allowed pages and media play no part |
| Guardrails.StrictImpliesLenient | src/guardrails.py:172-188 | whatever strict mode accepts, lenient mode accepts |
| Guardrails.DiagramImagesAccepted | src/guardrails.py:185-187 | an image starting with `"Diagram "` is never refused, even in strict mode |
| Guardrails.StrictReferencesAllowed | src/guardrails.py:172-188 | in strict mode every accepted link, and every accepted image that is not a diagram, is among the allowed ones and starts with `/media/` |
| Guardrails.CheckContext | src/guardrails.py:196-213 | empty iff the context is empty; too long iff longer than 50000; passes otherwise |
| Guardrails.ShortContextAccepted | src/guardrails.py:192-213 | a context shorter than 50 characters is still accepted: the minimum is only logged |
| Guardrails.ValidateOutput | src/guardrails.py:290-324 | passes iff the structure is well formed and the references pass; a structural fault is reported before any reference fault |
| Guardrails.ValidateContext | src/guardrails.py:327-350 | passes iff the context is non-empty and at most 50000 long, and otherwise fails as empty or too long |
| Guardrails.ReasonTexts | src/guardrails.py:88-181 | the messages carry the limits 3, 500, 2000, 10, 10, 5 and 50000 in decimal |
| Guardrails.RemoveTags | src/guardrails.py:72 | removing tags never lengthens the text |
| Guardrails.RemoveTagsTagFree | src/guardrails.py:72 | after `re.sub("<[^>]+>", ...)` every `<` left is followed directly by `>` or by no `>` at all, so no match of the pattern remains |
| Guardrails.Delete | src/guardrails.py:69-75 | the result is no longer than the text, holds no character of the class and only characters of the text, and is the text itself when none of its characters is in the class |
| Guardrails.DeleteAppend | src/guardrails.py:69-75 | deleting from a concatenation deletes from each part in turn: the characters kept stay in their order |
| Guardrails.DeleteCounts | src/guardrails.py:69-75 | every character outside the class is kept as often as it occurs in the text; none in the class is kept |
| Guardrails.DeleteOne | src/guardrails.py:69-75 | a single character is kept iff it is outside the class; with `DeleteAppend` this fixes the result of every text |
| Utils.MatchLenSound | src/utils.py:10-18 | a match found at a position is a whole occurrence of `Diagram\s+\d+\.\d+`, not followed by a digit |
| Utils.MatchLenComplete | src/utils.py:10-18 | every occurrence of the pattern at the start of the text, when no digit follows it, is the match found |
| Utils.FindAllFacts | src/utils.py:18 | every match `findall` returns is an occurrence of the pattern in the text |
| Utils.FindDiagramIdsFacts | src/utils.py:17-18 | the identifiers are sorted and without duplicates; each is an occurrence of the pattern in the text, with its own casing; every match is among them |
| Utils.FindDiagramIdsExample | tests/test_utils.py:20-26 | "See Diagram 3.1 and Diagram 4.2 for details" gives exactly `["Diagram 3.1", "Diagram 4.2"]` |
| Utils.FindDiagramIdsNone | tests/test_utils.py:29-33 | "This text has no diagrams" gives no identifier |
| Utils.ContextIsRelevant | src/utils.py:32-43 | relevant iff some lower-cased word of the query is a lower-cased word of the context |
| Utils.ContextIsRelevantSymmetric | src/utils.py:39-43 | swapping query and context does not change the verdict |
| Utils.ContextIsRelevantEmpty | tests/test_utils.py:64-68 | a query or context with no word is never relevant |
| Utils.DigitRun | src/utils.py:10 | the leading run of digits: all digits, and the next character is none |
| Models.ToAnswerResponse | src/models.py:7-23 | validation succeeds iff the value is an object whose `answer`, `links` and `media` validate and whose `mode` and `latency_ms`, when present, are a string and an integer; the response's answer, links and media are then the object's own values, and a missing `mode` defaults to `"answer"` and a missing `latency_ms` to 0 |
| Models.ToAnswerContent | src/models.py:7-11 | validates iff the value is an object with string `title` and `summary` and string-list `steps` and `verification`, and then carries exactly those values |
| Models.ToMedia | src/models.py:14-15 | validates iff the value is an object with a string-list `images`, and then carries that list |
| Models.AnswerResponseRoundTrip | src/models.py:7-23 | validating the JSON dump of any response gives that response back |
| Models.RerankResultRoundTrip | src/reranker.py:55 | validating the JSON dump of any rerank result gives it back |
| Models.ToRerankEntries | src/reranker.py:55 | each validated entry has the integer id and the numeric score of the object it came from, one entry per object |
| Json.AsStrings | src/models.py:10-21 | a list validates as `List[str]` iff every item is a string, and then gives those strings in order |
| Reranker.BuildBlocks | src/reranker.py:27-29 | the loop builds the block of each passage in order |
| Reranker.BlockFacts | src/reranker.py:29 | block i starts with the header `## Passage i` and a newline, whose number reads back as i, followed by the first 1000 characters of the passage's text |
| Reranker.BlocksIgnoreIds | src/reranker.py:28-29 | the header numbers are positions in the list: the passages' own ids play no part |
| Reranker.ExtractBracesSpan | src/reranker.py:48 | the cleaned reply runs from the first `{` to the last `}` inclusive, or is empty when the last `}` comes before the first `{` |
| Reranker.ExtractBracesWhole | src/reranker.py:48 | a reply that starts with `{` and ends with `}` is kept whole |
| Reranker.ExtractBracesNoClose | src/reranker.py:48 | a reply without `}` is cleaned to the empty string |
| Reranker.ExtractBracesNoOpen | src/reranker.py:48 | a reply without `{` is cleaned to `"}"` if it ends with one, and to nothing otherwise: `find` returns -1 |
| Reranker.ExtractBracesIdempotent | src/reranker.py:48 | cleaning a cleaned reply changes nothing |
| Reranker.ParseRerankReply | src/reranker.py:44-55 | succeeds iff the cleaned reply parses and validates as a `RerankResult`, and gives that result; a parse failure is reported with the cleaned text |
| Reranker.ParseRerankReplyDump | src/reranker.py:48-55 | a reply whose cleaned part is the dump of a result gives that very result |
| Reranker.ParseRerankReplyExtracted | src/reranker.py:48-49 | a reply that was already cleaned gives the same verdict as the raw one |
| Reranker.ScorePassages | src/reranker.py:21-55 | the result is the verdict on the completion of the query and the passage blocks joined by blank lines |
| Reranker.PassagesOf | src/vector_store.py:115 | passage i carries id i and the text of result i |
| Retriever.ReplyScore | src/retriever.py:40-44 | a reply parsed as a float gives that score; any other reply scores 0 |
| Retriever.Scored | src/retriever.py:19-46 | one pair per candidate, in order: the candidate and the score of its reply |
| Retriever.Rerank | src/retriever.py:12-51 | the loop, sort and cut give the chunks of the top scored pairs |
| Retriever.RerankFacts | src/retriever.py:12-51 | the result has min(top_k, n) chunks in descending score order, drawn from the candidates without repetition; no chunk left out scores higher than one kept; chunks with equal scores keep their candidate order |
| Retriever.UnparsedScoresZero | src/retriever.py:40-44 | a candidate whose reply is not a number scores 0.0 |
| Retriever.Assemble | src/retriever.py:63-75 | nothing is returned iff the context is not relevant to the query; otherwise the context is the page-headed texts, and the sorted media and page lists hold exactly the selected chunks' diagram ids and media |
| Retriever.AssembleNothing | src/retriever.py:63-75 | with no chunk the empty context is irrelevant, so nothing is returned |
| Retriever.RetrieveWithReranking | src/retriever.py:54-75 | the result is the assembly of the reranked top chunks |
| VectorStore.ToHit | src/vector_store.py:101-108 | a result carries the page content and metadata of its document |
| VectorStore.ConvertDocs | src/vector_store.py:98-109 | the loop converts the first `candidate_k` documents, in order, one result each |
| VectorStore.Pick | src/vector_store.py:122 | succeeds iff every id indexes the results, Python-style with negatives from the end, and then gives the indexed results in order; otherwise reports the first id out of range |
| VectorStore.SelectByRankingFacts | src/vector_store.py:119-122 | the selected entries are the top_k by descending score, drawn from the ranking without repetition, with ties kept in reply order; no entry left out scores higher; a successful selection gives the indexed result for each |
| VectorStore.SearchResult | src/vector_store.py:112-127 | without the reranker the result is the first top_k results |
| VectorStore.HybridSearch | src/vector_store.py:73-127 | converts the documents, then returns the first top_k or the reranked selection |
| SimpleRag.DiagramsOnPageMembers | src/simple_rag.py:35-41 | the diagrams collected for a page are exactly those of the chunks on that page |
| SimpleRag.PageMapFacts | src/simple_rag.py:35-46 | a page is in the map iff some chunk is on it, and its list is sorted, without duplicates, and holds exactly the diagram ids of its chunks |
| SimpleRag.BuildPageDiagramMap | src/simple_rag.py:35-46 | the loop builds that map |
| SimpleRag.Dedup | src/simple_rag.py:71-74 | the deduplicated list has the same elements, each once |
| SimpleRag.CollectImages | src/simple_rag.py:77-88 | the loop and the cap give the first 25 of the sorted distinct diagrams of the pages |
| SimpleRag.CapImagesFacts | src/simple_rag.py:77-88 | the images are sorted, distinct, at most 25, and each is a diagram of one of the pages; a diagram of the pages is missing only when 25 smaller ones were kept |
| SimpleRag.AssembleContextFacts | src/simple_rag.py:68-88 | the context is the selected texts joined by `\n\n---\n\n`, without page headers; the pages are the selected results' media, each once; every image is a diagram of some chunk on a selected page |
| SimpleRag.AssembleContextComplete | src/simple_rag.py:77-88 | every diagram of a chunk on a selected page is handed on, unless 25 smaller ones were |
| SimpleRag.Retrieve | src/simple_rag.py:28-90 | the result is the assembly of the reranked selection from the first top_k converted documents, or the reranker's error, or an out-of-range id |
| Generator.FirstNotIn | src/generator.py:55-62 | reports nothing iff every item is allowed, and otherwise the first item not allowed |
| Generator.ValidateAnswerAgainstContext | src/generator.py:46-78 | returns the output unchanged iff every link is among the pages and every image among the media files; the links are checked first |
| Generator.LinksCheckedFirst | src/generator.py:55-62 | when a link is not allowed the image list plays no part and the error names that link |
| Generator.ContextIgnored | src/generator.py:64-76 | the word check has no effect: the context plays no part in the verdict |
| Generator.ParseAnswerJson | src/generator.py:107-112 | a reply that parses is used as it is, and only a failed parse falls back to the `{...}` extraction |
| Generator.DirectParseFirst | src/generator.py:107-115 | with a reply that parses directly, the answer is that JSON validated, whatever its extraction gives |
| Generator.ParseAnswerReply | src/generator.py:107-122 | succeeds iff the reply or its extraction parses and validates, and gives that response; a double parse failure reports the extracted text |
| Generator.ParseAnswerReplyDump | src/generator.py:107-122 | a reply carrying the dump of a response gives exactly that response, links and images unfiltered |
| Generator.GenerateUnfiltered | src/generator.py:107-122 | for any parsed reply JSON that validates, the answer is that validated response, and its links and images are exactly the string lists of the reply's `links` and `media.images`, whether or not they are among the pages and media passed in |
| PdfProcessor.CleanRow | src/pdf_processor.py:96-104 | each cell becomes its stripped text, or the empty string for `None` |
| PdfProcessor.TableToMarkdown | src/pdf_processor.py:83-112 | the loop builds the Markdown text of the table's rows |
| PdfProcessor.MarkdownEmpty | src/pdf_processor.py:91-92 | an empty table gives the empty string |
| PdfProcessor.TableRowsFacts | src/pdf_processor.py:95-110 | one line per table row plus the separator; the header is the cleaned first row, the separator has one `---` per header cell, and each later row is cleaned and padded to the header's width |
| PdfProcessor.PadFacts | src/pdf_processor.py:107-108 | a short row is padded with empty cells to the header's width; a longer row is kept whole |
| PdfProcessor.LinesSnoc | src/pdf_processor.py:110 | appending a row appends its line and a newline |
| PdfProcessor.MarkdownLines | src/pdf_processor.py:83-112 | for cells without newlines, the text splits on `\n` into one line per table row plus the separator, then an empty tail; every line starts with `\| ` and ends with ` \|` |
| PdfProcessor.NonEmptyStripped | src/pdf_processor.py:64 | each paragraph kept is a non-empty stripped piece, and there are no more paragraphs than pieces |
| PdfProcessor.NonEmptyStrippedComplete | src/pdf_processor.py:64 | every piece whose stripped text is non-empty has that text among the paragraphs |
| PdfProcessor.NonEmptyStrippedAppend | src/pdf_processor.py:64 | the paragraphs of two runs of pieces are those of the first run followed by those of the second: order is kept |
| PdfProcessor.NonEmptyStrippedOne | src/pdf_processor.py:64 | a single piece gives its stripped text iff that is non-empty; with `NonEmptyStrippedAppend` this fixes every result |
| PdfProcessor.ParagraphFacts | src/pdf_processor.py:59-65 | every paragraph is non-empty, already stripped, and contains no blank-line break |
| PdfProcessor.ParagraphsRejoined | src/pdf_processor.py:64 | paragraphs of that kind, joined by blank lines and split again, come back unchanged |
| PdfProcessor.ExtractParagraphsIdempotent | src/pdf_processor.py:59-65 | extracting paragraphs from extracted paragraphs joined by blank lines gives them back |
| PdfProcessor.BuildChunkRecord | src/pdf_processor.py:115-129 | the record carries its inputs; its media is the page image followed by the embedded images; its diagram ids are those found in the text |
| PdfProcessor.ChunkRecordFacts | src/pdf_processor.py:115-129 | `contains_diagram` holds iff the text has some diagram match; every diagram id is an occurrence in the text |
| Ordering.SortedSet | src/utils.py:18 | `sorted(set(xs))` is sorted without duplicates and has exactly the elements of xs |
| Ordering.StrictlySortedUnique | src/utils.py:18 | two sorted duplicate-free lists with the same elements are equal |
| Ordering.SortByKeyDescFacts | src/retriever.py:49 | the descending sort by a key is ordered, is a permutation, and is stable: items with equal keys keep their order |
| Ordering.TopKFacts | src/retriever.py:49-51 | the first k of the sort number min(k, n), are ordered, are drawn from the input, and no item left out has a larger key |
| PyText.Find | src/reranker.py:48 | `find` gives -1 or the first index holding the character |
| PyText.NatToStringRoundTrip | src/reranker.py:29 | the decimal text of a number reads back as that number |

## Left out

- Reading the PDF (PyMuPDF, pdfplumber), the page images, embeddings, the FAISS index and
  the pickle files: I/O. The table and the page text are inputs.
- `extract_embedded_images`, `extract_tables_from_page`, `build_chunks_from_pdf` and
  `get_page_image_path`: file and library I/O around the modelled functions.
- The LLM calls (Groq): each is a function parameter from the prompt inputs to the reply.
  The prompt templates of `src/prompts.py` are not modelled, so only what enters the
  prompt is fixed.
- `json.loads` is the parameter `parse` and `float()` is `parseFloat`. The JSON grammar
  and float syntax are not modelled. Scores are real numbers, so NaN and rounding are not
  modelled.
- The injection patterns of `INJECTION_PATTERNS` are the predicate `suspicious`: the
  regular expressions themselves are not modelled.
- The ensemble retriever (BM25 and FAISS weights): its output list is an input.
  `search` from `src/embeddings.py` is not part of this model; `rerank` takes its results.
- `count_tokens` (tiktoken), `apply_overlap`, the text splitter and `uuid.uuid4()`: the
  token count and the id are inputs of `BuildChunkRecord`.
- Logging and the warning issued when more than 25 diagrams are found.
- `LangChainGuardrailsConfig`, `CONSTITUTIONAL_PRINCIPLES`, the API and the CLI entry
  points, and `SimpleRAG.answer`, which only wires the modelled steps together.
- `\d` and `str.lower()` are modelled on ASCII. The word "Diagram" is matched with
  Python's case-insensitive variants, including `ı` and `İ` for `i`.
- The order of Python `set` iteration. `unique_pages` and `pages` in `retrieve` are
  deduplicated in a fixed order, and only their elements are claimed, not their order.
- Dictionary values of the wrong type, and the `.get` defaults of chunk dictionaries:
  values are taken to have the types the pipeline gives them, and chunk keys to be present.
- `str(cell)` of a non-string table cell: a cell is a string or `None`.
- PdfProcessor.MarkdownLines: stated only for tables whose cells contain no newline,
  since a newline inside a cell splits its row across lines.
- Guardrails.RemoveTags: the regex `<[^>]+>` is modelled by its leftmost scan, and proved
  tag-free and length-reducing rather than equal to a regex engine's result.
