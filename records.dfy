/** The dictionaries passed between the pipeline's stages. */
module Records {

  /** A chunk of the document, as built by `build_chunk_record` and stored as metadata. */
  datatype Chunk = Chunk(
    id: string,
    page: int,
    text: string,
    tokenCount: nat,
    containsDiagram: bool,
    diagramIds: seq<string>,
    media: seq<string>,
    isTable: bool)

  /** A retrieval result, as `hybrid_search` builds it from a document. */
  datatype Hit = Hit(page: int, text: string, media: seq<string>, diagramIds: seq<string>, isTable: bool)

  /** A passage sent to the reranker: `{"id": i, "text": ...}`. */
  datatype Passage = Passage(id: int, text: string)

  /** The concatenation of a list of lists, in order: `[m for r in rs for m in f(r)]`. */
  function Flatten(xss: seq<seq<string>>): (r: seq<string>)
    ensures forall m :: m in r <==> exists i :: 0 <= i < |xss| && m in xss[i]
  {
    if xss == [] then []
    else
      var rest := Flatten(xss[1..]);
      assert forall m :: m in rest <==> exists i :: 1 <= i < |xss| && m in xss[i] by {
        forall m ensures m in rest <==> exists i :: 1 <= i < |xss| && m in xss[i] {
          if m in rest {
            var i :| 0 <= i < |xss[1..]| && m in xss[1..][i];
            assert m in xss[i + 1];
          }
        }
      }
      xss[0] + rest
  }
}
