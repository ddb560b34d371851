/** The text-only parts of the PDF processing: the table-to-Markdown serialiser, the
    paragraph splitter over a page's text, and the chunk record. Reading the PDF and
    rendering images are not part of this model. */
module PdfProcessor {
  import opened Wrappers
  import opened PyText
  import opened Records
  import opened Utils

  // ---------------------------------------------------------------------------------
  // table_to_markdown
  // ---------------------------------------------------------------------------------

  /** A table cell as `pdfplumber` gives it: text, or `None` for an empty cell. */
  type Cell = Option<string>

  /** `str(cell).strip() if cell is not None else ""`. */
  function CleanCell(c: Cell): string {
    match c
    case None => []
    case Some(s) => Strip(s)
  }

  function CleanRow(row: seq<Cell>): (r: seq<string>)
    ensures |r| == |row| && forall i :: 0 <= i < |row| ==> r[i] == CleanCell(row[i])
  {
    seq(|row|, i requires 0 <= i < |row| => CleanCell(row[i]))
  }

  /** A row shorter than `n` cells, padded with empty cells to `n`; a longer one as it is. */
  function Pad(cells: seq<string>, n: nat): seq<string> {
    if |cells| < n then cells + seq(n - |cells|, _ => "") else cells
  }

  const Separator := "---"

  /** The cells of each Markdown line: the header, the separator, then every later row. */
  function TableRows(table: seq<seq<Cell>>): seq<seq<string>>
    requires table != []
  {
    var header := CleanRow(table[0]);
    [header, seq(|header|, _ => Separator)] +
    seq(|table| - 1, k requires 0 <= k < |table| - 1 => Pad(CleanRow(table[k + 1]), |header|))
  }

  /** One line without its newline: `"| " + " | ".join(cells) + " |"`. */
  function RowText(cells: seq<string>): string {
    "| " + Join(" | ", cells) + " |"
  }

  /** The lines, each followed by a newline. */
  function Lines(rows: seq<seq<string>>): string {
    if rows == [] then [] else RowText(rows[0]) + "\n" + Lines(rows[1..])
  }

  /** What `table_to_markdown` returns. */
  function MarkdownTable(table: seq<seq<Cell>>): string {
    if table == [] then [] else Lines(TableRows(table))
  }

  lemma {:induction false} LinesSnoc(rows: seq<seq<string>>, row: seq<string>)
    ensures Lines(rows + [row]) == Lines(rows) + RowText(row) + "\n"
    decreases |rows|
  {
    if rows != [] {
      assert (rows + [row])[1..] == rows[1..] + [row];
      LinesSnoc(rows[1..], row);
    } else {
      assert [row][1..] == [];
    }
  }

  /** `table_to_markdown(table)`. */
  method TableToMarkdown(table: seq<seq<Cell>>) returns (md: string)
    ensures md == MarkdownTable(table)
  {
    if table == [] {
      return "";
    }
    var header := CleanRow(table[0]);
    var separator := seq(|header|, _ => Separator);
    md := "";
    md := md + "| " + Join(" | ", header) + " |\n";
    md := md + "| " + Join(" | ", separator) + " |\n";
    ghost var rows := TableRows(table);
    LinesStart(table);
    var k := 1;
    while k < |table|
      invariant 1 <= k <= |table|
      invariant md == Lines(rows[..k + 1])
    {
      var cleanRow := CleanRow(table[k]);
      if |cleanRow| < |header| {
        cleanRow := cleanRow + seq(|header| - |cleanRow|, _ => "");
      }
      assert cleanRow == Pad(CleanRow(table[k]), |header|);
      LinesStep(table, k, md);
      md := md + "| " + Join(" | ", cleanRow) + " |\n";
      k := k + 1;
    }
    assert rows[..k + 1] == rows;
  }

  lemma LinesStart(table: seq<seq<Cell>>)
    requires table != []
    ensures var header := CleanRow(table[0]);
      Lines(TableRows(table)[..2]) ==
      "" + "| " + Join(" | ", header) + " |\n" + "| " + Join(" | ", seq(|header|, _ => Separator)) + " |\n"
  {
    var rows := TableRows(table);
    TableRowsHead(table);
    assert rows[..2] == [rows[0], rows[1]];
    assert rows[1] == seq(|CleanRow(table[0])|, _ => Separator);
    LinesTwo(rows[0], rows[1]);
  }

  lemma LinesTwo(a: seq<string>, b: seq<string>)
    ensures Lines([a, b]) == "" + "| " + Join(" | ", a) + " |\n" + "| " + Join(" | ", b) + " |\n"
  {
    var la := "| " + Join(" | ", a) + " |\n";
    var lb := "| " + Join(" | ", b) + " |\n";
    assert RowText(a) + "\n" == la;
    assert RowText(b) + "\n" == lb;
    assert [a, b][1..] == [b] && [b][1..] == [];
    assert Lines([b]) == RowText(b) + "\n" + Lines([]);
    assert Lines([a, b]) == RowText(a) + "\n" + Lines([b]);
    assert Lines([a, b]) == la + lb;
    assert "" + "| " + Join(" | ", a) + " |\n" == la;
  }

  lemma LinesStep(table: seq<seq<Cell>>, k: nat, md: string)
    requires 1 <= k < |table| && md == Lines(TableRows(table)[..k + 1])
    ensures Lines(TableRows(table)[..k + 2]) ==
      md + "| " + Join(" | ", Pad(CleanRow(table[k]), |CleanRow(table[0])|)) + " |\n"
  {
    var rows := TableRows(table);
    TableRowsBody(table);
    var row := rows[k + 1];
    assert row == Pad(CleanRow(table[k]), |CleanRow(table[0])|);
    assert rows[..k + 2] == rows[..k + 1] + [row];
    LinesSnoc(rows[..k + 1], row);
    AppendLine(md, row);
  }

  /** Appending a row's line and a newline, as the loop writes it. */
  lemma AppendLine(md: string, row: seq<string>)
    ensures md + RowText(row) + "\n" == md + "| " + Join(" | ", row) + " |\n"
  {
    var j := Join(" | ", row);
    assert md + RowText(row) + "\n" == md + ("| " + j + " |\n");
  }

  /** An empty table gives the empty string. */
  lemma MarkdownEmpty()
    ensures MarkdownTable([]) == ""
  {
  }

  /** A row padded to `n` cells keeps its own cells, then has empty ones up to `n`. */
  lemma PadFacts(cells: seq<string>, n: nat)
    ensures |Pad(cells, n)| == if |cells| < n then n else |cells|
    ensures Pad(cells, n)[..|cells|] == cells
    ensures forall i :: |cells| <= i < |Pad(cells, n)| ==> Pad(cells, n)[i] == ""
  {
  }

  /** The first two lines: the header's cleaned cells, then one `---` per header cell. */
  lemma TableRowsHead(table: seq<seq<Cell>>)
    requires table != []
    ensures |TableRows(table)| == |table| + 1
    ensures TableRows(table)[0] == CleanRow(table[0])
    ensures |TableRows(table)[1]| == |table[0]|
    ensures forall i :: 0 <= i < |table[0]| ==> TableRows(table)[1][i] == Separator
  {
  }

  /** Every later line: the row's cleaned cells padded to the header's length. */
  lemma TableRowsBody(table: seq<seq<Cell>>)
    requires table != []
    ensures forall k :: 1 <= k < |table| ==> TableRows(table)[k + 1] == Pad(CleanRow(table[k]), |table[0]|)
  {
  }

  /** A non-empty table has one line per row plus the separator line: the header's cleaned
      cells, one `---` per header cell, then every later row's cleaned cells padded to the
      header's length. */
  lemma TableRowsFacts(table: seq<seq<Cell>>)
    requires table != []
    ensures |TableRows(table)| == |table| + 1
    ensures TableRows(table)[0] == CleanRow(table[0])
    ensures |TableRows(table)[1]| == |table[0]|
    ensures forall i :: 0 <= i < |table[0]| ==> TableRows(table)[1][i] == Separator
    ensures forall k :: 1 <= k < |table| ==> TableRows(table)[k + 1] == Pad(CleanRow(table[k]), |table[0]|)
    ensures MarkdownTable(table) == Lines(TableRows(table))
  {
    TableRowsHead(table);
    TableRowsBody(table);
  }

  function RowTexts(rows: seq<seq<string>>): (ts: seq<string>)
    ensures |ts| == |rows| && forall i :: 0 <= i < |rows| ==> ts[i] == RowText(rows[i])
  {
    seq(|rows|, i requires 0 <= i < |rows| => RowText(rows[i]))
  }

  /** Splitting at the first newline of a line that has none in its body. */
  lemma SplitOnLine(l: string, rest: string)
    requires '\n' !in l
    ensures SplitOn(l + "\n" + rest, "\n") == [l] + SplitOn(rest, "\n")
  {
    var s := l + "\n" + rest;
    assert OccursAt(s, "\n", |l|) by {
      assert s[|l|..|l| + 1] == "\n";
    }
    forall i: nat | i < |l| ensures !OccursAt(s, "\n", i) {
      assert s[i] == l[i];
    }
    var k := FindSub(s, "\n");
    assert k == |l|;
    assert s[..k] == l;
    assert s[k + 1..] == rest;
  }

  lemma {:induction false} LinesSplit(rows: seq<seq<string>>)
    requires forall i :: 0 <= i < |rows| ==> '\n' !in RowText(rows[i])
    ensures SplitOn(Lines(rows), "\n") == RowTexts(rows) + [""]
    decreases |rows|
  {
    if rows == [] {
      assert FindSub("", "\n") == -1;
    } else {
      LinesSplit(rows[1..]);
      LinesSplitStep(rows);
    }
  }

  lemma LinesSplitStep(rows: seq<seq<string>>)
    requires rows != [] && '\n' !in RowText(rows[0])
    requires SplitOn(Lines(rows[1..]), "\n") == RowTexts(rows[1..]) + [""]
    ensures SplitOn(Lines(rows), "\n") == RowTexts(rows) + [""]
  {
    var l := RowText(rows[0]);
    var rest := Lines(rows[1..]);
    assert Lines(rows) == l + "\n" + rest;
    SplitOnLine(l, rest);
    RowTextsCons(rows);
  }

  lemma RowTextsCons(rows: seq<seq<string>>)
    requires rows != []
    ensures RowTexts(rows) == [RowText(rows[0])] + RowTexts(rows[1..])
  {
  }

  /** The text of a line has no newline when its cells have none. */
  lemma RowTextNoNewline(cells: seq<string>)
    requires forall i :: 0 <= i < |cells| ==> '\n' !in cells[i]
    ensures '\n' !in RowText(cells)
  {
    var j := Join(" | ", cells);
    forall i | 0 <= i < |j| ensures j[i] != '\n' {
      JoinChars(" | ", cells, i);
    }
    var r := RowText(cells);
    forall i | 0 <= i < |r| ensures r[i] != '\n' {
      if 2 <= i < 2 + |j| {
        assert r[i] == j[i - 2];
      }
    }
  }

  lemma CleanCellNoNewline(c: Cell)
    requires c.Some? ==> '\n' !in c.value
    ensures '\n' !in CleanCell(c)
  {
    if c.Some? {
      var s := c.value;
      var r := Strip(s);
      forall i | 0 <= i < |r| ensures r[i] != '\n' {
        assert r[i] == s[LeadingSpaces(s) + i];
      }
    }
  }

  /** When no cell holds a newline, the Markdown splits into exactly one line per row plus
      the separator line, each starting with `| ` and ending with ` |`, and nothing after
      the last newline. */
  lemma MarkdownLines(table: seq<seq<Cell>>)
    requires table != []
    requires forall k, i :: 0 <= k < |table| && 0 <= i < |table[k]| && table[k][i].Some? ==> '\n' !in table[k][i].value
    ensures var lines := SplitOn(MarkdownTable(table), "\n");
      |lines| == |table| + 2 && lines[|table| + 1] == "" &&
      forall k :: 0 <= k <= |table| ==> "| " <= lines[k] && lines[k][|lines[k]| - 2..] == " |"
  {
    var rows := TableRows(table);
    TableRowsFacts(table);
    forall r | 0 <= r < |rows| ensures '\n' !in RowText(rows[r]) {
      forall i | 0 <= i < |rows[r]| ensures '\n' !in rows[r][i] {
        if r == 0 {
          CleanCellNoNewline(table[0][i]);
        } else if r >= 2 {
          PadFacts(CleanRow(table[r - 1]), |table[0]|);
          if i < |table[r - 1]| {
            assert rows[r][i] == CleanRow(table[r - 1])[i];
            CleanCellNoNewline(table[r - 1][i]);
          }
        }
      }
      RowTextNoNewline(rows[r]);
    }
    LinesSplit(rows);
    var lines := SplitOn(MarkdownTable(table), "\n");
    forall k | 0 <= k <= |table| ensures "| " <= lines[k] && lines[k][|lines[k]| - 2..] == " |" {
      assert lines[k] == RowText(rows[k]);
    }
  }

  // ---------------------------------------------------------------------------------
  // extract_paragraphs
  // ---------------------------------------------------------------------------------

  const ParagraphBreak := "\n\n"

  /** `[p.strip() for p in pieces if p.strip()]`. */
  function NonEmptyStripped(pieces: seq<string>): (r: seq<string>)
    ensures |r| <= |pieces|
    ensures forall x :: x in r ==> x != [] && exists y :: y in pieces && x == Strip(y)
  {
    if pieces == [] then []
    else if Strip(pieces[0]) != [] then [Strip(pieces[0])] + NonEmptyStripped(pieces[1..])
    else NonEmptyStripped(pieces[1..])
  }

  /** Every piece whose stripped text is not empty gives a paragraph. */
  lemma {:induction false} NonEmptyStrippedComplete(pieces: seq<string>)
    ensures forall y :: y in pieces && Strip(y) != [] ==> Strip(y) in NonEmptyStripped(pieces)
    decreases |pieces|
  {
    if pieces != [] {
      NonEmptyStrippedComplete(pieces[1..]);
      assert forall y :: y in pieces && y != pieces[0] ==> y in pieces[1..];
    }
  }

  /** The pieces are handled one by one, so the paragraphs keep their order. */
  lemma {:induction false} NonEmptyStrippedAppend(a: seq<string>, b: seq<string>)
    ensures NonEmptyStripped(a + b) == NonEmptyStripped(a) + NonEmptyStripped(b)
    decreases |a|
  {
    if a != [] {
      assert (a + b)[0] == a[0] && (a + b)[1..] == a[1..] + b;
      NonEmptyStrippedAppend(a[1..], b);
    } else {
      assert a + b == b;
    }
  }

  /** A single piece gives its stripped text, unless that is empty. */
  lemma NonEmptyStrippedOne(p: string)
    ensures NonEmptyStripped([p]) == if Strip(p) != [] then [Strip(p)] else []
  {
  }

  /** `extract_paragraphs` on the page's text. */
  function ExtractParagraphs(text: string): seq<string> {
    NonEmptyStripped(SplitOn(text, ParagraphBreak))
  }

  lemma StripStripped(r: string)
    requires r == [] || (!IsSpace(r[0]) && !IsSpace(r[|r| - 1]))
    ensures Strip(r) == r
  {
    if r != [] {
      assert LeadingSpaces(r) == 0 && TrailingSpaces(r) == 0;
    }
  }

  lemma NoBreakInSlice(s: string, a: int, b: int)
    requires 0 <= a <= b <= |s| && !Contains(s, ParagraphBreak)
    ensures !Contains(s[a..b], ParagraphBreak)
  {
    forall i: nat ensures !OccursAt(s[a..b], ParagraphBreak, i) {
      if i + 2 <= b - a {
        assert s[a..b][i..i + 2][0] == s[a + i];
        assert s[a..b][i..i + 2][1] == s[a + i + 1];
        assert s[a..b][i..i + 2] == s[a + i..a + i + 2];
        assert !OccursAt(s, ParagraphBreak, a + i);
      }
    }
  }

  /** A stripped piece that holds no blank line is a paragraph. */
  lemma StrippedPiece(s: string)
    requires !Contains(s, ParagraphBreak)
    ensures Strip(Strip(s)) == Strip(s) && !Contains(Strip(s), ParagraphBreak)
  {
    StripStripped(Strip(s));
    NoBreakInSlice(s, LeadingSpaces(s), LeadingSpaces(s) + |Strip(s)|);
  }

  /** Every paragraph is non-empty, has no whitespace at either end, and has no blank
      line inside it. */
  lemma ParagraphFacts(text: string)
    ensures forall i :: 0 <= i < |ExtractParagraphs(text)| ==>
      ExtractParagraphs(text)[i] != [] && Strip(ExtractParagraphs(text)[i]) == ExtractParagraphs(text)[i] &&
      !Contains(ExtractParagraphs(text)[i], ParagraphBreak)
  {
    var pieces := SplitOn(text, ParagraphBreak);
    var ps := ExtractParagraphs(text);
    forall i | 0 <= i < |ps| ensures ps[i] != [] && Strip(ps[i]) == ps[i] && !Contains(ps[i], ParagraphBreak) {
      assert ps[i] in ps;
      var y :| y in pieces && ps[i] == Strip(y);
      StrippedPiece(y);
    }
  }

  /** Paragraphs joined back with blank lines split into the same paragraphs. */
  lemma {:induction false} ParagraphsRejoined(ps: seq<string>)
    requires forall i :: 0 <= i < |ps| ==> ps[i] != [] && Strip(ps[i]) == ps[i] && !Contains(ps[i], ParagraphBreak)
    ensures NonEmptyStripped(SplitOn(Join(ParagraphBreak, ps), ParagraphBreak)) == ps
    decreases |ps|
  {
    if ps == [] {
      assert SplitOn([], ParagraphBreak) == [[]];
      assert Strip([]) == [];
    } else if |ps| == 1 {
      NoBreakSplit(ps[0]);
    } else {
      var p := ps[0];
      ParagraphsRejoined(ps[1..]);
      JoinCons(ParagraphBreak, p, ps[1..]);
      SplitOnParagraph(p, Join(ParagraphBreak, ps[1..]));
    }
  }

  lemma NoBreakSplit(p: string)
    requires p != [] && Strip(p) == p && !Contains(p, ParagraphBreak)
    ensures SplitOn(p, ParagraphBreak) == [p]
  {
    assert FindSub(p, ParagraphBreak) == -1;
  }

  /** Splitting after a paragraph: its last character is not a newline, so the first
      blank line is the one that follows it. */
  lemma SplitOnParagraph(p: string, rest: string)
    requires p != [] && Strip(p) == p && !Contains(p, ParagraphBreak)
    ensures SplitOn(p + ParagraphBreak + rest, ParagraphBreak) == [p] + SplitOn(rest, ParagraphBreak)
  {
    var s := p + ParagraphBreak + rest;
    var n := |p|;
    assert OccursAt(s, ParagraphBreak, n) by {
      assert s[n..n + 2] == ParagraphBreak;
    }
    forall i: nat | i < n ensures !OccursAt(s, ParagraphBreak, i) {
      if i + 2 <= n {
        assert s[i..i + 2] == p[i..i + 2];
        assert !OccursAt(p, ParagraphBreak, i);
      } else {
        assert s[i] == p[n - 1];
        assert !IsSpace(p[n - 1]);
      }
    }
    var k := FindSub(s, ParagraphBreak);
    assert k == n;
    assert s[..k] == p;
    assert s[k + 2..] == rest;
  }

  /** Splitting the paragraphs of a text again changes nothing. */
  lemma ExtractParagraphsIdempotent(text: string)
    ensures ExtractParagraphs(Join(ParagraphBreak, ExtractParagraphs(text))) == ExtractParagraphs(text)
  {
    ParagraphFacts(text);
    ParagraphsRejoined(ExtractParagraphs(text));
  }

  // ---------------------------------------------------------------------------------
  // build_chunk_record
  // ---------------------------------------------------------------------------------

  /** `build_chunk_record(text, page_num, page_img, embedded_imgs, is_table)`; the fresh
      `uuid4()` and `count_tokens(text)` are inputs. */
  function BuildChunkRecord(text: string, pageNum: int, pageImg: string, embeddedImgs: seq<string>, isTable: bool,
                            uuid: string, tokenCount: nat): (c: Chunk)
    ensures c.id == uuid && c.page == pageNum && c.text == text && c.tokenCount == tokenCount && c.isTable == isTable
    ensures c.media == [pageImg] + embeddedImgs
    ensures c.diagramIds == FindDiagramIds(text)
  {
    var diagramIds := FindDiagramIds(text);
    Chunk(uuid, pageNum, text, tokenCount, |diagramIds| > 0, diagramIds, [pageImg] + embeddedImgs, isTable)
  }

  /** A chunk is marked as containing a diagram exactly when its text has a match of the
      diagram pattern; its page image comes first in its media. */
  lemma ChunkRecordFacts(text: string, pageNum: int, pageImg: string, embeddedImgs: seq<string>, isTable: bool,
                         uuid: string, tokenCount: nat)
    ensures var c := BuildChunkRecord(text, pageNum, pageImg, embeddedImgs, isTable, uuid, tokenCount);
      (c.containsDiagram <==> FindAll(text) != []) &&
      c.media[0] == pageImg && c.media[1..] == embeddedImgs &&
      forall w :: w in c.diagramIds ==> IsDiagramId(w) && Contains(text, w)
  {
    FindDiagramIdsFacts(text);
    var ids := FindDiagramIds(text);
    if FindAll(text) != [] {
      assert FindAll(text)[0] in FindAll(text);
    }
    if ids != [] {
      assert ids[0] in ids;
    }
  }
}
