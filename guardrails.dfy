/** The guardrails around the pipeline: query sanitising, input safety checks, checks on
    the structure and references of a generated answer, and the context length check.
    Every check reports the first failure, as the exception it would raise. */
module Guardrails {
  import opened Wrappers
  import opened PyText
  import opened Models

  /** A `GuardrailViolation`, one constructor per message the checks raise; `Reason`
      gives the message. */
  datatype Violation =
    | QueryTooShort | QueryTooLong | QuerySuspicious | QueryNotString
    | MissingField(key: string) | MissingAnswerField(key: string)
    | TitleTooShort | SummaryTooShort | AnswerTooLong | TooManySteps
    | TooManyLinks | TooManyMedia
    | InvalidLinkFormat(link: string) | InvalidPageReference(link: string)
    | InvalidMediaFormat(image: string) | InvalidMediaReference(image: string)
    | ContextEmpty | ContextTooLong

  const MinQueryLength: nat := 3
  const MaxQueryLength: nat := 500
  const MaxAnswerLength: nat := 2000
  const MaxSteps: nat := 10
  const MaxLinks: nat := 10
  const MaxMedia: nat := 5
  const MinContextLength: nat := 50
  const MaxContextLength: nat := 50000

  // ---------------------------------------------------------------------------------
  // sanitize_input
  // ---------------------------------------------------------------------------------

  /** The class `[\x00-\x1f\x7f-\x9f]`. */
  predicate IsControl(c: char) {
    ('\0' <= c <= '\U{1f}') || ('\U{7f}' <= c <= '\U{9f}')
  }

  /** The class `[{}[\]\\]`. */
  predicate IsBracket(c: char) {
    c == '{' || c == '}' || c == '[' || c == ']' || c == '\\'
  }

  /** `re.sub(class, "", s)` for a one-character class: the characters of `s` outside it. */
  function Delete(s: string, drop: char -> bool): (r: string)
    ensures |r| <= |s|
    ensures forall i :: 0 <= i < |r| ==> !drop(r[i]) && r[i] in s
    ensures (forall i :: 0 <= i < |s| ==> !drop(s[i])) ==> r == s
  {
    if s == [] then []
    else
      var rest := Delete(s[1..], drop);
      assert forall i :: 0 <= i < |rest| ==> rest[i] in s;
      if drop(s[0]) then rest else [s[0]] + rest
  }

  /** Deleting from a concatenation deletes from each part: the kept characters stay in
      their order. */
  lemma {:induction false} DeleteAppend(a: string, b: string, drop: char -> bool)
    ensures Delete(a + b, drop) == Delete(a, drop) + Delete(b, drop)
    decreases |a|
  {
    if a != [] {
      assert (a + b)[1..] == a[1..] + b;
      DeleteAppend(a[1..], b, drop);
    } else {
      assert a + b == b;
    }
  }

  /** Every character outside the class is kept as often as it occurs; those in it are all
      gone. */
  lemma {:induction false} DeleteCounts(s: string, drop: char -> bool)
    ensures forall c :: multiset(Delete(s, drop))[c] == if drop(c) then 0 else multiset(s)[c]
    decreases |s|
  {
    if s != [] {
      DeleteCounts(s[1..], drop);
      assert s == [s[0]] + s[1..];
      assert multiset(s) == multiset([s[0]]) + multiset(s[1..]);
    }
  }

  /** A single character is kept exactly when it is outside the class; with `DeleteAppend`
      this fixes the result of every text: the characters outside the class, in order. */
  lemma DeleteOne(c: char, drop: char -> bool)
    ensures Delete([c], drop) == if drop(c) then [] else [c]
  {
  }

  /** A match of `<[^>]+>` occupies `s[i..j+1]`: a `<`, at least one character other than
      `>`, and the first `>` after it. */
  predicate TagAt(s: string, i: int, j: int) {
    0 <= i && i + 1 < j < |s| && s[i] == '<' && s[j] == '>' &&
    forall k :: i < k < j ==> s[k] != '>'
  }

  ghost predicate HasTag(s: string) {
    exists i, j :: TagAt(s, i, j)
  }

  /** Every `<` is followed directly by `>` or by no `>` at all. */
  predicate TagFree(s: string) {
    s == [] || ((s[0] == '<' ==> Find(s[1..], '>') < 1) && TagFree(s[1..]))
  }

  /** A match away from the first character is a match in the tail. */
  lemma TagAtTail(s: string, i: int, j: int)
    requires s != [] && 0 < i
    ensures TagAt(s, i, j) <==> TagAt(s[1..], i - 1, j - 1)
  {
    var t := s[1..];
    if i + 1 < j < |s| {
      assert s[i] == t[i - 1] && s[j] == t[j - 1];
      assert forall k :: i < k < j ==> s[k] == t[k - 1];
    }
  }

  /** A `<` followed later by a `>`, with something in between, starts a match. */
  lemma FirstTag(s: string)
    ensures s != [] && s[0] == '<' && Find(s[1..], '>') >= 1 ==> TagAt(s, 0, Find(s[1..], '>') + 1)
  {
    if s != [] {
      var t := s[1..];
      var k := Find(t, '>');
      if k >= 1 {
        assert s[k + 1] == t[k];
        assert forall m :: 0 < m < k + 1 ==> s[m] == t[m - 1];
      }
    }
  }

  lemma {:induction false} TagFreeNoTagAt(s: string, i: int, j: int)
    requires TagFree(s)
    ensures !TagAt(s, i, j)
    decreases |s|
  {
    if 0 < i && i + 1 < j < |s| {
      TagFreeNoTagAt(s[1..], i - 1, j - 1);
      TagAtTail(s, i, j);
    }
  }

  lemma {:induction false} NoTagTagFree(s: string)
    requires !HasTag(s)
    ensures TagFree(s)
    decreases |s|
  {
    if s != [] {
      forall i, j ensures !TagAt(s[1..], i, j) {
        if 0 <= i {
          TagAtTail(s, i + 1, j + 1);
        }
      }
      NoTagTagFree(s[1..]);
      FirstTag(s);
    }
  }

  /** The recursive test agrees with the absence of any match of the pattern. */
  lemma TagFreeNoTag(s: string)
    ensures TagFree(s) <==> !HasTag(s)
  {
    if TagFree(s) {
      forall i, j ensures !TagAt(s, i, j) {
        TagFreeNoTagAt(s, i, j);
      }
    }
    if !HasTag(s) {
      NoTagTagFree(s);
    }
  }

  /** `re.sub(r"<[^>]+>", "", s)`: scanning from the left, each `<` that has a `>` after
      it, with at least one character in between, is deleted up to the first such `>`. */
  function RemoveTags(s: string): (r: string)
    ensures |r| <= |s|
    decreases |s|
  {
    if s == [] then []
    else
      var k := Find(s[1..], '>');
      if s[0] == '<' && k >= 1 then RemoveTags(s[k + 2..])
      else [s[0]] + RemoveTags(s[1..])
  }

  /** `RemoveTags` only deletes characters. */
  lemma {:induction false} RemoveTagsChars(s: string)
    ensures forall i :: 0 <= i < |RemoveTags(s)| ==> RemoveTags(s)[i] in s
    decreases |s|
  {
    if s != [] {
      var k := Find(s[1..], '>');
      if s[0] == '<' && k >= 1 {
        RemoveTagsChars(s[k + 2..]);
      } else {
        RemoveTagsChars(s[1..]);
      }
    }
  }

  lemma NoCharNoFind(s: string, r: string, c: char)
    requires forall i :: 0 <= i < |r| ==> r[i] in s
    requires Find(s, c) == -1
    ensures Find(r, c) == -1
  {
  }

  /** What `RemoveTags` leaves has no match of the pattern left in it. */
  lemma {:induction false} RemoveTagsTagFree(s: string)
    ensures TagFree(RemoveTags(s))
    decreases |s|
  {
    if s != [] {
      var k := Find(s[1..], '>');
      if s[0] == '<' && k >= 1 {
        RemoveTagsTagFree(s[k + 2..]);
      } else {
        var rest := RemoveTags(s[1..]);
        RemoveTagsTagFree(s[1..]);
        var r := RemoveTags(s);
        assert r == [s[0]] + rest && r[1..] == rest;
        if s[0] == '<' {
          if k == -1 {
            RemoveTagsChars(s[1..]);
            NoCharNoFind(s[1..], rest, '>');
          } else {
            assert s[1..][0] == '>';
            assert rest[0] == '>';
          }
        }
      }
    }
  }

  /** Text without a match of the pattern passes through `RemoveTags` unchanged. */
  lemma {:induction false} RemoveTagsIdentity(s: string)
    requires TagFree(s)
    ensures RemoveTags(s) == s
    decreases |s|
  {
    if s != [] {
      RemoveTagsIdentity(s[1..]);
      assert s == [s[0]] + s[1..];
    }
  }

  /** Deleting characters other than `<` and `>` creates no match of the pattern. */
  lemma {:induction false} DeleteTagFree(s: string, drop: char -> bool)
    requires TagFree(s) && !drop('<') && !drop('>')
    ensures TagFree(Delete(s, drop))
    decreases |s|
  {
    if s != [] {
      DeleteTagFree(s[1..], drop);
      var rest := Delete(s[1..], drop);
      if !drop(s[0]) && s[0] == '<' {
        var r := Delete(s, drop);
        assert r == [s[0]] + rest && r[1..] == rest;
        if Find(s[1..], '>') == -1 {
          NoCharNoFind(s[1..], rest, '>');
        } else {
          assert s[1..] == [s[1]] + s[2..];
          assert rest == [s[1]] + Delete(s[2..], drop);
        }
      }
    }
  }

  /** A piece of text without a match of the pattern has none either. */
  lemma NoTagSlice(s: string, a: int, b: int)
    requires 0 <= a <= b <= |s| && !HasTag(s)
    ensures !HasTag(s[a..b])
  {
    forall i, j | TagAt(s[a..b], i, j) ensures TagAt(s, a + i, a + j) {
      forall k | a + i < k < a + j ensures s[k] != '>' {
        assert s[k] == s[a..b][k - a];
      }
    }
  }

  lemma TagFreeCons(c: char, g: string)
    requires TagFree(g) && (c == '<' ==> Find(g, '>') < 1)
    ensures TagFree([c] + g)
  {
    assert ([c] + g)[1..] == g;
  }

  lemma GapTagFree(t: string)
    requires TagFree(Collapse(t))
    ensures TagFree(Gap(t))
  {
    if !(t != [] && !IsSpace(t[0])) && Split(t) != [] {
      TagFreeCons(' ', Collapse(t));
    }
  }

  lemma GapNoClose(t: string)
    requires Find(t, '>') == -1
    ensures Find(Gap(t), '>') == -1
  {
    CollapseChars(t);
    var c := Collapse(t);
    assert forall i :: 0 <= i < |c| ==> c[i] != '>';
  }

  lemma GapOpensWithClose(t: string)
    requires t != [] && t[0] == '>'
    ensures Gap(t) != [] && Gap(t)[0] == '>'
  {
    assert t == [t[0]] + t[1..];
    CollapseStep(t[0], t[1..]);
  }

  /** Collapsing whitespace creates no match of the pattern. */
  lemma {:induction false} CollapseTagFree(s: string)
    requires TagFree(s)
    ensures TagFree(Collapse(s))
    decreases |s|
  {
    if s != [] {
      var t := s[1..];
      assert s == [s[0]] + t;
      CollapseStep(s[0], t);
      CollapseTagFree(t);
      if !IsSpace(s[0]) {
        GapTagFree(t);
        if s[0] == '<' {
          if Find(t, '>') == -1 {
            GapNoClose(t);
          } else {
            GapOpensWithClose(t);
          }
        }
        TagFreeCons(s[0], Gap(t));
      }
    }
  }

  /** `sanitize_input`: collapse whitespace, then delete control characters, then tags,
      then brackets and backslashes, then strip. */
  function Sanitize(query: string): string
  {
    Strip(Delete(RemoveTags(Delete(Collapse(query), IsControl)), IsBracket))
  }

  /** No character of `s` is in the class `bad`. */
  predicate Avoids(s: string, bad: char -> bool) {
    forall i :: 0 <= i < |s| ==> !bad(s[i])
  }

  lemma {:induction false} DeleteAvoids(s: string, drop: char -> bool, bad: char -> bool)
    requires Avoids(s, bad)
    ensures Avoids(Delete(s, drop), bad)
    decreases |s|
  {
    if s != [] {
      DeleteAvoids(s[1..], drop, bad);
    }
  }

  lemma {:induction false} RemoveTagsAvoids(s: string, bad: char -> bool)
    requires Avoids(s, bad)
    ensures Avoids(RemoveTags(s), bad)
    decreases |s|
  {
    if s != [] {
      var k := Find(s[1..], '>');
      if s[0] == '<' && k >= 1 {
        RemoveTagsAvoids(s[k + 2..], bad);
      } else {
        RemoveTagsAvoids(s[1..], bad);
      }
    }
  }

  lemma StripAvoids(s: string, bad: char -> bool)
    requires Avoids(s, bad)
    ensures Avoids(Strip(s), bad)
  {
    var r := Strip(s);
    assert forall i :: 0 <= i < |r| ==> r[i] == s[LeadingSpaces(s) + i];
  }

  /** Stripping takes a slice, so it brings in no match. */
  lemma StripKeepsNoTag(c: string)
    requires !HasTag(c)
    ensures !HasTag(Strip(c))
  {
    var r := Strip(c);
    var a := LeadingSpaces(c);
    NoTagSlice(c, a, a + |r|);
  }

  lemma StripNoTag(c: string)
    requires TagFree(c)
    ensures !HasTag(Strip(c))
  {
    TagFreeNoTag(c);
    StripKeepsNoTag(c);
  }

  /** Sanitised text holds no match of `<[^>]+>`. */
  lemma SanitizeNoTag(query: string)
    ensures !HasTag(Sanitize(query))
  {
    var a := Delete(Collapse(query), IsControl);
    var b := RemoveTags(a);
    RemoveTagsTagFree(a);
    DeleteTagFree(b, IsBracket);
    StripNoTag(Delete(b, IsBracket));
  }

  /** Sanitised text holds no control character and no bracket or backslash. */
  lemma SanitizeAvoids(query: string)
    ensures Avoids(Sanitize(query), IsControl) && Avoids(Sanitize(query), IsBracket)
  {
    var a := Delete(Collapse(query), IsControl);
    var b := RemoveTags(a);
    var c := Delete(b, IsBracket);
    RemoveTagsAvoids(a, IsControl);
    DeleteAvoids(b, IsBracket, IsControl);
    StripAvoids(c, IsControl);
    StripAvoids(c, IsBracket);
  }

  /** On a query whose only control characters are whitespace and that holds no bracket,
      backslash or match of `<[^>]+>`, sanitising only collapses the whitespace: the words
      of the query joined by single spaces. */
  /** Collapsing whitespace brings in no control character and no bracket. */
  lemma CollapseAvoids(query: string)
    requires forall i :: 0 <= i < |query| ==> (IsControl(query[i]) ==> IsSpace(query[i])) && !IsBracket(query[i])
    ensures Avoids(Collapse(query), IsControl) && Avoids(Collapse(query), IsBracket)
  {
    var c := Collapse(query);
    CollapseChars(query);
    forall i | 0 <= i < |c| ensures !IsControl(c[i]) && !IsBracket(c[i]) {
      if c[i] != ' ' {
        var j :| 0 <= j < |query| && query[j] == c[i];
      }
    }
  }

  lemma SanitizeCollapses(query: string)
    requires forall i :: 0 <= i < |query| ==> (IsControl(query[i]) ==> IsSpace(query[i])) && !IsBracket(query[i])
    requires !HasTag(query)
    ensures Sanitize(query) == Join(" ", Split(query))
  {
    var c := Collapse(query);
    CollapseAvoids(query);
    DeleteNothing(c, IsControl);
    TagFreeNoTag(query);
    CollapseTagFree(query);
    RemoveTagsIdentity(c);
    DeleteNothing(c, IsBracket);
    SanitizeStages(query, c, c, c, c);
    StripCollapse(query);
  }

  lemma SplitExampleTail()
    ensures Split(" c") == ["c"]
  {
    assert " c" == [' '] + "c";
    SplitSpace(' ', "c");
    assert "c" == "c" + [];
    SplitWord("c", []);
  }

  lemma SplitExampleMid()
    ensures Split(" <b> c") == ["<b>", "c"]
  {
    assert " <b> c" == [' '] + "<b> c";
    SplitSpace(' ', "<b> c");
    SplitExampleTag();
    SplitExampleTail();
  }

  lemma SplitExampleTag()
    ensures Split("<b> c") == ["<b>"] + Split(" c")
  {
    assert "<b> c" == "<b>" + " c";
    SplitWord("<b>", " c");
  }

  lemma SplitExample()
    ensures Split("a <b> c") == ["a", "<b>", "c"]
  {
    assert "a <b> c" == "a" + " <b> c";
    SplitWord("a", " <b> c");
    SplitExampleMid();
  }

  lemma CollapseExample()
    ensures Collapse("a <b> c") == "a <b> c"
  {
    SplitExample();
    JoinCons(" ", "<b>", ["c"]);
    JoinCons(" ", "a", ["<b>", "c"]);
  }

  lemma RemoveTagsPlain(c: char, rest: string)
    requires c != '<'
    ensures RemoveTags([c] + rest) == [c] + RemoveTags(rest)
  {
    assert ([c] + rest)[1..] == rest;
  }

  lemma RemoveTagsExampleTag()
    ensures RemoveTags("<b> c") == " c"
  {
    assert Find("b> c", '>') == 1;
    assert RemoveTags("<b> c") == RemoveTags(" c");
    assert " c" == [' '] + "c";
    RemoveTagsPlain(' ', "c");
    assert "c" == ['c'] + "";
    RemoveTagsPlain('c', "");
  }

  lemma RemoveTagsExample()
    ensures RemoveTags("a <b> c") == "a  c"
  {
    RemoveTagsExampleTag();
    var s := "a <b> c";
    assert s[1..] == " <b> c";
    assert s[1..][1..] == "<b> c";
    assert RemoveTags(s) == [s[0]] + RemoveTags(s[1..]);
    assert RemoveTags(s[1..]) == [s[1]] + RemoveTags(s[1..][1..]);
  }

  /** `Sanitize` stage by stage. */
  lemma SanitizeStages(q: string, collapsed: string, noControls: string, noTags: string, noBrackets: string)
    requires Collapse(q) == collapsed && Delete(collapsed, IsControl) == noControls
    requires RemoveTags(noControls) == noTags && Delete(noTags, IsBracket) == noBrackets
    ensures Sanitize(q) == Strip(noBrackets)
  {
  }

  lemma StripExample()
    ensures Strip("a  c") == "a  c"
  {
    assert LeadingSpaces("a  c") == 0;
    assert TrailingSpaces("a  c") == 0;
  }

  lemma DeleteNothing(s: string, drop: char -> bool)
    requires Avoids(s, drop)
    ensures Delete(s, drop) == s
  {
  }

  lemma DeleteControlsExample()
    ensures Delete("a <b> c", IsControl) == "a <b> c"
  {
    var q := "a <b> c";
    assert forall i :: 0 <= i < |q| ==> q[i] in {'a', ' ', '<', 'b', '>', 'c'};
    DeleteNothing(q, IsControl);
  }

  lemma DeleteBracketsExample()
    ensures Delete("a  c", IsBracket) == "a  c"
  {
    var t := "a  c";
    assert forall i :: 0 <= i < |t| ==> t[i] in {'a', ' ', 'c'};
    DeleteNothing(t, IsBracket);
  }

  /** Whitespace is collapsed before tags are deleted, so deleting a tag can leave two
      spaces side by side. */
  lemma SanitizeDoubleSpace()
    ensures Sanitize("a <b> c") == "a  c"
  {
    CollapseExample();
    DeleteControlsExample();
    DeleteBracketsExample();
    RemoveTagsExample();
    SanitizeStages("a <b> c", "a <b> c", "a <b> c", "a  c", "a  c");
    StripExample();
  }

  // ---------------------------------------------------------------------------------
  // check_input_safety and validate_input
  // ---------------------------------------------------------------------------------


  /** `check_input_safety`. `suspicious` stands for any of the injection patterns matching;
      it is given the lower-cased query. */
  function CheckInputSafety(query: string, suspicious: string -> bool): (r: Outcome<Violation>)
    ensures r == Fail(QueryTooShort) <==> |Strip(query)| < MinQueryLength
    ensures r == Fail(QueryTooLong) <==> |Strip(query)| > MaxQueryLength
    ensures r == Pass <==> MinQueryLength <= |Strip(query)| <= MaxQueryLength && !suspicious(Lower(query))
    ensures r.Fail? ==> r.error in {QueryTooShort, QueryTooLong, QuerySuspicious}
  {
    var length := |Strip(query)|;
    if length < MinQueryLength then Fail(QueryTooShort)
    else if length > MaxQueryLength then Fail(QueryTooLong)
    else if suspicious(Lower(query)) then Fail(QuerySuspicious)
    else Pass
  }

  /** The length checks come before the injection check: a query of the wrong length is
      refused for its length whatever the patterns say. */
  lemma LengthBeforeInjection(query: string, s1: string -> bool, s2: string -> bool)
    requires !(MinQueryLength <= |Strip(query)| <= MaxQueryLength)
    ensures CheckInputSafety(query, s1) == CheckInputSafety(query, s2)
    ensures CheckInputSafety(query, s1) != Fail(QuerySuspicious)
  {
    assert NatToString(3) == "3";
  }

  /** `validate_input`: `None` stands for `None` or any value that is not a `str`. */
  function ValidateInput(query: Option<string>, suspicious: string -> bool): (r: Result<string, Violation>)
    ensures r == Err(QueryNotString) <==> query == None || query == Some([])
    ensures r.Ok? <==> query.Some? && query.value != [] && CheckInputSafety(query.value, suspicious) == Pass
    ensures r.Ok? ==> r.value == Sanitize(query.value)
    ensures r.Err? && query.Some? && query.value != [] ==> CheckInputSafety(query.value, suspicious) == Fail(r.error)
  {
    if query.None? || query.value == [] then Err(QueryNotString)
    else
      match CheckInputSafety(query.value, suspicious)
      case Fail(v) => Err(v)
      case Pass => Ok(Sanitize(query.value))
  }

  /** An accepted query comes back free of control characters, brackets, backslashes and
      tags. */
  lemma ValidateInputClean(query: Option<string>, suspicious: string -> bool)
    requires ValidateInput(query, suspicious).Ok?
    ensures var q := ValidateInput(query, suspicious).value;
      !HasTag(q) && Avoids(q, IsControl) && Avoids(q, IsBracket)
  {
    SanitizeNoTag(query.value);
    SanitizeAvoids(query.value);
  }

  /** The checks look at the raw query: a query that passes them can sanitise to nothing. */
  lemma SanitizeTagOnlyExample()
    ensures Sanitize("<ab>") == []
  {
    var q := "<ab>";
    SplitWord(q, []);
    assert q + [] == q;
    assert Collapse(q) == q;
    assert forall i :: 0 <= i < |q| ==> q[i] in {'<', 'a', 'b', '>'};
    DeleteNothing(q, IsControl);
    assert Find("ab>", '>') == 2;
    assert RemoveTags(q) == [];
    SanitizeStages(q, q, q, [], []);
  }

  lemma ValidateInputMayEmpty(suspicious: string -> bool)
    requires !suspicious("<ab>")
    ensures ValidateInput(Some("<ab>"), suspicious) == Ok([])
  {
    var q := "<ab>";
    assert Lower(q) == q;
    assert Strip(q) == q by {
      assert LeadingSpaces(q) == 0 && TrailingSpaces(q) == 0;
    }
    SanitizeTagOnlyExample();
  }

  // ---------------------------------------------------------------------------------
  // check_output_structure
  // ---------------------------------------------------------------------------------


  const MinTitleLength: nat := 5
  const MinSummaryLength: nat := 10

  /** Every top-level key the check requires is present. */
  predicate HasTopKeys(d: AnswerDict) {
    d.mode.Some? && d.answer.Some? && d.links.Some? && d.media.Some?
  }

  /** Every key the check requires is present. */
  predicate HasAllKeys(d: AnswerDict) {
    d.mode.Some? && d.answer.Some? && d.links.Some? && d.media.Some? &&
    d.answer.value.title.Some? && d.answer.value.summary.Some? &&
    d.answer.value.steps.Some? && d.answer.value.verification.Some?
  }

  /** The quality bounds of a well-formed answer. */
  predicate WellStructured(d: AnswerDict) {
    HasAllKeys(d) &&
    var a := d.answer.value;
    MinTitleLength <= |Strip(a.title.value)| &&
    MinSummaryLength <= |Strip(a.summary.value)| <= MaxAnswerLength &&
    |a.steps.value| <= MaxSteps
  }

  /** `check_output_structure`: top-level keys in the order mode, answer, links, media,
      then the answer keys title, summary, steps, verification, then the stripped title and
      summary lengths, then the number of steps. */
  function CheckOutputStructure(d: AnswerDict): (r: Outcome<Violation>)
    ensures r == Pass <==> WellStructured(d)
    ensures d.mode.None? ==> r == Fail(MissingField("mode"))
    ensures HasAllKeys(d) && |Strip(d.answer.value.title.value)| < MinTitleLength ==> r == Fail(TitleTooShort)
    ensures r == Fail(AnswerTooLong) ==> HasAllKeys(d) && |Strip(d.answer.value.summary.value)| > MaxAnswerLength
    ensures r == Fail(TooManySteps) ==> HasAllKeys(d) && |d.answer.value.steps.value| > MaxSteps
  {
    if d.mode.None? then Fail(MissingField("mode"))
    else if d.answer.None? then Fail(MissingField("answer"))
    else if d.links.None? then Fail(MissingField("links"))
    else if d.media.None? then Fail(MissingField("media"))
    else
      var a := d.answer.value;
      if a.title.None? then Fail(MissingAnswerField("title"))
      else if a.summary.None? then Fail(MissingAnswerField("summary"))
      else if a.steps.None? then Fail(MissingAnswerField("steps"))
      else if a.verification.None? then Fail(MissingAnswerField("verification"))
      else
        var title := Strip(a.title.value);
        var summary := Strip(a.summary.value);
        if |title| < MinTitleLength then Fail(TitleTooShort)
        else if |summary| < MinSummaryLength then Fail(SummaryTooShort)
        else if |summary| > MaxAnswerLength then Fail(AnswerTooLong)
        else if |a.steps.value| > MaxSteps then Fail(TooManySteps)
        else Pass
  }

  /** A validated response, dumped, has every key: only the quality bounds can fail. */
  lemma DumpStructure(r: AnswerResponse)
    ensures CheckOutputStructure(Dump(r)) == Pass <==>
      MinTitleLength <= |Strip(r.answer.title)| && MinSummaryLength <= |Strip(r.answer.summary)| <= MaxAnswerLength &&
      |r.answer.steps| <= MaxSteps
    ensures CheckOutputStructure(Dump(r)) != Fail(MissingField("mode"))
  {
  }

  /** Which missing key is reported: the first absent one, top-level keys in the order
      mode, answer, links, media, then the answer keys title, summary, steps, verification. */
  lemma StructureMissingKey(d: AnswerDict)
    ensures CheckOutputStructure(d) == Fail(MissingField("mode")) <==> d.mode.None?
    ensures CheckOutputStructure(d) == Fail(MissingField("answer")) <==> d.mode.Some? && d.answer.None?
    ensures CheckOutputStructure(d) == Fail(MissingField("links")) <==> d.mode.Some? && d.answer.Some? && d.links.None?
    ensures CheckOutputStructure(d) == Fail(MissingField("media")) <==>
      d.mode.Some? && d.answer.Some? && d.links.Some? && d.media.None?
    ensures CheckOutputStructure(d) == Fail(MissingAnswerField("title")) <==> HasTopKeys(d) && d.answer.value.title.None?
    ensures CheckOutputStructure(d) == Fail(MissingAnswerField("summary")) <==>
      HasTopKeys(d) && d.answer.value.title.Some? && d.answer.value.summary.None?
    ensures CheckOutputStructure(d) == Fail(MissingAnswerField("steps")) <==>
      HasTopKeys(d) && d.answer.value.title.Some? && d.answer.value.summary.Some? && d.answer.value.steps.None?
    ensures CheckOutputStructure(d) == Fail(MissingAnswerField("verification")) <==>
      HasTopKeys(d) && d.answer.value.title.Some? && d.answer.value.summary.Some? && d.answer.value.steps.Some? &&
      d.answer.value.verification.None?
  {
    assert "mode" != "answer" && "mode" != "links" && "mode" != "media" && "answer" != "links" && "answer" != "media";
    assert "links"[0] != "media"[0];
    assert "title" != "summary" && "title" != "steps" && "title" != "verification" && "summary" != "steps";
    assert "summary" != "verification" && "steps" != "verification";
  }

  /** Which bound is reported once every key is present: the title, then the summary's
      minimum, then its maximum, then the number of steps, each exactly when the earlier
      bounds hold and it fails. */
  lemma StructureBoundFailure(d: AnswerDict)
    requires HasAllKeys(d)
    ensures var a := d.answer.value;
      CheckOutputStructure(d) == Fail(TitleTooShort) <==> |Strip(a.title.value)| < MinTitleLength
    ensures var a := d.answer.value;
      CheckOutputStructure(d) == Fail(SummaryTooShort) <==>
        MinTitleLength <= |Strip(a.title.value)| && |Strip(a.summary.value)| < MinSummaryLength
    ensures var a := d.answer.value;
      CheckOutputStructure(d) == Fail(AnswerTooLong) <==>
        MinTitleLength <= |Strip(a.title.value)| && |Strip(a.summary.value)| > MaxAnswerLength
    ensures var a := d.answer.value;
      CheckOutputStructure(d) == Fail(TooManySteps) <==>
        MinTitleLength <= |Strip(a.title.value)| && MinSummaryLength <= |Strip(a.summary.value)| <= MaxAnswerLength &&
        |a.steps.value| > MaxSteps
  {
  }

  /** The test answer with the title "Test" and no `verification` key is refused for the
      missing key, which is checked before the title's length. */
  lemma MissingVerificationExample()
    ensures var d := AnswerDict(Some("answer"), Some(AnswerFields(Some("Test"), Some("Summary"), Some([]), None)),
                                Some([]), Some(MediaFields(Some([]))));
      ValidateOutput(d, [], [], false) == Fail(MissingAnswerField("verification")) &&
      Reason(ValidateOutput(d, [], [], false).error) == "Missing required answer field: verification"
  {
    var d := AnswerDict(Some("answer"), Some(AnswerFields(Some("Test"), Some("Summary"), Some([]), None)),
                        Some([]), Some(MediaFields(Some([]))));
    StructureMissingKey(d);
  }

  // ---------------------------------------------------------------------------------
  // check_output_references
  // ---------------------------------------------------------------------------------


  /** Why a link is refused, if it is. */
  function LinkProblem(link: string, allowedPages: seq<string>, strict: bool): Option<Violation> {
    if !StartsWith(link, "/media/") then Some(InvalidLinkFormat(link))
    else if strict && link !in allowedPages then Some(InvalidPageReference(link))
    else None
  }

  /** Why an image reference is refused, if it is. */
  function ImageProblem(img: string, allowedMedia: seq<string>, strict: bool): Option<Violation> {
    if !(StartsWith(img, "/media/") || StartsWith(img, "Diagram ")) then Some(InvalidMediaFormat(img))
    else if strict && !StartsWith(img, "Diagram ") && img !in allowedMedia then Some(InvalidMediaReference(img))
    else None
  }

  /** The first problem among `items`, in order. */
  function FirstProblem(items: seq<string>, problem: string -> Option<Violation>): (r: Outcome<Violation>)
    ensures r == Pass <==> forall i :: 0 <= i < |items| ==> problem(items[i]).None?
    ensures r.Fail? ==> exists i :: 0 <= i < |items| && problem(items[i]) == Some(r.error) &&
                                (forall k :: 0 <= k < i ==> problem(items[k]).None?)
  {
    if items == [] then Pass
    else
      match problem(items[0])
      case Some(v) => Fail(v)
      case None =>
        var r := FirstProblem(items[1..], problem);
        assert forall k :: 1 <= k < |items| ==> items[k] == items[1..][k - 1];
        if r.Fail? then
          var i :| 0 <= i < |items[1..]| && problem(items[1..][i]) == Some(r.error) &&
            forall k :: 0 <= k < i ==> problem(items[1..][k]).None?;
          assert problem(items[i + 1]) == Some(r.error);
          r
        else r
  }

  lemma {:induction false} FirstProblemSame(items: seq<string>, p1: string -> Option<Violation>, p2: string -> Option<Violation>)
    requires forall x :: p1(x) == p2(x)
    ensures FirstProblem(items, p1) == FirstProblem(items, p2)
    decreases |items|
  {
    if items != [] {
      FirstProblemSame(items[1..], p1, p2);
    }
  }

  /** `answer_dict.get("links", [])`. */
  function LinksOf(d: AnswerDict): seq<string> {
    if d.links.Some? then d.links.value else []
  }

  /** `answer_dict.get("media", {}).get("images", [])`. */
  function ImagesOf(d: AnswerDict): seq<string> {
    if d.media.Some? && d.media.value.images.Some? then d.media.value.images.value else []
  }

  /** `check_output_references`: the link count, each link in order, the image count, each
      image in order. */
  function CheckOutputReferences(d: AnswerDict, allowedPages: seq<string>, allowedMedia: seq<string>, strict: bool): (r: Outcome<Violation>)
    ensures r == Pass <==>
      |LinksOf(d)| <= MaxLinks && |ImagesOf(d)| <= MaxMedia &&
      (forall i :: 0 <= i < |LinksOf(d)| ==> LinkProblem(LinksOf(d)[i], allowedPages, strict).None?) &&
      (forall i :: 0 <= i < |ImagesOf(d)| ==> ImageProblem(ImagesOf(d)[i], allowedMedia, strict).None?)
    ensures |LinksOf(d)| > MaxLinks ==> r == Fail(TooManyLinks)
  {
    var links := LinksOf(d);
    if |links| > MaxLinks then Fail(TooManyLinks)
    else
      match FirstProblem(links, l => LinkProblem(l, allowedPages, strict))
      case Fail(v) => Fail(v)
      case Pass =>
        var images := ImagesOf(d);
        if |images| > MaxMedia then Fail(TooManyMedia)
        else FirstProblem(images, img => ImageProblem(img, allowedMedia, strict))
  }

  /** The problem of the first refused item is the one reported. */
  lemma {:induction false} FirstProblemAt(items: seq<string>, problem: string -> Option<Violation>, i: int)
    requires 0 <= i < |items| && problem(items[i]).Some?
    requires forall k :: 0 <= k < i ==> problem(items[k]).None?
    ensures FirstProblem(items, problem) == Fail(problem(items[i]).value)
    decreases i
  {
    if i > 0 {
      var rest := items[1..];
      assert problem(items[0]).None?;
      assert rest[i - 1] == items[i];
      assert forall k :: 0 <= k < i - 1 ==> rest[k] == items[k + 1];
      FirstProblemAt(rest, problem, i - 1);
    }
  }

  /** With at most 10 links, the first refused link is reported, whatever the images. */
  lemma LinkFailureReported(d: AnswerDict, allowedPages: seq<string>, allowedMedia: seq<string>, strict: bool, i: int)
    requires |LinksOf(d)| <= MaxLinks
    requires 0 <= i < |LinksOf(d)| && LinkProblem(LinksOf(d)[i], allowedPages, strict).Some?
    requires forall k :: 0 <= k < i ==> LinkProblem(LinksOf(d)[k], allowedPages, strict).None?
    ensures CheckOutputReferences(d, allowedPages, allowedMedia, strict) == Fail(LinkProblem(LinksOf(d)[i], allowedPages, strict).value)
  {
    FirstProblemAt(LinksOf(d), l => LinkProblem(l, allowedPages, strict), i);
  }

  /** With every link accepted, more than 5 images are refused as too many. */
  lemma TooManyMediaReported(d: AnswerDict, allowedPages: seq<string>, allowedMedia: seq<string>, strict: bool)
    requires |LinksOf(d)| <= MaxLinks
    requires forall k :: 0 <= k < |LinksOf(d)| ==> LinkProblem(LinksOf(d)[k], allowedPages, strict).None?
    requires |ImagesOf(d)| > MaxMedia
    ensures CheckOutputReferences(d, allowedPages, allowedMedia, strict) == Fail(TooManyMedia)
  {
    var links := LinksOf(d);
    assert FirstProblem(links, l => LinkProblem(l, allowedPages, strict)) == Pass;
  }

  /** With every link accepted and at most 5 images, the first refused image is reported. */
  lemma ImageFailureReported(d: AnswerDict, allowedPages: seq<string>, allowedMedia: seq<string>, strict: bool, i: int)
    requires |LinksOf(d)| <= MaxLinks
    requires forall k :: 0 <= k < |LinksOf(d)| ==> LinkProblem(LinksOf(d)[k], allowedPages, strict).None?
    requires |ImagesOf(d)| <= MaxMedia
    requires 0 <= i < |ImagesOf(d)| && ImageProblem(ImagesOf(d)[i], allowedMedia, strict).Some?
    requires forall k :: 0 <= k < i ==> ImageProblem(ImagesOf(d)[k], allowedMedia, strict).None?
    ensures CheckOutputReferences(d, allowedPages, allowedMedia, strict) == Fail(ImageProblem(ImagesOf(d)[i], allowedMedia, strict).value)
  {
    var links := LinksOf(d);
    assert FirstProblem(links, l => LinkProblem(l, allowedPages, strict)) == Pass;
    FirstProblemAt(ImagesOf(d), img => ImageProblem(img, allowedMedia, strict), i);
  }

  /** A well-formed test answer whose one link is not among the allowed pages is refused in
      strict mode with an invalid page reference. */
  lemma HallucinatedLinkExample(d: AnswerDict, link: string)
    requires link == "/media/page_999.png" && WellStructured(d) && d.links == Some([link]) && d.media == Some(MediaFields(Some([])))
    ensures ValidateOutput(d, ["/media/page_42.png"], [], true) == Fail(InvalidPageReference(link))
    ensures Reason(ValidateOutput(d, ["/media/page_42.png"], [], true).error) == "Invalid page reference: " + link
  {
    assert StartsWith(link, "/media/") by {
      assert link[..7] == "/media/";
    }
    assert link != "/media/page_42.png" by {
      assert link[13] != "/media/page_42.png"[13];
    }
    LinkFailureReported(d, ["/media/page_42.png"], [], true, 0);
  }

  /** A well-formed test answer without links whose one image is not among the allowed media
      is refused in strict mode with an invalid media reference. */
  lemma HallucinatedImageExample(d: AnswerDict, img: string)
    requires img == "/media/fake_img.png" && WellStructured(d) && d.links == Some([]) && d.media == Some(MediaFields(Some([img])))
    ensures ValidateOutput(d, [], ["/media/page_42_img_0.png"], true) == Fail(InvalidMediaReference(img))
  {
    assert StartsWith(img, "/media/") by {
      assert img[..7] == "/media/";
    }
    assert !StartsWith(img, "Diagram ") by {
      assert img[0] == '/';
    }
    assert img != "/media/page_42_img_0.png" by {
      assert |img| != |"/media/page_42_img_0.png"|;
    }
    ImageFailureReported(d, [], ["/media/page_42_img_0.png"], true, 0);
  }

  /** In lenient mode the allowed lists play no part. */
  lemma LenientIgnoresAllowed(d: AnswerDict, p1: seq<string>, m1: seq<string>, p2: seq<string>, m2: seq<string>)
    ensures CheckOutputReferences(d, p1, m1, false) == CheckOutputReferences(d, p2, m2, false)
  {
    FirstProblemSame(LinksOf(d), l => LinkProblem(l, p1, false), l => LinkProblem(l, p2, false));
    FirstProblemSame(ImagesOf(d), img => ImageProblem(img, m1, false), img => ImageProblem(img, m2, false));
  }

  /** Strict mode only adds checks: what it accepts, lenient mode accepts. */
  lemma StrictImpliesLenient(d: AnswerDict, allowedPages: seq<string>, allowedMedia: seq<string>, p: seq<string>, m: seq<string>)
    requires CheckOutputReferences(d, allowedPages, allowedMedia, true) == Pass
    ensures CheckOutputReferences(d, p, m, false) == Pass
  {
    var links, images := LinksOf(d), ImagesOf(d);
    assert forall i :: 0 <= i < |links| ==> LinkProblem(links[i], allowedPages, true).None?;
    assert forall i :: 0 <= i < |images| ==> ImageProblem(images[i], allowedMedia, true).None?;
  }

  /** An image reference starting with "Diagram " is never refused, even in strict mode and
      even when it names no known diagram. */
  lemma DiagramImagesAccepted(img: string, allowedMedia: seq<string>, strict: bool)
    requires StartsWith(img, "Diagram ")
    ensures ImageProblem(img, allowedMedia, strict) == None
  {
  }

  /** In strict mode every accepted link and every accepted non-diagram image is one of the
      allowed references. */
  lemma StrictReferencesAllowed(d: AnswerDict, allowedPages: seq<string>, allowedMedia: seq<string>)
    requires CheckOutputReferences(d, allowedPages, allowedMedia, true) == Pass
    ensures forall l :: l in LinksOf(d) ==> l in allowedPages && StartsWith(l, "/media/")
    ensures forall img :: img in ImagesOf(d) && !StartsWith(img, "Diagram ") ==> img in allowedMedia && StartsWith(img, "/media/")
  {
    var links, images := LinksOf(d), ImagesOf(d);
    forall l | l in links ensures l in allowedPages && StartsWith(l, "/media/") {
      var i :| 0 <= i < |links| && links[i] == l;
      assert LinkProblem(links[i], allowedPages, true).None?;
    }
    forall img | img in images && !StartsWith(img, "Diagram ") ensures img in allowedMedia && StartsWith(img, "/media/") {
      var i :| 0 <= i < |images| && images[i] == img;
      assert ImageProblem(images[i], allowedMedia, true).None?;
    }
  }

  // ---------------------------------------------------------------------------------
  // check_context and the entry points
  // ---------------------------------------------------------------------------------


  /** `check_context`: a context shorter than `MinContextLength` is only logged. */
  function CheckContext(context: string): (r: Outcome<Violation>)
    ensures r == Fail(ContextEmpty) <==> context == []
    ensures r == Fail(ContextTooLong) <==> |context| > MaxContextLength
    ensures r == Pass <==> 0 < |context| <= MaxContextLength
  {
    if context == [] then Fail(ContextEmpty)
    else if |context| > MaxContextLength then Fail(ContextTooLong)
    else Pass
  }

  /** A short context is accepted: the minimum length is never enforced. */
  lemma ShortContextAccepted(context: string)
    requires 0 < |context| < MinContextLength
    ensures CheckContext(context) == Pass
  {
  }

  /** `validate_output`: structure first, then references. */
  function ValidateOutput(d: AnswerDict, allowedPages: seq<string>, allowedMedia: seq<string>, strict: bool): (r: Outcome<Violation>)
    ensures r == Pass <==> WellStructured(d) && CheckOutputReferences(d, allowedPages, allowedMedia, strict) == Pass
    ensures !WellStructured(d) ==> r == CheckOutputStructure(d)
  {
    match CheckOutputStructure(d)
    case Fail(v) => Fail(v)
    case Pass => CheckOutputReferences(d, allowedPages, allowedMedia, strict)
  }

  /** `validate_context`: it returns nothing, whatever the context. */
  function ValidateContext(context: string): (r: Outcome<Violation>)
    ensures r == Pass <==> 0 < |context| <= MaxContextLength
    ensures r.Fail? ==> r.error == ContextEmpty || r.error == ContextTooLong
  {
    CheckContext(context)
  }

  /** The message of each violation, as the checks format it. */
  function Reason(v: Violation): string {
    match v
    case QueryTooShort => "Query too short (min " + NatToString(MinQueryLength) + " chars)"
    case QueryTooLong => "Query too long (max " + NatToString(MaxQueryLength) + " chars)"
    case QuerySuspicious => "Query contains suspicious patterns and was blocked for security"
    case QueryNotString => "Query must be a non-empty string"
    case MissingField(key) => "Missing required field: " + key
    case MissingAnswerField(key) => "Missing required answer field: " + key
    case TitleTooShort => "Title too short or empty"
    case SummaryTooShort => "Summary too short or empty"
    case AnswerTooLong => "Answer too long (max " + NatToString(MaxAnswerLength) + " chars)"
    case TooManySteps => "Too many steps (max " + NatToString(MaxSteps) + ")"
    case TooManyLinks => "Too many links (max " + NatToString(MaxLinks) + ")"
    case TooManyMedia => "Too many media files (max " + NatToString(MaxMedia) + ")"
    case InvalidLinkFormat(link) => "Invalid link format: " + link
    case InvalidPageReference(link) => "Invalid page reference: " + link
    case InvalidMediaFormat(img) => "Invalid media format: " + img
    case InvalidMediaReference(img) => "Invalid media reference: " + img
    case ContextEmpty => "Context is empty"
    case ContextTooLong => "Context too long (max " + NatToString(MaxContextLength) + " chars)"
  }

  /** The messages with their constants filled in, as the tests match on them. */
  lemma ReasonTexts()
    ensures Reason(QueryTooShort) == "Query too short (min 3 chars)"
    ensures Reason(QueryTooLong) == "Query too long (max 500 chars)"
    ensures Reason(AnswerTooLong) == "Answer too long (max 2000 chars)"
    ensures Reason(TooManySteps) == "Too many steps (max 10)"
    ensures Reason(TooManyLinks) == "Too many links (max 10)"
    ensures Reason(TooManyMedia) == "Too many media files (max 5)"
    ensures Reason(ContextTooLong) == "Context too long (max 50000 chars)"
  {
    LimitDigits();
  }

  lemma LimitDigits()
    ensures NatToString(3) == "3" && NatToString(5) == "5" && NatToString(10) == "10"
    ensures NatToString(500) == "500" && NatToString(2000) == "2000" && NatToString(50000) == "50000"
  {
    assert NatToString(500) == "500";
    assert NatToString(2000) == "2000";
    assert NatToString(10) == "10";
    assert NatToString(50000) == "50000";
  }
}
