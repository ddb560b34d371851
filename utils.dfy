/** Text utilities: finding diagram identifiers and the word-overlap relevance test. */
module Utils {
  import opened PyText
  import opened Ordering

  // ---------------------------------------------------------------------------------
  // find_diagram_ids: the pattern `Diagram\s+\d+\.\d+` under re.IGNORECASE
  // ---------------------------------------------------------------------------------

  /** The length of the word "Diagram". */
  const WordLength: nat := 7

  /** The characters `re.IGNORECASE` matches to `i`: besides `I`, the dotless `ı`, whose
      upper case is `I`, and the dotted capital `İ`, whose lower case is `i`. */
  predicate IsLetterI(c: char) {
    c == 'i' || c == 'I' || c == '\U{131}' || c == '\U{130}'
  }

  /** `s` starts with the word "Diagram" in any case, as `re.IGNORECASE` compares it. */
  predicate WordAt(s: string) {
    |s| >= WordLength &&
    (s[0] == 'd' || s[0] == 'D') && IsLetterI(s[1]) &&
    (s[2] == 'a' || s[2] == 'A') && (s[3] == 'g' || s[3] == 'G') && (s[4] == 'r' || s[4] == 'R') &&
    (s[5] == 'a' || s[5] == 'A') && (s[6] == 'm' || s[6] == 'M')
  }

  /** The length of the leading run of decimal digits. */
  function DigitRun(s: string): (n: nat)
    ensures n <= |s|
    ensures forall i :: 0 <= i < n ==> IsDigit(s[i])
    ensures n < |s| ==> !IsDigit(s[n])
  {
    if s == [] || !IsDigit(s[0]) then 0 else 1 + DigitRun(s[1..])
  }

  /** `w` is one whole match of the pattern: the word, whitespace up to `a`, digits up to
      `b`, a dot at `b`, digits to the end. */
  predicate DiagramShape(w: string, a: int, b: int) {
    WordLength < a < b && b + 1 < |w| && WordAt(w) &&
    (forall k :: WordLength <= k < a ==> IsSpace(w[k])) &&
    (forall k :: a <= k < b ==> IsDigit(w[k])) &&
    w[b] == '.' &&
    (forall k :: b < k < |w| ==> IsDigit(w[k]))
  }

  ghost predicate IsDiagramId(w: string) {
    exists a, b :: DiagramShape(w, a, b)
  }

  /** The length of the match of the pattern at the start of `s`, or 0 if there is none.
      Each repetition is greedy; whitespace, digits and the dot are disjoint, so no
      backtracking can give another match. */
  function MatchLen(s: string): (n: nat)
    ensures n <= |s|
  {
    if !WordAt(s) then 0
    else
      var a := WordLength + LeadingSpaces(s[WordLength..]);
      if a == WordLength then 0 else MatchNumber(s, a)
  }

  /** The rest of a match whose whitespace ends at `a`: digits, a dot, digits. */
  function MatchNumber(s: string, a: nat): (n: nat)
    requires a <= |s|
    ensures n <= |s|
  {
    var b := a + DigitRun(s[a..]);
    if b == a || b == |s| || s[b] != '.' then 0 else MatchFraction(s, b)
  }

  /** The end of a match whose dot is at `b`, or 0 when no digit follows it. */
  function MatchFraction(s: string, b: nat): (n: nat)
    requires b < |s|
    ensures n <= |s|
  {
    var c := b + 1 + DigitRun(s[b + 1..]);
    if c == b + 1 then 0 else c
  }

  /** A match found is one whole occurrence of the pattern, not followed by a digit. */
  lemma MatchLenSound(s: string)
    requires MatchLen(s) > 0
    ensures IsDiagramId(s[..MatchLen(s)])
    ensures MatchLen(s) == |s| || !IsDigit(s[MatchLen(s)])
  {
    var n := MatchLen(s);
    var w := s[..n];
    var a := WordLength + LeadingSpaces(s[WordLength..]);
    var b := a + DigitRun(s[a..]);
    forall k | WordLength <= k < a ensures IsSpace(w[k]) {
      assert w[k] == s[WordLength..][k - WordLength];
    }
    forall k | a <= k < b ensures IsDigit(w[k]) {
      assert w[k] == s[a..][k - a];
    }
    forall k | b < k < n ensures IsDigit(w[k]) {
      assert w[k] == s[b + 1..][k - b - 1];
    }
    assert DiagramShape(w, a, b);
    if n < |s| {
      assert s[n] == s[b + 1..][n - b - 1];
    }
  }

  lemma {:induction false} LeadingSpacesExact(s: string, m: nat)
    requires m <= |s| && (forall k :: 0 <= k < m ==> IsSpace(s[k])) && (m == |s| || !IsSpace(s[m]))
    ensures LeadingSpaces(s) == m
    decreases m
  {
    if m > 0 {
      LeadingSpacesExact(s[1..], m - 1);
    }
  }

  lemma {:induction false} DigitRunExact(s: string, m: nat)
    requires m <= |s| && (forall k :: 0 <= k < m ==> IsDigit(s[k])) && (m == |s| || !IsDigit(s[m]))
    ensures DigitRun(s) == m
    decreases m
  {
    if m > 0 {
      DigitRunExact(s[1..], m - 1);
    }
  }

  /** Conversely, an occurrence of the pattern not followed by a digit is the match. */
  lemma MatchLenComplete(s: string, n: nat, a: int, b: int)
    requires n <= |s| && DiagramShape(s[..n], a, b)
    requires n == |s| || !IsDigit(s[n])
    ensures MatchLen(s) == n
  {
    WordAtPrefix(s, n);
    ShapeSpaces(s, n, a, b);
    ShapeDigits(s, n, a, b);
    ShapeFraction(s, n, a, b);
    MatchLenOf(s, n, a, b);
  }

  /** `MatchLen` read off the lengths of the three runs. */
  lemma MatchLenOf(s: string, n: nat, a: int, b: int)
    requires WordAt(s) && WordLength < a < b && b + 1 < n <= |s|
    requires LeadingSpaces(s[WordLength..]) == a - WordLength && DigitRun(s[a..]) == b - a
    requires s[b] == '.' && DigitRun(s[b + 1..]) == n - b - 1
    ensures MatchLen(s) == n
  {
    assert MatchFraction(s, b) == n;
    assert MatchNumber(s, a) == n;
  }

  lemma ShapeSpaces(s: string, n: nat, a: int, b: int)
    requires n <= |s| && DiagramShape(s[..n], a, b)
    ensures LeadingSpaces(s[WordLength..]) == a - WordLength
  {
    var w := s[..n];
    var d := WordLength;
    forall k | 0 <= k < a - d ensures IsSpace(s[d..][k]) {
      assert s[d..][k] == w[d + k];
    }
    assert s[d..][a - d] == w[a];
    LeadingSpacesExact(s[d..], a - d);
  }

  lemma ShapeDigits(s: string, n: nat, a: int, b: int)
    requires n <= |s| && DiagramShape(s[..n], a, b)
    ensures DigitRun(s[a..]) == b - a
  {
    var w := s[..n];
    forall k | 0 <= k < b - a ensures IsDigit(s[a..][k]) {
      assert s[a..][k] == w[a + k];
    }
    assert s[a..][b - a] == w[b];
    DigitRunExact(s[a..], b - a);
  }

  lemma ShapeFraction(s: string, n: nat, a: int, b: int)
    requires n <= |s| && DiagramShape(s[..n], a, b)
    requires n == |s| || !IsDigit(s[n])
    ensures s[b] == '.' && DigitRun(s[b + 1..]) == n - b - 1
  {
    var w := s[..n];
    assert s[b] == w[b];
    var t := s[b + 1..];
    forall k | 0 <= k < n - b - 1 ensures IsDigit(t[k]) {
      assert t[k] == w[b + 1 + k];
    }
    if n < |s| {
      assert t[n - b - 1] == s[n];
    }
    DigitRunExact(t, n - b - 1);
  }

  lemma WordAtPrefix(s: string, n: nat)
    requires n <= |s| && WordAt(s[..n])
    ensures WordAt(s)
  {
    var w := s[..n];
    assert s[0] == w[0] && s[1] == w[1] && s[2] == w[2] && s[3] == w[3];
    assert s[4] == w[4] && s[5] == w[5] && s[6] == w[6];
  }

  /** `diagram_pattern.findall(text)`: the matches from left to right, each scan resuming
      after the previous match. */
  function FindAll(s: string): seq<string>
    decreases |s|
  {
    if s == [] then []
    else
      var n := MatchLen(s);
      if n > 0 then [s[..n]] + FindAll(s[n..]) else FindAll(s[1..])
  }

  /** Every match is one whole occurrence of the pattern in the text. */
  lemma {:induction false} FindAllFacts(s: string)
    ensures AllOccur(s, FindAll(s))
    decreases |s|
  {
    if s != [] {
      var n := MatchLen(s);
      if n > 0 {
        FindAllFacts(s[n..]);
        FindAllMatchStep(s);
      } else {
        FindAllFacts(s[1..]);
        FoundInSuffix(s, 1, FindAll(s[1..]));
      }
    }
  }

  /** Each of `found` is an occurrence of the pattern in `s`. */
  ghost predicate AllOccur(s: string, found: seq<string>) {
    forall i :: 0 <= i < |found| ==> IsDiagramId(found[i]) && Contains(s, found[i])
  }

  lemma FindAllMatchStep(s: string)
    requires MatchLen(s) > 0 && AllOccur(s[MatchLen(s)..], FindAll(s[MatchLen(s)..]))
    ensures AllOccur(s, FindAll(s))
  {
    var n := MatchLen(s);
    var rest := FindAll(s[n..]);
    MatchLenSound(s);
    ContainsPrefix(s, n);
    FoundInSuffix(s, n, rest);
    assert FindAll(s) == [s[..n]] + rest;
    OccurCons(s, s[..n], rest);
  }

  lemma OccurCons(s: string, w: string, rest: seq<string>)
    requires IsDiagramId(w) && Contains(s, w) && AllOccur(s, rest)
    ensures AllOccur(s, [w] + rest)
  {
  }

  lemma FoundInSuffix(s: string, n: nat, found: seq<string>)
    requires n <= |s| && AllOccur(s[n..], found)
    ensures AllOccur(s, found)
  {
    forall i | 0 <= i < |found| ensures Contains(s, found[i]) {
      ContainsInSuffix(s, n, found[i]);
    }
  }

  /** `find_diagram_ids`: `sorted(set(findall(text)))`. */
  function FindDiagramIds(text: string): seq<string>
  {
    SortedSet(FindAll(text))
  }

  /** The identifiers come sorted without duplicates; each is an occurrence in the text,
      with its own casing, of the whole pattern; and each match found is among them. */
  lemma FindDiagramIdsFacts(text: string)
    ensures StrictlySorted(FindDiagramIds(text))
    ensures forall w :: w in FindDiagramIds(text) ==> IsDiagramId(w) && Contains(text, w)
    ensures forall w :: w in FindDiagramIds(text) <==> w in FindAll(text)
  {
    FindAllFacts(text);
  }

  // Concrete scans.

  /** No match can start at position `k` of `x`, whatever follows `x`: the character there
      is not a `d`, or it is followed within `x` by one that is not an `i`. */
  predicate NoStartAt(x: string, k: nat)
    requires k < |x|
  {
    !(x[k] == 'd' || x[k] == 'D') || (k + 1 < |x| && !IsLetterI(x[k + 1]))
  }

  /** No match can start anywhere in `x` from position `k` on. */
  predicate NoStartFrom(x: string, k: nat)
    decreases |x| - k
  {
    k >= |x| || (NoStartAt(x, k) && NoStartFrom(x, k + 1))
  }

  lemma HeadNotWord(x: string, k: nat, y: string)
    requires k < |x| && NoStartAt(x, k)
    ensures !WordAt(x[k..] + y)
  {
    var s := x[k..] + y;
    assert s[0] == x[k];
    if k + 1 < |x| {
      assert s[1] == x[k + 1];
    }
  }

  lemma SkipOne(s: string)
    requires s != [] && !WordAt(s)
    ensures FindAll(s) == FindAll(s[1..])
  {
  }

  /** Text in which no match starts adds nothing to the matches of what follows it. */
  lemma {:induction false} FindAllSkip(x: string, k: nat, y: string)
    requires k <= |x| && NoStartFrom(x, k)
    ensures FindAll(x[k..] + y) == FindAll(y)
    decreases |x| - k
  {
    if k < |x| {
      var s := x[k..] + y;
      HeadNotWord(x, k, y);
      SkipOne(s);
      assert s[1..] == x[k + 1..] + y;
      FindAllSkip(x, k + 1, y);
    } else {
      assert x[k..] + y == y;
    }
  }

  lemma SkipText(x: string, y: string)
    requires NoStartFrom(x, 0)
    ensures FindAll(x + y) == FindAll(y)
  {
    FindAllSkip(x, 0, y);
    assert x[0..] == x;
  }

  lemma FindAllMatch(w: string, y: string, a: int, b: int)
    requires DiagramShape(w, a, b) && (y == [] || !IsDigit(y[0]))
    ensures FindAll(w + y) == [w] + FindAll(y)
  {
    var s := w + y;
    assert s[..|w|] == w && s[|w|..] == y;
    MatchLenComplete(s, |w|, a, b);
  }

  lemma ShapeExample(w: string)
    requires w == "Diagram 3.1" || w == "Diagram 4.2"
    ensures DiagramShape(w, 8, 9)
  {
  }

  lemma NoStartTail()
    ensures NoStartFrom(" for details", 0)
  {
  }

  lemma NoStartAnd()
    ensures NoStartFrom(" and ", 0)
  {
  }

  lemma NoStartSee()
    ensures NoStartFrom("See ", 0)
  {
  }

  lemma ExampleTail(t: string)
    requires t == " for details"
    ensures FindAll(t) == []
  {
    NoStartTail();
    SkipText(t, []);
    assert t + [] == t;
  }

  lemma ExampleSecond(w: string, t: string)
    requires w == "Diagram 4.2" && t == " for details"
    ensures FindAll(w + t) == [w]
  {
    ExampleTail(t);
    ShapeExample(w);
    FindAllMatch(w, t, 8, 9);
  }

  lemma ExampleAnd(x: string, w: string, t: string)
    requires x == " and " && w == "Diagram 4.2" && t == " for details"
    ensures FindAll(x + (w + t)) == [w]
  {
    ExampleSecond(w, t);
    NoStartAnd();
    SkipText(x, w + t);
  }

  lemma ExampleFirst(v: string, x: string, w: string, t: string)
    requires v == "Diagram 3.1" && x == " and " && w == "Diagram 4.2" && t == " for details"
    ensures FindAll(v + (x + (w + t))) == [v, w]
  {
    ExampleAnd(x, w, t);
    ShapeExample(v);
    FindAllMatch(v, x + (w + t), 8, 9);
  }

  lemma FindAllExample(text: string)
    requires text == "See Diagram 3.1 and Diagram 4.2 for details"
    ensures FindAll(text) == ["Diagram 3.1", "Diagram 4.2"]
  {
    var p, v, x, w, t := "See ", "Diagram 3.1", " and ", "Diagram 4.2", " for details";
    ExampleFirst(v, x, w, t);
    NoStartSee();
    SkipText(p, v + (x + (w + t)));
    ExampleText(text, p, v, x, w, t);
  }

  lemma ExampleText(text: string, p: string, v: string, x: string, w: string, t: string)
    requires text == "See Diagram 3.1 and Diagram 4.2 for details"
    requires p == "See " && v == "Diagram 3.1" && x == " and " && w == "Diagram 4.2" && t == " for details"
    ensures p + (v + (x + (w + t))) == text
  {
  }

  /** The test text with two diagram references. */
  lemma FindDiagramIdsExample(text: string)
    requires text == "See Diagram 3.1 and Diagram 4.2 for details"
    ensures FindDiagramIds(text) == ["Diagram 3.1", "Diagram 4.2"]
  {
    FindAllExample(text);
    FoundSorted(FindAll(text));
    SortedSetOfSorted(FindAll(text));
  }

  lemma FoundSorted(found: seq<string>)
    requires found == ["Diagram 3.1", "Diagram 4.2"]
    ensures StrictlySorted(found)
  {
    var p := "Diagram ";
    assert found[0] == p + "3.1" && found[1] == p + "4.2";
    assert Less("3.1", "4.2");
    LessSharedPrefix(p, "3.1", "4.2");
  }

  lemma NoStartNone()
    ensures NoStartFrom("This text ", 0) && NoStartFrom("has no ", 0) && NoStartFrom("diagrams", 1)
  {
  }

  lemma FindAllNoneTail(d: string)
    requires d == "diagrams"
    ensures FindAll(d) == []
  {
    NoStartNone();
    FindAllSkip(d, 1, []);
    assert d[1..] + [] == d[1..];
    assert MatchLen(d) == 0 by {
      assert d[WordLength..][0] == 's';
    }
  }

  lemma NoneText(text: string, p: string, x: string, d: string)
    requires text == "This text has no diagrams" && p == "This text " && x == "has no " && d == "diagrams"
    ensures p + (x + d) == text
  {
  }

  /** "diagrams" is not followed by whitespace, so the test text without references has
      none. */
  lemma FindDiagramIdsNone(text: string)
    requires text == "This text has no diagrams"
    ensures FindDiagramIds(text) == []
  {
    var p, x, d := "This text ", "has no ", "diagrams";
    FindAllNoneTail(d);
    NoStartNone();
    SkipText(x, d);
    SkipText(p, x + d);
    NoneText(text, p, x, d);
  }

  // ---------------------------------------------------------------------------------
  // context_is_relevant
  // ---------------------------------------------------------------------------------

  /** `context_is_relevant`: the lower-cased word sets of query and context intersect. */
  function ContextIsRelevant(query: string, context: string): (r: bool)
    ensures r <==> exists w :: w in Split(Lower(query)) && w in Split(Lower(context))
  {
    var qWords := set w | w in Split(Lower(query));
    var cWords := set w | w in Split(Lower(context));
    var overlap := qWords * cWords;
    if |overlap| > 0 then
      var w :| w in overlap;
      assert w in Split(Lower(query)) && w in Split(Lower(context));
      true
    else
      assert forall w :: w in Split(Lower(query)) && w in Split(Lower(context)) ==> w in overlap;
      false
  }

  lemma ContextIsRelevantSymmetric(query: string, context: string)
    ensures ContextIsRelevant(query, context) == ContextIsRelevant(context, query)
  {
  }

  /** A query or context without any word is never relevant. */
  lemma ContextIsRelevantEmpty(query: string, context: string)
    requires Split(query) == [] || Split(context) == []
    ensures !ContextIsRelevant(query, context)
  {
    LowerSplitEmpty(query);
    LowerSplitEmpty(context);
  }

  lemma {:induction false} LowerSplitEmpty(s: string)
    ensures Split(Lower(s)) == [] <==> Split(s) == []
    decreases |s|
  {
    if s != [] {
      assert Lower(s)[1..] == Lower(s[1..]);
      LowerSplitEmpty(s[1..]);
    }
  }
}
