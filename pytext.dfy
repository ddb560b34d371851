/** The parts of Python's `str` and `list` behaviour that the system relies on:
    whitespace splitting and stripping, joining, ASCII lower-casing, `find`/`rfind`,
    slicing and indexing with negative positions, `split(sep)` and `str(int)`. */
module PyText {
  import opened Wrappers

  /** The characters for which Python's `str.isspace()` holds; `str.split()` and
      `str.strip()` without arguments treat exactly these as whitespace. */
  predicate IsSpace(c: char) {
    ('\t' <= c <= '\r') || ('\U{1c}' <= c <= ' ') || c == '\U{85}' || c == '\U{a0}' ||
    c == '\U{1680}' || ('\U{2000}' <= c <= '\U{200a}') || c == '\U{2028}' || c == '\U{2029}' ||
    c == '\U{202f}' || c == '\U{205f}' || c == '\U{3000}'
  }

  predicate NoSpace(s: string) {
    forall i :: 0 <= i < |s| ==> !IsSpace(s[i])
  }

  /** A word of `str.split()`: a non-empty run of non-whitespace characters. */
  predicate IsWord(w: string) {
    w != [] && NoSpace(w)
  }

  /** The number of leading whitespace characters. */
  function LeadingSpaces(s: string): (n: nat)
    ensures n <= |s|
    ensures forall i :: 0 <= i < n ==> IsSpace(s[i])
    ensures n < |s| ==> !IsSpace(s[n])
  {
    if s == [] || !IsSpace(s[0]) then 0 else 1 + LeadingSpaces(s[1..])
  }

  /** The number of trailing whitespace characters. */
  function TrailingSpaces(s: string): (n: nat)
    ensures n <= |s|
    ensures forall i :: |s| - n <= i < |s| ==> IsSpace(s[i])
    ensures n < |s| ==> !IsSpace(s[|s| - n - 1])
  {
    if s == [] || !IsSpace(s[|s| - 1]) then 0 else 1 + TrailingSpaces(s[..|s| - 1])
  }

  /** The length of the leading run of non-whitespace characters. */
  function WordLen(s: string): (n: nat)
    ensures n <= |s|
    ensures forall i :: 0 <= i < n ==> !IsSpace(s[i])
    ensures n < |s| ==> IsSpace(s[n])
  {
    if s == [] || IsSpace(s[0]) then 0 else 1 + WordLen(s[1..])
  }

  /** Python's `s.strip()`: drops the leading and the trailing whitespace run. */
  function Strip(s: string): (r: string)
    ensures LeadingSpaces(s) + |r| <= |s|
    ensures r == s[LeadingSpaces(s)..LeadingSpaces(s) + |r|]
    ensures forall i :: 0 <= i < |s| && !(LeadingSpaces(s) <= i < LeadingSpaces(s) + |r|) ==> IsSpace(s[i])
    ensures r == [] || (!IsSpace(r[0]) && !IsSpace(r[|r| - 1]))
  {
    var a := LeadingSpaces(s);
    if a == |s| then []
    else
      var b := TrailingSpaces(s);
      assert a < |s| - b;
      s[a..|s| - b]
  }

  /** Python's `s.split()` with no argument: the maximal runs of non-whitespace characters. */
  function Split(s: string): (r: seq<string>)
    ensures forall i :: 0 <= i < |r| ==> IsWord(r[i])
    decreases |s|
  {
    if s == [] then []
    else if IsSpace(s[0]) then Split(s[1..])
    else
      var n := WordLen(s);
      [s[..n]] + Split(s[n..])
  }

  /** Python's `sep.join(parts)`. */
  function Join(sep: string, parts: seq<string>): string
  {
    if parts == [] then []
    else if |parts| == 1 then parts[0]
    else parts[0] + sep + Join(sep, parts[1..])
  }

  /** `" ".join(s.split())`: every whitespace run becomes one space, none at either end. */
  function Collapse(s: string): string
  {
    Join(" ", Split(s))
  }

  lemma {:induction false} SplitChars(s: string)
    ensures forall i, j :: 0 <= i < |Split(s)| && 0 <= j < |Split(s)[i]| ==> Split(s)[i][j] in s
    decreases |s|
  {
    if s != [] {
      SplitChars(s[1..]);
      if !IsSpace(s[0]) {
        var n := WordLen(s);
        SplitChars(s[n..]);
        var r := Split(s);
        forall i, j | 0 <= i < |r| && 0 <= j < |r[i]| ensures r[i][j] in s {
          if i == 0 {
            assert r[i][j] == s[j];
          } else {
            assert r[i] == Split(s[n..])[i - 1];
            assert r[i][j] in s[n..];
          }
        }
      }
    }
  }

  /** Every character of a joined string comes from a part or from the separator. */
  lemma {:induction false} JoinChars(sep: string, parts: seq<string>, i: int)
    requires 0 <= i < |Join(sep, parts)|
    ensures Join(sep, parts)[i] in sep || exists p, j :: 0 <= p < |parts| && 0 <= j < |parts[p]| && parts[p][j] == Join(sep, parts)[i]
    decreases |parts|
  {
    var r := Join(sep, parts);
    if |parts| == 1 {
      assert parts[0][i] == r[i];
    } else {
      var a := parts[0];
      if i < |a| {
        assert a[i] == r[i];
      } else if i < |a| + |sep| {
        assert r[i] == sep[i - |a|];
      } else {
        var t := Join(sep, parts[1..]);
        assert r[i] == t[i - |a| - |sep|];
        JoinChars(sep, parts[1..], i - |a| - |sep|);
        if !(r[i] in sep) {
          var p, j :| 0 <= p < |parts[1..]| && 0 <= j < |parts[1..][p]| && parts[1..][p][j] == t[i - |a| - |sep|];
          assert parts[p + 1][j] == r[i];
        }
      }
    }
  }

  /** The result of `Collapse` holds single spaces and the non-whitespace characters of `s`. */
  lemma CollapseChars(s: string)
    ensures forall i :: 0 <= i < |Collapse(s)| ==> Collapse(s)[i] == ' ' || (Collapse(s)[i] in s && !IsSpace(Collapse(s)[i]))
  {
    var ws := Split(s);
    SplitChars(s);
    forall i | 0 <= i < |Collapse(s)| ensures Collapse(s)[i] == ' ' || (Collapse(s)[i] in s && !IsSpace(Collapse(s)[i])) {
      JoinChars(" ", ws, i);
      if Collapse(s)[i] != ' ' {
        var p, j :| 0 <= p < |ws| && 0 <= j < |ws[p]| && ws[p][j] == Collapse(s)[i];
        assert IsWord(ws[p]);
      }
    }
  }

  /** Joining words gives a string that is empty exactly when there are no words, and
      otherwise starts with the first word's first character and ends with the last
      word's last character. */
  lemma {:induction false} JoinWordsEnds(sep: string, ws: seq<string>)
    requires forall i :: 0 <= i < |ws| ==> IsWord(ws[i])
    ensures Join(sep, ws) == [] <==> ws == []
    ensures ws != [] ==> ws[0] != [] && Join(sep, ws)[0] == ws[0][0]
    ensures ws != [] ==> ws[|ws| - 1] != [] && Join(sep, ws)[|Join(sep, ws)| - 1] == ws[|ws| - 1][|ws[|ws| - 1]| - 1]
    decreases |ws|
  {
    if |ws| > 1 {
      JoinWordsEnds(sep, ws[1..]);
      assert IsWord(ws[0]);
    } else if |ws| == 1 {
      assert IsWord(ws[0]);
    }
  }

  /** What `Collapse` keeps at the front of its argument. */
  function Gap(t: string): string {
    if t != [] && !IsSpace(t[0]) then Collapse(t)
    else if Split(t) == [] then []
    else " " + Collapse(t)
  }

  lemma JoinHead(sep: string, c: char, w: string, rest: seq<string>)
    ensures Join(sep, [[c] + w] + rest) == [c] + Join(sep, [w] + rest)
  {
    if rest != [] {
      assert ([[c] + w] + rest)[1..] == rest;
      assert ([w] + rest)[1..] == rest;
    }
  }

  /** `Collapse` one character at a time: a leading whitespace character disappears, and
      a leading non-whitespace character is kept, followed by what of the rest survives. */
  lemma CollapseStep(c: char, t: string)
    ensures IsSpace(c) ==> Collapse([c] + t) == Collapse(t)
    ensures !IsSpace(c) ==> Collapse([c] + t) == [c] + Gap(t)
  {
    if IsSpace(c) {
      SplitSpace(c, t);
    } else if t != [] && !IsSpace(t[0]) {
      CollapseInWord(c, t);
    } else {
      CollapseWordEnd(c, t);
    }
  }

  lemma CollapseInWord(c: char, t: string)
    requires !IsSpace(c) && t != [] && !IsSpace(t[0])
    ensures Collapse([c] + t) == [c] + Collapse(t)
  {
    var s := [c] + t;
    assert s[1..] == t;
    var m := WordLen(t);
    assert WordLen(s) == m + 1;
    assert s[..m + 1] == [c] + t[..m];
    assert s[m + 1..] == t[m..];
    JoinHead(" ", c, t[..m], Split(t[m..]));
  }

  lemma CollapseWordEnd(c: char, t: string)
    requires !IsSpace(c) && (t == [] || IsSpace(t[0]))
    ensures Collapse([c] + t) == [c] + Gap(t)
  {
    SplitWord([c], t);
    if Split(t) != [] {
      JoinCons(" ", [c], Split(t));
    } else {
      assert Split([c] + t) == [[c]];
    }
  }

  lemma {:induction false} WordLenOfWord(w: string, rest: string)
    requires IsWord(w) && (rest == [] || IsSpace(rest[0]))
    ensures WordLen(w + rest) == |w|
    decreases |w|
  {
    if |w| > 1 {
      assert (w + rest)[1..] == w[1..] + rest;
      WordLenOfWord(w[1..], rest);
    }
  }

  /** A word followed by whitespace or by nothing is the first word of `split()`. */
  lemma SplitWord(w: string, rest: string)
    requires IsWord(w) && (rest == [] || IsSpace(rest[0]))
    ensures Split(w + rest) == [w] + Split(rest)
  {
    WordLenOfWord(w, rest);
    assert (w + rest)[..|w|] == w && (w + rest)[|w|..] == rest;
  }

  /** Leading whitespace does not change `split()`. */
  lemma SplitSpace(c: char, rest: string)
    requires IsSpace(c)
    ensures Split([c] + rest) == Split(rest)
  {
    assert ([c] + rest)[1..] == rest;
  }

  /** `Collapse` leaves nothing for `strip` to remove. */
  lemma StripCollapse(s: string)
    ensures Strip(Collapse(s)) == Collapse(s)
  {
    var c := Collapse(s);
    JoinWordsEnds(" ", Split(s));
    if c != [] {
      assert IsWord(Split(s)[0]);
      assert IsWord(Split(s)[|Split(s)| - 1]);
      assert LeadingSpaces(c) == 0;
      assert TrailingSpaces(c) == 0;
      assert c[0..|c|] == c;
    }
  }

  function LowerChar(c: char): char {
    if 'A' <= c <= 'Z' then (c as int + 32) as char else c
  }

  /** Python's `s.lower()`, restricted to the ASCII letters. */
  function Lower(s: string): (r: string)
    ensures |r| == |s|
    ensures forall i :: 0 <= i < |s| ==> r[i] == LowerChar(s[i])
  {
    seq(|s|, i requires 0 <= i < |s| => LowerChar(s[i]))
  }

  /** Python's `s.startswith(prefix)`. */
  predicate StartsWith(s: string, prefix: string) {
    prefix <= s
  }

  /** Python's `s.find(x)` for a one-character `x`: the first index of `x`, or -1. */
  function Find<T(==)>(s: seq<T>, x: T): (r: int)
    ensures -1 <= r < |s|
    ensures r >= 0 ==> s[r] == x
    ensures forall i :: 0 <= i < |s| && (r == -1 || i < r) ==> s[i] != x
  {
    if s == [] then -1
    else if s[0] == x then 0
    else
      var k := Find(s[1..], x);
      assert forall i :: 1 <= i < |s| ==> s[i] == s[1..][i - 1];
      if k == -1 then -1 else k + 1
  }

  /** Python's `s.rfind(x)` for a one-character `x`: the last index of `x`, or -1. */
  function RFind<T(==)>(s: seq<T>, x: T): (r: int)
    ensures -1 <= r < |s|
    ensures r >= 0 ==> s[r] == x
    ensures forall i :: 0 <= i < |s| && r < i ==> s[i] != x
  {
    if s == [] then -1
    else if s[|s| - 1] == x then |s| - 1
    else RFind(s[..|s| - 1], x)
  }

  /** The position a Python slice bound `i` denotes in a sequence of length `n`. */
  function SliceBound(i: int, n: nat): (b: nat)
    ensures b <= n
    ensures 0 <= i <= n ==> b == i
    ensures i > n ==> b == n
    ensures i < 0 ==> b == if i + n < 0 then 0 else i + n
  {
    if i < 0 then (if i + n < 0 then 0 else i + n) else if i > n then n else i
  }

  /** Python's `s[start:stop]`. */
  function Slice<T>(s: seq<T>, start: int, stop: int): seq<T>
  {
    var a := SliceBound(start, |s|);
    var b := SliceBound(stop, |s|);
    if a < b then s[a..b] else []
  }

  /** Python's `s[:k]`. */
  function Take<T>(s: seq<T>, k: int): (r: seq<T>)
    ensures r <= s
    ensures 0 <= k ==> |r| == if k < |s| then k else |s|
    ensures k < 0 ==> |r| == if |s| + k < 0 then 0 else |s| + k
  {
    Slice(s, 0, k)
  }

  /** Python's `s[i]`: `None` stands for the `IndexError` raised when `i` is out of range. */
  function Index<T>(s: seq<T>, i: int): (r: Option<T>)
    ensures r.Some? <==> -|s| <= i < |s|
    ensures 0 <= i < |s| ==> r == Some(s[i])
    ensures -|s| <= i < 0 ==> r == Some(s[|s| + i])
  {
    if 0 <= i < |s| then Some(s[i])
    else if -|s| <= i < 0 then Some(s[|s| + i])
    else None
  }

  predicate OccursAt(s: string, sep: string, i: nat) {
    i + |sep| <= |s| && s[i..i + |sep|] == sep
  }

  ghost predicate Contains(s: string, sep: string) {
    exists i: nat :: OccursAt(s, sep, i)
  }

  lemma ContainsPrefix(s: string, n: nat)
    requires n <= |s|
    ensures Contains(s, s[..n])
  {
    assert OccursAt(s, s[..n], 0);
  }

  lemma ContainsInSuffix(s: string, n: nat, w: string)
    requires n <= |s| && Contains(s[n..], w)
    ensures Contains(s, w)
  {
    var i: nat :| OccursAt(s[n..], w, i);
    assert s[n + i..n + i + |w|] == s[n..][i..i + |w|];
    assert OccursAt(s, w, n + i);
  }

  /** The scan behind Python's `s.find(sep, from)`: the first index at or after `from`
      at which `sep` occurs, or -1. */
  function FindSubFrom(s: string, sep: string, from: nat): (r: int)
    ensures -1 <= r
    ensures r == -1 || (from <= r && OccursAt(s, sep, r))
    ensures forall i: nat :: from <= i && (r == -1 || i < r) ==> !OccursAt(s, sep, i)
    decreases |s| - from
  {
    if from + |sep| > |s| then -1
    else if s[from..from + |sep|] == sep then from
    else FindSubFrom(s, sep, from + 1)
  }

  /** Python's `s.find(sep)`: the first index at which `sep` occurs, or -1. */
  function FindSub(s: string, sep: string): (r: int)
    ensures -1 <= r
    ensures r == -1 || OccursAt(s, sep, r)
    ensures forall i: nat :: (r == -1 || i < r) ==> !OccursAt(s, sep, i)
  {
    FindSubFrom(s, sep, 0)
  }

  lemma OccursInPrefix(s: string, sep: string, k: nat, i: nat)
    requires k <= |s| && OccursAt(s[..k], sep, i)
    ensures OccursAt(s, sep, i)
  {
    var a, b := s[i..i + |sep|], s[..k][i..i + |sep|];
    forall j | 0 <= j < |a| ensures a[j] == b[j] {
    }
    assert a == b;
  }

  /** Python's `s.split(sep)` for a non-empty separator: the pieces between the
      leftmost non-overlapping occurrences of `sep`. */
  function SplitOn(s: string, sep: string): (r: seq<string>)
    requires sep != []
    ensures |r| >= 1
    ensures forall i :: 0 <= i < |r| ==> !Contains(r[i], sep)
    decreases |s|
  {
    var k := FindSub(s, sep);
    if k < 0 then [s]
    else
      var piece := s[..k];
      assert !Contains(piece, sep) by {
        forall i: nat | OccursAt(piece, sep, i) ensures false {
          OccursInPrefix(s, sep, k, i);
        }
      }
      [piece] + SplitOn(s[k + |sep|..], sep)
  }

  lemma JoinCons(sep: string, a: string, t: seq<string>)
    requires t != []
    ensures Join(sep, [a] + t) == a + sep + Join(sep, t)
  {
    assert ([a] + t)[1..] == t;
  }

  /** Joining the pieces of `split(sep)` with `sep` gives back the original string. */
  lemma {:induction false} JoinSplitOn(s: string, sep: string)
    requires sep != []
    ensures Join(sep, SplitOn(s, sep)) == s
    decreases |s|
  {
    var k := FindSub(s, sep);
    if k >= 0 {
      var rest := s[k + |sep|..];
      var tail := SplitOn(rest, sep);
      JoinSplitOn(rest, sep);
      assert SplitOn(s, sep) == [s[..k]] + tail;
      JoinCons(sep, s[..k], tail);
      assert s[k..k + |sep|] == sep;
      assert s == s[..k] + s[k..k + |sep|] + rest;
    }
  }

  function DigitChar(d: nat): char
    requires d < 10
  {
    "0123456789"[d]
  }

  function DigitValue(c: char): nat {
    if '0' <= c <= '9' then c as int - '0' as int else 0
  }

  predicate IsDigit(c: char) {
    '0' <= c <= '9'
  }

  /** Python's `str(n)` for a natural number. */
  function NatToString(n: nat): (r: string)
    ensures r != []
    ensures forall i :: 0 <= i < |r| ==> IsDigit(r[i])
  {
    if n < 10 then [DigitChar(n)] else NatToString(n / 10) + [DigitChar(n % 10)]
  }

  /** Python's `str(i)` for an integer. */
  function IntToString(i: int): string {
    if i < 0 then "-" + NatToString(-i) else NatToString(i)
  }

  /** The value of a string of decimal digits, read most significant first. */
  function DecimalValue(s: string): nat {
    if s == [] then 0 else 10 * DecimalValue(s[..|s| - 1]) + DigitValue(s[|s| - 1])
  }

  /** `str(n)` is the decimal numeral of `n`: reading it back gives `n`, and it has no
      leading zero. */
  lemma {:induction false} NatToStringRoundTrip(n: nat)
    ensures DecimalValue(NatToString(n)) == n
    ensures NatToString(n)[0] == '0' ==> n == 0
  {
    if n >= 10 {
      NatToStringRoundTrip(n / 10);
      var r := NatToString(n);
      assert r[..|r| - 1] == NatToString(n / 10);
    }
  }
}
