/** Orderings the system uses: Python's `<` on strings with `sorted(set(...))`, and the
    stable descending sort `sort(key=..., reverse=True)` over numeric scores. */
module Ordering {
  import opened PyText

  /** Python's `a < b` on `str`: lexicographic by code point, a proper prefix first. */
  predicate Less(a: string, b: string)
    decreases |a|
  {
    if a == [] then b != []
    else if b == [] then false
    else if a[0] != b[0] then a[0] < b[0]
    else Less(a[1..], b[1..])
  }

  lemma {:induction false} LessIrreflexive(a: string)
    ensures !Less(a, a)
    decreases |a|
  {
    if a != [] {
      LessIrreflexive(a[1..]);
    }
  }

  lemma {:induction false} LessTransitive(a: string, b: string, c: string)
    requires Less(a, b) && Less(b, c)
    ensures Less(a, c)
    decreases |a|
  {
    if a != [] && b != [] && c != [] && a[0] == b[0] && b[0] == c[0] {
      LessTransitive(a[1..], b[1..], c[1..]);
    }
  }

  lemma {:induction false} LessTotal(a: string, b: string)
    ensures a == b || Less(a, b) || Less(b, a)
    decreases |a|
  {
    if a != [] && b != [] && a[0] == b[0] {
      LessTotal(a[1..], b[1..]);
      if a[1..] == b[1..] {
        assert a == [a[0]] + a[1..] && b == [b[0]] + b[1..];
      }
    }
  }

  lemma LessAsymmetric(a: string, b: string)
    requires Less(a, b)
    ensures !Less(b, a)
  {
    if Less(b, a) {
      LessTransitive(a, b, a);
      LessIrreflexive(a);
    }
  }

  /** A common prefix does not change the order. */
  lemma {:induction false} LessSharedPrefix(p: string, a: string, b: string)
    requires Less(a, b)
    ensures Less(p + a, p + b)
    decreases |p|
  {
    if p != [] {
      LessSharedPrefix(p[1..], a, b);
      var x, y := p + a, p + b;
      assert x[0] == p[0] == y[0];
      assert x[1..] == p[1..] + a && y[1..] == p[1..] + b;
    } else {
      assert p + a == a && p + b == b;
    }
  }

  /** Sorted in increasing order without duplicates. */
  predicate StrictlySorted(s: seq<string>) {
    forall i, j :: 0 <= i < j < |s| ==> Less(s[i], s[j])
  }

  /** Inserts `x` into a strictly sorted list, unless it is already there. */
  function Insert(x: string, s: seq<string>): (r: seq<string>)
    requires StrictlySorted(s)
    ensures StrictlySorted(r)
    ensures forall y :: y in r <==> y == x || y in s
  {
    if s == [] then [x]
    else if x == s[0] then s
    else if Less(x, s[0]) then
      assert forall j :: 0 <= j < |s| ==> Less(x, s[j]) by {
        forall j | 0 < j < |s| ensures Less(x, s[j]) {
          LessTransitive(x, s[0], s[j]);
        }
      }
      [x] + s
    else
      LessTotal(x, s[0]);
      var rest := Insert(x, s[1..]);
      assert forall y :: y in rest ==> Less(s[0], y);
      [s[0]] + rest
  }

  /** Python's `sorted(set(xs))` on strings. */
  function SortedSet(xs: seq<string>): (r: seq<string>)
    ensures StrictlySorted(r)
    ensures forall y :: y in r <==> y in xs
  {
    if xs == [] then [] else Insert(xs[0], SortedSet(xs[1..]))
  }

  lemma StrictlySortedNoDup(s: seq<string>, i: int, j: int)
    requires StrictlySorted(s) && 0 <= i < |s| && 0 <= j < |s| && s[i] == s[j]
    ensures i == j
  {
    if i < j || j < i {
      LessIrreflexive(s[i]);
    }
  }

  /** A strictly sorted list is fixed by its elements: whatever sorting algorithm
      produced it, `sorted(set(xs))` is the only such list with the elements of `xs`. */
  lemma {:induction false} StrictlySortedUnique(a: seq<string>, b: seq<string>)
    requires StrictlySorted(a) && StrictlySorted(b)
    requires forall y :: y in a <==> y in b
    ensures a == b
    decreases |a|
  {
    SameElementsEmpty(a, b);
    if a != [] {
      assert a[0] in a && b[0] in b;
      if a[0] != b[0] {
        var i :| 0 <= i < |b| && b[i] == a[0];
        var j :| 0 <= j < |a| && a[j] == b[0];
        assert 0 < i && 0 < j;
        LessAsymmetric(b[0], a[0]);
      }
      forall y ensures y in a[1..] <==> y in b[1..] {
        if y in a[1..] {
          TailMember(a, b, y);
        }
        if y in b[1..] {
          TailMember(b, a, y);
        }
      }
      StrictlySortedUnique(a[1..], b[1..]);
      assert a == [a[0]] + a[1..] && b == [b[0]] + b[1..];
    }
  }

  /** `sorted(set(xs))` leaves an already strictly sorted list as it is. */
  lemma SortedSetOfSorted(xs: seq<string>)
    requires StrictlySorted(xs)
    ensures SortedSet(xs) == xs
  {
    StrictlySortedUnique(SortedSet(xs), xs);
  }

  lemma SameElementsEmpty(a: seq<string>, b: seq<string>)
    requires forall y :: y in a <==> y in b
    ensures a == [] <==> b == []
  {
    if a != [] {
      assert a[0] in a;
    }
    if b != [] {
      assert b[0] in b;
    }
  }

  lemma TailMember(a: seq<string>, b: seq<string>, y: string)
    requires StrictlySorted(a) && StrictlySorted(b) && a != [] && b != [] && a[0] == b[0]
    requires forall z :: z in a <==> z in b
    requires y in a[1..]
    ensures y in b[1..]
  {
    var k :| 0 <= k < |a[1..]| && a[1..][k] == y;
    assert a[k + 1] == y;
    LessIrreflexive(y);
    assert y in b;
    var m :| 0 <= m < |b| && b[m] == y;
    assert m != 0;
    assert b[1..][m - 1] == y;
  }

  /** Non-increasing by `key`. */
  ghost predicate SortedDesc<T>(s: seq<T>, key: T -> real) {
    forall i, j :: 0 <= i < j < |s| ==> key(s[j]) <= key(s[i])
  }

  /** The elements of `s` whose key is `v`, in their order in `s`. */
  function WithKey<T>(s: seq<T>, key: T -> real, v: real): seq<T>
  {
    if s == [] then []
    else if key(s[0]) == v then [s[0]] + WithKey(s[1..], key, v)
    else WithKey(s[1..], key, v)
  }

  /** Places `x` before the first element whose key is not larger than its own. */
  function InsertByKey<T>(x: T, s: seq<T>, key: T -> real): seq<T>
  {
    if s == [] || key(s[0]) <= key(x) then [x] + s
    else [s[0]] + InsertByKey(x, s[1..], key)
  }

  /** `sorted(s, key=key, reverse=True)`, which Python guarantees to be stable. */
  function SortByKeyDesc<T>(s: seq<T>, key: T -> real): seq<T>
  {
    if s == [] then [] else InsertByKey(s[0], SortByKeyDesc(s[1..], key), key)
  }

  lemma {:induction false} InsertByKeyMultiset<T>(x: T, s: seq<T>, key: T -> real)
    ensures multiset(InsertByKey(x, s, key)) == multiset(s) + multiset{x}
    decreases |s|
  {
    if s != [] && key(x) < key(s[0]) {
      InsertByKeyMultiset(x, s[1..], key);
      assert s == [s[0]] + s[1..];
    }
  }

  ghost predicate AllAtMost<T>(s: seq<T>, key: T -> real, b: real) {
    forall i :: 0 <= i < |s| ==> key(s[i]) <= b
  }

  lemma {:induction false} InsertByKeyAtMost<T>(x: T, s: seq<T>, key: T -> real, b: real)
    requires AllAtMost(s, key, b) && key(x) <= b
    ensures AllAtMost(InsertByKey(x, s, key), key, b)
    decreases |s|
  {
    if s != [] && key(x) < key(s[0]) {
      InsertByKeyAtMost(x, s[1..], key, b);
      var r := InsertByKey(x, s, key);
      assert r[1..] == InsertByKey(x, s[1..], key);
    }
  }

  lemma ConsSortedDesc<T>(y: T, t: seq<T>, key: T -> real)
    requires SortedDesc(t, key) && AllAtMost(t, key, key(y))
    ensures SortedDesc([y] + t, key)
  {
    var r := [y] + t;
    forall i, j | 0 <= i < j < |r| ensures key(r[j]) <= key(r[i]) {
      assert r[j] == t[j - 1];
      if 0 < i {
        assert r[i] == t[i - 1];
      }
    }
  }

  lemma {:induction false} InsertByKeySorted<T>(x: T, s: seq<T>, key: T -> real)
    requires SortedDesc(s, key)
    ensures SortedDesc(InsertByKey(x, s, key), key)
    decreases |s|
  {
    if s == [] || key(s[0]) <= key(x) {
      ConsSortedDesc(x, s, key);
    } else {
      InsertByKeySorted(x, s[1..], key);
      InsertByKeyAtMost(x, s[1..], key, key(s[0]));
      ConsSortedDesc(s[0], InsertByKey(x, s[1..], key), key);
    }
  }

  lemma {:induction false} InsertByKeyWithKey<T>(x: T, s: seq<T>, key: T -> real, v: real)
    ensures WithKey(InsertByKey(x, s, key), key, v) ==
      (if key(x) == v then [x] + WithKey(s, key, v) else WithKey(s, key, v))
    decreases |s|
  {
    var r := InsertByKey(x, s, key);
    if s == [] || key(s[0]) <= key(x) {
      assert r[1..] == s;
    } else {
      InsertByKeyWithKey(x, s[1..], key, v);
      assert r[1..] == InsertByKey(x, s[1..], key);
    }
  }

  lemma {:induction false} SortByKeyDescSorted<T>(s: seq<T>, key: T -> real)
    ensures SortedDesc(SortByKeyDesc(s, key), key)
    decreases |s|
  {
    if s != [] {
      SortByKeyDescSorted(s[1..], key);
      InsertByKeySorted(s[0], SortByKeyDesc(s[1..], key), key);
    }
  }

  lemma {:induction false} SortByKeyDescMultiset<T>(s: seq<T>, key: T -> real)
    ensures multiset(SortByKeyDesc(s, key)) == multiset(s)
    decreases |s|
  {
    if s != [] {
      SortByKeyDescMultiset(s[1..], key);
      InsertByKeyMultiset(s[0], SortByKeyDesc(s[1..], key), key);
      assert s == [s[0]] + s[1..];
    }
  }

  lemma {:induction false} SortByKeyDescStable<T>(s: seq<T>, key: T -> real, v: real)
    ensures WithKey(SortByKeyDesc(s, key), key, v) == WithKey(s, key, v)
    decreases |s|
  {
    if s != [] {
      SortByKeyDescStable(s[1..], key, v);
      InsertByKeyWithKey(s[0], SortByKeyDesc(s[1..], key), key, v);
    }
  }

  /** The sort result is in non-increasing key order, is a permutation of the input,
      and keeps the input order among elements of equal key (stability). */
  lemma SortByKeyDescFacts<T>(s: seq<T>, key: T -> real)
    ensures SortedDesc(SortByKeyDesc(s, key), key)
    ensures multiset(SortByKeyDesc(s, key)) == multiset(s)
    ensures forall v :: WithKey(SortByKeyDesc(s, key), key, v) == WithKey(s, key, v)
  {
    SortByKeyDescSorted(s, key);
    SortByKeyDescMultiset(s, key);
    forall v ensures WithKey(SortByKeyDesc(s, key), key, v) == WithKey(s, key, v) {
      SortByKeyDescStable(s, key, v);
    }
  }

  /** `sorted(s, key=key, reverse=True)[:k]`: for `k >= 0`, `min(k, |s|)` elements; in
      non-increasing key order; taken from `s` with no element repeated beyond its
      multiplicity there; and no element left out has a larger key than one kept. */
  lemma TopKFacts<T>(s: seq<T>, key: T -> real, k: int)
    ensures 0 <= k ==> |Take(SortByKeyDesc(s, key), k)| == if k < |s| then k else |s|
    ensures SortedDesc(Take(SortByKeyDesc(s, key), k), key)
    ensures multiset(Take(SortByKeyDesc(s, key), k)) <= multiset(s)
    ensures var t := SortByKeyDesc(s, key); var r := Take(t, k);
      multiset(r) + multiset(t[|r|..]) == multiset(s) &&
      forall i, j :: 0 <= i < |r| <= j < |t| ==> key(t[j]) <= key(r[i])
  {
    var t := SortByKeyDesc(s, key);
    SortByKeyDescFacts(s, key);
    assert |t| == |s| by {
      assert |multiset(t)| == |multiset(s)|;
    }
    PrefixFacts(t, key, k);
  }

  /** The first `k` elements of a list sorted by key, as `t[:k]` takes them. */
  lemma PrefixFacts<T>(t: seq<T>, key: T -> real, k: int)
    requires SortedDesc(t, key)
    ensures 0 <= k ==> |Take(t, k)| == if k < |t| then k else |t|
    ensures SortedDesc(Take(t, k), key)
    ensures multiset(Take(t, k)) + multiset(t[|Take(t, k)|..]) == multiset(t)
    ensures forall i, j :: 0 <= i < |Take(t, k)| <= j < |t| ==> key(t[j]) <= key(Take(t, k)[i])
  {
    var r := Take(t, k);
    assert t == r + t[|r|..];
    forall i, j | 0 <= i < |r| <= j < |t| ensures key(t[j]) <= key(r[i]) {
      assert r[i] == t[i];
    }
    forall i, j | 0 <= i < j < |r| ensures key(r[j]) <= key(r[i]) {
      assert r[i] == t[i] && r[j] == t[j];
    }
  }
}
