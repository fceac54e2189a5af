/**
 * The Python built-ins the pipeline leans on, written out so that their edge
 * cases are explicit: `str.split()` with no argument, `str.strip()`,
 * `' '.join`, `str.lower()`, `str.endswith`, the `in` test on strings,
 * prefix slicing `s[:k]` and floor division `//`.
 */
module Builtins {

  datatype Option<T> = None | Some(value: T)

  /** The characters for which Python's `str.isspace()` holds; `str.split()`,
      `str.strip()` and the regex class `\s` all use this set. */
  predicate IsSpace(c: char) {
    || ('\t' <= c <= '\r')
    || ('\U{001C}' <= c <= '\U{001F}')
    || c == ' '
    || c == '\U{0085}'
    || c == '\U{00A0}'
    || c == '\U{1680}'
    || ('\U{2000}' <= c <= '\U{200A}')
    || c == '\U{2028}'
    || c == '\U{2029}'
    || c == '\U{202F}'
    || c == '\U{205F}'
    || c == '\U{3000}'
  }

  predicate AllSpace(s: string) {
    forall i :: 0 <= i < |s| ==> IsSpace(s[i])
  }

  predicate NoSpace(s: string) {
    forall i :: 0 <= i < |s| ==> !IsSpace(s[i])
  }

  /** Length of the longest prefix of `s` without whitespace. */
  function WordLen(s: string): (k: nat)
    ensures k <= |s|
    ensures NoSpace(s[..k])
    ensures k < |s| ==> IsSpace(s[k])
  {
    if |s| == 0 || IsSpace(s[0]) then 0 else 1 + WordLen(s[1..])
  }

  /** `s.split()`: the maximal runs of non-whitespace characters, in order. */
  function Words(s: string): (r: seq<string>)
    ensures |r| <= |s|
    decreases |s|
  {
    if |s| == 0 then []
    else if IsSpace(s[0]) then Words(s[1..])
    else
      var k := WordLen(s);
      [s[..k]] + Words(s[k..])
  }

  /** Every word is non-empty and free of whitespace, and a string has no
      words exactly when it is all whitespace. */
  lemma {:induction false} WordsShape(s: string)
    ensures forall i :: 0 <= i < |Words(s)| ==> |Words(s)[i]| > 0 && NoSpace(Words(s)[i])
    ensures Words(s) == [] <==> AllSpace(s)
    decreases |s|
  {
    if |s| == 0 {
    } else if IsSpace(s[0]) {
      WordsShape(s[1..]);
      assert AllSpace(s) <==> AllSpace(s[1..]) by {
        assert forall i :: 1 <= i < |s| ==> s[i] == s[1..][i - 1];
      }
    } else {
      var k := WordLen(s);
      WordsShape(s[k..]);
      assert !AllSpace(s);
    }
  }

  lemma {:induction false} WordLenAppend(a: string, t: string)
    requires WordLen(a) < |a| || (|t| > 0 && IsSpace(t[0]))
    ensures WordLen(a + t) == WordLen(a)
    decreases |a|
  {
    if |a| == 0 {
      assert a + t == t;
    } else if IsSpace(a[0]) {
      assert (a + t)[0] == a[0];
    } else {
      assert (a + t)[1..] == a[1..] + t;
      WordLenAppend(a[1..], t);
    }
  }

  lemma {:induction false} WordsLeadingSpace(w: string, b: string)
    requires AllSpace(w)
    ensures Words(w + b) == Words(b)
    decreases |w|
  {
    if |w| > 0 {
      assert (w + b)[0] == w[0];
      assert (w + b)[1..] == w[1..] + b;
      WordsLeadingSpace(w[1..], b);
    } else {
      assert w + b == b;
    }
  }

  /** Whitespace between two strings separates their words: no word of `a`
      runs into a word of `b`. */
  lemma {:induction false} WordsSeparated(a: string, w: string, b: string)
    requires |w| > 0 && AllSpace(w)
    ensures Words(a + w + b) == Words(a) + Words(b)
    decreases |a|
  {
    if |a| == 0 {
      assert a + w + b == w + b;
      WordsLeadingSpace(w, b);
    } else if IsSpace(a[0]) {
      assert (a + w + b)[0] == a[0];
      assert (a + w + b)[1..] == a[1..] + w + b;
      WordsSeparated(a[1..], w, b);
    } else {
      var k := WordLen(a);
      assert a + w + b == a + (w + b);
      assert (w + b)[0] == w[0];
      WordLenAppend(a, w + b);
      assert (a + w + b)[0] == a[0];
      assert (a + w + b)[..k] == a[..k];
      assert (a + w + b)[k..] == a[k..] + w + b;
      WordsSeparated(a[k..], w, b);
      AppendAssoc([a[..k]], Words(a[k..]), Words(b));
    }
  }

  lemma WordsOfSpace(a: string, b: string)
    ensures Words(a + " " + b) == Words(a) + Words(b)
  {
    WordsSeparated(a, " ", b);
  }

  lemma AppendAssoc<T>(a: seq<T>, b: seq<T>, c: seq<T>)
    ensures a + (b + c) == (a + b) + c
  {
  }

  /** Concatenation of a sequence of sequences. */
  function Concat<T>(xss: seq<seq<T>>): seq<T> {
    if |xss| == 0 then [] else Concat(xss[..|xss| - 1]) + xss[|xss| - 1]
  }

  lemma {:induction false} ConcatAppend<T>(a: seq<seq<T>>, b: seq<seq<T>>)
    ensures Concat(a + b) == Concat(a) + Concat(b)
    decreases |b|
  {
    if |b| == 0 {
      assert a + b == a;
    } else {
      assert (a + b)[..|a + b| - 1] == a + b[..|b| - 1];
      ConcatAppend(a, b[..|b| - 1]);
    }
  }

  /** The words of every string of `xs`, in order. */
  function FlatWords(xs: seq<string>): seq<string> {
    if |xs| == 0 then [] else FlatWords(xs[..|xs| - 1]) + Words(xs[|xs| - 1])
  }

  lemma {:induction false} FlatWordsAppend(a: seq<string>, b: seq<string>)
    ensures FlatWords(a + b) == FlatWords(a) + FlatWords(b)
    decreases |b|
  {
    if |b| == 0 {
      assert a + b == a;
      assert FlatWords(a) + [] == FlatWords(a);
    } else {
      var ab := a + b;
      var b' := b[..|b| - 1];
      assert ab[..|ab| - 1] == a + b';
      assert ab[|ab| - 1] == b[|b| - 1];
      FlatWordsAppend(a, b');
      AppendAssoc(FlatWords(a), FlatWords(b'), Words(b[|b| - 1]));
    }
  }

  /** `' '.join(xs)`. */
  function Join(xs: seq<string>): string {
    if |xs| == 0 then ""
    else if |xs| == 1 then xs[0]
    else Join(xs[..|xs| - 1]) + " " + xs[|xs| - 1]
  }

  /** Joining with single spaces neither loses, adds nor fuses words. */
  lemma {:induction false} WordsOfJoin(xs: seq<string>)
    ensures Words(Join(xs)) == FlatWords(xs)
    decreases |xs|
  {
    if |xs| == 1 {
      assert xs[..0] == [];
    } else if |xs| > 1 {
      WordsOfJoin(xs[..|xs| - 1]);
      WordsOfSpace(Join(xs[..|xs| - 1]), xs[|xs| - 1]);
    }
  }

  function LStrip(s: string): (r: string)
    ensures |r| <= |s|
    ensures r == s[|s| - |r|..]
    ensures r == [] || !IsSpace(r[0])
    ensures AllSpace(s[..|s| - |r|])
  {
    if |s| > 0 && IsSpace(s[0]) then
      var r := LStrip(s[1..]);
      LStripStep(s, r);
      r
    else s
  }

  function RStrip(s: string): (r: string)
    ensures |r| <= |s|
    ensures r == s[..|r|]
    ensures r == [] || !IsSpace(r[|r| - 1])
    ensures AllSpace(s[|r|..])
  {
    if |s| > 0 && IsSpace(s[|s| - 1]) then
      var r := RStrip(s[..|s| - 1]);
      RStripStep(s, r);
      r
    else s
  }

  lemma LStripStep(s: string, r: string)
    requires |s| > 0 && IsSpace(s[0]) && |r| <= |s| - 1
    requires r == s[1..][|s| - 1 - |r|..] && AllSpace(s[1..][..|s| - 1 - |r|])
    ensures r == s[|s| - |r|..] && AllSpace(s[..|s| - |r|])
  {
    var k := |s| - |r|;
    assert s[1..][k - 1..] == s[k..];
    assert s[..k] == [s[0]] + s[1..][..k - 1];
  }

  lemma RStripStep(s: string, r: string)
    requires |s| > 0 && IsSpace(s[|s| - 1]) && |r| <= |s| - 1
    requires r == s[..|s| - 1][..|r|] && AllSpace(s[..|s| - 1][|r|..])
    ensures r == s[..|r|] && AllSpace(s[|r|..])
  {
    assert s[..|s| - 1][..|r|] == s[..|r|];
    assert s[|r|..] == s[..|s| - 1][|r|..] + [s[|s| - 1]];
  }

  /** `s.strip()`: `s` without leading and trailing whitespace. */
  function Strip(s: string): (r: string)
    ensures r == [] || (!IsSpace(r[0]) && !IsSpace(r[|r| - 1]))
    ensures exists a, b :: 0 <= a <= b <= |s| && r == s[a..b] && AllSpace(s[..a]) && AllSpace(s[b..])
    ensures forall i :: 0 <= i < |r| ==> r[i] in s
    ensures r == [] <==> AllSpace(s)
  {
    var l := LStrip(s);
    var r := RStrip(l);
    StripFacts(s, l, r);
    r
  }

  /** The stripped string is the slice of `s` between a whitespace prefix and
      a whitespace suffix. */
  lemma StripFacts(s: string, l: string, r: string)
    requires l == LStrip(s) && r == RStrip(l)
    ensures exists a, b :: 0 <= a <= b <= |s| && r == s[a..b] && AllSpace(s[..a]) && AllSpace(s[b..])
    ensures forall i :: 0 <= i < |r| ==> r[i] in s
    ensures r == [] <==> AllSpace(s)
  {
    var a := |s| - |l|;
    StripSlice(s, l, r, a);
    forall i | 0 <= i < |r| ensures r[i] in s {
      assert r[i] == s[a + i];
    }
    if r == [] {
      assert l[|r|..] == l;
      assert l == [];
      assert s[..a] == s;
    } else {
      assert r[0] == l[0] == s[a];
      assert !IsSpace(s[a]);
    }
  }

  lemma StripSlice(s: string, l: string, r: string, a: nat)
    requires a <= |s| && l == s[a..] && AllSpace(s[..a])
    requires |r| <= |l| && r == l[..|r|] && AllSpace(l[|r|..])
    ensures a + |r| <= |s| && r == s[a..a + |r|] && AllSpace(s[a + |r|..])
  {
    assert s[a + |r|..] == l[|r|..];
  }

  function LowerChar(c: char): char {
    if 'A' <= c <= 'Z' then (c as int + 32) as char else c
  }

  /** `s.lower()`, for the ASCII letters: no upper-case letter is left and
      every other character stays where it was. */
  function Lower(s: string): (r: string)
    ensures |r| == |s|
    ensures forall i :: 0 <= i < |r| ==> !('A' <= r[i] <= 'Z')
    ensures forall i :: 0 <= i < |s| && !('A' <= s[i] <= 'Z') ==> r[i] == s[i]
  {
    seq(|s|, i requires 0 <= i < |s| => LowerChar(s[i]))
  }

  /** `s.endswith(suffix)`. */
  predicate EndsWith(s: string, suffix: string) {
    |suffix| <= |s| && s[|s| - |suffix|..] == suffix
  }

  /** `p in s` for strings. */
  predicate IsSubstring(p: string, s: string) {
    p <= s || (|s| > 0 && IsSubstring(p, s[1..]))
  }

  /** `p` occurs in `s` starting at offset `i`. */
  predicate OccursAt(p: string, s: string, i: int) {
    0 <= i <= |s| - |p| && s[i..i + |p|] == p
  }

  /** `p in s` holds exactly when `p` occurs in `s` at some offset. */
  lemma {:induction false} IsSubstringAt(p: string, s: string)
    ensures IsSubstring(p, s) <==> exists i :: OccursAt(p, s, i)
    decreases |s|
  {
    if p <= s {
      assert OccursAt(p, s, 0);
    } else if |s| > 0 {
      IsSubstringAt(p, s[1..]);
      if IsSubstring(p, s[1..]) {
        var i :| OccursAt(p, s[1..], i);
        assert s[1..][i..i + |p|] == s[i + 1..i + 1 + |p|];
        assert OccursAt(p, s, i + 1);
      }
      if exists i :: OccursAt(p, s, i) {
        var i :| OccursAt(p, s, i);
        assert i > 0;
        assert s[1..][i - 1..i - 1 + |p|] == s[i..i + |p|];
        assert OccursAt(p, s[1..], i - 1);
      }
    }
  }

  /** The length of the Python slice `s[:k]` for a sequence of length `n`. */
  function SliceLen(n: nat, k: int): (m: nat)
    ensures m <= n
    ensures 0 <= k ==> m <= k
  {
    if k >= 0 then (if k < n then k else n)
    else if n + k > 0 then n + k else 0
  }

  /** `s[:k]`; a negative `k` counts from the end, as in Python. */
  function SliceTo<T>(s: seq<T>, k: int): (r: seq<T>)
    ensures 0 <= k ==> |r| == (if k < |s| then k else |s|)
    ensures k < 0 ==> |r| == (if |s| + k > 0 then |s| + k else 0)
    ensures r == s[..|r|]
  {
    s[..SliceLen(|s|, k)]
  }

  /** `s[i:j]` for non-negative bounds: both are clipped to the length, and a
      stop before the start gives the empty slice. */
  function Slice<T>(s: seq<T>, i: nat, j: nat): (r: seq<T>)
    ensures i <= j <= |s| ==> r == s[i..j]
    ensures |r| <= |s|
  {
    var lo := if i < |s| then i else |s|;
    var hi := if j < |s| then j else |s|;
    if hi <= lo then [] else s[lo..hi]
  }

  /** Python's `a // b`: the quotient rounded towards minus infinity. */
  function FloorDiv(a: int, b: int): (q: int)
    requires b != 0
    ensures b > 0 ==> q * b <= a < q * b + b
    ensures b > 0 && a >= 0 ==> q >= 0
    ensures b < 0 ==> q * b >= a > q * b + b
  {
    if b > 0 then a / b else (-a) / (-b)
  }

  /** The list comprehension `[x for x in s if p(x)]`. */
  function Filter<T>(s: seq<T>, p: T -> bool): (r: seq<T>)
    ensures |r| <= |s|
    ensures forall i :: 0 <= i < |r| ==> r[i] in s && p(r[i])
    ensures forall i :: 0 <= i < |s| && p(s[i]) ==> s[i] in r
  {
    if |s| == 0 then []
    else (if p(s[0]) then [s[0]] else []) + Filter(s[1..], p)
  }

  /** `a` is `b` with some elements removed, the rest kept in order. */
  predicate IsSubsequence<T(==)>(a: seq<T>, b: seq<T>)
    decreases |b|
  {
    |a| == 0 || (|b| > 0 && ((a[0] == b[0] && IsSubsequence(a[1..], b[1..])) || IsSubsequence(a, b[1..])))
  }

  /** A filtered list is a subsequence of the original one. */
  lemma {:induction false} FilterIsSubsequence<T>(s: seq<T>, p: T -> bool)
    ensures IsSubsequence(Filter(s, p), s)
  {
    if |s| > 0 {
      FilterIsSubsequence(s[1..], p);
      var f := Filter(s, p);
      if p(s[0]) {
        assert f[0] == s[0] && f[1..] == Filter(s[1..], p);
      } else {
        assert f == Filter(s[1..], p);
        if |f| > 0 {
          assert IsSubsequence(f, s[1..]);
        }
      }
    }
  }

  /** A prefix of a subsequence is a subsequence. */
  lemma {:induction false} PrefixSubsequence<T>(a: seq<T>, b: seq<T>, k: nat)
    requires IsSubsequence(a, b) && k <= |a|
    ensures IsSubsequence(a[..k], b)
    decreases |b|
  {
    if k > 0 {
      if a[0] == b[0] && IsSubsequence(a[1..], b[1..]) {
        PrefixSubsequence(a[1..], b[1..], k - 1);
        assert a[..k][1..] == a[1..][..k - 1];
      } else {
        PrefixSubsequence(a, b[1..], k);
      }
    }
  }

  /** Filtering twice is filtering once by both tests. */
  lemma {:induction false} FilterFilter<T>(s: seq<T>, p: T -> bool, q: T -> bool, both: T -> bool)
    requires forall x :: both(x) == (p(x) && q(x))
    ensures Filter(Filter(s, p), q) == Filter(s, both)
  {
    if |s| > 0 {
      FilterFilter(s[1..], p, q, both);
      if p(s[0]) {
        var f := Filter(s, p);
        assert f == [s[0]] + Filter(s[1..], p);
        assert f[0] == s[0] && f[1..] == Filter(s[1..], p);
        assert Filter(f, q) == (if q(s[0]) then [s[0]] else []) + Filter(f[1..], q);
      } else {
        assert Filter(s, p) == Filter(s[1..], p);
      }
    }
  }

  /** Filtering a list extended by one element extends the filtered list by
      that element when it passes. */
  lemma {:induction false} FilterSnoc<T>(s: seq<T>, x: T, p: T -> bool)
    ensures Filter(s + [x], p) == Filter(s, p) + (if p(x) then [x] else [])
    decreases |s|
  {
    if |s| == 0 {
      assert s + [x] == [x] && [x][1..] == [];
      assert (if p(x) then [x] else []) + [] == (if p(x) then [x] else []);
    } else {
      assert (s + [x])[0] == s[0] && (s + [x])[1..] == s[1..] + [x];
      FilterSnoc(s[1..], x, p);
      AppendAssoc(if p(s[0]) then [s[0]] else [], Filter(s[1..], p), if p(x) then [x] else []);
    }
  }
}
