/**
 * Character-level text helpers of the converter: stripping control characters
 * from a cell, and the pieces of `str.split(sep)` that the converter uses
 * (the first segment, the last segment, the position of the last separator).
 */
module Strings {

  /** A character removed by the escape sanitiser: code points 1 to 31 (code point 0 is kept). */
  predicate IsEscape(c: char) {
    1 <= c as int <= 31
  }

  predicate EscapeFree(s: string) {
    forall k :: 0 <= k < |s| ==> !IsEscape(s[k])
  }

  /** `replace_escapes`: deletes every character with code point 1..31. */
  function ReplaceEscapes(text: string): (r: string)
    ensures |r| <= |text|
    ensures EscapeFree(r)
  {
    if text == [] then []
    else (if IsEscape(text[0]) then [] else [text[0]]) + ReplaceEscapes(text[1..])
  }

  /** Stripping distributes over concatenation, so the kept characters stay in their order. */
  lemma {:induction false} ReplaceEscapesConcat(a: string, b: string)
    ensures ReplaceEscapes(a + b) == ReplaceEscapes(a) + ReplaceEscapes(b)
  {
    if a == [] {
      assert a + b == b;
    } else {
      assert (a + b)[1..] == a[1..] + b;
      ReplaceEscapesConcat(a[1..], b);
    }
  }

  /** A string is left unchanged exactly when it holds no escape character. */
  lemma {:induction false} ReplaceEscapesFixpoint(s: string)
    ensures ReplaceEscapes(s) == s <==> EscapeFree(s)
  {
    if s != [] && EscapeFree(s) {
      assert EscapeFree(s[1..]) by {
        forall k | 0 <= k < |s[1..]| ensures !IsEscape(s[1..][k]) {
          assert s[1..][k] == s[k + 1];
        }
      }
      ReplaceEscapesFixpoint(s[1..]);
      assert [s[0]] + s[1..] == s;
    }
  }

  /** Applying the sanitiser twice is the same as applying it once. */
  lemma {:induction false} ReplaceEscapesIdempotent(s: string)
    ensures ReplaceEscapes(ReplaceEscapes(s)) == ReplaceEscapes(s)
  {
    ReplaceEscapesFixpoint(ReplaceEscapes(s));
  }

  /** Every escape character disappears and every other character (code point 0 included) is kept as often as it occurs. */
  lemma {:induction false} ReplaceEscapesCounts(s: string, c: char)
    ensures multiset(ReplaceEscapes(s))[c] == if IsEscape(c) then 0 else multiset(s)[c]
  {
    if s != [] {
      ReplaceEscapesCounts(s[1..], c);
      assert s == [s[0]] + s[1..];
      assert multiset(s) == multiset([s[0]]) + multiset(s[1..]);
    }
  }

  /** `s.split(sep)[0]`: the text before the first `sep`, or all of `s` when there is none. */
  function BeforeFirst(s: string, sep: char): (r: string)
    ensures r <= s
    ensures sep !in r
    ensures r == s || s[|r|] == sep
  {
    if s == [] || s[0] == sep then []
    else [s[0]] + BeforeFirst(s[1..], sep)
  }

  /** The three facts above determine the first segment: any prefix with them is it. */
  lemma BeforeFirstUnique(s: string, sep: char, p: string)
    requires p <= s && sep !in p
    requires p == s || s[|p|] == sep
    ensures p == BeforeFirst(s, sep)
  {
    var r := BeforeFirst(s, sep);
    assert |p| == |r|;
    assert p == s[..|p|] && r == s[..|r|];
  }

  /** Taking the first segment again changes nothing. */
  lemma BeforeFirstIdempotent(s: string, sep: char)
    ensures BeforeFirst(BeforeFirst(s, sep), sep) == BeforeFirst(s, sep)
  {
    var r := BeforeFirst(s, sep);
    BeforeFirstUnique(r, sep, r);
  }

  /** `"12.0".split('.')[0] == "12"` and `"12"` passes through unchanged. */
  lemma BeforeFirstDotExamples()
    ensures BeforeFirst("12.0", '.') == "12"
    ensures BeforeFirst("12", '.') == "12"
  {
    BeforeFirstUnique("12.0", '.', "12");
    BeforeFirstUnique("12", '.', "12");
  }

  /** The index of the last `sep` among the first `n` characters of `s`, or -1 when there is none. */
  function LastIndexBelow(s: string, sep: char, n: nat): (i: int)
    requires n <= |s|
    ensures -1 <= i < n
  {
    if n == 0 then -1
    else if s[n - 1] == sep then n - 1
    else LastIndexBelow(s, sep, n - 1)
  }

  /** `s.rfind(sep)`: the index of the last `sep`, or -1 when there is none. */
  function LastIndex(s: string, sep: char): (i: int)
    ensures -1 <= i < |s|
  {
    LastIndexBelow(s, sep, |s|)
  }

  /** The index found below `n` holds `sep`, and no later index below `n` does. */
  lemma {:induction false} LastIndexBelowSpec(s: string, sep: char, n: nat)
    requires n <= |s|
    ensures var i := LastIndexBelow(s, sep, n);
      (0 <= i ==> s[i] == sep) && forall k :: i < k < n ==> s[k] != sep
  {
    if n > 0 && s[n - 1] != sep {
      LastIndexBelowSpec(s, sep, n - 1);
    }
  }

  /** The index found holds `sep`, and no later index does. */
  lemma LastIndexSpec(s: string, sep: char)
    ensures var i := LastIndex(s, sep);
      (0 <= i ==> s[i] == sep) && forall k :: i < k < |s| ==> s[k] != sep
  {
    LastIndexBelowSpec(s, sep, |s|);
  }

  /** The last `sep` of `s + [sep] + t`, where `t` holds no `sep`, is the one between them. */
  lemma LastIndexAppend(s: string, sep: char, t: string)
    requires sep !in t
    ensures LastIndex(s + [sep] + t, sep) == |s|
  {
    var w := s + [sep] + t;
    var i := LastIndex(w, sep);
    assert w[|s|] == sep;
    assert forall k :: |s| < k < |w| ==> w[k] != sep by {
      forall k | |s| < k < |w| ensures w[k] != sep {
        assert w[k] == t[k - |s| - 1];
      }
    }
    assert i == |s| by {
      LastIndexSpec(w, sep);
    }
  }

  /** `s.split(sep)[-1]`: the text after the last `sep`, or all of `s` when there is none. */
  function AfterLast(s: string, sep: char): string {
    s[LastIndex(s, sep) + 1..]
  }

  /** The last segment is a suffix without `sep`, and it is all of `s` or follows a `sep`. */
  lemma AfterLastSpec(s: string, sep: char)
    ensures var r := AfterLast(s, sep);
      && |r| <= |s| && r == s[|s| - |r|..]
      && sep !in r
      && (r == s || s[|s| - |r| - 1] == sep)
  {
    LastIndexSpec(s, sep);
  }

  /** The three facts above determine the last segment: any suffix with them is it. */
  lemma AfterLastUnique(s: string, sep: char, q: string)
    requires |q| <= |s| && q == s[|s| - |q|..] && sep !in q
    requires q == s || s[|s| - |q| - 1] == sep
    ensures q == AfterLast(s, sep)
  {
    AfterLastSpec(s, sep);
    var r := AfterLast(s, sep);
    assert |q| == |r|;
  }

  /** A string without `sep` is its own last segment. */
  lemma AfterLastNoSep(s: string, sep: char)
    requires sep !in s
    ensures AfterLast(s, sep) == s
  {
    AfterLastUnique(s, sep, s);
  }

  /** Appending `sep + t`, where `t` holds no `sep`, makes `t` the last segment. */
  lemma AfterLastAppend(s: string, sep: char, t: string)
    requires sep !in t
    ensures AfterLast(s + [sep] + t, sep) == t
  {
    var w := s + [sep] + t;
    assert w[|w| - |t|..] == t;
    assert w[|w| - |t| - 1] == sep;
    AfterLastUnique(w, sep, t);
  }
}
