/** Small facts about strings used by the error messages and the serialiser. */
module Strings {
  import opened Wrappers

  predicate StartsWith(s: string, prefix: string) {
    |prefix| <= |s| && s[..|prefix|] == prefix
  }

  predicate EndsWith(s: string, suffix: string) {
    |suffix| <= |s| && s[|s| - |suffix|..] == suffix
  }

  /** Python's `sub in s` for strings. */
  predicate Contains(s: string, sub: string) {
    exists i, j :: 0 <= i <= j <= |s| && s[i..j] == sub
  }

  lemma ContainsInfix(a: string, b: string, c: string)
    ensures Contains(a + b + c, b)
  {
    assert (a + b + c)[|a|..|a| + |b|] == b;
  }

  /** What one part of a string contains, the whole string contains. */
  lemma ContainsExtend(a: string, b: string, sub: string)
    requires Contains(a, sub) || Contains(b, sub)
    ensures Contains(a + b, sub)
  {
    if Contains(a, sub) {
      var i, j :| 0 <= i <= j <= |a| && a[i..j] == sub;
      assert (a + b)[i..j] == sub;
    } else {
      var i, j :| 0 <= i <= j <= |b| && b[i..j] == sub;
      assert (a + b)[|a| + i..|a| + j] == sub;
    }
  }

  /** A concatenation starts with its first part and ends with its second. */
  lemma ConcatParts(a: string, b: string)
    ensures StartsWith(a + b, a) && EndsWith(a + b, b)
  {
    assert (a + b)[..|a|] == a;
    assert (a + b)[|a|..] == b;
  }

  lemma StartsWithTransitive(s: string, a: string, b: string)
    requires StartsWith(s, a) && StartsWith(a, b)
    ensures StartsWith(s, b)
  {
    assert s[..|b|] == s[..|a|][..|b|];
  }

  lemma StartsWithAppend(a: string, b: string, c: string)
    requires StartsWith(b, c)
    ensures StartsWith(a + b, a + c)
  {
    assert (a + b)[..|a + c|] == a + b[..|c|];
  }

  /** A string that starts with `p`, then `f`, then `c`, with no `c` in `f`, splits back into `f`. */
  lemma ReadBackAfter(s: string, p: string, f: string, c: char)
    requires StartsWith(s, p + f + [c]) && c !in f
    ensures StartsWith(s, p)
    ensures TakeUntil(s[|p|..], c) == Some(f)
  {
    var rest := s[|p| + |f| + 1..];
    assert s[..|p|] == (p + f + [c])[..|p|] == p;
    assert s[|p|..] == f + [c] + rest by {
      assert s == (p + f + [c]) + rest;
      assert (p + f + [c]) + rest == p + (f + [c] + rest);
    }
    TakeUntilSplits(f, c, rest);
  }

  /** Python's `sep.join(parts)`. */
  function Join(sep: string, parts: seq<string>): string {
    if |parts| == 0 then ""
    else if |parts| == 1 then parts[0]
    else parts[0] + sep + Join(sep, parts[1..])
  }

  /** The prefix of `s` before the first occurrence of `c`, or None when `c` does not occur. */
  function TakeUntil(s: string, c: char): (r: Option<string>)
    ensures r.Some? ==> |r.value| < |s| && s[..|r.value|] == r.value && s[|r.value|] == c
    ensures r.Some? ==> c !in r.value
    ensures r.None? <==> c !in s
  {
    if |s| == 0 then None
    else if s[0] == c then Some("")
    else match TakeUntil(s[1..], c)
      case None => None
      case Some(rest) => Some([s[0]] + rest)
  }

  /** Splitting at the first `c` recovers a prefix that does not contain `c`. */
  lemma {:induction false} TakeUntilSplits(a: string, c: char, b: string)
    requires c !in a
    ensures TakeUntil(a + [c] + b, c) == Some(a)
  {
    if |a| > 0 {
      var s := a + [c] + b;
      assert s[0] == a[0] && s[0] != c;
      assert s[1..] == a[1..] + [c] + b;
      TakeUntilSplits(a[1..], c, b);
      assert a == [a[0]] + a[1..];
    } else {
      assert (a + [c] + b)[0] == c;
    }
  }
}
