/** The few JavaScript string operations the loader relies on. */
module Strings {
  import opened Wrappers

  /** `p` is a prefix of `s` (JavaScript `s.startsWith(p)`). */
  predicate IsPrefix<T(==)>(p: seq<T>, s: seq<T>) {
    |p| <= |s| && s[..|p|] == p
  }

  lemma PrefixOfAppend<T>(p: seq<T>, s: seq<T>)
    ensures IsPrefix(p, p + s)
  {
    assert (p + s)[..|p|] == p;
  }

  /** `pat` occurs in `s` starting at index `j`. */
  predicate OccursAt<T(==)>(s: seq<T>, pat: seq<T>, j: int) {
    0 <= j && j + |pat| <= |s| && s[j..j + |pat|] == pat
  }

  lemma OccursAtTail<T>(s: seq<T>, pat: seq<T>, j: int)
    requires s != [] && 0 <= j
    ensures OccursAt(s, pat, j + 1) <==> OccursAt(s[1..], pat, j)
  {
    if 0 <= j && j + 1 + |pat| <= |s| {
      assert s[1..][j..j + |pat|] == s[j + 1..j + 1 + |pat|];
    }
  }

  /** The first index at which `pat` occurs in `s` (JavaScript `s.indexOf(pat)`), or None for -1. */
  function IndexOf<T(==)>(s: seq<T>, pat: seq<T>): (r: Option<nat>)
    ensures r.Some? ==> OccursAt(s, pat, r.value)
    ensures r.Some? ==> forall j :: 0 <= j < r.value ==> !OccursAt(s, pat, j)
    ensures r.None? ==> forall j :: !OccursAt(s, pat, j)
    decreases |s|
  {
    if IsPrefix(pat, s) then
      assert s[0..|pat|] == s[..|pat|];
      Some(0)
    else if s == [] then None
    else
      var t := IndexOf(s[1..], pat);
      assert !OccursAt(s, pat, 0) by {
        if |pat| <= |s| { assert s[0..|pat|] == s[..|pat|]; }
      }
      forall j | 1 <= j
        ensures OccursAt(s, pat, j) <==> OccursAt(s[1..], pat, j - 1)
      {
        OccursAtTail(s, pat, j - 1);
      }
      match t
      case Some(k) => Some(k + 1)
      case None => None
  }

  /** JavaScript `s.includes(pat)`. */
  predicate Contains<T(==)>(s: seq<T>, pat: seq<T>) {
    IndexOf(s, pat).Some?
  }

  /** `s.includes(pat)` holds exactly when `pat` occurs somewhere in `s`. */
  lemma ContainsIff<T>(s: seq<T>, pat: seq<T>, j: int)
    ensures OccursAt(s, pat, j) ==> Contains(s, pat)
    ensures Contains(s, pat) ==> OccursAt(s, pat, IndexOf(s, pat).value)
  {
  }

  /** An occurrence in `s` is still an occurrence, shifted, once `p` is put in front. */
  lemma OccursAfterPrefix<T>(p: seq<T>, s: seq<T>, pat: seq<T>, j: int)
    requires OccursAt(s, pat, j)
    ensures OccursAt(p + s, pat, |p| + j)
  {
    assert (p + s)[|p| + j..|p| + j + |pat|] == s[j..j + |pat|];
  }

  /** An occurrence in `p + s` that starts at or after `|p|` is an occurrence in `s`. */
  lemma OccursPastPrefix<T>(p: seq<T>, s: seq<T>, pat: seq<T>, j: int)
    requires OccursAt(p + s, pat, j) && j >= |p|
    ensures OccursAt(s, pat, j - |p|)
  {
    assert (p + s)[j..j + |pat|] == s[j - |p|..j - |p| + |pat|];
  }

  /** JavaScript `s.replace(pat, '')` with a string pattern: only the FIRST occurrence is removed. */
  function RemoveFirst<T(==)>(s: seq<T>, pat: seq<T>): (r: seq<T>)
    ensures !Contains(s, pat) ==> r == s
    ensures Contains(s, pat) ==> |r| == |s| - |pat|
    ensures Contains(s, pat) ==>
      var i := IndexOf(s, pat).value;
      i <= |r| && s == r[..i] + pat + r[i..]
  {
    match IndexOf(s, pat)
    case None => s
    case Some(i) =>
      var r := s[..i] + s[i + |pat|..];
      assert r[..i] == s[..i] && r[i..] == s[i + |pat|..];
      assert s == s[..i] + s[i..i + |pat|] + s[i + |pat|..];
      r
  }

  /** `s` ends with `suffix` (JavaScript `s.endsWith(suffix)`). */
  predicate IsSuffix<T(==)>(suffix: seq<T>, s: seq<T>) {
    |suffix| <= |s| && s[|s| - |suffix|..] == suffix
  }

  /** JavaScript `s.replace(/<suffix>$/, '')`: drops the suffix when present. */
  function RemoveSuffix<T(==)>(s: seq<T>, suffix: seq<T>): (r: seq<T>)
    ensures IsSuffix(suffix, s) ==> r + suffix == s
    ensures !IsSuffix(suffix, s) ==> r == s
  {
    if IsSuffix(suffix, s) then s[..|s| - |suffix|] else s
  }

  /** JavaScript `xs.join(sep)`. */
  function Join<T>(xs: seq<seq<T>>, sep: seq<T>): seq<T>
  {
    if |xs| == 0 then []
    else if |xs| == 1 then xs[0]
    else xs[0] + sep + Join(xs[1..], sep)
  }

  /** How many times `x` occurs in `s`. */
  function Count<T(==)>(s: seq<T>, x: T): nat
  {
    if s == [] then 0 else (if s[0] == x then 1 else 0) + Count(s[1..], x)
  }

  lemma CountConcat<T>(a: seq<T>, b: seq<T>, x: T)
    ensures Count(a + b, x) == Count(a, x) + Count(b, x)
  {
    if a == [] {
      assert a + b == b;
    } else {
      assert (a + b)[0] == a[0];
      assert (a + b)[1..] == a[1..] + b;
      CountConcat(a[1..], b, x);
      assert Count(a + b, x) == (if a[0] == x then 1 else 0) + Count(a[1..] + b, x);
    }
  }
}
