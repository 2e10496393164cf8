/** The string operations the message handler relies on, written out as the
    ECMAScript library defines them: `replace` with a literal pattern (first
    occurrence only), `trim`, `toLowerCase` (restricted to ASCII letters),
    `startsWith` and `slice`. Strings are sequences of characters. */
module Text {
  import opened Wrappers

  function Min(a: int, b: int): int { if a <= b then a else b }

  /** ECMAScript WhiteSpace and LineTerminator code points: exactly what
      `trim` removes and what `\s` matches in a regular expression. */
  predicate IsSpace(c: char) {
    || c == '\t' || c == '\n' || c == '\U{000B}' || c == '\U{000C}' || c == '\r'
    || c == ' ' || c == '\U{00A0}' || c == '\U{1680}' || '\U{2000}' <= c <= '\U{200A}'
    || c == '\U{2028}' || c == '\U{2029}' || c == '\U{202F}' || c == '\U{205F}'
    || c == '\U{3000}' || c == '\U{FEFF}'
  }

  predicate AllSpace(s: string) {
    forall i :: 0 <= i < |s| ==> IsSpace(s[i])
  }

  predicate StartsWith<T(==)>(s: seq<T>, prefix: seq<T>) {
    |prefix| <= |s| && s[..|prefix|] == prefix
  }

  predicate IsSuffix<T(==)>(a: seq<T>, b: seq<T>) {
    |a| <= |b| && a == b[|b| - |a|..]
  }

  lemma SuffixTransitive<T>(a: seq<T>, b: seq<T>, c: seq<T>)
    requires IsSuffix(a, b) && IsSuffix(b, c)
    ensures IsSuffix(a, c)
  {
    assert b[|b| - |a|..] == c[|c| - |b|..][|b| - |a|..];
  }

  lemma SuffixAppendRight<T>(a: seq<T>, b: seq<T>, x: seq<T>)
    requires IsSuffix(a, b)
    ensures IsSuffix(a + x, b + x)
  {
    assert (b + x)[|b + x| - |a + x|..] == b[|b| - |a|..] + x;
  }

  // ---------------------------------------------------------------------
  // Case folding

  /** `toLowerCase` on one character, for the ASCII letters. */
  function LowerChar(c: char): (d: char)
    ensures !('A' <= d <= 'Z')
    ensures 'A' <= c <= 'Z' ==> 'a' <= d <= 'z' && d as int == c as int + 32
    ensures !('A' <= c <= 'Z') ==> d == c
  {
    if 'A' <= c <= 'Z' then (c as int + 32) as char else c
  }

  /** `toLowerCase`: every character folded, length unchanged. */
  function ToLower(s: string): (r: string)
    ensures |r| == |s|
    ensures forall i :: 0 <= i < |s| ==> r[i] == LowerChar(s[i])
  {
    seq(|s|, i requires 0 <= i < |s| => LowerChar(s[i]))
  }

  /** Folding commutes with taking a prefix. */
  lemma ToLowerPrefix(s: string, k: nat)
    requires k <= |s|
    ensures ToLower(s)[..k] == ToLower(s[..k])
  {
  }

  // ---------------------------------------------------------------------
  // First occurrence of a literal pattern

  predicate MatchesAt(s: string, pat: string, i: nat) {
    i + |pat| <= |s| && s[i..i + |pat|] == pat
  }

  predicate NoMatch(s: string, pat: string) {
    forall i: nat :: i <= |s| ==> !MatchesAt(s, pat, i)
  }

  /** `i` is where `indexOf` finds `pat` in `s`: a match with none before it. */
  predicate FirstMatchAt(s: string, pat: string, i: nat) {
    MatchesAt(s, pat, i) && forall j: nat :: j < i ==> !MatchesAt(s, pat, j)
  }

  /** The first index at or after `from` where `pat` occurs. */
  function FindFrom(s: string, pat: string, from: nat): (r: Option<nat>)
    requires from <= |s|
    ensures r.Some? ==> from <= r.value && MatchesAt(s, pat, r.value)
    ensures r.Some? ==> forall j: nat :: from <= j < r.value ==> !MatchesAt(s, pat, j)
    ensures r.None? ==> forall j: nat :: from <= j <= |s| ==> !MatchesAt(s, pat, j)
    decreases |s| - from
  {
    if MatchesAt(s, pat, from) then Some(from)
    else if from == |s| then None
    else FindFrom(s, pat, from + 1)
  }

  /** `s.replace(pat, "")` for a literal string `pat`: the first occurrence,
      if any, is cut out and the rest of `s` is kept in order. */
  function RemoveFirst(s: string, pat: string): (r: string)
    ensures |r| <= |s|
    ensures NoMatch(s, pat) ==> r == s
    ensures !NoMatch(s, pat) ==>
      exists i: nat :: FirstMatchAt(s, pat, i) && r == s[..i] + s[i + |pat|..]
  {
    match FindFrom(s, pat, 0)
    case None => s
    case Some(i) =>
      assert FirstMatchAt(s, pat, i);
      s[..i] + s[i + |pat|..]
  }

  // ---------------------------------------------------------------------
  // Trimming

  /** Drops the leading whitespace run. */
  function TrimStart(s: string): (r: string)
    ensures IsSuffix(r, s)
    ensures r == [] || !IsSpace(r[0])
    ensures AllSpace(s[..|s| - |r|])
  {
    if s != [] && IsSpace(s[0]) then
      var r := TrimStart(s[1..]);
      assert s[..|s| - |r|] == [s[0]] + s[1..][..|s| - 1 - |r|];
      r
    else s
  }

  /** Drops the trailing whitespace run. */
  function TrimEnd(s: string): (r: string)
    ensures StartsWith(s, r)
    ensures r == [] || !IsSpace(r[|r| - 1])
    ensures AllSpace(s[|r|..])
  {
    if s != [] && IsSpace(s[|s| - 1]) then
      var r := TrimEnd(s[..|s| - 1]);
      assert s[|r|..] == s[..|s| - 1][|r|..] + [s[|s| - 1]];
      r
    else s
  }

  /** `r` is `s` without a whitespace run of length `i` before it and a
      whitespace run after it. */
  predicate TrimmedFrom(s: string, i: nat, r: string) {
    && i + |r| <= |s|
    && AllSpace(s[..i])
    && s[i..i + |r|] == r
    && AllSpace(s[i + |r|..])
  }

  /** `r` is `s` trimmed: the text between the leading and the trailing
      whitespace runs of `s`, so it neither starts nor ends with whitespace,
      and it is empty exactly when `s` is whitespace only. */
  predicate IsTrimOf(s: string, r: string) {
    && TrimmedFrom(s, |s| - |TrimStart(s)|, r)
    && (r == [] || (!IsSpace(r[0]) && !IsSpace(r[|r| - 1])))
    && (r == [] <==> AllSpace(s))
  }

  /** `trim`. */
  function Trim(s: string): (r: string)
    ensures IsTrimOf(s, r)
  {
    TrimSlice(s);
    TrimEmpty(s);
    TrimEnd(TrimStart(s))
  }

  lemma TrimSlice(s: string)
    ensures TrimmedFrom(s, |s| - |TrimStart(s)|, TrimEnd(TrimStart(s)))
  {
    var t := TrimStart(s);
    var r := TrimEnd(t);
    var i := |s| - |t|;
    SliceOfTail(s, t, r);
    assert AllSpace(s[..i]);
    assert s[i + |r|..] == t[|r|..];
    assert AllSpace(t[|r|..]);
  }

  /** Where a prefix `r` of a tail `t` of `s` sits in `s`. */
  lemma SliceOfTail(s: string, t: string, r: string)
    requires IsSuffix(t, s) && StartsWith(t, r)
    ensures s[|s| - |t|..|s| - |t| + |r|] == r
    ensures s[|s| - |t| + |r|..] == t[|r|..]
  {
  }

  lemma TrimEmpty(s: string)
    ensures TrimEnd(TrimStart(s)) == [] <==> AllSpace(s)
  {
    var t := TrimStart(s);
    var i := |s| - |t|;
    assert t == s[i..];
    if TrimEnd(t) == [] {
      assert s == s[..i] + t;
      AllSpaceConcat(s[..i], t);
    } else {
      assert t[0] == s[i];
    }
  }

  lemma AllSpaceConcat(a: string, b: string)
    requires AllSpace(a) && AllSpace(b)
    ensures AllSpace(a + b)
  {
    forall k | 0 <= k < |a + b| ensures IsSpace((a + b)[k]) {
      if k < |a| { assert (a + b)[k] == a[k]; } else { assert (a + b)[k] == b[k - |a|]; }
    }
  }
}
