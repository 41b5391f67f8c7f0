/**
 * The JavaScript string operations the response parser relies on:
 * `indexOf`, `substring`, `trim` and `toLowerCase`, together with the
 * character classes `\s` and `\w` of JavaScript regular expressions.
 *
 * A string is a sequence of characters. JavaScript counts UTF-16 code
 * units where this model counts Unicode scalar values. The parser cuts
 * the response only at ASCII markers and fences and at white space, each
 * of these characters a single code unit, and compares positions with
 * each other, so both ways of counting give the same cuts. A
 * JavaScript string holding an unpaired surrogate has no counterpart here.
 */
module JsStrings {

  /** The characters `String.prototype.trim` removes and the regex class `\s` matches:
      ECMAScript's WhiteSpace and LineTerminator code points. */
  predicate IsSpace(c: char) {
    c == '\t' || c == '\n' || c == '\U{000B}' || c == '\U{000C}' || c == '\r' || c == ' ' ||
    c == '\U{00A0}' || c == '\U{1680}' || ('\U{2000}' <= c <= '\U{200A}') ||
    c == '\U{2028}' || c == '\U{2029}' || c == '\U{202F}' || c == '\U{205F}' ||
    c == '\U{3000}' || c == '\U{FEFF}'
  }

  /** The regex class `\w` without the `u` and `i` flags: `[A-Za-z0-9_]`. */
  predicate IsWordChar(c: char) {
    ('a' <= c <= 'z') || ('A' <= c <= 'Z') || ('0' <= c <= '9') || c == '_'
  }

  /** Every character of s[lo..hi] satisfies p. */
  predicate Span(s: string, lo: int, hi: int, p: char -> bool)
    requires 0 <= lo <= hi <= |s|
  {
    forall k :: lo <= k < hi ==> p(s[k])
  }

  /** Every character of s is white space. */
  predicate Blank(s: string) {
    forall k :: 0 <= k < |s| ==> IsSpace(s[k])
  }

  /** pat occurs in s starting at position k. */
  predicate OccursAt(s: string, pat: string, k: int) {
    0 <= k && k + |pat| <= |s| && s[k..k + |pat|] == pat
  }

  /** The end of the longest run of characters satisfying p that starts at `from`. */
  function RunEnd(s: string, from: nat, p: char -> bool): (e: nat)
    requires from <= |s|
    ensures from <= e <= |s| && Span(s, from, e, p)
    ensures e < |s| ==> !p(s[e])
    decreases |s| - from
  {
    if from < |s| && p(s[from]) then RunEnd(s, from + 1, p) else from
  }

  /** `s.indexOf(pat, from)`: the first position at or after `from` where pat occurs, or -1. */
  function IndexOfFrom(s: string, pat: string, from: nat): (r: int)
    ensures r == -1 || (from <= r && OccursAt(s, pat, r))
    ensures forall k :: from <= k && (r == -1 || k < r) ==> !OccursAt(s, pat, k)
    decreases |s| - from
  {
    if from + |pat| > |s| then -1
    else if s[from..from + |pat|] == pat then from
    else IndexOfFrom(s, pat, from + 1)
  }

  /** `s.indexOf(pat)`: the first position where pat occurs, or -1. */
  function IndexOf(s: string, pat: string): (r: int)
    ensures r == -1 || OccursAt(s, pat, r)
    ensures forall k :: 0 <= k && (r == -1 || k < r) ==> !OccursAt(s, pat, k)
  {
    IndexOfFrom(s, pat, 0)
  }

  function Clamp(n: int, len: nat): (r: nat)
    ensures r <= len
  {
    if n < 0 then 0 else if n > len then len else n
  }

  /** `s.substring(start, end)`: both bounds are clamped to [0, |s|], and they are
      swapped when start exceeds end. */
  function Substring(s: string, start: int, end: int): (r: string)
    ensures 0 <= start <= end <= |s| ==> r == s[start..end]
    ensures 0 <= end <= start <= |s| ==> r == s[end..start]
  {
    var a, b := Clamp(start, |s|), Clamp(end, |s|);
    if a <= b then s[a..b] else s[b..a]
  }

  /** s without its leading white space. */
  function TrimStart(s: string): (r: string)
    ensures |r| <= |s| && r == s[|s| - |r|..]
    ensures Blank(s[..|s| - |r|])
    ensures r != [] ==> !IsSpace(r[0])
  {
    if s != [] && IsSpace(s[0]) then
      var r := TrimStart(s[1..]);
      assert s[1..][..|s| - 1 - |r|] == s[1..|s| - |r|];
      assert s[1..][|s| - 1 - |r|..] == s[|s| - |r|..];
      r
    else s
  }

  /** s without its trailing white space. */
  function TrimEnd(s: string): (r: string)
    ensures |r| <= |s| && r == s[..|r|]
    ensures Blank(s[|r|..])
    ensures r != [] ==> !IsSpace(r[|r| - 1])
  {
    if s != [] && IsSpace(s[|s| - 1]) then
      var r := TrimEnd(s[..|s| - 1]);
      assert s[..|s| - 1][|r|..] == s[|r|..|s| - 1];
      assert Blank(s[|r|..]) by {
        forall j | 0 <= j < |s| - |r| ensures IsSpace(s[|r|..][j]) {
          if j < |s| - 1 - |r| {
            assert s[|r|..][j] == s[..|s| - 1][|r|..][j];
          }
        }
      }
      r
    else s
  }

  /** `s.trim()`: s without its leading and trailing white space. */
  function Trim(s: string): (r: string)
    ensures |r| <= |s|
    ensures r == [] <==> Blank(s)
    ensures r != [] ==> !IsSpace(r[0]) && !IsSpace(r[|r| - 1])
  {
    TrimEnd(TrimStart(s))
  }

  /** TrimStart removes exactly the blank prefix before the first non-white-space character. */
  lemma TrimStartAt(s: string, lo: nat)
    requires lo < |s| && Span(s, 0, lo, IsSpace) && !IsSpace(s[lo])
    ensures TrimStart(s) == s[lo..]
  {
    var t := TrimStart(s);
    var n := |s| - |t|;
    forall j | 0 <= j < n ensures IsSpace(s[j]) {
      assert s[..n][j] == s[j];
    }
    assert n < |s| ==> t[0] == s[n];
  }

  /** TrimEnd removes exactly the blank suffix after the last non-white-space character. */
  lemma TrimEndAt(s: string, hi: nat)
    requires 0 < hi <= |s| && Span(s, hi, |s|, IsSpace) && !IsSpace(s[hi - 1])
    ensures TrimEnd(s) == s[..hi]
  {
    var t := TrimEnd(s);
    forall j | |t| <= j < |s| ensures IsSpace(s[j]) {
      assert s[|t|..][j - |t|] == s[j];
    }
    assert 0 < |t| ==> t[|t| - 1] == s[|t| - 1];
  }

  /** TrimEnd of the text from lo removes exactly the blank suffix from hi. */
  lemma TrimEndFrom(s: string, lo: nat, hi: nat)
    requires lo < hi <= |s| && Span(s, hi, |s|, IsSpace) && !IsSpace(s[hi - 1])
    ensures TrimEnd(s[lo..]) == s[lo..hi]
  {
    var t := s[lo..];
    forall j | hi - lo <= j < |t| ensures IsSpace(t[j]) {
      assert t[j] == s[lo + j];
    }
    assert t[hi - lo - 1] == s[hi - 1];
    TrimEndAt(t, hi - lo);
    assert t[..hi - lo] == s[lo..hi];
  }

  /** Trim removes exactly the blank prefix and the blank suffix around the first
      and the last non-white-space character. */
  lemma TrimBetween(s: string, lo: nat, hi: nat)
    requires lo < hi <= |s|
    requires Span(s, 0, lo, IsSpace) && Span(s, hi, |s|, IsSpace)
    requires !IsSpace(s[lo]) && !IsSpace(s[hi - 1])
    ensures Trim(s) == s[lo..hi]
  {
    TrimStartAt(s, lo);
    TrimEndFrom(s, lo, hi);
  }

  /** Trim removes blank padding around a text that starts and ends with
      non-white-space. */
  lemma TrimPadded(pre: string, body: string, post: string)
    requires Blank(pre) && Blank(post)
    requires body != [] && !IsSpace(body[0]) && !IsSpace(body[|body| - 1])
    ensures Trim(pre + body + post) == body
  {
    var s := pre + body + post;
    var lo, hi := |pre|, |pre| + |body|;
    assert s[lo] == body[0] && s[hi - 1] == body[|body| - 1];
    assert s[lo..hi] == body;
    TrimBetween(s, lo, hi);
  }

  /** The ASCII part of `toLowerCase` on one character. */
  function LowerChar(c: char): char {
    if 'A' <= c <= 'Z' then (c as int - 'A' as int + 'a' as int) as char else c
  }

  /** `s.toLowerCase()`, on ASCII letters. */
  function ToLower(s: string): (r: string)
    ensures |r| == |s|
    ensures forall k :: 0 <= k < |s| ==> r[k] == LowerChar(s[k])
  {
    if s == [] then [] else [LowerChar(s[0])] + ToLower(s[1..])
  }
}
