/**
 * The two regular expressions of the response parser, each as a predicate
 * saying which (position, captures) the pattern can match with, and a
 * finder proved to return the match `String.prototype.match` reports: the
 * first one in the order a backtracking engine tries them.
 *
 *   start tag:  /<REVISED_CODE_START(?:\s+language="([^"]+)")?>/
 *   fence:      /```(\w*)\s*\n([\s\S]*?)\n```/m
 *
 * A backtracking engine tries start positions from left to right and, at a
 * position, the choices of its quantifiers one after another: a greedy
 * quantifier from the longest run down, a lazy one from the shortest up, and
 * an optional group before skipping it. The first complete match in that
 * order is the one reported.
 */
module Patterns {
  import opened Wrappers
  import opened JsStrings

  const StartTagHead := "<REVISED_CODE_START"
  const LanguageAttr := "language=\""
  const Fence := "```"
  const ClosingFence := "\n```"

  predicate NotQuote(c: char) { c != '"' }

  // ---------------------------------------------------------------------
  // The code start tag
  // ---------------------------------------------------------------------

  /** A match of the start tag: where it starts, how long the matched text is,
      and the capture of the language group (None when the group did not take part). */
  datatype TagMatch = TagMatch(index: nat, length: nat, language: Option<string>)

  function TagEnd(m: TagMatch): nat { m.index + m.length }

  /** The start-tag pattern matches s at m.index with matched text of m.length
      characters and language capture m.language. */
  predicate IsStartTagMatch(s: string, m: TagMatch) {
    var i, e := m.index, TagEnd(m);
    e <= |s| && OccursAt(s, StartTagHead, i) &&
    match m.language
    case None =>
      // `<REVISED_CODE_START>`
      m.length == |StartTagHead| + 1 && s[e - 1] == '>'
    case Some(v) =>
      // `<REVISED_CODE_START` \s+ `language="` [^"]+ `"` `>`
      var gap := m.length - |StartTagHead| - |LanguageAttr| - |v| - 2;
      var a := i + |StartTagHead| + gap;
      gap >= 1 && v != [] &&
      OccursAt(s, LanguageAttr, a) &&
      Span(s, i + |StartTagHead|, a, IsSpace) &&
      s[a + |LanguageAttr|..e - 2] == v &&
      Span(s, a + |LanguageAttr|, e - 2, NotQuote) &&
      s[e - 2] == '"' && s[e - 1] == '>'
  }

  /** The attempt of `\s+language="([^"]+)">` right after the tag head that ends at p. */
  function AttributeTagAt(s: string, i: nat, p: nat): (r: Option<TagMatch>)
    requires OccursAt(s, StartTagHead, i) && p == i + |StartTagHead|
    ensures r.Some? ==> r.value.index == i && IsStartTagMatch(s, r.value)
  {
    var a := RunEnd(s, p, IsSpace);
    if a > p && OccursAt(s, LanguageAttr, a) then
      var v0 := a + |LanguageAttr|;
      var v1 := RunEnd(s, v0, NotQuote);
      if v1 > v0 && v1 + 2 <= |s| && s[v1] == '"' && s[v1 + 1] == '>' then
        var m := TagMatch(i, v1 + 2 - i, Some(s[v0..v1]));
        assert TagEnd(m) - 2 == v1;
        assert m.length - |StartTagHead| - |LanguageAttr| - |s[v0..v1]| - 2 == a - p;
        Some(m)
      else None
    else None
  }

  /** The attempt of the start-tag pattern at position i: the attribute group
      first, then the plain tag. */
  function StartTagAt(s: string, i: nat): (r: Option<TagMatch>)
    ensures r.Some? ==> r.value.index == i && IsStartTagMatch(s, r.value)
  {
    if !OccursAt(s, StartTagHead, i) then None
    else
      var p := i + |StartTagHead|;
      var attr := AttributeTagAt(s, i, p);
      if attr.Some? then attr
      else if p < |s| && s[p] == '>' then Some(TagMatch(i, |StartTagHead| + 1, None))
      else None
  }

  /** A start-tag match with a language attribute is the one the attribute attempt finds. */
  lemma AttributeTagComplete(s: string, m: TagMatch)
    requires IsStartTagMatch(s, m) && m.language.Some?
    ensures AttributeTagAt(s, m.index, m.index + |StartTagHead|) == Some(m)
  {
    var v := m.language.value;
    var p := m.index + |StartTagHead|;
    var a' := p + (m.length - |StartTagHead| - |LanguageAttr| - |v| - 2);
    assert s[a'] == s[a'..a' + |LanguageAttr|][0] == 'l';
    var a := RunEnd(s, p, IsSpace);
    assert a == a';
    var e := TagEnd(m);
    assert !NotQuote(s[e - 2]);
    assert RunEnd(s, a + |LanguageAttr|, NotQuote) == e - 2;
  }

  /** At a given position the start-tag pattern can match in at most one way,
      and StartTagAt finds it. */
  lemma StartTagAtComplete(s: string, m: TagMatch)
    requires IsStartTagMatch(s, m)
    ensures StartTagAt(s, m.index) == Some(m)
  {
    var p := m.index + |StartTagHead|;
    if m.language.Some? {
      AttributeTagComplete(s, m);
    } else {
      assert !IsSpace(s[p]);
    }
  }

  /** The first start-tag match at or after position `from`. */
  function MatchStartTagFrom(s: string, from: nat): (r: Option<TagMatch>)
    ensures r.Some? ==> from <= r.value.index && IsStartTagMatch(s, r.value)
    ensures forall m :: IsStartTagMatch(s, m) && from <= m.index ==>
              r.Some? && r.value.index <= m.index
    decreases |s| + 1 - from
  {
    if from > |s| then
      None
    else
      var here := StartTagAt(s, from);
      if here.Some? then here
      else
        assert forall m :: IsStartTagMatch(s, m) ==> m.index != from by {
          forall m | IsStartTagMatch(s, m) ensures m.index != from {
            StartTagAtComplete(s, m);
          }
        }
        MatchStartTagFrom(s, from + 1)
  }

  /** `s.match(revisedCodeStartTagPattern)`: the leftmost start-tag match, or None when there is none. */
  function MatchStartTag(s: string): (r: Option<TagMatch>)
    ensures r.Some? ==> IsStartTagMatch(s, r.value)
    ensures r.Some? ==> forall m :: IsStartTagMatch(s, m) ==> r.value.index <= m.index
    ensures r.None? ==> forall m :: !IsStartTagMatch(s, m)
  {
    MatchStartTagFrom(s, 0)
  }

  /** The match MatchStartTag reports is the only one at its position, so it is
      what the regex engine reports. */
  lemma StartTagMatchUnique(s: string, m1: TagMatch, m2: TagMatch)
    requires IsStartTagMatch(s, m1) && IsStartTagMatch(s, m2) && m1.index == m2.index
    ensures m1 == m2
  {
    StartTagAtComplete(s, m1);
    StartTagAtComplete(s, m2);
  }

  // ---------------------------------------------------------------------
  // The markdown fence
  // ---------------------------------------------------------------------

  /** A match of the fence pattern: the opening backticks at `index`, the language
      token up to `tokenEnd`, the newline ending the opening line at `newline`,
      and the closing "\n```" at `close`. */
  datatype FenceMatch = FenceMatch(index: nat, tokenEnd: nat, newline: nat, close: nat)

  /** The fence pattern can match s with these choices for its quantifiers. */
  predicate IsFenceMatch(s: string, m: FenceMatch) {
    OccursAt(s, Fence, m.index) &&
    m.index + |Fence| <= m.tokenEnd <= m.newline < m.close &&
    OccursAt(s, ClosingFence, m.close) &&
    Span(s, m.index + |Fence|, m.tokenEnd, IsWordChar) &&
    Span(s, m.tokenEnd, m.newline, IsSpace) &&
    s[m.newline] == '\n'
  }

  /** Capture group 1, `(\w*)`. */
  function Token(s: string, m: FenceMatch): string
    requires IsFenceMatch(s, m)
  {
    s[m.index + |Fence|..m.tokenEnd]
  }

  /** Capture group 2, `([\s\S]*?)`. */
  function Body(s: string, m: FenceMatch): string
    requires IsFenceMatch(s, m)
  {
    s[m.newline + 1..m.close]
  }

  /** m is tried no later than m' by the backtracking engine: leftmost start,
      then the longer `\w*`, then the longer `\s*`, then the shorter body. */
  predicate TriedFirst(m: FenceMatch, m': FenceMatch) {
    m.index < m'.index ||
    (m.index == m'.index &&
      (m.tokenEnd > m'.tokenEnd ||
      (m.tokenEnd == m'.tokenEnd &&
        (m.newline > m'.newline ||
        (m.newline == m'.newline && m.close <= m'.close)))))
  }

  /** The last position j in [lo, hi) holding a newline with a closing fence somewhere
      after it, or -1: the longest `\s*` whose following `\n` lets the body close. */
  function LastOpeningNewline(s: string, lo: nat, hi: nat): (j: int)
    requires lo <= hi <= |s|
    ensures j == -1 || (lo <= j < hi && s[j] == '\n' && IndexOfFrom(s, ClosingFence, j + 1) >= 0)
    ensures forall k :: lo <= k < hi && j < k && s[k] == '\n' ==> IndexOfFrom(s, ClosingFence, k + 1) < 0
    decreases hi - lo
  {
    if hi == lo then -1
    else if s[hi - 1] == '\n' && IndexOfFrom(s, ClosingFence, hi) >= 0 then hi - 1
    else LastOpeningNewline(s, lo, hi - 1)
  }

  /** The attempt of the fence pattern at position i. */
  function FenceAt(s: string, i: nat): (r: Option<FenceMatch>)
    ensures r.Some? ==> r.value.index == i && IsFenceMatch(s, r.value)
  {
    if !OccursAt(s, Fence, i) then None
    else
      var w := RunEnd(s, i + |Fence|, IsWordChar);
      var q := RunEnd(s, w, IsSpace);
      var j := LastOpeningNewline(s, w, q);
      if j < 0 then None
      else Some(FenceMatch(i, w, j, IndexOfFrom(s, ClosingFence, j + 1)))
  }

  /** Whenever the fence pattern can match at position i, FenceAt finds the match
      the engine tries first there. */
  lemma FenceAtFirst(s: string, m: FenceMatch)
    requires IsFenceMatch(s, m)
    ensures FenceAt(s, m.index).Some? && TriedFirst(FenceAt(s, m.index).value, m)
  {
    var i := m.index;
    var w := RunEnd(s, i + |Fence|, IsWordChar);
    var q := RunEnd(s, w, IsSpace);
    assert !IsWordChar(s[m.newline]);
    assert m.tokenEnd < m.newline ==> !IsWordChar(s[m.tokenEnd]);
    assert m.tokenEnd == w;
    assert IsSpace(s[m.newline]);
    assert m.newline < q;
    assert IndexOfFrom(s, ClosingFence, m.newline + 1) >= 0;
    var j := LastOpeningNewline(s, w, q);
    assert m.newline <= j;
  }

  /** The first fence match (in the engine's order) that starts at or after `from`. */
  function MatchFenceFrom(s: string, from: nat): (r: Option<FenceMatch>)
    ensures r.Some? ==> from <= r.value.index && IsFenceMatch(s, r.value)
    ensures forall m :: IsFenceMatch(s, m) && from <= m.index ==>
              r.Some? && TriedFirst(r.value, m)
    decreases |s| + 1 - from
  {
    if from > |s| then
      None
    else
      var here := FenceAt(s, from);
      if here.Some? then
        assert forall m :: IsFenceMatch(s, m) && m.index == from ==> TriedFirst(here.value, m) by {
          forall m | IsFenceMatch(s, m) && m.index == from ensures TriedFirst(here.value, m) {
            FenceAtFirst(s, m);
          }
        }
        here
      else
        assert forall m :: IsFenceMatch(s, m) ==> m.index != from by {
          forall m | IsFenceMatch(s, m) ensures m.index != from {
            FenceAtFirst(s, m);
          }
        }
        MatchFenceFrom(s, from + 1)
  }

  /** `s.match(mdCodeBlockRegex)`: the match the engine reports, or None when the
      pattern matches nowhere. */
  function MatchFence(s: string): (r: Option<FenceMatch>)
    ensures r.Some? ==> IsFenceMatch(s, r.value)
    ensures r.Some? ==> forall m :: IsFenceMatch(s, m) ==> TriedFirst(r.value, m)
    ensures r.None? ==> forall m :: !IsFenceMatch(s, m)
  {
    MatchFenceFrom(s, 0)
  }
}
