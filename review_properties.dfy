/**
 * What the response-parsing cascade promises, stated over `Interpret`: which
 * stage decides each field, that later stages never overwrite earlier ones,
 * how the language is chosen, and what happens when nothing is recognised.
 */
module ReviewProperties {
  import opened Wrappers
  import opened JsStrings
  import opened Patterns
  import opened ReviewParser

  /** When pattern q starts with a character that occurs nowhere in pat after its
      first position, an occurrence of q after an occurrence of pat cannot begin
      inside it. */
  lemma OccurrencesDoNotOverlap(s: string, pat: string, q: string, i: int, j: int)
    requires OccursAt(s, pat, i) && OccursAt(s, q, j) && q != [] && i < j
    requires forall k :: 0 < k < |pat| ==> pat[k] != q[0]
    ensures i + |pat| <= j
  {
    assert s[j] == s[j..j + |q|][0] == q[0];
    assert forall k :: i <= k < i + |pat| ==> s[k] == s[i..i + |pat|][k - i] == pat[k - i];
  }

  // ---------------------------------------------------------------------
  // Stage 1: tagged feedback
  // ---------------------------------------------------------------------

  /** Once both feedback tags are found in order, the end tag lies after the whole
      start tag, so the feedback is exactly the trimmed text between the tags; when
      that text is not blank it is the feedback shown, and no warning is raised. */
  lemma TaggedFeedbackWins(s: string, selectedLanguage: string)
    requires HasFeedbackTags(s)
    ensures IndexOf(s, FeedbackStartTag) + |FeedbackStartTag| <= IndexOf(s, FeedbackEndTag)
    ensures TaggedFeedback(s) ==
              Trim(s[IndexOf(s, FeedbackStartTag) + |FeedbackStartTag|..IndexOf(s, FeedbackEndTag)])
    ensures TaggedFeedback(s) != [] ==>
              Interpret(s, selectedLanguage).result.feedback == TaggedFeedback(s) &&
              Interpret(s, selectedLanguage).warning == None
  {
    var fs, fe := IndexOf(s, FeedbackStartTag), IndexOf(s, FeedbackEndTag);
    OccurrencesDoNotOverlap(s, FeedbackStartTag, FeedbackEndTag, fs, fe);
  }

  // ---------------------------------------------------------------------
  // Stage 2: tagged code
  // ---------------------------------------------------------------------

  /** No `<` anywhere in x. */
  predicate LtFree(x: string) {
    forall k :: 0 <= k < |x| ==> x[k] != '<'
  }

  /** No `"` anywhere in x: a value the attribute group `[^"]+` can capture whole. */
  predicate QuoteFree(x: string) {
    forall k :: 0 <= k < |x| ==> x[k] != '"'
  }

  /** No character of the start tag's head after its first one is `<`. */
  lemma HeadHasNoInnerLt(s: string, i: nat)
    requires OccursAt(s, StartTagHead, i)
    ensures forall k :: i < k < i + |StartTagHead| ==> s[k] != '<'
  {
    var h := i + |StartTagHead|;
    forall k | i < k < h ensures s[k] != '<' {
      assert s[k] == s[i..h][k - i] == StartTagHead[k - i];
    }
  }

  /** No character of the language attribute is `<`, provided its value holds none. */
  lemma AttributeHasNoLt(s: string, m: TagMatch)
    requires IsStartTagMatch(s, m) && m.language.Some?
    requires LtFree(m.language.value)
    ensures forall k :: m.index + |StartTagHead| <= k < TagEnd(m) ==> s[k] != '<'
  {
    var v, e := m.language.value, TagEnd(m);
    var h := m.index + |StartTagHead|;
    var a := h + (m.length - |StartTagHead| - |LanguageAttr| - |v| - 2);
    var v0 := a + |LanguageAttr|;
    forall k | a <= k < v0 ensures s[k] != '<' {
      assert s[k] == s[a..v0][k - a] == LanguageAttr[k - a];
    }
    forall k | v0 <= k < e - 2 ensures s[k] != '<' {
      assert s[k] == s[v0..e - 2][k - v0] == v[k - v0];
    }
  }

  /** No character of a start-tag match after its first one is `<`, provided the
      language value holds none. */
  lemma StartTagHasNoInnerLt(s: string, m: TagMatch)
    requires IsStartTagMatch(s, m)
    requires m.language.Some? ==> LtFree(m.language.value)
    ensures forall k :: m.index < k < TagEnd(m) ==> s[k] != '<'
  {
    HeadHasNoInnerLt(s, m.index);
    if m.language.Some? {
      AttributeHasNoLt(s, m);
    }
  }

  /** With a start-tag match whose language value holds no `<`, the first code end
      tag that lies after the tag's first character lies after the whole tag, so the
      code is exactly the trimmed text between the tag and the end tag. */
  lemma CodeEndFollowsStartTag(s: string)
    requires HasCodeTags(s)
    requires var m := MatchStartTag(s).value;
             m.language.Some? ==> LtFree(m.language.value)
    ensures TagEnd(MatchStartTag(s).value) <= IndexOf(s, RevisedCodeEndTag)
    ensures TaggedCode(s) == Trim(s[TagEnd(MatchStartTag(s).value)..IndexOf(s, RevisedCodeEndTag)])
  {
    var m, ce := MatchStartTag(s).value, IndexOf(s, RevisedCodeEndTag);
    StartTagHasNoInnerLt(s, m);
    assert s[ce] == s[ce..ce + |RevisedCodeEndTag|][0] == '<';
  }

  /** Code found between the code tags is the code shown, and the language is the
      start tag's attribute, trimmed and lower-cased, or else the selected one. */
  lemma TaggedCodeWins(s: string, selectedLanguage: string)
    requires HasCodeTags(s) && TaggedCode(s) != []
    ensures Interpret(s, selectedLanguage).result.revisedCode == TaggedCode(s)
    ensures Interpret(s, selectedLanguage).result.language ==
              match MatchStartTag(s).value.language
              case Some(v) => ToLower(Trim(v))
              case None => ToLower(selectedLanguage)
  {
    var p1 := FeedbackTagStage(s, Initial(selectedLanguage));
    var p2 := CodeTagStage(s, p1);
    assert p2.code == TaggedCode(s);
    assert MarkdownStage(s, p2) == p2;
  }

  // ---------------------------------------------------------------------
  // Stage 3: the markdown fallback
  // ---------------------------------------------------------------------

  /** The last two stages from a state without code, when the fence matches with a
      non-empty body. */
  lemma FenceStages(s: string, p: Partial)
    requires p.code == [] && HasFencedBody(s)
    ensures var m := MatchFence(s).value;
            var q := PreTagStage(s, MarkdownStage(s, p));
            q.code == Trim(Body(s, m)) &&
            q.language == (if Token(s, m) != [] then ToLower(Trim(Token(s, m))) else p.language) &&
            ((p.feedback == [] && m.index > 0 && TrimmedSubstring(s, 0, m.index) != []) ==>
               q.feedback == TrimmedSubstring(s, 0, m.index))
  {
    var m := MatchFence(s).value;
    var p3 := MarkdownStage(s, p);
    assert p3.code == Trim(Body(s, m));
    assert p.feedback == [] && m.index > 0 && TrimmedSubstring(s, 0, m.index) != [] ==>
             p3.feedback == TrimmedSubstring(s, 0, m.index);
  }

  /** The language the code tags leave: the attribute of a matched start tag, when
      the tags are found and the attribute is there. */
  function TagLanguage(s: string, otherwise: string): string {
    if HasCodeTags(s) && MatchStartTag(s).value.language.Some? then
      ToLower(Trim(MatchStartTag(s).value.language.value))
    else otherwise
  }

  lemma CodeTagStageLanguage(s: string, p: Partial)
    requires p.code == []
    ensures CodeTagStage(s, p).language == TagLanguage(s, p.language)
  {
    var m := MatchStartTag(s);
    if m.Some? && m.value.language.Some? {
      assert m.value.language.value != [];
    }
  }

  /** When the tags gave no code and the fence pattern matches with a non-empty body,
      the first match decides the code and the language: the code is its trimmed body
      (possibly blank), and the language is its token when the token is not empty, or
      else what the tags left. */
  lemma MarkdownFallback(s: string, selectedLanguage: string)
    requires !(HasCodeTags(s) && TaggedCode(s) != [])
    requires HasFencedBody(s)
    ensures var m := MatchFence(s).value;
            var p := Extract(s, selectedLanguage);
            p.code == Trim(Body(s, m)) &&
            p.language == (if Token(s, m) != [] then ToLower(Trim(Token(s, m)))
                           else TagLanguage(s, ToLower(selectedLanguage)))
  {
    var p1 := FeedbackTagStage(s, Initial(selectedLanguage));
    var p2 := CodeTagStage(s, p1);
    CodeTagStageLanguage(s, p1);
    FenceStages(s, p2);
  }

  /** When neither the feedback tags nor the code tags gave anything and the fence
      pattern matches with a non-empty body, the text before the fence becomes the
      feedback when it is not blank. */
  lemma MarkdownFallbackFeedback(s: string, selectedLanguage: string)
    requires !(HasFeedbackTags(s) && TaggedFeedback(s) != [])
    requires !(HasCodeTags(s) && TaggedCode(s) != [])
    requires HasFencedBody(s)
    requires MatchFence(s).value.index > 0 && TrimmedSubstring(s, 0, MatchFence(s).value.index) != []
    ensures Extract(s, selectedLanguage).feedback == TrimmedSubstring(s, 0, MatchFence(s).value.index)
  {
    var p2 := CodeTagStage(s, FeedbackTagStage(s, Initial(selectedLanguage)));
    assert p2.feedback == [] && p2.code == [];
    FenceStages(s, p2);
  }

  // ---------------------------------------------------------------------
  // Stage 4: the text before the start tag
  // ---------------------------------------------------------------------

  /** The fourth stage does not check where the code came from: code taken from a
      fenced block at the very start of the response still gets, as its feedback, the
      text before a start tag that no end tag closes. */
  lemma PreTagFeedbackAfterMarkdown(s: string, selectedLanguage: string)
    requires !HasFeedbackTags(s) && IndexOf(s, RevisedCodeEndTag) == -1
    requires HasFencedBody(s) && MatchFence(s).value.index == 0
    requires Trim(Body(s, MatchFence(s).value)) != []
    requires MatchStartTag(s).Some? && MatchStartTag(s).value.index > 0
    requires TrimmedSubstring(s, 0, MatchStartTag(s).value.index) != []
    ensures Interpret(s, selectedLanguage).result.feedback == TrimmedSubstring(s, 0, MatchStartTag(s).value.index)
    ensures Interpret(s, selectedLanguage).result.revisedCode == Trim(Body(s, MatchFence(s).value))
  {
    var p2 := CodeTagStage(s, FeedbackTagStage(s, Initial(selectedLanguage)));
    assert p2 == Initial(selectedLanguage);
    var p3 := MarkdownStage(s, p2);
    assert p3.feedback == [];
    assert p3.code == Trim(Body(s, MatchFence(s).value));
  }

  /** Code between the code tags with no feedback between the feedback tags: the
      text before the start tag, when not blank, becomes the feedback. */
  lemma PreTagFeedback(s: string, selectedLanguage: string)
    requires !(HasFeedbackTags(s) && TaggedFeedback(s) != [])
    requires HasCodeTags(s) && TaggedCode(s) != []
    requires MatchStartTag(s).value.index > 0 && TrimmedSubstring(s, 0, MatchStartTag(s).value.index) != []
    ensures var p := Extract(s, selectedLanguage);
            p.feedback == TrimmedSubstring(s, 0, MatchStartTag(s).value.index) &&
            p.code == TaggedCode(s) &&
            p.language == match MatchStartTag(s).value.language
                          case Some(v) => ToLower(Trim(v))
                          case None => ToLower(selectedLanguage)
  {
    var p1 := FeedbackTagStage(s, Initial(selectedLanguage));
    assert p1 == Initial(selectedLanguage);
    var p2 := CodeTagStage(s, p1);
    var m := MatchStartTag(s).value;
    assert m.language.Some? ==> m.language.value != [];
    assert p2.feedback == [] && p2.code == TaggedCode(s);
    assert p2.language == match m.language
                          case Some(v) => ToLower(Trim(v))
                          case None => ToLower(selectedLanguage);
    assert MarkdownStage(s, p2) == p2;
    var p4 := PreTagStage(s, p2);
    assert p4.feedback == TrimmedSubstring(s, 0, m.index);
  }

  // ---------------------------------------------------------------------
  // Nothing recognised
  // ---------------------------------------------------------------------

  /** A pattern that begins with a character other than white space occurs nowhere
      in a blank text. */
  lemma BlankHasNoOccurrence(s: string, pat: string, k: int)
    requires Blank(s) && pat != [] && !IsSpace(pat[0])
    ensures !OccursAt(s, pat, k)
  {
    if 0 <= k < |s| {
      assert IsSpace(s[k]);
    }
  }

  /** A response made only of white space (or empty) matches nothing: the raw
      response, untrimmed, is shown as the feedback, the code is the fixed
      placeholder, and the warning is raised. */
  lemma BlankResponse(s: string, selectedLanguage: string)
    requires Blank(s)
    ensures Interpret(s, selectedLanguage) ==
              Outcome(ReviewResult(s, UnparsedCodePlaceholder, ToLower(selectedLanguage)), Some(ParseWarning))
  {
    BlankHasNoOccurrence(s, FeedbackStartTag, IndexOf(s, FeedbackStartTag));
    forall m: TagMatch ensures !IsStartTagMatch(s, m) {
      BlankHasNoOccurrence(s, StartTagHead, m.index);
    }
    forall m: FenceMatch ensures !IsFenceMatch(s, m) {
      BlankHasNoOccurrence(s, Fence, m.index);
    }
    assert !HasFeedbackTags(s) && !HasCodeTags(s) && !HasFencedBody(s);
  }

  // ---------------------------------------------------------------------
  // The language
  // ---------------------------------------------------------------------

  /** No ASCII capital letter. */
  predicate LowerCased(s: string) {
    forall k :: 0 <= k < |s| ==> !('A' <= s[k] <= 'Z')
  }

  lemma ToLowerIsLowerCased(s: string)
    ensures LowerCased(ToLower(s))
  {
  }

  /** The tagged-code stage sets a language only through `toLowerCase`. */
  lemma CodeTagStageKeepsLowerCased(s: string, p: Partial)
    requires LowerCased(p.language)
    ensures LowerCased(CodeTagStage(s, p).language)
  {
    if p.code == [] && HasCodeTags(s) {
      var v := MatchStartTag(s).value.language;
      if v.Some? {
        ToLowerIsLowerCased(Trim(v.value));
      }
    }
  }

  /** The markdown stage sets a language only through `toLowerCase`. */
  lemma MarkdownStageKeepsLowerCased(s: string, p: Partial)
    requires LowerCased(p.language)
    ensures LowerCased(MarkdownStage(s, p).language)
  {
    if p.code == [] && HasFencedBody(s) {
      ToLowerIsLowerCased(Trim(Token(s, MatchFence(s).value)));
    }
  }

  /** Every language the cascade reports passed through `toLowerCase`. */
  lemma LanguageIsLowerCased(s: string, selectedLanguage: string)
    ensures LowerCased(Interpret(s, selectedLanguage).result.language)
  {
    var p0 := Initial(selectedLanguage);
    ToLowerIsLowerCased(selectedLanguage);
    var p1 := FeedbackTagStage(s, p0);
    assert p1.language == p0.language;
    var p2 := CodeTagStage(s, p1);
    CodeTagStageKeepsLowerCased(s, p1);
    var p3 := MarkdownStage(s, p2);
    MarkdownStageKeepsLowerCased(s, p2);
    var p4 := PreTagStage(s, p3);
    assert p4.language == p3.language;
    assert p4 == Extract(s, selectedLanguage);
    assert Resolve(s, p4).result.language == p4.language;
  }

  /** The selected language, lower-cased, is kept unless a start tag carrying a
      language attribute or a fence with a non-empty token is matched. */
  lemma LanguageDefault(s: string, selectedLanguage: string)
    requires forall m :: IsStartTagMatch(s, m) ==> m.language.None?
    requires forall m :: IsFenceMatch(s, m) ==> Token(s, m) == []
    ensures Interpret(s, selectedLanguage).result.language == ToLower(selectedLanguage)
  {
    var p1 := FeedbackTagStage(s, Initial(selectedLanguage));
    var p2 := CodeTagStage(s, p1);
    if MatchStartTag(s).Some? {
      assert MatchStartTag(s).value.language.None?;
    }
    assert p2.language == ToLower(selectedLanguage);
    var p3 := MarkdownStage(s, p2);
    if MatchFence(s).Some? {
      assert Token(s, MatchFence(s).value) == [];
    }
    assert p3.language == ToLower(selectedLanguage);
  }

  /** The prompt asks the model to close the code with `<REVISED_CODE_END>`, which
      the cascade does not recognise: without `</REVISED_CODE_END>` and without a
      fenced block, the code shown is always a placeholder. */
  lemma UnclosedCodeIsNotRecognised(s: string, selectedLanguage: string)
    requires IndexOf(s, RevisedCodeEndTag) == -1 && MatchFence(s).None?
    ensures var r := Interpret(s, selectedLanguage).result;
            r.revisedCode == UnparsedCodePlaceholder || r.revisedCode == MissingCodePlaceholder(r.language)
  {
    var p := Extract(s, selectedLanguage);
    var p1 := FeedbackTagStage(s, Initial(selectedLanguage));
    assert CodeTagStage(s, p1) == p1;
    assert p.code == [];
  }

  // ---------------------------------------------------------------------
  // A well-formed tagged response
  // ---------------------------------------------------------------------

  /** The start tag with a language attribute, as the prompt asks for it. */
  function LanguageTag(language: string): string {
    StartTagHead + " " + LanguageAttr + language + "\">"
  }

  /** Prose, the start tag with a language attribute, the code and the end tag the
      parser looks for. */
  function TaggedResponse(prose: string, language: string, code: string): string {
    prose + LanguageTag(language) + code + RevisedCodeEndTag
  }

  /** The language tag holds `<` only as its first character. */
  lemma LanguageTagLts(language: string)
    requires LtFree(language)
    ensures var t := LanguageTag(language);
            t[0] == '<' && forall k :: 0 < k < |t| ==> t[k] != '<'
  {
    var t := LanguageTag(language);
    LanguageTagParts(language);
    forall k | 0 < k < 19 ensures t[k] != '<' {
      assert t[k] == t[..19][k];
    }
    forall k | 20 <= k < 30 ensures t[k] != '<' {
      assert t[k] == t[20..30][k - 20];
    }
    forall k | 30 <= k < |t| - 2 ensures t[k] != '<' {
      assert t[k] == t[30..|t| - 2][k - 30];
    }
    assert t[0] == t[..19][0];
  }

  /** In a tagged response whose parts hold no `<`, the only `<` are the first
      characters of the two tags. */
  lemma TaggedResponseLts(prose: string, language: string, code: string)
    requires LtFree(prose) && LtFree(language) && LtFree(code)
    ensures var s, t := TaggedResponse(prose, language, code), LanguageTag(language);
            forall k :: 0 <= k < |s| && s[k] == '<' ==> k == |prose| || k == |prose| + |t| + |code|
  {
    var s, t := TaggedResponse(prose, language, code), LanguageTag(language);
    var p1, p2 := |prose|, |prose| + |t| + |code|;
    LanguageTagLts(language);
    forall k | 0 <= k < p1 ensures s[k] != '<' {
      assert s[k] == prose[k];
    }
    forall k | p1 < k < p1 + |t| ensures s[k] != '<' {
      assert s[k] == t[k - p1];
    }
    forall k | p1 + |t| <= k < p2 ensures s[k] != '<' {
      assert s[k] == code[k - p1 - |t|];
    }
    forall k | p2 < k < |s| ensures s[k] != '<' {
      assert s[k] == RevisedCodeEndTag[k - p2];
    }
  }

  /** A pattern starting with `<` can only occur where a tag starts. */
  lemma LtPatternAtTag(prose: string, language: string, code: string, pat: string, k: int)
    requires LtFree(prose) && LtFree(language) && LtFree(code)
    requires pat != [] && pat[0] == '<'
    requires OccursAt(TaggedResponse(prose, language, code), pat, k)
    ensures k == |prose| || k == |prose| + |LanguageTag(language)| + |code|
  {
    var s := TaggedResponse(prose, language, code);
    TaggedResponseLts(prose, language, code);
    assert s[k] == s[k..k + |pat|][0] == '<';
  }

  /** A character of an occurrence is that of the pattern. */
  lemma OccurrenceChar(s: string, pat: string, k: int, j: nat)
    requires j < |pat|
    ensures OccursAt(s, pat, k) ==> s[k + j] == pat[j]
  {
    if OccursAt(s, pat, k) {
      assert s[k..k + |pat|][j] == s[k + j];
    }
  }

  /** The response holds no feedback start tag. */
  lemma TaggedResponseHasNoFeedbackTags(prose: string, language: string, code: string)
    requires LtFree(prose) && LtFree(language) && LtFree(code)
    ensures !HasFeedbackTags(TaggedResponse(prose, language, code))
  {
    var s, t := TaggedResponse(prose, language, code), LanguageTag(language);
    var p1, p2 := |prose|, |prose| + |t| + |code|;
    TaggedResponseLts(prose, language, code);
    assert s[p1 + 5] == t[5] == 'S';
    assert |s| == p2 + |RevisedCodeEndTag|;
    forall k ensures !OccursAt(s, FeedbackStartTag, k) {
      OccurrenceChar(s, FeedbackStartTag, k, 0);
      OccurrenceChar(s, FeedbackStartTag, k, 5);
    }
  }

  lemma SliceOfSlice(s: string, i: nat, n: nat, a: nat, b: nat)
    requires i + n <= |s| && a <= b <= n
    ensures s[i + a..i + b] == s[i..i + n][a..b]
  {
    var whole, part := s[i + a..i + b], s[i..i + n][a..b];
    forall k | 0 <= k < |whole| ensures whole[k] == part[k] {
      assert whole[k] == s[i + a + k];
    }
  }

  /** The pieces of the language tag. */
  lemma LanguageTagParts(language: string)
    ensures var t := LanguageTag(language);
            |t| == 32 + |language| &&
            t[..19] == StartTagHead && t[19] == ' ' && t[20..30] == LanguageAttr &&
            t[30..|t| - 2] == language && t[|t| - 2] == '"' && t[|t| - 1] == '>'
  {
    var t := LanguageTag(language);
    assert t == StartTagHead + " " + LanguageAttr + language + "\">";
  }

  /** The language tag matches the start-tag pattern wherever it occurs. */
  lemma LanguageTagMatches(s: string, i: nat, language: string)
    requires language != [] && QuoteFree(language)
    requires i + |LanguageTag(language)| <= |s| && s[i..i + |LanguageTag(language)|] == LanguageTag(language)
    ensures IsStartTagMatch(s, TagMatch(i, |LanguageTag(language)|, Some(language)))
  {
    var t := LanguageTag(language);
    var n := |t|;
    LanguageTagParts(language);
    SliceOfSlice(s, i, n, 0, 19);
    SliceOfSlice(s, i, n, 20, 30);
    SliceOfSlice(s, i, n, 30, n - 2);
    assert s[i + 19] == t[19] && s[i + n - 2] == t[n - 2] && s[i + n - 1] == t[n - 1];
    forall k | i + 30 <= k < i + n - 2 ensures NotQuote(s[k]) {
      assert s[k] == s[i + 30..i + n - 2][k - i - 30];
    }
    assert OccursAt(s, StartTagHead, i) && OccursAt(s, LanguageAttr, i + 20);
    assert Span(s, i + 19, i + 20, IsSpace) && Span(s, i + 30, i + n - 2, NotQuote);
  }

  /** The start-tag pattern matches the language tag, with the language as its capture. */
  lemma TaggedResponseStartTag(prose: string, language: string, code: string)
    requires LtFree(prose) && LtFree(language) && LtFree(code)
    requires language != [] && QuoteFree(language)
    ensures MatchStartTag(TaggedResponse(prose, language, code)) ==
              Some(TagMatch(|prose|, |LanguageTag(language)|, Some(language)))
  {
    var s, t := TaggedResponse(prose, language, code), LanguageTag(language);
    var m := TagMatch(|prose|, |t|, Some(language));
    assert s[|prose|..|prose| + |t|] == t;
    LanguageTagMatches(s, |prose|, language);
    var r := MatchStartTag(s).value;
    LtPatternAtTag(prose, language, code, StartTagHead, r.index);
    StartTagMatchUnique(s, r, m);
  }

  /** The first end tag is the one after the code. */
  lemma TaggedResponseCodeEnd(prose: string, language: string, code: string)
    requires LtFree(prose) && LtFree(language) && LtFree(code)
    ensures IndexOf(TaggedResponse(prose, language, code), RevisedCodeEndTag) ==
              |prose| + |LanguageTag(language)| + |code|
  {
    var s, t := TaggedResponse(prose, language, code), LanguageTag(language);
    var p2 := |prose| + |t| + |code|;
    assert s[p2..] == RevisedCodeEndTag;
    assert OccursAt(s, RevisedCodeEndTag, p2);
    var r := IndexOf(s, RevisedCodeEndTag);
    LtPatternAtTag(prose, language, code, RevisedCodeEndTag, r);
    assert s[|prose| + 1] == t[1] != RevisedCodeEndTag[1];
  }

  /** The code the tags give, from where the start tag and the end tag were found. */
  lemma TaggedCodeBetween(s: string, m: TagMatch, ce: int, x: string)
    requires MatchStartTag(s) == Some(m) && IndexOf(s, RevisedCodeEndTag) == ce
    requires TagEnd(m) <= ce <= |s| && s[TagEnd(m)..ce] == x
    ensures TaggedCode(s) == Trim(x)
  {
  }

  /** The text before the start tag, from where it was found. */
  lemma TextBeforeStartTag(s: string, m: TagMatch, x: string)
    requires MatchStartTag(s) == Some(m) && s[..m.index] == x
    ensures TrimmedSubstring(s, 0, m.index) == Trim(x)
  {
  }

  /** Where the cascade finds the parts of a tagged response. */
  lemma TaggedResponseParts(prose: string, language: string, code: string)
    requires LtFree(prose) && LtFree(language) && LtFree(code)
    requires language != [] && QuoteFree(language)
    ensures var s := TaggedResponse(prose, language, code);
            !HasFeedbackTags(s) && HasCodeTags(s) &&
            MatchStartTag(s) == Some(TagMatch(|prose|, |LanguageTag(language)|, Some(language))) &&
            TaggedCode(s) == Trim(code) &&
            TrimmedSubstring(s, 0, |prose|) == Trim(prose)
  {
    var s, t := TaggedResponse(prose, language, code), LanguageTag(language);
    TaggedResponseHasNoFeedbackTags(prose, language, code);
    TaggedResponseStartTag(prose, language, code);
    TaggedResponseCodeEnd(prose, language, code);
    var m := TagMatch(|prose|, |t|, Some(language));
    assert s[..|prose|] == prose;
    assert s[|prose| + |t|..|prose| + |t| + |code|] == code;
    TaggedCodeBetween(s, m, |prose| + |t| + |code|, code);
    TextBeforeStartTag(s, m, prose);
  }

  /** What the four stages find in a tagged response. */
  lemma TaggedResponseStages(prose: string, language: string, code: string, selectedLanguage: string)
    requires LtFree(prose) && LtFree(language) && LtFree(code)
    requires language != [] && QuoteFree(language)
    requires Trim(prose) != [] && Trim(code) != []
    ensures var p := Extract(TaggedResponse(prose, language, code), selectedLanguage);
            p.feedback == Trim(prose) && p.code == Trim(code) && p.language == ToLower(Trim(language))
  {
    TaggedResponseParts(prose, language, code);
    var s := TaggedResponse(prose, language, code);
    assert prose != [];
    PreTagFeedback(s, selectedLanguage);
  }

  /** A response in the tagged format: the code between the tags and the tag's language
      are taken, and with no feedback tags the prose before the start tag becomes the
      feedback; no warning is raised. */
  lemma TaggedResponseResult(prose: string, language: string, code: string, selectedLanguage: string)
    requires LtFree(prose) && LtFree(language) && LtFree(code)
    requires language != [] && QuoteFree(language)
    requires Trim(prose) != [] && Trim(code) != []
    ensures Interpret(TaggedResponse(prose, language, code), selectedLanguage) ==
              Outcome(ReviewResult(Trim(prose), Trim(code), ToLower(Trim(language))), None)
  {
    TaggedResponseStages(prose, language, code, selectedLanguage);
  }

  lemma LooksFineProse(prose: string)
    requires prose == "Looks fine.\n"
    ensures Trim(prose) == "Looks fine."
  {
    var body, post := "Looks fine.", "\n";
    assert prose == [] + body + post;
    TrimPadded([], body, post);
  }

  lemma LooksFineCode(code: string)
    requires code == "\nprint(1)\n"
    ensures Trim(code) == "print(1)"
  {
    var pad, body := "\n", "print(1)";
    assert code == pad + body + pad;
    TrimPadded(pad, body, pad);
  }

  /** `toLowerCase` leaves a text without capital letters unchanged. */
  lemma ToLowerOfLowerCased(s: string)
    requires LowerCased(s)
    ensures ToLower(s) == s
  {
    var r := ToLower(s);
    assert forall k :: 0 <= k < |s| ==> r[k] == LowerChar(s[k]) == s[k];
  }

  lemma LooksFineLanguage(language: string)
    requires language == "python"
    ensures ToLower(Trim(language)) == language
  {
    assert language == [] + language + [];
    TrimPadded([], language, []);
    ToLowerOfLowerCased(language);
  }

  /** The example response is a tagged response whose parts hold no `<`. */
  lemma LooksFineShape(prose: string, language: string, code: string)
    requires prose == "Looks fine.\n" && language == "python" && code == "\nprint(1)\n"
    ensures TaggedResponse(prose, language, code) ==
            prose + "<REVISED_CODE_START language=\"python\">" + code + "</REVISED_CODE_END>"
    ensures LtFree(prose) && LtFree(language) && LtFree(code)
    ensures language != [] && QuoteFree(language)
  {
    assert LanguageTag(language) == "<REVISED_CODE_START language=\"python\">";
  }

  /** A response built as a tagged response, with its trimmed and lower-cased parts
      known, gives those parts. */
  lemma TaggedResponseExample(response: string, prose: string, language: string, code: string,
                              feedback: string, revisedCode: string, lowered: string, selectedLanguage: string)
    requires LtFree(prose) && LtFree(language) && LtFree(code)
    requires language != [] && QuoteFree(language)
    requires Trim(prose) == feedback && Trim(code) == revisedCode && ToLower(Trim(language)) == lowered
    requires feedback != [] && revisedCode != []
    requires response == TaggedResponse(prose, language, code)
    ensures Interpret(response, selectedLanguage) == Outcome(ReviewResult(feedback, revisedCode, lowered), None)
  {
    TaggedResponseResult(prose, language, code, selectedLanguage);
  }

  /** The parts of the example response, and what trimming and lower-casing make of them. */
  lemma LooksFineParts(response: string, prose: string, language: string, code: string)
    requires prose == "Looks fine.\n" && language == "python" && code == "\nprint(1)\n"
    requires response == prose + "<REVISED_CODE_START language=\"python\">" + code + "</REVISED_CODE_END>"
    ensures LtFree(prose) && LtFree(language) && LtFree(code)
    ensures language != [] && QuoteFree(language)
    ensures Trim(prose) == "Looks fine." && Trim(code) == "print(1)" && ToLower(Trim(language)) == "python"
    ensures response == TaggedResponse(prose, language, code)
  {
    LooksFineShape(prose, language, code);
    LooksFineProse(prose);
    LooksFineCode(code);
    LooksFineLanguage(language);
  }

  /** The response "Looks fine." followed by a python block in tags, written here
      part by part. */
  lemma LooksFineExample(response: string, selectedLanguage: string)
    requires response ==
             "Looks fine.\n" + "<REVISED_CODE_START language=\"python\">" + "\nprint(1)\n" + "</REVISED_CODE_END>"
    ensures Interpret(response, selectedLanguage) ==
            Outcome(ReviewResult("Looks fine.", "print(1)", "python"), None)
  {
    LooksFineParts(response, "Looks fine.\n", "python", "\nprint(1)\n");
    TaggedResponseExample(response, "Looks fine.\n", "python", "\nprint(1)\n",
                          "Looks fine.", "print(1)", "python", selectedLanguage);
  }
}
