/**
 * The response-parsing cascade of `handleReviewCode` (App.tsx): from the raw
 * text returned by the model and the language the user selected, it builds
 * the review result shown to the user, and decides whether a soft warning
 * is shown beside it.
 *
 * `Interpret` states the cascade as a pipeline of four stages, each filling
 * only what is still empty, followed by the resolution of what is still
 * missing. `HandleReviewResponse` is the cascade as the component runs it,
 * reassigning three locals step by step, and is proved to agree with it.
 */
module ReviewParser {
  import opened Wrappers
  import opened JsStrings
  import opened Patterns

  const FeedbackStartTag := "<REVIEW_FEEDBACK_START>"
  const FeedbackEndTag := "<REVIEW_FEEDBACK_END>"
  const RevisedCodeEndTag := "</REVISED_CODE_END>"

  const UnparsedCodePlaceholder := "// Could not identify a separate revised code block."
  const MissingFeedbackPlaceholder := "No specific feedback text was identified, or feedback parsing failed."
  const ParseWarning :=
    "Could not clearly parse distinct feedback and revised code from Gemini's response. Displaying the full response as feedback."

  /** The text shown in place of the code when only the code is missing. */
  function MissingCodePlaceholder(language: string): (r: string)
    ensures r != []
  {
    "// No revised code block was identified for " + language + "."
  }

  /** `ReviewResult` of types.ts; the cascade always sets the language. */
  datatype ReviewResult = ReviewResult(feedback: string, revisedCode: string, language: string)

  /** What the cascade hands to the component: the result, and the message
      passed to `setError` (None when the error stays cleared). */
  datatype Outcome = Outcome(result: ReviewResult, warning: Option<string>)

  /** The three fields while the stages run; "" means not found yet. */
  datatype Partial = Partial(feedback: string, code: string, language: string)

  // ---------------------------------------------------------------------
  // The stages
  // ---------------------------------------------------------------------

  /** Before any stage: nothing found, the language is the selected one, lower-cased. */
  function Initial(selectedLanguage: string): Partial {
    Partial("", "", ToLower(selectedLanguage))
  }

  /** Both feedback tags are found (first occurrences) and the end tag comes after the start tag. */
  predicate HasFeedbackTags(s: string) {
    var fs, fe := IndexOf(s, FeedbackStartTag), IndexOf(s, FeedbackEndTag);
    fs != -1 && fe != -1 && fe > fs
  }

  /** `s.substring(from, to).trim()`, the way every stage cuts out a field. */
  function TrimmedSubstring(s: string, from: int, to: int): string {
    Trim(Substring(s, from, to))
  }

  /** The trimmed text between the feedback tags. */
  function TaggedFeedback(s: string): string {
    TrimmedSubstring(s, IndexOf(s, FeedbackStartTag) + |FeedbackStartTag|, IndexOf(s, FeedbackEndTag))
  }

  /** Stage 1: the feedback between the feedback tags. */
  function FeedbackTagStage(s: string, p: Partial): (r: Partial)
    ensures r.code == p.code && r.language == p.language
    ensures p.feedback != [] ==> r == p
  {
    if p.feedback == [] && HasFeedbackTags(s) then p.(feedback := TaggedFeedback(s)) else p
  }

  /** The start tag matches and the first code end tag lies after the tag's first character. */
  predicate HasCodeTags(s: string) {
    var m, ce := MatchStartTag(s), IndexOf(s, RevisedCodeEndTag);
    m.Some? && ce != -1 && ce > m.value.index
  }

  /** The trimmed text from the end of the start tag to the code end tag. */
  function TaggedCode(s: string): string {
    match MatchStartTag(s)
    case None => ""
    case Some(m) => TrimmedSubstring(s, TagEnd(m), IndexOf(s, RevisedCodeEndTag))
  }

  /** Stage 2: the code between the code tags, and the language of the start tag's attribute. */
  function CodeTagStage(s: string, p: Partial): (r: Partial)
    ensures r.feedback == p.feedback
    ensures p.code != [] ==> r == p
  {
    if p.code == [] && HasCodeTags(s) then
      var language := MatchStartTag(s).value.language;
      p.(code := TaggedCode(s),
         language := if language.Some? && language.value != [] then ToLower(Trim(language.value)) else p.language)
    else p
  }

  /** The fence pattern matches and its body capture is not empty. */
  predicate HasFencedBody(s: string) {
    var m := MatchFence(s);
    m.Some? && Body(s, m.value) != []
  }

  /** Stage 3: with no code yet, the code and language of the first fenced block,
      and the text before the fence as feedback when there is none yet. */
  function MarkdownStage(s: string, p: Partial): (r: Partial)
    ensures p.feedback != [] ==> r.feedback == p.feedback
    ensures p.code != [] ==> r == p
  {
    if p.code == [] && HasFencedBody(s) then
      var m := MatchFence(s).value;
      var token := Token(s, m);
      var before := TrimmedSubstring(s, 0, m.index);
      Partial(if p.feedback == [] && m.index > 0 && before != [] then before else p.feedback,
              Trim(Body(s, m)),
              if token != [] then ToLower(Trim(token)) else p.language)
    else p
  }

  /** Stage 4: with code but no feedback, the text before the start tag as feedback. */
  function PreTagStage(s: string, p: Partial): (r: Partial)
    ensures r.code == p.code && r.language == p.language
    ensures p.feedback != [] ==> r == p
  {
    var m := MatchStartTag(s);
    if p.feedback == [] && p.code != [] && m.Some? && m.value.index > 0 then
      var before := TrimmedSubstring(s, 0, m.value.index);
      if before != [] then p.(feedback := before) else p
    else p
  }

  /** The test `isCodeFromTags` of the fourth stage compares the text at the match's
      position with the matched text itself, so it holds for every match. */
  lemma CodeFromTagsAlwaysHolds(s: string, m: TagMatch)
    requires IsStartTagMatch(s, m)
    ensures Substring(s, m.index, m.index + m.length) == s[m.index..TagEnd(m)]
  {
  }

  /** What the four stages find, in order. */
  function Extract(s: string, selectedLanguage: string): Partial {
    PreTagStage(s, MarkdownStage(s, CodeTagStage(s, FeedbackTagStage(s, Initial(selectedLanguage)))))
  }

  /** The terminal resolution: placeholders for what is missing, and the warning
      when nothing at all was found. */
  function Resolve(s: string, p: Partial): (o: Outcome)
    ensures o.result.language == p.language
    ensures o.result.revisedCode != []
    ensures o.warning.Some? <==> p.feedback == [] && p.code == []
    ensures p.feedback == [] && p.code == [] ==>
              o == Outcome(ReviewResult(s, UnparsedCodePlaceholder, p.language), Some(ParseWarning))
    ensures p.feedback == [] && p.code != [] ==> o.result.feedback == MissingFeedbackPlaceholder
    ensures p.feedback != [] ==> o.result.feedback == p.feedback
    ensures p.code != [] ==> o.result.revisedCode == p.code
    ensures p.feedback != [] && p.code == [] ==> o.result.revisedCode == MissingCodePlaceholder(p.language)
  {
    if p.feedback == [] && p.code == [] then
      Outcome(ReviewResult(s, UnparsedCodePlaceholder, p.language), Some(ParseWarning))
    else if p.feedback == [] then
      Outcome(ReviewResult(MissingFeedbackPlaceholder, p.code, p.language), None)
    else if p.code == [] then
      Outcome(ReviewResult(p.feedback, MissingCodePlaceholder(p.language), p.language), None)
    else
      Outcome(ReviewResult(p.feedback, p.code, p.language), None)
  }

  /** The whole cascade. The code shown is never empty; the feedback is empty only
      for an empty response; a warning is raised exactly when no stage found anything,
      and then the raw response is shown as the feedback. */
  function Interpret(s: string, selectedLanguage: string): (o: Outcome)
    ensures o.result.revisedCode != []
    ensures o.result.feedback == [] <==> s == []
    ensures o.warning.Some? <==> Extract(s, selectedLanguage).feedback == [] && Extract(s, selectedLanguage).code == []
    ensures o.warning.Some? ==> o.warning == Some(ParseWarning) && o.result.feedback == s
  {
    var p := Extract(s, selectedLanguage);
    assert s == [] ==> p.feedback == [] && p.code == [] by {
      if s == [] {
        assert !HasFeedbackTags(s) && !HasCodeTags(s) && !HasFencedBody(s);
      }
    }
    Resolve(s, p)
  }

  // ---------------------------------------------------------------------
  // The cascade as the component runs it
  // ---------------------------------------------------------------------

  /** Attempt 1 of the component: the feedback between the feedback tags. */
  method FeedbackTagAttempt(responseText: string, feedback: string, code: string, language: string)
    returns (parsedFeedback: string, parsedRevisedCode: string, parsedRevisedCodeLanguage: string)
    requires feedback == []
    ensures Partial(parsedFeedback, parsedRevisedCode, parsedRevisedCodeLanguage) ==
            FeedbackTagStage(responseText, Partial(feedback, code, language))
  {
    parsedFeedback, parsedRevisedCode, parsedRevisedCodeLanguage := feedback, code, language;
    var feedbackStartIndex := IndexOf(responseText, FeedbackStartTag);
    var feedbackEndIndex := IndexOf(responseText, FeedbackEndTag);
    if feedbackStartIndex != -1 && feedbackEndIndex != -1 && feedbackEndIndex > feedbackStartIndex {
      parsedFeedback := TrimmedSubstring(responseText, feedbackStartIndex + |FeedbackStartTag|, feedbackEndIndex);
      assert HasFeedbackTags(responseText) && parsedFeedback == TaggedFeedback(responseText);
    } else {
      assert !HasFeedbackTags(responseText);
    }
  }

  /** Attempt 2 of the component: the code between the code tags, given the start-tag match. */
  method CodeTagAttempt(responseText: string, revisedCodeStartMatch: Option<TagMatch>,
                        feedback: string, code: string, language: string)
    returns (parsedFeedback: string, parsedRevisedCode: string, parsedRevisedCodeLanguage: string)
    requires revisedCodeStartMatch == MatchStartTag(responseText) && code == []
    ensures Partial(parsedFeedback, parsedRevisedCode, parsedRevisedCodeLanguage) ==
            CodeTagStage(responseText, Partial(feedback, code, language))
  {
    parsedFeedback, parsedRevisedCode, parsedRevisedCodeLanguage := feedback, code, language;
    var revisedCodeEndTagIndex := IndexOf(responseText, RevisedCodeEndTag);
    if revisedCodeStartMatch.Some? && revisedCodeEndTagIndex != -1 &&
       revisedCodeEndTagIndex > revisedCodeStartMatch.value.index {
      var revisedCodeStartIndex := TagEnd(revisedCodeStartMatch.value);
      parsedRevisedCode := TrimmedSubstring(responseText, revisedCodeStartIndex, revisedCodeEndTagIndex);
      if revisedCodeStartMatch.value.language.Some? && revisedCodeStartMatch.value.language.value != [] {
        parsedRevisedCodeLanguage := ToLower(Trim(revisedCodeStartMatch.value.language.value));
      }
      assert HasCodeTags(responseText) && parsedRevisedCode == TaggedCode(responseText);
    } else {
      assert !HasCodeTags(responseText);
    }
  }

  /** Attempt 3 of the component: the first fenced markdown block, when the tags gave no code. */
  method MarkdownAttempt(responseText: string, feedback: string, code: string, language: string)
    returns (parsedFeedback: string, parsedRevisedCode: string, parsedRevisedCodeLanguage: string)
    ensures Partial(parsedFeedback, parsedRevisedCode, parsedRevisedCodeLanguage) ==
            MarkdownStage(responseText, Partial(feedback, code, language))
  {
    parsedFeedback, parsedRevisedCode, parsedRevisedCodeLanguage := feedback, code, language;
    if parsedRevisedCode == [] {
      var mdMatch := MatchFence(responseText);
      if mdMatch.Some? && Body(responseText, mdMatch.value) != [] {
        assert HasFencedBody(responseText);
        parsedRevisedCode := Trim(Body(responseText, mdMatch.value));
        if Token(responseText, mdMatch.value) != [] {
          parsedRevisedCodeLanguage := ToLower(Trim(Token(responseText, mdMatch.value)));
        }
        if parsedFeedback == [] && mdMatch.value.index > 0 {
          var potentialFeedback := TrimmedSubstring(responseText, 0, mdMatch.value.index);
          if potentialFeedback != [] {
            parsedFeedback := potentialFeedback;
          }
        }
      }
    }
  }

  /** Attempt 4 of the component: the text before the start tag, when there is code
      but no feedback. */
  method PreTagAttempt(responseText: string, revisedCodeStartMatch: Option<TagMatch>,
                       feedback: string, code: string, language: string)
    returns (parsedFeedback: string, parsedRevisedCode: string, parsedRevisedCodeLanguage: string)
    requires revisedCodeStartMatch == MatchStartTag(responseText)
    ensures Partial(parsedFeedback, parsedRevisedCode, parsedRevisedCodeLanguage) ==
            PreTagStage(responseText, Partial(feedback, code, language))
  {
    parsedFeedback, parsedRevisedCode, parsedRevisedCodeLanguage := feedback, code, language;
    if parsedFeedback == [] && parsedRevisedCode != [] && revisedCodeStartMatch.Some? &&
       revisedCodeStartMatch.value.index > 0 {
      var m := revisedCodeStartMatch.value;
      CodeFromTagsAlwaysHolds(responseText, m);
      var isCodeFromTags := Substring(responseText, m.index, m.index + m.length) == responseText[m.index..TagEnd(m)];
      if isCodeFromTags {
        var textBeforeCodeBlock := TrimmedSubstring(responseText, 0, m.index);
        if textBeforeCodeBlock != [] {
          parsedFeedback := textBeforeCodeBlock;
        }
      }
    }
  }

  /** The cascade of `handleReviewCode` after `reviewCodeWithGemini` resolved with
      `responseText`: three locals reassigned attempt by attempt, then the result and the
      message for `setError`, which the component cleared before the request. */
  method HandleReviewResponse(responseText: string, selectedLanguage: string)
    returns (result: ReviewResult, warning: Option<string>)
    ensures Outcome(result, warning) == Interpret(responseText, selectedLanguage)
  {
    warning := None;
    var parsedFeedback := "";
    var parsedRevisedCode := "";
    var parsedRevisedCodeLanguage := ToLower(selectedLanguage);

    parsedFeedback, parsedRevisedCode, parsedRevisedCodeLanguage :=
      FeedbackTagAttempt(responseText, parsedFeedback, parsedRevisedCode, parsedRevisedCodeLanguage);
    var revisedCodeStartMatch := MatchStartTag(responseText);
    parsedFeedback, parsedRevisedCode, parsedRevisedCodeLanguage :=
      CodeTagAttempt(responseText, revisedCodeStartMatch, parsedFeedback, parsedRevisedCode, parsedRevisedCodeLanguage);
    parsedFeedback, parsedRevisedCode, parsedRevisedCodeLanguage :=
      MarkdownAttempt(responseText, parsedFeedback, parsedRevisedCode, parsedRevisedCodeLanguage);
    parsedFeedback, parsedRevisedCode, parsedRevisedCodeLanguage :=
      PreTagAttempt(responseText, revisedCodeStartMatch, parsedFeedback, parsedRevisedCode, parsedRevisedCodeLanguage);
    assert Partial(parsedFeedback, parsedRevisedCode, parsedRevisedCodeLanguage) == Extract(responseText, selectedLanguage);

    // Placeholders for what is still missing
    if parsedFeedback == [] && parsedRevisedCode == [] {
      parsedFeedback := responseText;
      parsedRevisedCode := UnparsedCodePlaceholder;
      warning := Some(ParseWarning);
    } else if parsedFeedback == [] {
      parsedFeedback := MissingFeedbackPlaceholder;
    } else if parsedRevisedCode == [] {
      parsedRevisedCode := MissingCodePlaceholder(parsedRevisedCodeLanguage);
    }

    result := ReviewResult(parsedFeedback, parsedRevisedCode, parsedRevisedCodeLanguage);
  }
}
