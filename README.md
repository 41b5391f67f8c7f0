# Review-response parsing of the code reviewer

The code reviewer sends the user's code and the selected language to a language
model and receives one block of text back. `handleReviewCode` in `App.tsx` turns
that text into the `ReviewResult` shown on screen (feedback, revised code,
language) and decides whether a soft warning is shown beside it. This project
models that parsing cascade and proves what it delivers.

The cascade runs four attempts, each of which fills only a field that is still empty:

1. tagged feedback, the text between `<REVIEW_FEEDBACK_START>` and `<REVIEW_FEEDBACK_END>`;
2. tagged code, the text between the match of
   `<REVISED_CODE_START(?:\s+language="([^"]+)")?>` and `</REVISED_CODE_END>`, with
   the tag's language attribute as the language;
3. the first fenced markdown block (`` ```token ... ``` ``) as a fallback for the code,
   and the text before the fence as feedback;
4. the text before the start tag as feedback;

and then resolves what is still missing with fixed placeholder texts, raising the
warning only when nothing at all was found.

Modules:

- `JsStrings` (`js_strings.dfy`): the JavaScript string operations the cascade uses:
  `indexOf` (first occurrence), `substring` (clamping and swapping its bounds), `trim`
  (the JavaScript white-space and line-terminator set, which is also the regex class `\s`),
  `toLowerCase`, and the regex class `\w`.
- `Patterns` (`patterns.dfy`): the two regular expressions. Each is a predicate saying
  "this is a match with these captures", and a finder proved to return the match a
  backtracking JavaScript engine returns: the leftmost one; for the fence, among the
  matches at that position, the one with the longest `\w*`, then the longest `\s*`, then
  the shortest lazy body.
- `ReviewParser` (`review_parser.dfy`): the cascade. `Interpret` states it as a
  pipeline of four stage functions and the final `Resolve`. `HandleReviewResponse` is the
  cascade as the component runs it: three locals reassigned attempt by attempt, one
  method per attempt. Each attempt method is proved equal to its stage, and the whole
  method is proved equal to `Interpret`.
- `ReviewProperties` (`review_properties.dfy`): what the cascade promises, stated on
  `Interpret` and `Extract` for all inputs. It also derives the result of a whole family
  of well-formed tagged responses, and the concrete example `"Looks fine.\n<REVISED_CODE_START language=\"python\">\nprint(1)\n</REVISED_CODE_END>"`.

Behaviours kept as the code has them, although its comments or its prompt suggest otherwise:

- Both markers are located by their first occurrence. The code end tag is compared
  with the start tag's index, not its end. When the end tag lies inside the start tag,
  `substring` swaps its bounds.
- The `isCodeFromTags` test of attempt 4 holds for every match
  (`CodeFromTagsAlwaysHolds`). Attempt 4 therefore also fires after code came from a
  markdown fence, when an unterminated start tag appears later (`PreTagFeedbackAfterMarkdown`).
- The fence is not anchored to the start of a line.
- A fence whose body is only white space passes the body test. It gives empty code but
  still sets the language and can still fill the feedback.
- When nothing is found, the feedback is the raw, untrimmed response, which may be empty.
- The prompt asks the model to close the code with `<REVISED_CODE_END>`. The parser
  looks for `</REVISED_CODE_END>`. The model uses the parser's literal.

## Model

| member | source | states |
|---|---|---|
| ReviewParser.Initial | App.tsx:33-35 | before any attempt the feedback and code are empty and the language is the selected one lower-cased |
| ReviewParser.Extract | App.tsx:42-95 | the four attempts run in source order, tagged feedback, tagged code, markdown fence, text before the start tag, each on what the previous one left |
| ReviewParser.HandleReviewResponse | App.tsx:33-108 | running the four attempts on the mutable locals and then the resolution gives exactly `Interpret(responseText, selectedLanguage)` |
| ReviewParser.FeedbackTagAttempt | App.tsx:43-47 | attempt 1 on the locals equals the tagged-feedback stage |
| ReviewParser.CodeTagAttempt | App.tsx:50-59 | attempt 2 on the locals equals the tagged-code stage, given the start-tag match |
| ReviewParser.MarkdownAttempt | App.tsx:62-79 | attempt 3 on the locals equals the markdown stage |
| ReviewParser.PreTagAttempt | App.tsx:84-95 | attempt 4 on the locals equals the pre-tag stage |
| ReviewParser.FeedbackTagStage | App.tsx:43-47 | leaves code and language alone, and never replaces feedback already found |
| ReviewParser.CodeTagStage | App.tsx:50-59 | leaves the feedback alone, and does nothing once code was found |
| ReviewParser.MarkdownStage | App.tsx:62-79 | runs only while the code is empty, and keeps feedback already found |
| ReviewParser.PreTagStage | App.tsx:84-95 | changes only the feedback, and only while it is empty |
| ReviewParser.CodeFromTagsAlwaysHolds | App.tsx:88 | the `isCodeFromTags` comparison holds for every start-tag match |
| ReviewParser.MissingCodePlaceholder | App.tsx:107 | the code placeholder naming the language is never empty |
| ReviewParser.Resolve | App.tsx:98-108 | with nothing found: the raw response as feedback, the unparsed-code placeholder and the warning; only feedback missing: the fixed feedback text; only code missing: the placeholder naming the language; the warning iff both are missing; the language passes through; the code shown is never empty |
| ReviewParser.Interpret | App.tsx:33-108 | the code shown is never empty; the feedback is empty iff the response is; a warning is raised iff no stage found anything, and then it is the one parse warning and the feedback is the raw response |
| ReviewProperties.TaggedFeedbackWins | App.tsx:43-47 | with both feedback tags in order, the feedback is the trimmed text strictly between them, and when that is non-empty it is what the user sees, without a warning |
| ReviewProperties.OccurrencesDoNotOverlap | App.tsx:45-46 | an end marker found after the start marker lies past its whole text, so the cut never runs backwards |
| ReviewProperties.CodeEndFollowsStartTag | App.tsx:53-55 | when the language value holds no `<`, the code end tag lies after the whole start tag and the code is the trimmed text between them |
| ReviewProperties.StartTagHasNoInnerLt | App.tsx:39 | a start-tag match holds no `<` after its first character when its value holds none |
| ReviewProperties.TaggedCodeWins | App.tsx:50-58 | with both code tags and non-empty code, that code is shown, and the language is the attribute trimmed and lower-cased, or the selected language lower-cased without an attribute |
| ReviewProperties.CodeTagStageLanguage | App.tsx:56-58 | the tagged-code stage sets the language from the attribute exactly when the tags are found and the attribute is present |
| ReviewProperties.FenceStages | App.tsx:62-95 | from a state without code, markdown and pre-tag stages give the trimmed fence body as code, the token's language when the token is non-empty, and the text before the fence as feedback when there was none |
| ReviewProperties.MarkdownFallback | App.tsx:62-69 | without tagged code and with a fenced body, the code is the trimmed body; the language is the token's, else the tag's attribute, else the selected language |
| ReviewProperties.MarkdownFallbackFeedback | App.tsx:70-77 | without tagged feedback or code, non-blank text before a fence at index > 0 becomes the feedback |
| ReviewProperties.PreTagFeedback | App.tsx:84-95 | without tagged feedback, with tagged code and non-blank text before the start tag, that text is the feedback, beside the tagged code and its language |
| ReviewProperties.PreTagFeedbackAfterMarkdown | App.tsx:84-95 | an unterminated start tag after a fence at index 0 still supplies the feedback, while the code comes from the fence |
| ReviewProperties.BlankResponse | App.tsx:98-102 | an empty or all-white-space response is shown verbatim as feedback with the unparsed-code placeholder, the selected language lower-cased and the warning |
| ReviewProperties.BlankHasNoOccurrence | App.tsx:43-51 | no marker is found in a blank response |
| ReviewProperties.LanguageIsLowerCased | App.tsx:35-68 | the language shown never holds an upper-case ASCII letter |
| ReviewProperties.CodeTagStageKeepsLowerCased | App.tsx:56-58 | the tagged-code stage keeps a lower-case language lower-case: it sets one only through `toLowerCase` |
| ReviewProperties.MarkdownStageKeepsLowerCased | App.tsx:67-69 | the markdown stage keeps a lower-case language lower-case: it sets one only through `toLowerCase` |
| ReviewProperties.LanguageDefault | App.tsx:35 | when no start-tag match has an attribute and no fence match has a token, the language is the selected one lower-cased |
| ReviewProperties.UnclosedCodeIsNotRecognised | App.tsx:40-108 | without `</REVISED_CODE_END>` and without a fence, the code shown is one of the two placeholders |
| ReviewProperties.TaggedResponseHasNoFeedbackTags | App.tsx:43-45 | a tagged-code response without other `<` has no feedback tags |
| ReviewProperties.TaggedResponseStartTag | App.tsx:50 | in such a response the start tag is matched at the end of the prose, with its language |
| ReviewProperties.TaggedResponseCodeEnd | App.tsx:51 | in such a response the code end tag is found right after the code |
| ReviewProperties.TaggedResponseStages | App.tsx:43-95 | such a response yields the trimmed prose, the trimmed code and the attribute trimmed and lower-cased |
| ReviewProperties.TaggedResponseResult | App.tsx:33-108 | for every prose, language and code without `<` (language non-empty and without `"`, prose and code not blank), the result is the trimmed prose, the trimmed code and the attribute lower-cased, with no warning |
| ReviewProperties.LooksFineExample | App.tsx:50-95 | the response `Looks fine.` + tagged python `print(1)` gives feedback `Looks fine.`, code `print(1)`, language `python`, no warning |
| Patterns.IsStartTagMatch | App.tsx:39 | what the start-tag pattern matches: the tag head, then either `>` with no capture, or one or more white-space characters, `language="`, a non-empty value without `"` as the capture, and `">` |
| Patterns.IsFenceMatch | App.tsx:63 | what the fence pattern matches: three backticks, a run of word characters as the token, a run of white space ending in a newline, then a body up to a newline followed by three backticks, anywhere in the text |
| Patterns.TriedFirst | App.tsx:63 | the order a backtracking engine tries fence matches in: lower index, then longer token, then longer white-space run, then shorter body |
| Patterns.MatchStartTag | App.tsx:39 | returns a start-tag match at the leftmost position where one exists, and nothing only when there is none |
| Patterns.StartTagAtComplete | App.tsx:39 | at a position where the tag matches, the attribute form is tried first and the attempt returns that match |
| Patterns.StartTagMatchUnique | App.tsx:39 | at one position the pattern has at most one match |
| Patterns.MatchFence | App.tsx:63-64 | returns the fence match a backtracking engine picks: leftmost, then longest token, longest white-space run, shortest body; nothing only when there is no match |
| Patterns.FenceAtFirst | App.tsx:63 | at a position where the fence matches, the attempt finds the match tried first there |
| JsStrings.IsSpace | App.tsx:39-66 | the white-space and line-terminator set of JavaScript, used alike by `trim` and by the regex class `\s` |
| JsStrings.IndexOf | App.tsx:43-44 | the first occurrence of the marker, or -1 when there is none |
| JsStrings.Substring | App.tsx:46 | `substring` with bounds in order is the slice, and with bounds reversed the swapped slice |
| JsStrings.Trim | App.tsx:46 | the trimmed text is empty iff the input is blank, and otherwise starts and ends with non-white-space |
| JsStrings.TrimBetween | App.tsx:55 | trimming text with white space only outside [lo, hi) and non-white-space at both ends gives exactly s[lo..hi] |
| JsStrings.ToLower | App.tsx:35 | same length, each character lower-cased |

## Left out

- The React component around the cascade: rendering, `useState`/`useCallback`, the
  loading flag, the empty-input check before the request and `handleClear`. These are
  user interface, not parsing.
- `reviewCodeWithGemini`: a network call whose source is not part of this model. Its
  resolved text is the input `responseText`. Its failure path (the `catch` branch) is
  not modelled.
- `setReviewResult` and `setError`: modelled as the returned `ReviewResult` and warning
  rather than as state updates. The error is cleared before each request, so no warning
  stands for a cleared error.
- The prompt text and language list of `constants.ts`: data, not logic.
- JsStrings.ToLower: lower-cases ASCII letters only, not the full Unicode case mapping
  of `toLowerCase`.
- Strings are sequences of Unicode scalar values rather than UTF-16 code units. The
  outputs that depend on positions (the feedback, code and token cut from the response)
  are cut at ASCII markers and fences and at white space, each of these characters a
  single UTF-16 code unit. Counting code units or scalar values gives the
  same cuts, and so the same results. The placeholder texts and the lower-cased
  language do not depend on positions at all.
- Responses holding an unpaired surrogate code unit: a JavaScript string can hold one,
  a Dafny `char` cannot, so such responses are not representable in this model.
- ReviewProperties.CodeEndFollowsStartTag: assumes the language value holds no `<`. With
  such a character the end tag can fall inside the start tag, and `substring` then swaps
  its bounds. `Interpret` models that case; this lemma does not describe it.
