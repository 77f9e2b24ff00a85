# Customer-behaviour signals and LLM JSON extraction, in Dafny

This project models the deterministic core of a loyalty-analytics pipeline.
The other stages of the pipeline call a large language model. This core does not.

- **Behaviour agent** (`src/agents/behavior_agent.py`). It turns a purchase history into behavioural signals:
  - the month keys it reads are `"month_1"` (the baseline) and `"month_3"` (the recent month);
  - it reports which product categories disappeared and which emerged;
  - it counts the items in each of the two months;
  - it gives a velocity trend, which is Increasing, Decreasing or Stable;
  - it gives a quality shift, which is `"Stable"` or `"<baseline> → <recent>"`.

  A basket's quality class comes from `_classify_quality`. Each item whose lower-cased name contains a premium keyword adds one premium hit. Each item that contains a value keyword adds one value hit. The larger count wins. A tie is Neutral.
- **Raising JSON extractor** (`src/utils/json_utils.py`, `clean_llm_json`). It raises on empty output. Otherwise:
  1. it deletes every "```json" and "```" marker in one regular-expression scan;
  2. it strips whitespace;
  3. it returns the greedy `\{.*\}` match: the text from the first `{` to the last `}` after it.

  It raises when there is no such match.
- **Lenient JSON extractor** (`src/utils/json_cleaner.py`, `clean_llm_json`). It returns `""` instead of raising. It strips the text. Only when the text then starts with "```" does it delete the markers, with two `str.replace` calls, and strip again. It then slices from `find("{")` to `rfind("}")`.

Modules:

- `Wrappers`: `Option` and `Result`.
- `Text`: the Python string operations the core uses:
  - `str.strip`, with the full `str.isspace` set;
  - `str.lower`;
  - `in`, `find`, `rfind`;
  - clamped slicing;
  - `str.replace(p, "")`.
- `BraceSpan`: what a `\{.*\}` match is. It is defined independently of any search, as a predicate on positions. It also holds the lemmas showing that the cleaning steps keep every brace.
- `JsonUtils`: the raising extractor.
- `JsonCleaner`: the lenient extractor.
- `JsonVariants`: where the two extractors agree and where they differ.
- `BehaviorAgent`: the signals.

`ClassifyQuality` is the source's counting loop, written as a method. It is proved equal to the specification function `QualityOf`, and `Analyze` is stated in terms of `QualityOf`.

## Model

| member | source | states |
|---|---|---|
| BehaviorAgent.PremiumKeywords | src/agents/behavior_agent.py:6-9 | no contract of its own: the eight premium keywords of lines 6-9, in order |
| BehaviorAgent.ValueKeywords | src/agents/behavior_agent.py:11-14 | no contract of its own: the seven value keywords of lines 11-14, in order |
| BehaviorAgent.Hits | src/agents/behavior_agent.py:90-97 | the number of items in a basket that mention a keyword of the list; each item counts at most once, so the count never exceeds the basket size |
| BehaviorAgent.Mentions | src/agents/behavior_agent.py:91-96 | no contract of its own: `any(k in name for k in keywords)` on the lower-cased item name; `MentionsIgnoresCase`, `NotPremium`, `NotValue` and `MentionsPrefix` state when it holds |
| BehaviorAgent.QualityOf | src/agents/behavior_agent.py:81-103 | no contract of its own: `_classify_quality` as a function, `Classify` of the premium and value hit counts; `ClassifyQuality` is proved to compute it |
| BehaviorAgent.HitsStep | src/agents/behavior_agent.py:93-97 | adding an item raises a counter by exactly one when its lower-cased name contains one of the keywords, and by zero otherwise |
| BehaviorAgent.Classify | src/agents/behavior_agent.py:99-103 | Premium iff premium hits exceed value hits, Value iff value hits exceed premium hits, Neutral iff they are equal (zero and zero included) |
| BehaviorAgent.ClassifyQuality | src/agents/behavior_agent.py:81-103 | the loop over the items returns the label of the basket's classification as the hit counts define it |
| BehaviorAgent.MentionsIgnoresCase | src/agents/behavior_agent.py:91 | keyword matching ignores the case of the item name |
| BehaviorAgent.NotPremium | src/agents/behavior_agent.py:6-9 | a name without any of the letters g, m, t, w, h, l (either case) mentions no premium keyword |
| BehaviorAgent.NotValue | src/agents/behavior_agent.py:11-14 | a name without any of the letters v, b, t, f, y (either case) mentions no value keyword |
| BehaviorAgent.MentionsPrefix | src/agents/behavior_agent.py:91-97 | a name that starts with one of the (lower-case) keywords mentions that list |
| BehaviorAgent.OnlyPremium | src/agents/behavior_agent.py:99-100 | a one-item basket that mentions premium keywords and no value keyword is Premium |
| BehaviorAgent.OnlyValue | src/agents/behavior_agent.py:101-102 | a two-item basket whose items both mention value keywords and no premium keyword is Value |
| BehaviorAgent.TieIsNeutral | src/agents/behavior_agent.py:93-103 | "Organic Frozen Peas" adds one hit to each counter, so its basket is Neutral |
| BehaviorAgent.Trend | src/agents/behavior_agent.py:51-56 | Decreasing iff the recent count is smaller, Increasing iff larger, Stable iff equal |
| BehaviorAgent.Shift | src/agents/behavior_agent.py:64-67 | the shift is "Stable" exactly when the two classifications are equal |
| BehaviorAgent.LabelPairInjective | src/agents/behavior_agent.py:65 | two "A → B" strings are equal iff their classifications are pairwise equal |
| BehaviorAgent.ShiftIsFaithful | src/agents/behavior_agent.py:61-67 | a shift is never "X → X", and a non-Stable shift determines both classifications |
| BehaviorAgent.Analyze | src/agents/behavior_agent.py:24-79 | a category disappeared iff it was bought in month_1 and not in month_3, and emerged iff the reverse; the counts are the basket sizes; the velocity label is "Increasing", "Decreasing" or "Stable" exactly as the recent basket is larger, smaller or equal in size; the shift is "Stable" iff the qualities are equal and otherwise "<baseline> → <recent>" |
| BehaviorAgent.CategoriesAreBought | src/agents/behavior_agent.py:39-40 | the category set is exactly the categories something in the basket was bought in |
| BehaviorAgent.Period | src/agents/behavior_agent.py:33-34 | no contract of its own: `purchase_history.get(key, [])`, the stored basket or the empty one; `AbsentPeriods` states the missing case |
| BehaviorAgent.Categories | src/agents/behavior_agent.py:39-40 | no contract of its own: the set of the basket's categories; `CategoriesAreBought` states what it holds |
| BehaviorAgent.CategoryDifferences | src/agents/behavior_agent.py:42-43 | disappeared categories are baseline categories missing from the recent month, emerged ones the reverse, and no category is both |
| BehaviorAgent.AbsentPeriods | src/agents/behavior_agent.py:33-34 | a history with neither month gives empty differences, Stable velocity, "Stable" shift and zero counts |
| BehaviorAgent.KaleIsPremium | src/agents/behavior_agent.py:6-9 | "organic kale" mentions a premium keyword |
| BehaviorAgent.FrozenIsValue | src/agents/behavior_agent.py:11-14 | "frozen pizza" and "frozen fries" mention a value keyword |
| BehaviorAgent.ScenarioQualities | src/agents/behavior_agent.py:81-103 | a basket with only organic kale is Premium, and a basket of frozen pizza and frozen fries is Value |
| BehaviorAgent.ScenarioCategories | src/agents/behavior_agent.py:39-40 | the categories of those baskets are {"produce"} and {"frozen"} |
| BehaviorAgent.ScenarioSignals | src/agents/behavior_agent.py:24-79 | baskets with those qualities, categories and sizes give produce disappearing, frozen emerging, Increasing velocity and the shift "Premium → Value" |
| BehaviorAgent.Scenario | src/agents/behavior_agent.py:24-79 | the worked example: organic kale in month_1 and two frozen items in month_3 give exactly those signals |
| Text.IsSpace | src/utils/json_cleaner.py:8 | no contract of its own: the characters `str.isspace()` accepts, which `str.strip()` removes here and at src/utils/json_utils.py:16: the ASCII whitespace controls, the information separators U+001C-U+001F, U+0085, and the Unicode space and line/paragraph separators |
| Text.Strip | src/utils/json_cleaner.py:8 | the result is never longer than the input, is empty iff the input is all whitespace, and otherwise has no whitespace at either end |
| Text.StripInfix | src/utils/json_cleaner.py:8 | the input is the leading whitespace, then the stripped text, then the trailing whitespace |
| Text.StripAround | src/utils/json_cleaner.py:8 | strip only trims the text around a part that has non-whitespace ends, never cutting into it |
| Text.StripUnchanged | src/utils/json_cleaner.py:8 | text with non-whitespace ends is left unchanged |
| Text.StripFrame | src/utils/json_cleaner.py:12 | stripping whitespace-framed text with non-whitespace ends gives that text |
| Text.StripKeepsPrefix | src/utils/json_cleaner.py:8 | text starting with non-whitespace keeps its prefix up to any non-whitespace character |
| Text.StripNotContains | src/utils/json_utils.py:16 | stripping cannot create an occurrence of a substring |
| Text.Lower | src/agents/behavior_agent.py:91 | `str.lower()` on ASCII: the same length, each character folded on its own, upper-case ASCII letters to lower case and every other character unchanged |
| Text.LowerIdempotent | src/agents/behavior_agent.py:91 | lower-casing twice is lower-casing once |
| Text.Contains | src/agents/behavior_agent.py:93 | no contract of its own: Python's `k in name`, some position where the name reads `k`; `NotContainsMissingChar` and `LowerOccurs` state when it holds |
| Text.LowerOccurs | src/agents/behavior_agent.py:91 | a part of the name that lower-cases to a keyword puts that keyword into the lower-cased name |
| Text.Find | src/utils/json_cleaner.py:15 | -1 iff the character is absent, otherwise the index of its first occurrence |
| Text.RFind | src/utils/json_cleaner.py:16 | -1 iff the character is absent, otherwise the index of its last occurrence |
| Text.Slice | src/utils/json_cleaner.py:19 | Python slicing: clamped to the text's length and empty when start is not before end |
| Text.RemoveAll | src/utils/json_cleaner.py:12 | `replace(p, "")`: never longer than the input; every character of the result is a character of the input, and every character value of the input that is not in the pattern still occurs in the result |
| Text.RemoveAllCounts | src/utils/json_cleaner.py:12 | `replace(p, "")` only deletes: no character occurs more often afterwards, and a character outside the pattern occurs exactly as often as before |
| Text.RemoveAllSkips | src/utils/json_cleaner.py:12 | a replace passes over text that does not contain the pattern's first character |
| Text.RemoveAllAbsent | src/utils/json_cleaner.py:12 | a replace of an absent pattern changes nothing |
| BraceSpan.BraceSpanUnique | src/utils/json_utils.py:19 | the leftmost-longest `\{.*\}` match is unique |
| BraceSpan.FirstLastDecides | src/utils/json_utils.py:19 | a match exists iff the first '{' comes before the last '}', and every match lies between them |
| BraceSpan.FirstLastSpan | src/utils/json_cleaner.py:15-19 | when the first '{' is before the last '}', the text between them, inclusive, is the match |
| BraceSpan.MatchIffBraces | src/utils/json_utils.py:19 | whether a match exists depends only on the sequence of braces in the text |
| BraceSpan.StripKeepsBraces | src/utils/json_utils.py:16 | stripping keeps every brace, in order |
| BraceSpan.RemoveAllKeepsBraces | src/utils/json_cleaner.py:12 | deleting a brace-free pattern keeps every brace, in order |
| JsonUtils.RemoveFences | src/utils/json_utils.py:16 | the one-scan deletion of "```json" and "```" never lengthens the text; every character of the result is a character of the input, and every character value of the input outside "```json" still occurs in the result |
| JsonUtils.RemoveFencesCounts | src/utils/json_utils.py:16 | fence removal only deletes: no character occurs more often afterwards, and a character that is not a backtick or a letter of "json" occurs exactly as often as before |
| JsonUtils.Cleaned | src/utils/json_utils.py:16 | no contract of its own: fence removal followed by strip, the text line 19 searches; `CleaningKeepsBraces`, `CleanedHasNoFence` and `CleaningDecides` state its properties |
| JsonUtils.RemoveFencesKeepsBraces | src/utils/json_utils.py:16 | fence removal keeps every brace, in order |
| JsonUtils.FencesGone | src/utils/json_utils.py:16 | no "```" survives fence removal, not even one formed by joining the pieces around a deletion |
| JsonUtils.RemoveFencesAbsent | src/utils/json_utils.py:16 | text without "```" is left unchanged |
| JsonUtils.RemoveFencesSkips | src/utils/json_utils.py:16 | a backtick-free prefix passes through fence removal unchanged |
| JsonUtils.SearchBraces | src/utils/json_utils.py:19 | no match iff there is no `{…}` span; otherwise the match starts at the leftmost '{' with a later '}' and ends at the last '}' |
| JsonUtils.Extract | src/utils/json_utils.py:19-24 | fails only with the no-object error, fails exactly when there is no match, and otherwise returns the match |
| JsonUtils.CleanLlmJson | src/utils/json_utils.py:6-24 | the empty-output error iff the input is None or empty; the no-object error iff non-empty output has no '{' before a later '}'; otherwise the `{…}` span of the cleaned text |
| JsonUtils.FailureMessages | src/utils/json_utils.py:12-22 | None or empty output is rejected with "Empty LLM output", and output without a match with "No valid JSON object found in LLM output" |
| JsonUtils.CleaningDecides | src/utils/json_utils.py:16-22 | whether the cleaned text holds a match is decided by the raw output |
| JsonUtils.CleaningKeepsBraces | src/utils/json_utils.py:16 | cleaning keeps every brace of the raw output, in order |
| JsonUtils.SearchFindsCore | src/utils/json_utils.py:19 | in brace-free text around a `{…}`, the search matches exactly that object |
| JsonUtils.ExtractsCore | src/utils/json_utils.py:16-24 | when fence removal leaves an object in brace-free prose, the result is the object and the prose is discarded |
| JsonUtils.RemoveFencesAroundObject | src/utils/json_utils.py:16 | on prose, a ```json-fenced object and more prose, fence removal deletes the opening marker, keeps the leading prose, the two newlines and the object, and fence-removes the closing part (so a closing "```" followed by "json" loses that "json" too) |
| JsonUtils.RoundTrip | src/utils/json_utils.py:12-24 | an object fenced as ```json, each marker on its own line, with brace-free prose around it, comes back unchanged |
| JsonUtils.ResultHasNoFence | src/utils/json_utils.py:16-24 | a successful result contains no "```" |
| JsonUtils.FencelessObjectFixed | src/utils/json_utils.py:12-24 | an object containing no "```" is its own result |
| JsonUtils.Idempotent | src/utils/json_utils.py:12-24 | cleaning a successful result again returns it unchanged |
| JsonUtils.RejectedWithoutPair | src/utils/json_utils.py:19-22 | non-empty output with no '}' after its first '{' is rejected with the no-object error |
| JsonCleaner.Preprocess | src/utils/json_cleaner.py:8-12 | the strip, and the conditional double replace, never lengthen the text and keep every brace in order |
| JsonCleaner.Extract | src/utils/json_cleaner.py:15-21 | the find/rfind slice is non-empty iff the text holds a `{…}` match, and is then that match |
| JsonCleaner.SliceIsSpan | src/utils/json_cleaner.py:15-19 | with both braces present, the slice is empty iff the last '}' precedes the first '{', and is otherwise the match |
| JsonCleaner.CleanLlmJson | src/utils/json_cleaner.py:5-21 | "" for None or empty text; a non-empty result iff the input has a '{' before a later '}', and that result is the match in the processed text |
| JsonCleaner.MissingBraceGivesEmpty | src/utils/json_cleaner.py:15-21 | text lacking '{' or lacking '}' gives "" |
| JsonCleaner.ReversedBracesGiveEmpty | src/utils/json_cleaner.py:15-19 | when the last '}' comes before the first '{', the empty slice "" is returned |
| JsonCleaner.BareObjectFixed | src/utils/json_cleaner.py:8-19 | a text from '{' to '}' is returned whole |
| JsonCleaner.ObjectPassesThrough | src/utils/json_cleaner.py:15-19 | a text whose processing yields a `{…}` returns it whole |
| JsonCleaner.Idempotent | src/utils/json_cleaner.py:5-19 | cleaning a non-empty result again returns it unchanged |
| JsonCleaner.FencedBody | src/utils/json_cleaner.py:11-12 | text starting with "```json" and ending with "```" loses both markers and is stripped |
| JsonCleaner.FencedObject | src/utils/json_cleaner.py:8-12 | processing an object fenced as ```json, each marker on its own line, leaves exactly the object |
| JsonCleaner.RoundTrip | src/utils/json_cleaner.py:5-19 | such a fenced object comes back unchanged |
| JsonCleaner.InnerFenceKept | src/utils/json_cleaner.py:11 | a "```" inside text that starts with neither a backtick nor whitespace survives processing, because the stripped text does not start with "```" and the replaces never run |
| JsonVariants.SameVerdict | src/utils/json_utils.py:12-22 | the raising extractor succeeds exactly when the lenient one returns a non-empty string |
| JsonVariants.CleanedWithoutBackticks | src/utils/json_utils.py:16 | for backtick-free output, cleaning is just stripping |
| JsonVariants.PreprocessWithoutBackticks | src/utils/json_cleaner.py:8-12 | for backtick-free text, processing is just stripping |
| JsonVariants.AgreeWithoutBackticks | src/utils/json_cleaner.py:8-19 | on backtick-free output, both extractors return the same object |
| JsonVariants.RemovesInnerFence | src/utils/json_utils.py:16 | the raising extractor deletes a "```" in the middle of backtick-free text when it is not followed by 'j' |
| JsonVariants.RemovesLoneFence | src/utils/json_utils.py:16 | a "```" not followed by 'j', before backtick-free text, is deleted and the text after it kept |
| JsonVariants.InnerFenceDiverges | src/utils/json_utils.py:16 | for an object with an inner "```", the raising extractor returns it without the marker and the lenient one returns it whole |
| JsonVariants.InnerFenceExample | src/utils/json_cleaner.py:11-19 | `{"a": "```"}` gives `{"a": ""}` from the raising extractor and is returned whole by the lenient one |
| JsonVariants.ScanTakesShortFence | src/utils/json_utils.py:16 | the one-scan removal on "````json" leaves "`json" |
| JsonVariants.ReplacesTakeLongFence | src/utils/json_cleaner.py:12 | the two replaces on "````json" leave "`" |
| JsonVariants.FenceRemovalDiverges | src/utils/json_cleaner.py:12 | the two fence-removal methods disagree on "````json" |

## Left out

- `app.py`, `src/llm/groq_client.py`, `src/agents/life_event_agent.py` and `src/agents/loyalty_strategy_agent.py` are not part of this model. They do prompts, model calls, network I/O and `json.loads`.
- `src/pipeline.py` is not part of this model. It only passes each stage's output to the next stage and collects the three results in a dictionary.
- The extractors return text; whether that text parses as JSON is not modelled, as neither extractor checks it.
- Text.Lower: folds ASCII letters only. Python's `str.lower` also folds non-ASCII letters, and two of them fold to ASCII: U+212A (Kelvin sign) to "k" and U+0130 to "i" followed by U+0307. Keyword matching still agrees with Python because no keyword contains "k" and none ends in "i"; every other non-ASCII fold yields non-ASCII characters, which no keyword contains.
- BehaviorAgent.Analyze: the two category lists are sets, because `list(set)` order in Python is unspecified.
- BehaviorAgent.Analyze: records are typed with `item` and `category` fields. The `KeyError` or `TypeError` the source raises on a malformed record is not modelled.
- `None` for an extractor's input is `Option.None`. Other non-string inputs, which would raise in Python, are not modelled.
- JsonUtils.SearchBraces: models the match the regular expression `\{.*\}` with DOTALL finds (leftmost start, greedy end), not the backtracking engine that finds it.
- The two `clean_llm_json` functions are kept separate, as the code keeps them. Their differences are stated as lemmas in `JsonVariants`, not reconciled.
