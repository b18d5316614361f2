# Theft narrative generator: grammar core in Dafny

This project models the deterministic text logic of a small web tool that
writes theft-incident narratives from templates and checks their grammar.
It has three parts:

- **The suggestion applicator and client score** (`client/src/lib/grammar-utils.ts`).
  It covers the `GrammarIssue` record and applying one suggestion, either by
  splicing its position or by replacing the first occurrence of its
  `original`. It also covers applying a whole list: copy it, stably sort it
  right to left when the first issue carries a position, then fold. Last is
  the word-count based grammar score.
- **The grammar-check endpoint** (`server/routes.ts`).
  - The 400 reply for missing text.
  - The choice between the fallback checker and the language model.
  - The `|| []` / `|| 100` normalisation of the model's reply.
  - The fallback checker itself: whitespace runs, a period before a capital
    letter, six confusable-word rules and repeated `!`/`?`. Issues are
    appended rule by rule and the score starts at 95, loses points per match
    and is clamped.
- **The narrative form** (`client/src/components/TheftNarrativeGenerator.tsx`).
  - The template and label tables and `formatFieldName`.
  - The `replaceAll` loop that fills a template from the form.
  - The grammar-score badge.
  - The loop that splits the narrative into plain and highlighted segments.
  - The component state: the form, the narrative and the issue-panel flag,
    with the change, generate and apply handlers.

The JavaScript built-ins the code relies on are written out on `seq<char>` in
`Strings.dfy`: `indexOf`, `replace` with a string pattern, `replaceAll`,
the `\s` class and `split(/\s+/)`. The stable `Array.prototype.sort` with a
key comparator is in `Sorting.dfy`. Each fixed regular expression of the
fallback checker is a hand-written scanner (`Routes.Pattern`). A global
`match` is the leftmost, non-overlapping scan (`Routes.Spans`,
`Routes.Matches`).

Imperative code stays imperative:
- `applyAllGrammarSuggestions`, `getFallbackGrammarCheck`, the substitution
  loop and the segment loop are methods with loops, each proved equal to a
  specification function.
- The component is a class whose methods update its fields.
- The properties are proved about the specification functions.

Where the code and its design notes disagree, the model follows the code:
- The endpoint rejects only empty text, so whitespace-only text is checked.
- The fallback checker has no capitalisation, plural or bare-"i" rule.

## Model

| member | source | states |
|---|---|---|
| Strings.IndexOf | client/src/components/TheftNarrativeGenerator.tsx:259 | `indexOf(pat, from)` is the first index at or after `from` where `pat` occurs, or -1 when none does; an empty pattern is found at `from` |
| Strings.ReplaceFirst | client/src/lib/grammar-utils.ts:25 | `replace` with a string pattern replaces only the leftmost occurrence and leaves a text without one unchanged |
| Strings.ReplaceFirstChanges | client/src/lib/grammar-utils.ts:25 | replacing an occurring pattern by a different string always changes the text |
| Strings.ReplaceAllUnchanged | client/src/components/TheftNarrativeGenerator.tsx:146 | `replaceAll` leaves a text without an occurrence unchanged |
| Strings.ReplaceAllLeftmost | client/src/components/TheftNarrativeGenerator.tsx:146 | `replaceAll` keeps the text before the leftmost occurrence, puts the replacement in its place and carries on after it, so the occurrences replaced are the leftmost non-overlapping ones |
| Strings.SplitOnWhitespace | client/src/lib/grammar-utils.ts:70 | `split(/\s+/)` yields at least one piece, no piece holds whitespace, and there is exactly one piece iff the text has no whitespace |
| Strings.SplitRoundTrip | client/src/lib/grammar-utils.ts:70 | the pieces of `split(/\s+/)`, joined with non-empty whitespace runs, give the text back; as no piece holds whitespace and no inner piece is empty, those runs are the maximal ones and the pieces are the text between them |
| Sorting.SortBy | client/src/lib/grammar-utils.ts:39-48 | the sort result is a permutation of its input, ordered by the key |
| Sorting.SortByStable | client/src/lib/grammar-utils.ts:39-48 | the sort is stable: the elements with any one key keep their relative order |
| Sorting.StrictlySortedUnique | client/src/lib/grammar-utils.ts:39-48 | with distinct keys the sorted result does not depend on the input order |
| GrammarUtils.ApplyGrammarSuggestion | client/src/lib/grammar-utils.ts:14-26 | empty text is returned as is; a valid position splices `suggestion` over `[start, end)` with the stated length, prefix and suffix, without checking `original`; otherwise only the first occurrence of `original` is replaced, and a text without one is unchanged |
| GrammarUtils.CompareForApply | client/src/lib/grammar-utils.ts:39-48 | the comparator orders exactly as the key "positioned by descending start, then unpositioned" |
| GrammarUtils.ApplyOrder | client/src/lib/grammar-utils.ts:36-49 | the applied order is a permutation of the input; it is the input itself when the first issue has no position, and otherwise every positioned issue comes first, by descending start |
| GrammarUtils.UnpositionedKeepOrder | client/src/lib/grammar-utils.ts:38-48 | after the sort the issues without a position keep their relative order |
| GrammarUtils.ApplyAllGrammarSuggestions | client/src/lib/grammar-utils.ts:31-59 | the loop returns the input text for empty text or no issues, and otherwise folds the single-issue edit over the applied order |
| GrammarUtils.OffsetSafe | client/src/lib/grammar-utils.ts:34-58 | in non-empty text (empty text is returned unchanged), for placed, pairwise disjoint issues with distinct starts, applying the list gives the original snapshot with every span replaced: right-to-left order keeps every stored offset valid |
| GrammarUtils.OrderIndependent | client/src/lib/grammar-utils.ts:34-58 | positioned issues with distinct starts give the same text in whatever order they are listed |
| GrammarUtils.OffsetSafeExample | client/src/lib/grammar-utils.ts:34-58 | "AA BB CC" with [0,2)→"XXX" and [6,8)→"Y" gives "XXX BB Y" in either list order |
| GrammarUtils.FirstOccurrenceExample | client/src/lib/grammar-utils.ts:25 | without a position only the first "cat" of "cat cat cat" becomes "dog" |
| GrammarUtils.WordCount | client/src/lib/grammar-utils.ts:70 | the word count is at least 1 |
| GrammarUtils.Clamp | client/src/lib/grammar-utils.ts:75 | the clamped score lies in [0, 100] and a score already inside is kept |
| GrammarUtils.CalculateGrammarScore | client/src/lib/grammar-utils.ts:64-76 | the score lies in [0, 100]; it is 0 for empty text and 100 for non-empty text without issues |
| GrammarUtils.ScoreOfRatio | client/src/lib/grammar-utils.ts:68-75 | with issues the score is the clamped, rounded 100 − 1000·issues/words |
| GrammarUtils.ScoreFullIff | client/src/lib/grammar-utils.ts:64-76 | with issues the score is 100 exactly when there are at least 2000 words per issue |
| GrammarUtils.ScoreZeroIff | client/src/lib/grammar-utils.ts:64-76 | with issues the score is 0 exactly when 2000·issues > 199·words |
| GrammarUtils.ScoreMonotone | client/src/lib/grammar-utils.ts:64-76 | on the same text more issues never give a higher score |
| Routes.RunLength | server/routes.ts:85 | the run measured at an index consists of class characters and stops at a non-class character or the end |
| Routes.FirstAlt | server/routes.ts:112-117 | the alternative chosen at an index is the first listed one that occurs there |
| Routes.Scan | server/routes.ts:85 | every span found from `from` lies between `from` and the end of the text |
| Routes.SpansSpec | server/routes.ts:85 | a global match yields spans that are matches at their start, are ordered without overlap, and cover every index where the pattern matches |
| Routes.RunSpanIsMaximal | server/routes.ts:85 | each span of `/\s\s+/` or `/[!?]{2,}/` is a maximal run of two or more class characters |
| Routes.MaximalRunIsSpan | server/routes.ts:135 | every maximal run of two or more class characters is one of the spans |
| Routes.PeriodSpan | server/routes.ts:98 | each span of `/\.[A-Z]/` is a period followed by a capital letter |
| Routes.PeriodIsSpan | server/routes.ts:98 | every period followed by a capital letter starts a span |
| Routes.AlternativeSpan | server/routes.ts:111-121 | each confusion span is the first listed context occurring at its start |
| Routes.PushIssues | server/routes.ts:87-93 | the `forEach` appends one issue per match, in match order |
| Routes.RunRule | server/routes.ts:85-95 | a rule block appends its issues and takes its penalty off once per match |
| Routes.RunRules | server/routes.ts:120-132 | the confusion rules run in list order, each appending issues and taking 5 points per match |
| Routes.GetFallbackGrammarCheck | server/routes.ts:74-154 | the checker returns the issues of all rules in rule order and the score 95 minus the penalties, clamped |
| Routes.RulesAppend | server/routes.ts:85-145 | running two lists of rules one after the other concatenates their issues and adds their penalties |
| Routes.IssuesAndPenalty | server/routes.ts:85-145 | the rules emit one issue per match and take between 2 and 5 points per issue |
| Routes.FallbackScore | server/routes.ts:80-152 | the fallback score lies in [0, 95], is 95 exactly when no issue is emitted, and otherwise drops by 2 to 5 points per issue until it reaches 0 |
| Routes.FallbackIssueCount | server/routes.ts:85-145 | the number of issues is the total number of matches, with no de-duplication |
| Routes.FallbackScoreFormula | server/routes.ts:80-152 | the score is max(0, 95 − 2·whitespace runs − 3·period matches − 5·confusion matches − 3·mark runs) |
| Routes.CommonErrorsWellFormed | server/routes.ts:111-118 | every context of each confusion rule contains its wrong word, which differs from the right one |
| Routes.FallbackIssuesSound | server/routes.ts:75-145 | every emitted issue quotes text occurring in the input, suggests something different, has an explanation and carries no position |
| Routes.SpacesIssue | server/routes.ts:85-95 | a whitespace issue quotes a maximal run of two or more whitespace characters and suggests one space |
| Routes.PeriodIssue | server/routes.ts:98-108 | a period issue quotes "." and a capital letter and suggests ". " and that letter |
| Routes.ConfusionIssue | server/routes.ts:111-131 | a confusion issue quotes the first listed context found at its start and suggests it with the first wrong word replaced by the right one |
| Routes.MarksIssue | server/routes.ts:135-145 | a marks issue quotes a maximal run of two or more `!`/`?` and suggests its first mark |
| Routes.FirstAlternativeWins | server/routes.ts:113 | in "their there" the earlier context "their the" wins, and its suggestion is "they're the" |
| Routes.NotWordBounded | server/routes.ts:112 | contexts are not word-bounded: "bits a" yields the match "its a" |
| Routes.Normalise | server/routes.ts:55-56 | missing issues become []; a missing or zero score becomes 100, and any other score is kept |
| Routes.NormaliseIdempotent | server/routes.ts:55-56 | normalising a normalised reply changes nothing |
| Routes.NormaliseScoreInRange | server/routes.ts:55-56 | a model score in [0, 100] or none normalises to a score in [1, 100]; this range is a hypothesis, as the route neither asks for nor checks it |
| Routes.HandleGrammarCheck | server/routes.ts:11-63 | the reply is 400 "Text is required" exactly for missing or empty text; a missing, empty or "sk-123" key, or a failing model call, gives the fallback result; non-string content gives no issues and 100; a parsed reply is normalised |
| Routes.FallbackIgnoresModel | server/routes.ts:20-24 | without a usable key the reply is the fallback result whatever the model would answer |
| Routes.ResponseScoreInRange | server/routes.ts:15-63 | every successful reply has a score in [0, 100] when the model's own score is in that range; the route does not check that range, and an out-of-range model score passes through unchanged |
| Substitution.NoNewPlaceholder | client/src/components/TheftNarrativeGenerator.tsx:143-148 | in text without nested braces, replacing a placeholder by text without `{` creates no placeholder that was not there |
| Substitution.FlatPreserved | client/src/components/TheftNarrativeGenerator.tsx:143-148 | such a replacement keeps the text free of nested braces |
| Substitution.KeepsText | client/src/components/TheftNarrativeGenerator.tsx:143-148 | brace-free text that the placeholder does not contain survives the replacement |
| TheftNarrative.Lookup | client/src/components/TheftNarrativeGenerator.tsx:121 | object lookup yields the value of the first entry with the key, and `undefined` exactly when no entry has it |
| TheftNarrative.FormatFieldName | client/src/components/TheftNarrativeGenerator.tsx:120-122 | a known field name gives its label and any other name gives itself |
| TheftNarrative.LabelsAreText | client/src/components/TheftNarrativeGenerator.tsx:61-77 | no label contains a brace or `[` |
| TheftNarrative.FieldLabel | client/src/components/TheftNarrativeGenerator.tsx:144 | `fieldMappings[key]` in the template literal is the field's label, or "undefined" for a field without one |
| TheftNarrative.PlaceholderFor | client/src/components/TheftNarrativeGenerator.tsx:144 | every placeholder is `{`, a brace-free label, `}`, and holds no `[` |
| TheftNarrative.TheftTypePlaceholder | client/src/components/TheftNarrativeGenerator.tsx:144 | `theftType` has no label, so its placeholder is "{undefined}" |
| TheftNarrative.ValueOrDefault | client/src/components/TheftNarrativeGenerator.tsx:146 | an empty value becomes "[Not Provided]" and any other is kept |
| TheftNarrative.FillTemplate | client/src/components/TheftNarrativeGenerator.tsx:143-148 | the loop replaces every placeholder of each field in turn, in form order, by its value or "[Not Provided]" |
| TheftNarrative.NoPlaceholderSurvives | client/src/components/TheftNarrativeGenerator.tsx:143-148 | in a template without nested braces, filled with values without `{` (replacements taken literally), no placeholder of any form field survives |
| TheftNarrative.UnbracedTextKept | client/src/components/TheftNarrativeGenerator.tsx:143-148 | brace-free text that no placeholder contains survives substitution |
| TheftNarrative.InsertMarkerKept | client/src/components/TheftNarrativeGenerator.tsx:143-148 | "[insert theft narrative here]" survives substitution whatever the form holds |
| TheftNarrative.NestedPlaceholderSurvives | client/src/components/TheftNarrativeGenerator.tsx:143-148 | without the no-nesting condition a placeholder can survive: "{{Type of Clothing}}" becomes "{Type of Clothing}" |
| TheftNarrative.GrammarScoreBadge | client/src/components/TheftNarrativeGenerator.tsx:213-232 | no badge for a missing or zero score; Excellent from 90, Good from 70 to 89, Needs Work below 70 |
| TheftNarrative.BadgeMonotone | client/src/components/TheftNarrativeGenerator.tsx:217-229 | a higher non-zero score never shows a worse badge |
| TheftNarrative.NormalisedScoreShowsBadge | client/src/components/TheftNarrativeGenerator.tsx:214 | a score normalised from the model's reply is never 0, so it always shows a badge |
| TheftNarrative.Step | client/src/components/TheftNarrativeGenerator.tsx:259-282 | one turn never moves `lastIndex` back or past the end of the narrative |
| TheftNarrative.StepFinds | client/src/components/TheftNarrativeGenerator.tsx:259-282 | a turn skips the issue exactly when its `original` does not occur from `lastIndex` on; otherwise it highlights the first such occurrence and moves `lastIndex` past it |
| TheftNarrative.RenderHighlightedText | client/src/components/TheftNarrativeGenerator.tsx:242-295 | the loop returns the bare narrative when it or the issue list is empty, and otherwise the segments of the issues sorted by first occurrence, plus the rest of the text |
| TheftNarrative.HighlightTurn | client/src/components/TheftNarrativeGenerator.tsx:259-282 | one turn of the loop: an issue whose text does not occur from `lastIndex` on is skipped; otherwise the text before it and the issue are pushed and `lastIndex` moves past it (the turn `Step` describes) |
| TheftNarrative.HighlightSpellsNarrative | client/src/components/TheftNarrativeGenerator.tsx:242-295 | the rendered segments concatenate to exactly the narrative |
| TheftNarrative.HighlightsFollowIssues | client/src/components/TheftNarrativeGenerator.tsx:252-283 | the highlighted issues are the sorted issues with some skipped, in order, and each comes from the issue list |
| TheftNarrative.HighlightShape | client/src/components/TheftNarrativeGenerator.tsx:258-292 | no plain segment is empty and no two plain segments are adjacent |
| TheftNarrative.SetFieldLookup | client/src/components/TheftNarrativeGenerator.tsx:125-127 | after a change the field reads the new value and every other field reads as before |
| TheftNarrative.SetFieldOrder | client/src/components/TheftNarrativeGenerator.tsx:125-127 | a change keeps the fields in order and adds a new field only at the end |
| TheftNarrative.TemplatesNonEmpty | client/src/components/TheftNarrativeGenerator.tsx:16-59 | every theft type and every template is non-empty, so `!template` only catches a missing one |
| TheftNarrative.ChosenTypeHasTemplate | client/src/components/TheftNarrativeGenerator.tsx:131-141 | after a listed theft type is chosen, the theft type is set and non-empty, so the narrative can be generated |
| TheftNarrative.NarrativeGenerator.constructor | client/src/components/TheftNarrativeGenerator.tsx:81-104 | the form starts with every field empty in declaration order, no narrative and the issue panel hidden |
| TheftNarrative.NarrativeGenerator.HandleChange | client/src/components/TheftNarrativeGenerator.tsx:125-127 | a change sets one form field and nothing else |
| TheftNarrative.NarrativeGenerator.GenerateNarrative | client/src/components/TheftNarrativeGenerator.tsx:130-166 | an empty theft type or one without a template changes nothing; otherwise the narrative becomes the filled template and the panel shows exactly when the issues held at the start were non-empty |
| TheftNarrative.NarrativeGenerator.ApplySuggestion | client/src/components/TheftNarrativeGenerator.tsx:175-180 | with an index inside the issue list, the narrative becomes the chosen suggestion applied to it; with no issues, or an index outside the list (the issue is `undefined` and `applyGrammarSuggestion` returns the text), it is unchanged; the form and the list's visibility are untouched |
| TheftNarrative.NarrativeGenerator.ApplyAllSuggestions | client/src/components/TheftNarrativeGenerator.tsx:183-190 | with issues listed, the narrative becomes all suggestions applied to it and the panel is hidden; with none nothing changes |

## Left out

- The language-model call: the OpenAI client, the request, `JSON.parse` and the HTTP server wiring are network I/O. The model's answer is an input (`Routes.ModelReply`). The 500 reply for an error outside the model call is not modelled.
- The grammar-check hook (`client/src/hooks/use-grammar-check.ts` is not part of this model). Its issues and score are inputs of the component's methods. The `await` inside `generateNarrative` is not modelled; the handler reads the issue list it held when it started.
- `shared/schema.ts` is not part of this model: the zod and drizzle schemas are declarative.
- UI: JSX markup, the badge emoji, widget props, the clipboard, timers and toasts. A toast is modelled as the outcome `TheftTypeRequired`.
- `Routes.HandleGrammarCheck`: a request `text` that is not a string is not modelled; the text is a string or missing.
- `Strings.ReplaceFirst`, `Strings.ReplaceAll`, `TheftNarrative.FillTemplate` and `TheftNarrative.NoPlaceholderSurvives`: the `$` substitution patterns of a replacement string are not modelled; replacements are taken literally. The form values are user input passed as replacements, so a value such as `$&` would put the placeholder back in the program, and `NoPlaceholderSurvives` does not hold there.
- `Strings.ReplaceAll`: an empty pattern is excluded by its precondition. Every placeholder has at least two characters, so the model never needs it.
- `GrammarUtils.ApplyGrammarSuggestion`: positions are natural numbers, so negative or fractional offsets are not modelled. Offsets past the end are clamped as `substring` does.
- `GrammarUtils.CalculateGrammarScore`: exact rational arithmetic with halves rounded up; floating-point artefacts near .5 are not modelled.
- `GrammarUtils.CalculateGrammarScore`, `Routes.HandleGrammarCheck` and `TheftNarrative.GrammarScoreBadge`: scores are integers, so a fractional or NaN score from the model is not modelled.
- `TheftNarrative.NoPlaceholderSurvives`: it takes "no nested braces" as a hypothesis on the template. It is not proved for each of the 21 template literals, because the verifier does not unfold predicates over literals that long. `TheftNarrative.NestedPlaceholderSurvives` shows that the hypothesis is needed.
- `TheftNarrative.Lookup`: JavaScript object lookup also finds inherited properties such as "constructor"; only the listed keys are modelled.
- `TheftNarrative.NarrativeGenerator.ApplySuggestion`: the index is an integer; a fractional index, which also reads `undefined` and so leaves the narrative unchanged, is not modelled.
- `GrammarUtils.ApplyGrammarSuggestion`, `Strings.IndexOf` and the rule spans: offsets and lengths count characters (Unicode scalar values), while JavaScript counts UTF-16 code units, so positions differ from the source's after any character outside the Basic Multilingual Plane, such as an emoji.
- `TheftNarrative.RenderHighlightedText`: the grammar issue list is a sequence; a `null` list is not modelled, and only the empty list takes the trivial path.
- `Routes.NormaliseScoreInRange` and `Routes.ResponseScoreInRange`: both take the model's score in [0, 100] as a hypothesis. The prompt asks only for a number and the route does not check its range, so a score outside [0, 100] from the model passes through unchanged (as `Routes.Normalise` states). A score of 0 from the model is reported as 100, as the code does.
- `handleGrammarCheck`, `copyToClipboard` and `dismissGrammarError` are not modelled: they only forward to the hook, the clipboard or nothing.
