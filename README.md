# ABG Insights session logic in Dafny

This project models the deterministic core of an Android app that interprets
arterial blood gas (ABG) readings with a generative model. It covers three parts:

- **Measurement validation** (`abg_data.dfy`, module `AbgData`). `AbgData.isValid` is five closed-range checks on a
  reading of reals. The `AbgAnalysis` record is modelled with its default field values.
- **Reply section parser** (`gemini_service.dfy`, module `GeminiService`). `parseFullAnalysis` splits the model's reply
  into interpretation, suggested conditions and treatment recommendations.
  - Each section's regex `##\s*LABEL\s*(.+?)(?=##|$)` (DOT_MATCHES_ALL, leftmost `find`) is a scan over `seq<char>`:
    `MatchAt` tries the regex at one index and `FindFrom` takes the leftmost index where it matches.
  - The model keeps the regex semantics of OpenJDK's `java.util.regex.Pattern`: `\s` is `[ \t\n\x0B\f\r]`, and `$` also matches before a final line terminator.
    A greedy `\s*` gives one character back when it runs to the end of the text.
  - Kotlin's `trim()` (`kotlin_text.dfy`, module `KotlinText`) uses Kotlin's own, wider notion of whitespace.
  - The error wrapping of `performFullAnalysis` is a function from the model's reply (text, null text, or exception) to a `Result`.
  - `section_parser_facts.dfy` (module `SectionParserFacts`) proves what the parser does on well-formed replies and on the odd ones.
- **Session state** (`abg_view_model.dfy`, module `ViewModel`). `AbgViewModel` is a class with the four state fields of
  the Kotlin view model: current analysis, history (most recent first), loading flag and error text. Its methods change
  those fields in place.
  - The coroutine of `analyzeAbg` is split into `AnalyzeAbg` (validation and the pending record) and the step that runs
    when the model call returns: `Complete`, `Fail`, or `Resolve`, which chooses between them via `PerformFullAnalysis`.
  - The analysis id and timestamp, which the app draws from `UUID.randomUUID()` and `Date()`, are parameters.
  - `Valid()` states that the history holds only finished (not loading) records; every method keeps it.

Where the code differs from what one might expect, the model follows the code:

- `analyzeAbg` has no guard against a second analysis while one is in flight.
- `loadAnalysis` with an unknown id sets the current analysis to null. It is not a no-op.
- A failure copies the current record only if it is non-null, and a failed record never enters the history.
- A late completion overwrites the current analysis even if it was cleared in the meantime.
- A null exception message is rendered by the string template as `"null"`.

## Model

| member | source | states |
|---|---|---|
| AbgData.IsValid | app/src/main/java/com/medical/abginsights/data/model/AbgData.kt:15-21 | `isValid()`: the five closed-range checks joined by `&&`; what it accepts and rejects is stated by the lemmas below |
| AbgData.ValidIffEveryFieldInRange | app/src/main/java/com/medical/abginsights/data/model/AbgData.kt:15-21 | a reading is valid exactly when each of its five fields lies in its closed range (pH 6.8..7.8, pCO2 10..100, HCO3 5..50, PaO2 40..600, BE -30..30) |
| AbgData.OneFieldOutOfRangeInvalidates | app/src/main/java/com/medical/abginsights/data/model/AbgData.kt:16-20 | any one field outside its range makes the reading invalid, whatever the other fields are |
| AbgData.BoundaryReadingsValid | app/src/main/java/com/medical/abginsights/data/model/AbgData.kt:16-20 | the bounds are inclusive: the all-lower-bounds and all-upper-bounds readings are valid |
| AbgData.JustOutsideInvalid | app/src/main/java/com/medical/abginsights/data/model/AbgData.kt:16-20 | a field just below or just above its range (6.79/7.81, 9.99/100.01, 4.99/50.01, 39.99/600.01, -30.01/30.01) makes the reading invalid |
| AbgData.ValidityDependsOnlyOnFields | app/src/main/java/com/medical/abginsights/data/model/AbgData.kt:8-21 | two readings with the same five field values are both valid or both invalid |
| AbgData.WithDefaults | app/src/main/java/com/medical/abginsights/data/model/AbgData.kt:27-37 | `AbgAnalysis(abgData = d, timestamp = t)` with every other field at its declared default; `DefaultsAreBlank` states what those defaults are |
| AbgData.DefaultsAreBlank | app/src/main/java/com/medical/abginsights/data/model/AbgData.kt:27-37 | a record built from its defaults has empty id, user id and three texts, is not loading and has no error |
| KotlinText.PatternSpaceIsWhitespace | src/main/java/com/medical/abginsights/ai/GeminiService.kt:192-200 | every character the regex `\s` skips is also whitespace to `trim()` |
| KotlinText.Trim | src/main/java/com/medical/abginsights/ai/GeminiService.kt:196-200 | Kotlin's `trim()` with Kotlin's notion of whitespace; `TrimSplits` and `TrimOfPadded` pin down its result |
| KotlinText.TrimStart | src/main/java/com/medical/abginsights/ai/GeminiService.kt:196-200 | `trim()` cuts off the longest whitespace prefix: it ends at the first non-whitespace character |
| KotlinText.TrimEnd | src/main/java/com/medical/abginsights/ai/GeminiService.kt:196-200 | `trim()` cuts off the longest whitespace suffix: it starts after the last non-whitespace character |
| KotlinText.TrimSplits | src/main/java/com/medical/abginsights/ai/GeminiService.kt:196-200 | the trimmed text is a slice with only whitespace before and after it, and it neither starts nor ends with whitespace |
| KotlinText.TrimOfPadded | src/main/java/com/medical/abginsights/ai/GeminiService.kt:196-200 | whatever whitespace surrounds a core without whitespace at its ends, trimming returns exactly that core |
| KotlinText.TrimOfInner | src/main/java/com/medical/abginsights/ai/GeminiService.kt:196-200 | trimming ignores whitespace already cut off either end |
| KotlinText.TrimOfPrefix | src/main/java/com/medical/abginsights/ai/GeminiService.kt:196-200 | dropping trailing whitespace before trimming changes nothing |
| KotlinText.TrimIdempotent | src/main/java/com/medical/abginsights/ai/GeminiService.kt:196-200 | trimming twice is trimming once |
| KotlinText.IsPatternSpace | src/main/java/com/medical/abginsights/ai/GeminiService.kt:192-194 | the regex class `\s` of OpenJDK's `Pattern` without UNICODE_CHARACTER_CLASS: exactly space, tab, line feed, vertical tab, form feed and carriage return |
| KotlinText.IsWhitespace | src/main/java/com/medical/abginsights/ai/GeminiService.kt:196-200 | Kotlin's `Char.isWhitespace()`, the whitespace `trim()` removes: `Character.isWhitespace` or `Character.isSpaceChar`, that is U+0009..U+000D, U+001C..U+0020, U+00A0, U+1680, U+2000..U+200A, U+2028, U+2029, U+202F, U+205F and U+3000 |
| GeminiService.DollarAt | src/main/java/com/medical/abginsights/ai/GeminiService.kt:192-194 | `$` without MULTILINE: at the end of the text, before a final line terminator (`\n`, `\r`, U+0085, U+2028, U+2029, but not the `\n` of a final `\r\n`), or before a final `\r\n` |
| GeminiService.LookaheadAt | src/main/java/com/medical/abginsights/ai/GeminiService.kt:192-194 | the lookahead after the lazy group: `##` starts at the index, or `$` holds there |
| GeminiService.SkipSpace | src/main/java/com/medical/abginsights/ai/GeminiService.kt:192-194 | greedy `\s*` stops at the first character that is not regex whitespace |
| GeminiService.LazyEnd | src/main/java/com/medical/abginsights/ai/GeminiService.kt:192-194 | the lazy group ends at the first following `##` or end-of-input anchor, and at no earlier index |
| GeminiService.GroupAfterLabel | src/main/java/com/medical/abginsights/ai/GeminiService.kt:192-194 | the regex tail `\s*(.+?)` and its lookahead after a matched label: greedy `\s*`, giving back one character when it reaches the end, then the lazy group |
| GeminiService.MatchAt | src/main/java/com/medical/abginsights/ai/GeminiService.kt:192-194 | the whole section regex tried at one start index: `##`, `\s*`, the label, then the tail |
| GeminiService.FindFrom | src/main/java/com/medical/abginsights/ai/GeminiService.kt:196-201 | `Regex.find`: the match at the leftmost start index; `FindIsLeftmost` and `NoMatchFindsNothing` state this |
| GeminiService.Slot | src/main/java/com/medical/abginsights/ai/GeminiService.kt:196-201 | one slot: the trimmed group, or the section's fallback text when nothing matches |
| GeminiService.ParseFullAnalysis | src/main/java/com/medical/abginsights/ai/GeminiService.kt:191-204 | the three slots in order; the `SectionParserFacts` lemmas state what they are for each layout of reply |
| GeminiService.PerformFullAnalysis | src/main/java/com/medical/abginsights/ai/GeminiService.kt:176-185 | a reply with text succeeds with the parsed sections; a null text fails with "No response generated"; an exception fails with its message (a null one rendered "null"); every failure starts with "Failed to perform full analysis: " |
| SectionParserFacts.FindIsLeftmost | src/main/java/com/medical/abginsights/ai/GeminiService.kt:196-200 | `find` returns the match at the leftmost index where the regex matches |
| SectionParserFacts.NoMatchFindsNothing | src/main/java/com/medical/abginsights/ai/GeminiService.kt:196-200 | where the regex matches at no index, `find` gives null |
| SectionParserFacts.OtherHeadingNoMatch | src/main/java/com/medical/abginsights/ai/GeminiService.kt:192-194 | a heading for another label does not match a section's regex |
| SectionParserFacts.LazyEndAtPair | src/main/java/com/medical/abginsights/ai/GeminiService.kt:192-194 | the captured group stops at the first following `##` |
| SectionParserFacts.LazyEndAtTail | src/main/java/com/medical/abginsights/ai/GeminiService.kt:192-194 | with no `##` left and a text that does not end in U+0085, what the group leaves at the end of the text is whitespace |
| SectionParserFacts.HeadingMatch | src/main/java/com/medical/abginsights/ai/GeminiService.kt:192-194 | at `##`, any regex whitespace and the label, the regex continues right after the label |
| SectionParserFacts.BodyGroup | src/main/java/com/medical/abginsights/ai/GeminiService.kt:192-194 | a well-formed body (no `#`, some text that is not regex whitespace, no final U+0085) that ends the text or is followed by `##` and more gives a group that is that body less leading regex whitespace and trailing whitespace |
| SectionParserFacts.FoundAtHeading | src/main/java/com/medical/abginsights/ai/GeminiService.kt:192-196 | with no earlier match, `find` returns the group that follows a heading's label |
| SectionParserFacts.GroupFound | src/main/java/com/medical/abginsights/ai/GeminiService.kt:192-200 | a heading with a well-formed body and no earlier match is where `find` matches |
| SectionParserFacts.SectionBody | src/main/java/com/medical/abginsights/ai/GeminiService.kt:192-200 | the slot found at such a heading is the trimmed body |
| SectionParserFacts.FirstOfThree | src/main/java/com/medical/abginsights/ai/GeminiService.kt:192-196 | in a three-heading reply whose first section has a well-formed body (some text that is not regex whitespace, no `#`, no final U+0085), the interpretation regex finds that body |
| SectionParserFacts.SecondOfThree | src/main/java/com/medical/abginsights/ai/GeminiService.kt:193-198 | in a three-heading reply whose second section has a well-formed body (some text that is not regex whitespace, no `#`, no final U+0085), the conditions regex skips the first heading and body and finds that body |
| SectionParserFacts.ThirdOfThree | src/main/java/com/medical/abginsights/ai/GeminiService.kt:194-200 | in a three-heading reply whose third section has a well-formed body (some text that is not regex whitespace, no `#`, no final U+0085), the treatment regex skips the first two headings and bodies and finds that body |
| SectionParserFacts.LabelsAreLabelLike | src/main/java/com/medical/abginsights/ai/GeminiService.kt:192-194 | the three labels are non-empty, hold no `#`, do not start with regex whitespace, and start with different characters |
| SectionParserFacts.WellFormedReplyParses | src/main/java/com/medical/abginsights/ai/GeminiService.kt:191-204 | in a reply with a preamble without `##` (a `# Title` line is allowed), then the three headings in order, each with any whitespace after `##` and a body without `#`, each slot is its trimmed body |
| SectionParserFacts.AbsentLabelFallsBack | src/main/java/com/medical/abginsights/ai/GeminiService.kt:192-201 | a label that never follows `##` and regex whitespace (written in lower case, in bold, or only in prose) leaves its slot at the fallback text |
| SectionParserFacts.NoMarkerFallsBack | src/main/java/com/medical/abginsights/ai/GeminiService.kt:196-201 | a reply without `##` (the empty reply among them) yields the three fallback texts |
| SectionParserFacts.HeadingAtEndNoMatch | src/main/java/com/medical/abginsights/ai/GeminiService.kt:192-194 | for any label, a heading that ends the text, with no match before it, is matched by the regex at no index |
| SectionParserFacts.HeadingAtEndFallsBack | src/main/java/com/medical/abginsights/ai/GeminiService.kt:192-201 | a heading that ends the reply captures nothing and its slot falls back, whatever precedes it as long as the regex does not match there |
| SectionParserFacts.TruncatedReplyFallsBack | src/main/java/com/medical/abginsights/ai/GeminiService.kt:191-204 | a well-formed reply cut off right after its third heading gives the first two trimmed bodies and the treatment fallback |
| SectionParserFacts.BlankSectionIsEmpty | src/main/java/com/medical/abginsights/ai/GeminiService.kt:192-200 | a heading followed only by whitespace yields the empty string, not the fallback, whatever precedes it as long as the regex does not match there |
| SectionParserFacts.BlankLastSection | src/main/java/com/medical/abginsights/ai/GeminiService.kt:191-204 | a well-formed reply whose last section is only whitespace gives the first two trimmed bodies and an empty treatment slot |
| SectionParserFacts.ThirdBlank | src/main/java/com/medical/abginsights/ai/GeminiService.kt:194-200 | in a three-heading text whose last body is blank, the third label's slot is empty |
| SectionParserFacts.GroupOfBlankTail | src/main/java/com/medical/abginsights/ai/GeminiService.kt:192-194 | whitespace to the end of the text: greedy `\s*` gives back its last character, so the group is that one whitespace character |
| SectionParserFacts.BlankFound | src/main/java/com/medical/abginsights/ai/GeminiService.kt:192-196 | for any label, a heading followed only by whitespace, with no earlier match, is where `find` matches, and the group is whitespace |
| SectionParserFacts.EmptySectionRunsOn | src/main/java/com/medical/abginsights/ai/GeminiService.kt:192-200 | a heading followed by whitespace and then `##` takes that `##` and the text after it, up to the next `##` or the end of the text, as its slot; when the piece ends the text, the text does not end in U+0085 |
| SectionParserFacts.GroupOfRunOn | src/main/java/com/medical/abginsights/ai/GeminiService.kt:192-194 | whitespace then `##`: the group starts at that `##` and runs to the next `##`, or to the end of the text less trailing whitespace when the text does not end in U+0085 |
| SectionParserFacts.RunOnFound | src/main/java/com/medical/abginsights/ai/GeminiService.kt:192-200 | for any label, with no earlier match, such a section's trimmed group is the trimmed run-on piece |
| SectionParserFacts.RunOnAt | src/main/java/com/medical/abginsights/ai/GeminiService.kt:192-196 | with no earlier match, `find` matches at a heading followed by whitespace and a run-on piece, and the group is that piece less trailing whitespace |
| SectionParserFacts.FirstRunsOn | src/main/java/com/medical/abginsights/ai/GeminiService.kt:192-196 | in a three-heading text whose first body is blank, the first slot is the second heading and its body, trimmed |
| SectionParserFacts.EmptyFirstSectionRunsOn | src/main/java/com/medical/abginsights/ai/GeminiService.kt:191-204 | a reply whose first section is empty: the interpretation slot is the conditions heading and body, stopping at the treatment `##`; when the second and third sections have well-formed bodies (some text that is not regex whitespace, no `#`, no final U+0085), the other two slots are their trimmed bodies |
| SectionParserFacts.ExtendOverPairFree | src/main/java/com/medical/abginsights/ai/GeminiService.kt:192-196 | a stretch without `##` that is followed by a heading holds no match, not even at a final `#` |
| SectionParserFacts.SlotsTrimmed | src/main/java/com/medical/abginsights/ai/GeminiService.kt:196-201 | no slot, found or fallback, starts or ends with whitespace |
| SectionParserFacts.SlotTrimmed | src/main/java/com/medical/abginsights/ai/GeminiService.kt:196-201 | one slot, found or fallback, has no whitespace at either end |
| ViewModel.Pending | app/src/main/java/com/medical/abginsights/viewmodel/AbgViewModel.kt:45-51 | the record built while the call is in flight: fresh id, reading, time, loading, other fields at their defaults (`PendingIsBlank`) |
| ViewModel.Completed | app/src/main/java/com/medical/abginsights/viewmodel/AbgViewModel.kt:58-63 | `analysis.copy` with the three parsed texts and loading off (`CompletedKeepsIdentity`) |
| ViewModel.Failed | app/src/main/java/com/medical/abginsights/viewmodel/AbgViewModel.kt:72-75 | `copy(isLoading = false, error = e.message)` of the current record |
| ViewModel.PendingIsBlank | app/src/main/java/com/medical/abginsights/viewmodel/AbgViewModel.kt:45-51 | the pending record carries the fresh id, the reading and the time, has an empty user id and empty texts, no error, and is loading |
| ViewModel.CompletedKeepsIdentity | app/src/main/java/com/medical/abginsights/viewmodel/AbgViewModel.kt:58-63 | completion keeps the pending record's id, reading and time, fills in exactly the three texts and ends loading |
| ViewModel.FindById | app/src/main/java/com/medical/abginsights/viewmodel/AbgViewModel.kt:101 | `find` gives a history record with the id, and gives null exactly when no record has it |
| ViewModel.FindByIdIsFirst | app/src/main/java/com/medical/abginsights/viewmodel/AbgViewModel.kt:101 | `find` gives the first record with the id |
| ViewModel.RemoveId | app/src/main/java/com/medical/abginsights/viewmodel/AbgViewModel.kt:109 | `filter` keeps exactly the records whose id differs and never lengthens the list |
| ViewModel.RemoveIdKeepsOrder | app/src/main/java/com/medical/abginsights/viewmodel/AbgViewModel.kt:109 | filtering keeps the remaining records in their order |
| ViewModel.RemoveAbsentId | app/src/main/java/com/medical/abginsights/viewmodel/AbgViewModel.kt:109 | deleting an id no record has leaves the history unchanged |
| ViewModel.RemovePresentUniqueId | app/src/main/java/com/medical/abginsights/viewmodel/AbgViewModel.kt:109 | with unique ids, deleting a present id removes exactly one record |
| ViewModel.FindAfterRemove | app/src/main/java/com/medical/abginsights/viewmodel/AbgViewModel.kt:101-109 | after a delete, the deleted id is not found and every other id is found as before |
| ViewModel.DeleteUndoesPrepend | app/src/main/java/com/medical/abginsights/viewmodel/AbgViewModel.kt:68-109 | deleting a just-completed analysis whose id was fresh gives back the earlier history |
| ViewModel.PrependFreshKeepsUnique | app/src/main/java/com/medical/abginsights/viewmodel/AbgViewModel.kt:68 | adding a record with a fresh id keeps the history's ids unique |
| ViewModel.RemoveIdKeepsUnique | app/src/main/java/com/medical/abginsights/viewmodel/AbgViewModel.kt:109 | deleting keeps the history's ids unique |
| ViewModel.RemoveIdKeepsSettled | app/src/main/java/com/medical/abginsights/viewmodel/AbgViewModel.kt:109 | deleting keeps a history of finished records finished |
| ViewModel.AbgViewModel.constructor | app/src/main/java/com/medical/abginsights/viewmodel/AbgViewModel.kt:18-28 | the session starts with no current analysis, an empty history, no loading and no error |
| ViewModel.AbgViewModel.AnalyzeAbg | app/src/main/java/com/medical/abginsights/viewmodel/AbgViewModel.kt:33-52 | an invalid reading only sets the error "Invalid ABG values. Please check your inputs."; a valid one sets loading, clears the error and makes the pending record current, with no in-flight check |
| ViewModel.AbgViewModel.Complete | app/src/main/java/com/medical/abginsights/viewmodel/AbgViewModel.kt:55-68 | the completed record becomes current whatever current was and is prepended to history (one longer, old history as the tail); loading ends and the error is untouched |
| ViewModel.AbgViewModel.Fail | app/src/main/java/com/medical/abginsights/viewmodel/AbgViewModel.kt:70-78 | the error becomes the message or "An error occurred during analysis"; a non-null current is copied with the message and not loading, a null one stays null; history is unchanged and loading ends |
| ViewModel.AbgViewModel.Resolve | app/src/main/java/com/medical/abginsights/viewmodel/AbgViewModel.kt:55-78 | a reply with text completes the analysis with the parsed sections; any other reply leaves history unchanged and sets the error to the prefixed failure message |
| ViewModel.AbgViewModel.ClearCurrentAnalysis | app/src/main/java/com/medical/abginsights/viewmodel/AbgViewModel.kt:85-88 | current and error become null; history and loading are untouched |
| ViewModel.AbgViewModel.ClearError | app/src/main/java/com/medical/abginsights/viewmodel/AbgViewModel.kt:93-95 | only the error changes, to null |
| ViewModel.AbgViewModel.LoadAnalysis | app/src/main/java/com/medical/abginsights/viewmodel/AbgViewModel.kt:100-103 | current becomes the first history record with the id, or null when none has it; nothing else changes |
| ViewModel.AbgViewModel.DeleteAnalysis | app/src/main/java/com/medical/abginsights/viewmodel/AbgViewModel.kt:108-113 | exactly the records with the id leave the history, the others keep their order; current becomes null exactly when it has that id |
| ViewModel.AbgViewModel.ClearHistory | app/src/main/java/com/medical/abginsights/viewmodel/AbgViewModel.kt:118-120 | the history becomes empty; current, loading and error are untouched |

## Left out

- Compose screens, navigation, theming and the string-to-number parsing of the input form are UI code.
  The model starts from a `Measurement` of reals.
- The network methods `interpretAbg`, `suggestConditions` and `recommendTreatments`, the prompt text, and the
  `generateContent` call are a foreign SDK call. The model's reply is the input `ModelReply`.
- Coroutines, `viewModelScope`, `Dispatchers.IO` and `StateFlow` observation are not modelled. The launched coroutine is
  two sequential steps (`AnalyzeAbg`, then `Complete`/`Fail`/`Resolve`), so interleavings are whatever order a caller
  chooses for those calls.
- Cancellation, and an exception thrown between the start of the coroutine and the pending record, are not modelled.
- `UUID.randomUUID()` and `Date()` are parameters. That ids are unique is an assumption (`UniqueIds`), not something the code enforces.
- `Double` is modelled as `real`. NaN, infinities and rounding are left out, since the code only compares values.
- The enums `AcidBaseStatus`, `CompensationStatus` and `OxygenationStatus` are left out, because no logic uses them.
- Characters are Unicode scalar values. Which characters are whitespace follows a fixed Unicode table, whatever Unicode version the runtime ships.
- SectionParserFacts.WellFormedReplyParses: the main parser lemma assumes a preamble without `##` and bodies that hold no `#`,
  contain some text and do not end in U+0085. The lemmas for the odd layouts (absent label, heading at the end, truncated reply,
  blank section, run-on section) cover the other cases one by one, not every possible reply.
- EmptySectionRunsOn: when the run-on `##` is immediately followed by another `##`, the lazy group stops after one `#`.
  That case (slot `"#"`) is not stated. The lemma covers a run-on piece with text after its `##`, or one that ends the reply.
- The regex character classes follow OpenJDK's `java.util.regex.Pattern` (`\s` is the six ASCII whitespace characters).
  On Android, `java.util.regex` is built on ICU, whose `\s` is Unicode whitespace. So a heading such as `##` followed by a
  no-break space (U+00A0) and the label matches on a device but falls back in the model. ICU's classes are not modelled.
