# Typing game: scoring and session model

This project models the logic of a browser typing-speed game. The game has one React component, `src/TypingGame.jsx`. The player picks a theme (coding, literature, quotes or science). The game shows a random sample sentence from that theme's pool. The player types it, and on submission the game reports accuracy, words per minute (WPM), time taken and a feedback message in one of five tiers.

The model has three modules:

- `JsStrings` (`js_strings.dfy`) covers the two JavaScript string operations the game relies on. `Trim` is `String.prototype.trim`, over the full ECMAScript whitespace and line-terminator set. `SplitOnSpace` is `split(' ')`, which keeps empty pieces.
- `Scoring` (`scoring.dfy`) holds the pure computations of `handleSubmit`:
  - the correct-character count (`CorrectChars`), the accuracy (`Accuracy`), the word count (`WordCount`), the WPM (`Wpm`) and the time taken (`TimeTaken`);
  - the tier choice (`Classify`), the feedback lines (`FeedbackMessage`) and one whole submission (`Evaluate`).
- `Session` (`session.dfy`) holds the component state as the class `TypingGame`, with one method per event:
  - `SetNewText` starts a new round;
  - `SelectTheme` handles a theme change;
  - `HandleInputChange` handles a keystroke;
  - `HandleSubmit` handles a submission; it is callable only under the submit button's enable condition `CanSubmit`.

Figures are integers counted in hundredths, rounded half up. The game formats accuracy, WPM and time with `toFixed(2)`, and its tier thresholds compare those two-decimal figures. So an accuracy of 90.00 is `9000`, and the top tier needs `accuracy >= 9000 && wpm >= 1000`. Lemmas relate the rounded figures to exact ones stated by cross-multiplication: for example, `ExactThresholdsEarnBest` assumes `correct * 100 >= 90 * typed` and `words * 60000 >= 10 * elapsedMs`.

Two behaviours of the code are kept as written:

- The WPM thresholds are asymmetric: `>= 10` for the top tier and `> 10` for the two middle tiers (`TenWpmBoundary`).
- The delayed reset after a submission has no staleness guard. The reset calls `setNewText` as the closure from the render that completed the round, so it reads that render's theme. If the player changes theme during the 4-second delay, the reset installs a sample from the old theme's pool while the new theme stays selected (`StaleResetAfterThemeChange`). Nothing in the code guards against this, and the model follows the code. `CodingSampleIsNotLiterature` shows that the game's own pools meet the condition of that scenario.

`!startTime` in `handleInputChange` is JavaScript truthiness. It treats a recorded start time of `0` like a missing one, and `Falsy` models exactly that.

## Model

| member | source | states |
|---|---|---|
| `JsStrings.TrimStart` | src/TypingGame.jsx:88 | the result is the suffix of the text left after removing every leading whitespace character; it is empty or starts with a non-whitespace character |
| `JsStrings.TrimEnd` | src/TypingGame.jsx:88 | the result is the prefix of the text left after removing every trailing whitespace character; it is empty or ends with a non-whitespace character |
| `JsStrings.Trim` | src/TypingGame.jsx:88 | the trimmed text is no longer than the text and neither starts nor ends with whitespace |
| `JsStrings.TrimOfPadded` | src/TypingGame.jsx:88 | trimming a text padded with whitespace on both sides gives back the text, when the text has no whitespace at either end; so `trim` is determined by what it keeps |
| `JsStrings.TrimSplitsOff` | src/TypingGame.jsx:88 | every text is whitespace, then its trimmed form, then whitespace, so `trim` removes only whitespace and only from the ends |
| `JsStrings.TrimIdempotent` | src/TypingGame.jsx:88 | trimming an already trimmed text changes nothing |
| `JsStrings.TrimIgnoresTrailingWhitespace` | src/TypingGame.jsx:88 | whitespace appended to a text does not change its trimmed form |
| `JsStrings.TrimKeepsFinalVisibleCharacter` | src/TypingGame.jsx:88 | appending a non-whitespace character always changes the trimmed form |
| `JsStrings.SplitOnSpace` | src/TypingGame.jsx:76 | `split(' ')` always yields at least one piece |
| `JsStrings.JoinSplit` | src/TypingGame.jsx:76 | joining the pieces of `split(' ')` with single spaces gives back the original text |
| `JsStrings.SplitPiecesHaveNoSpace` | src/TypingGame.jsx:76 | no piece of `split(' ')` contains a space |
| `JsStrings.SplitCountIsSpacesPlusOne` | src/TypingGame.jsx:76 | the number of pieces is the number of spaces plus one, so consecutive, leading and trailing spaces each add a word |
| `Scoring.CorrectChars` | src/TypingGame.jsx:70 | the correct-character count is at most the typed length and at most the sample length |
| `Scoring.CorrectCharsCountsMatches` | src/TypingGame.jsx:70 | the count equals the number of positions below both lengths at which the typed and sample characters are equal |
| `Scoring.CorrectPrefixAllCorrect` | src/TypingGame.jsx:70 | a correctly typed beginning of the sample, including the whole sample, has every typed character counted as correct |
| `Scoring.CorrectCharsIgnoresOverrun` | src/TypingGame.jsx:70 | characters typed past the end of the sample never add to the count |
| `Scoring.RoundHalfUp` | src/TypingGame.jsx:71 | the two-decimal rounding of `toFixed(2)` on exact values: the result lies within one half of the exact quotient, with a tie going up |
| `Scoring.RoundedAtLeast` | src/TypingGame.jsx:89-95 | a rounded figure reaches a threshold exactly when the exact value reaches the threshold minus one half |
| `Scoring.Accuracy` | src/TypingGame.jsx:70-71 | for a non-empty attempt, accuracy lies in 0.00 to 100.00; it is 100.00 when every character is right and 0.00 when none is |
| `Scoring.AccuracyAtLeastNinety` | src/TypingGame.jsx:71 | the accuracy figure is at least 90.00 exactly when the exact accuracy is at least 89.995% |
| `Scoring.Wpm` | src/TypingGame.jsx:77 | WPM is 0 when the elapsed time is not positive |
| `Scoring.WpmIsWordsPerMinute` | src/TypingGame.jsx:75-77 | for a positive time, WPM is the word count divided by the elapsed minutes, to the nearest hundredth |
| `Scoring.WpmAtLeastTen` | src/TypingGame.jsx:75-77 | the WPM figure is at least 10.00 exactly when the exact rate is at least 9.995 words per minute |
| `Scoring.TimeTaken` | src/TypingGame.jsx:82 | the time taken is the elapsed seconds to the nearest hundredth, with halves rounded away from zero |
| `Scoring.WordCount` | src/TypingGame.jsx:76 | the word count is the number of spaces in the sample plus one |
| `Scoring.Classify` | src/TypingGame.jsx:88-105 | the tier the if/else chain picks always lies in its band of the five-tier table |
| `Scoring.ClassifyPicksTheOneBand` | src/TypingGame.jsx:88-105 | the chosen tier is the one band of the five-tier table the submission falls in: mismatch, best, good, fair or poor |
| `Scoring.TenWpmBoundary` | src/TypingGame.jsx:89-101 | at exactly 10.00 WPM, 90.00 accuracy still earns the top tier, while 80.00 to 89.99 falls to the "keep practicing" tier |
| `Scoring.FeedbackMessage` | src/TypingGame.jsx:85-107 | the five feedback lines as literals, each the tier's emoji, a space and its message; the ensures states only that each is non-empty |
| `Scoring.FeedbackIdentifiesTier` | src/TypingGame.jsx:85-107 | different tiers show different feedback lines |
| `Scoring.Evaluate` | src/TypingGame.jsx:68-105 | for a non-empty attempt: accuracy is in range and WPM is non-negative; the tier is "missed some parts" exactly when the trimmed attempt differs from the trimmed sample; with no positive elapsed time, WPM is 0 and the tier is neither best, good nor fair; best implies at least 90.00 accuracy and 10.00 WPM; good and fair imply more than 10.00 WPM |
| `Scoring.ExactCopyIsFullyAccurate` | src/TypingGame.jsx:70-71 | typing the sample exactly gives 100.00 accuracy and a matched tier |
| `Scoring.ExactThresholdsEarnBest` | src/TypingGame.jsx:88-91 | a matched attempt with exact accuracy of at least 90% and at least 10 words per minute earns the top tier |
| `Scoring.MissingLastCharacterMismatches` | src/TypingGame.jsx:88-104 | an attempt that lacks the sample's final non-whitespace character gets the "missed some parts" tier, whatever its figures |
| `Scoring.ExactCopyAtTenWpmIsBest` | src/TypingGame.jsx:68-91 | an exact copy typed at no less than 10 words per minute scores 100.00 accuracy and the top tier |
| `Scoring.RoundingReachesTopAccuracy` | src/TypingGame.jsx:71-89 | an exact accuracy of 89.996% shows as 90.00 and passes the top tier's accuracy threshold |
| `Session.SampleTexts` | src/TypingGame.jsx:4-25 | the three sample texts of each theme, as written in the source; it has no contract of its own |
| `Session.CodingSampleIsNotLiterature` | src/TypingGame.jsx:4-14 | the first coding sample is not among the literature samples, so the stale-reset scenario happens with the game's own pools |
| `Session.Falsy` | src/TypingGame.jsx:60 | JavaScript's `!startTime`: a missing start time and a start time of 0 are both falsy; it has no contract of its own |
| `Session.Mount` | src/TypingGame.jsx:28-55 | mounting with the game's sample texts starts a fresh round on the coding theme, with the picked coding sample and cleared state |
| `Session.TypingGame.constructor` | src/TypingGame.jsx:28-41 | the initial state followed by the first new round: coding theme, picked sample, nothing typed, timer stopped, no result |
| `Session.TypingGame.Feedback` | src/TypingGame.jsx:35-107 | the feedback line is empty exactly when there is no result |
| `Session.TypingGame.CanSubmit` | src/TypingGame.jsx:156 | the submit button's enable condition: the timer runs and something has been typed; it is the precondition of `HandleSubmit` and has no contract of its own |
| `Session.TypingGame.SetNewText` | src/TypingGame.jsx:43-55 | the sample becomes the picked text of the given theme's pool; the typed text, start time, figures and feedback are cleared; both flags are false; the selected theme is unchanged |
| `Session.TypingGame.SelectTheme` | src/TypingGame.jsx:39-41 | a theme change selects the new theme and starts a fresh round from its pool; re-selecting the current theme changes nothing |
| `Session.TypingGame.HandleInputChange` | src/TypingGame.jsx:57-66 | the typed text is always replaced; the start time and running flag are set only when the start time is falsy, so later keystrokes keep the first start time; nothing else changes |
| `Session.TypingGame.HandleSubmit` | src/TypingGame.jsx:68-111 | under the submit guard, a start time is recorded; the stored figures and feedback are those of scoring the typed text against the sample over the time since the first keystroke; the round is completed, the timer stopped and the start time cleared; the theme, sample and typed text are unchanged |
| `Session.TypingGame.Complete` | src/TypingGame.jsx:80-110 | stores the figures and the feedback tier, sets completed, clears the running flag and the start time, and keeps the invariant |
| `Session.StaleResetAfterThemeChange` | src/TypingGame.jsx:113-120 | a delayed reset that fires after a theme change installs a sample that is not in the selected theme's pool |

## Left out

- Rendering, the CSS import and the `<select>`/`<textarea>`/button wiring are presentation only and are not modelled. The submit button's enable condition is modelled as `CanSubmit`, the precondition of `HandleSubmit`.
- React's scheduling is not modelled: the effect hooks, re-renders, the 4-second `setTimeout` and the blocking `alert`. The theme effect is the body of `SelectTheme`. The delayed reset is a call of `SetNewText` with the theme of the render that completed the round. The alert's text is not modelled.
- `Date.now()` and `Math.random()` become parameters: `now`, and `pick`, the index in `[0, |pool|)` that `Math.floor(Math.random() * texts.length)` yields.
- Floating point is replaced by exact integers in hundredths, rounded half up. JavaScript's `toFixed` rounds the binary double, so at an exact tie the shown figure can differ by one hundredth. The chained division `(end - start) / 1000 / 60` can also differ from the exact quotient in the last bit.
- `Scoring.TimeTaken`: ties are common here, not rare. Every elapsed time ending in 5 ms is an exact tie, and its double is often just below it. For 1005 ms, JavaScript's `(1.005).toFixed(2)` gives "1.00", while the model gives 101 (1.01). The model rounds the exact value half away from zero.
- The JavaScript types of the shown figures are not modelled. In the source, accuracy and time taken are strings after a submission. WPM is a string only when the elapsed minutes are positive; after a submission with zero or negative elapsed time it is the number `0`, shown as "0" rather than "0.00". Before any submission all three are the number `0`. The model holds integers throughout.
- Strings are sequences of Unicode scalar values, not UTF-16 code units. An attempt containing characters outside the Basic Multilingual Plane has its positions counted differently from `split('')`. All sample texts lie in the Basic Multilingual Plane.
- `Session.TypingGame.Feedback`: the feedback is stored as its tier, `feedbackTier`, and rendered as the string on demand. `FeedbackIdentifiesTier` shows the two carry the same information.
- The sample pools are a constant field `samples` of the game, fixed at construction. `Mount` passes the game's own pools, `SampleTexts`. The methods are proved for every pool, not only these.
- The empty-attempt case of accuracy (`0 / 0`) is not modelled: `Evaluate` requires a non-empty attempt, which the submit guard ensures.
