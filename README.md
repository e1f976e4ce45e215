# Password strength meter: a verified model of the scorer

This project models the scoring core of the jQuery password strength meter
(`src/password.js`) in Dafny and proves properties of it. It covers these parts:

- **options.dfy** (`PasswordOptions`): the plugin's option record and its defaults. The
  model takes the merged options as one immutable value.
- **repetition.dfy** (`Repetition`): `checkRepetition`, the repetition reducer.
  - `CheckRepetition` is a method with the source's two loops. The inner comparison loop
    is `CompareWindows`.
  - Both are proved against the recursive specification `Reduced`/`ReduceFrom`.
  - Lemmas about that specification give the length, subsequence, suffix and
    whole-window properties.
- **charclasses.dfy** (`CharClasses`): the regular expressions of `calculateScore`,
  written as predicates on character classes over positions.
  - `.` in these patterns does not match a line terminator. So the three-digit,
    two-symbol and mixed-case patterns need their characters on one line.
  - Without line terminators they reduce to counting: three digits, two symbols, and
    both a lower-case and an upper-case letter. Lemmas prove each of these.
- **scorer.dfy** (`Scorer`): `calculateScore`.
  - The sentinels come first: -1 for a short password, -2 for one that equals or
    contains the reference field.
  - Otherwise the score is the composite (length, four repetition penalties, class
    bonuses, single-class penalty), clamped to [0, 100].
- **steptext.dfy** (`StepText`): `scoreText`.
  - The sort `Object.keys(steps).sort()` compares the keys as strings.
  - The loop keeps the text of the last visited key below the score.
- **colorbar.dfy** (`ColorBar`): `calculateColorFromPercentage`, the clamped linear
  red/green gradient with a constant blue, in real arithmetic.

The model follows the code in these details, which differ from what a quick reading of the plugin's behaviour suggests:

- `checkRepetition(1, "aaaa")` is `"a"`, `checkRepetition(2, "abab")` is `"ab"` and
  `checkRepetition(3, "abcabc")` is `"abc"`, not the empty string.
  - The last copy of a run is kept.
  - A window is only compared while a full two-window span remains.
- The two-symbol set is `! , @ # $ % ^ & * ? _ ~ -`. It contains the comma and no `.`.
  The one-symbol set `[!@#$%^&*?_~-]` has neither.
- The case-insensitive equality test against the field runs even when the field value is
  empty. Only the partial-match test requires a non-empty field.
- The length test comes first. `"john"` with field `"john"` scores -1 when
  `minimumLength` exceeds 4, and -2 only otherwise.

## Model

| member | source | states |
|---|---|---|
| PasswordOptions.DefaultsWellFormed | src/password.js:11-35 | the default steps ascend by key, the colour ranges are [0, 240] with blue 10, minimumLength is 4, field is off and fieldPartialMatch on |
| Repetition.SameWindowAsSlices | src/password.js:164-166 | the front-to-back comparison of the inner loop holds exactly when the two windows are equal as strings |
| Repetition.SameWindowExtend | src/password.js:164-166 | comparing one more character extends the comparison: it holds for n+1 iff it holds for n and the next pair agrees |
| Repetition.RepeatsAt | src/password.js:164-169 | at index i a full two-window span remains and the window starting at i equals the one after it |
| Repetition.Reduced | src/password.js:160-179 | the reducer's result: scanning left to right, a window immediately followed by a copy of itself is dropped and the scan resumes at the copy; any other character is kept |
| Repetition.ReduceFrom | src/password.js:162-177 | the reducer's output from index i is never longer than the rest of the input |
| Repetition.ReduceDropsWholeWindows | src/password.js:170-172 | the characters removed are exactly the window length times the number of skips |
| Repetition.RemovedIsMultipleOfLength | src/password.js:170-172 | the number of characters removed is a multiple of the window length |
| Repetition.CompareWindows | src/password.js:163-169 | the inner loop, together with the `j < length` guard, reports a repeat exactly when a full two-window span remains and the two windows are equal |
| Repetition.CheckRepetition | src/password.js:160-179 | the two-loop reducer returns the specification's reduced string for every input and window length at least 1 |
| Repetition.ReduceIsSubsequence | src/password.js:162-177 | the output only deletes characters of the input; it never reorders or invents any |
| Repetition.ReduceUnchangedIff | src/password.js:162-177 | the output equals the input exactly when no window is followed by a copy of itself; likewise, the length is unchanged exactly then |
| Repetition.ReduceTailUnchanged | src/password.js:164-169 | where no full two-window span fits, nothing is reduced |
| Repetition.ReduceKeepsSuffixFrom | src/password.js:164-169 | while a full window remains, the last `length` characters of the input end the output |
| Repetition.ReducedKeepsSuffix | src/password.js:164-169 | the last min(length, \|s\|) characters of the input always end checkRepetition's output |
| Repetition.ReducedExamples | src/password.js:160-179 | aaaa→a with window 1, abab→ab with window 2, abcabc unchanged with window 1 and →abc with window 3, aaaaa→aaa with window 2 |
| CharClasses.Has | src/password.js:121-132 | a single-class test such as `/([0-9])/`: some character of the password is in the class |
| CharClasses.AllIn | src/password.js:137 | an anchored test such as `/^\w+$/`: the password is non-empty and every character is in the class |
| CharClasses.HasThreeOnOneLine | src/password.js:105 | the three-digit pattern: three positions in ascending order, all in the class, with no line terminator between the first and the last |
| CharClasses.HasPairOnOneLine | src/password.js:110-117 | the two-symbol and mixed-case patterns: a position of the first class before one of the second, with no line terminator between them |
| CharClasses.MixedCaseIffBoth | src/password.js:117 | without line terminators, the mixed-case pattern matches iff the password holds both a lower-case and an upper-case letter |
| CharClasses.AllDigitsAreWord | src/password.js:137 | an all-digit password is all word characters, so the `^\d+$` alternative never adds a case |
| CharClasses.ThreeOnOneLineCounts | src/password.js:105 | a match of the three-digit pattern means at least three members of the class |
| CharClasses.ThreeOfCount | src/password.js:105 | on a password without line terminators, three members of the class make the pattern match |
| CharClasses.ThreeOnOneLineIffCount | src/password.js:105 | without line terminators, the three-of-a-class pattern matches iff the class occurs at least three times |
| CharClasses.TwoOnOneLineCounts | src/password.js:110-111 | a match of the two-symbol pattern means at least two members of the class |
| CharClasses.TwoOfCount | src/password.js:110-111 | on a password without line terminators, two members of the class make the pattern match |
| CharClasses.TwoOnOneLineIffCount | src/password.js:110-111 | without line terminators, the two-of-a-class pattern matches iff the class occurs at least twice |
| CharClasses.LineTerminatorSplitsPattern | src/password.js:105 | "1\n2\n3" holds three digits yet does not match, because `.` does not cross a line terminator |
| Scorer.RepetitionTerm | src/password.js:98-101 | each repetition term is a penalty between -\|password\| and 0 |
| Scorer.Clamp | src/password.js:141-147 | the clamped score lies in [0, 100]; scores above become 100, scores below become 0, scores inside are unchanged |
| Scorer.ToLower | src/password.js:85-91 | `toLowerCase` on ASCII letters, applied to the password and the field before comparing |
| Scorer.Contains | src/password.js:90-91 | literal matching: the pattern occurs as a contiguous substring of the text at some position (used on the lowered password and field) |
| Scorer.CalculateScore | src/password.js:75-150 | -1 iff the password is shorter than minimumLength; -2 iff it is long enough, the field is configured, and the lowered password equals the lowered field or (partial match on, field non-empty) contains it; every result lies in {-2, -1} ∪ [0, 100] |
| Scorer.ShortPasswordScoresMinusOne | src/password.js:78-81 | a short password scores -1 even when it equals the field, for any field value |
| Scorer.EqualToFieldScoresMinusTwo | src/password.js:83-87 | with the field configured, a long-enough password equal to the field up to case scores -2, for any field value |
| Scorer.ContainsFieldScoresMinusTwo | src/password.js:88-93 | with partial matching, a long-enough password holding the non-empty field up to case at any position scores -2 |
| Scorer.Composite | src/password.js:97-139 | the unclamped score: 4 points per character, the four repetition penalties, the pattern bonuses and the single-class penalty; it lies between -10 and 4 points per character plus 65 |
| Scorer.NoRepetitionTerms | src/password.js:98-101 | a password no window length reduces pays no repetition penalty |
| Scorer.AbcdClasses | src/password.js:104-139 | "abcd" is all word characters and matches none of the bonus patterns |
| Scorer.AbcdScoresSix | src/password.js:75-150 | "abcd" with the defaults has composite 16 - 10 = 6 and scores 6 |
| Scorer.SupersecretOneDigit | src/password.js:105 | "Sup3r$ecret!" has a single digit, so the three-digit bonus does not apply |
| Scorer.SupersecretPatterns | src/password.js:109-119 | "Sup3r$ecret!" matches the two-symbol and the mixed-case patterns |
| Scorer.SupersecretClasses | src/password.js:121-139 | "Sup3r$ecret!" has letters, a digit and a symbol, and is not all word characters |
| Scorer.SupersecretScoresHundred | src/password.js:75-150 | "Sup3r$ecret!" has composite 48 + 5 + 10 + 15 + 15 + 15 = 108 and scores 100 |
| Scorer.EmailFieldExamples | src/password.js:78-87 | with field "j.doe@x.com", which holds regular-expression metacharacters: "ab" scores -1 and "J.Doe@x.com" scores -2 |
| Scorer.FieldExamples | src/password.js:78-87 | john/john scores -2; john/john with minimumLength 8 scores -1 |
| Scorer.ContainedFieldExample | src/password.js:88-93 | "xJohn99!" with field "john" scores -2 |
| StepText.CodeUnitLess | src/password.js:56 | the default `sort()` order on key strings: lexicographic by code unit, a proper prefix first |
| StepText.CodeUnitLessAsymmetric | src/password.js:56 | the string order of the default sort is asymmetric |
| StepText.InsertByKeyText | src/password.js:56 | inserting into a key-text-sorted order keeps it sorted and adds exactly the new entry |
| StepText.SortByKeyText | src/password.js:56 | `Object.keys(steps).sort()` yields a permutation of the entries, sorted by key as a string |
| StepText.SortSortedIsIdentity | src/password.js:56 | sorting an order already sorted by key text leaves it unchanged |
| StepText.LastBelow | src/password.js:55-62 | the text kept by the loop: that of the last key in the given order whose value is below the score, or the fallback |
| StepText.TextForScore | src/password.js:45-65 | scoreText on a given key order: the two sentinels, then, with any other negative score raised to 0, the last-key-below text with shortPass as fallback |
| StepText.LastBelowIsLastMatch | src/password.js:55-62 | the loop leaves the text of the last visited key below the score, or the fallback when no key is below it |
| StepText.LastBelowPicksGreatest | src/password.js:55-62 | over keys in ascending numeric order, that last key is the greatest key below the score |
| StepText.LabelOfLastStepBelow | src/password.js:55-64 | the loop over the sorted keys computes the last-key-below text |
| StepText.ScoreText | src/password.js:45-65 | -1 → shortPass; -2 → containsField; otherwise the text of the last key below the score in key-text order, or shortPass when no key is below it |
| StepText.ScoreTextByValue | src/password.js:45-65 | corrected scoreText: sentinels as above; any other score gets the text of the greatest key below it when the keys ascend, else shortPass |
| StepText.DefaultStepsKeepOrder | src/password.js:15-20 | the default keys 13, 33, 67, 94 keep their numeric order under the string sort |
| StepText.DefaultLastBelow | src/password.js:15-20 | with the default steps: up to 13 → the fallback, 14-33 → "Really insecure password", 34-67 → "Weak…", 68-94 → "Medium…", above 94 → "Strong password" |
| StepText.DefaultScoreTexts | src/password.js:45-65 | on the default steps sorted as the code sorts them: -1 and 13 → too short, -2 → contains username, 14 → Really insecure, 50 → Weak, 68 → Medium, 95 → Strong |
| StepText.MixedLengthKeysSort | src/password.js:56 | keys 5, 10, 50 sort as "10", "5", "50" |
| StepText.KeyTextSortMisordersSteps | src/password.js:56-62 | with keys 5, 10, 50 and score 20, the written scoreText returns the text for 5, while numeric order gives the text for 10 |
| ColorBar.RawGreen | src/password.js:208 | green before clamping: percent times maxGreen over 50 |
| ColorBar.RawRed | src/password.js:209 | red before clamping: twice maxRed minus percent times maxRed over 50 |
| ColorBar.ClampTo | src/password.js:212-213 | `Math.min(Math.max(x, min), max)` is at most max, at least min when min ≤ max, and x itself inside the range |
| ColorBar.ColorFromPercentage | src/password.js:187-216 | red ≤ maxRed and green ≤ maxGreen, each ≥ its min when min ≤ max, and blue is the configured constant (10 by default) |
| ColorBar.GradientMonotone | src/password.js:208-209 | a higher percentage never lowers green and never raises red, for non-negative maxima |
| ColorBar.SaturatesAtFifty | src/password.js:208-209 | red stays at its maximum up to 50 percent and green reaches its maximum from 50 percent on |
| ColorBar.DefaultColors | src/password.js:187-216 | with the defaults: 50 → (240, 240, 10), 0 → (240, 0, 10), 100 → (0, 240, 10), 75 → (120, 240, 10) |

## Left out

- `init`, the keyup, focus and blur handlers, `addColorBarStyle`, `$.fn.password` and all
  DOM, CSS and animation work (src/password.js:225-340). These are presentation and event
  I/O. The reference field's value is a plain parameter of `CalculateScore`, and
  `options.field` is a boolean.
- `$.extend` option merging (src/password.js:37): the model takes the merged record as given.
- Scorer.CalculateScore: when partial matching is active and the password is long enough
  and differs from the field, the field is compiled as a regular expression
  (src/password.js:89-93). Only on that path does the model ask for a field without
  regular-expression metacharacters (`FieldIsLiteral`), for which matching is literal
  substring containment. A field with metacharacters matches differently there, or throws
  when the pattern is invalid. The length test and the equality test hold for any field.
- Scorer.ToLower: `toLowerCase` is modelled for ASCII letters only. Strings are sequences of
  Dafny characters rather than UTF-16 code units, so `length` differs for characters outside
  the Basic Multilingual Plane.
- ColorBar.ColorFromPercentage: the arithmetic is exact real arithmetic. IEEE double
  rounding is not modelled, and neither is `NaN` from a non-numeric option.
- StepText.ScoreText: step keys are non-negative integers. Non-integer or negative keys,
  which JavaScript lists as string keys in insertion order, are not modelled. The entries
  are given in the order JavaScript lists integer keys, ascending, as `StepKeysInObjectOrder`
  states. The comparison `stepVal < score` converts the key text back to its number.
- `enterPass` replaces the text for an empty password inside the keyup handler
  (src/password.js:297-300). That is part of `init` and is not modelled.
- No property states that appending characters never lowers the composite score. The
  repetition terms can fall when a character is appended, and the source makes no such
  promise.

## Findings

| source | as written | input that shows it | evidently intended | confidence | as-written member | corrected member |
|---|---|---|---|---|---|---|
| src/password.js:56 | `Object.keys(options.steps).sort()` sorts the keys as strings, so keys of different lengths leave numeric order and the loop's last key below the score is not the greatest one | steps {5: "five", 10: "ten", 50: "fifty"}, score 20: the order is "10", "5", "50", so the text is "five" | visit the keys in numeric order, giving the text of the greatest key below the score ("ten") | not executed; the default keys all have two digits and are unaffected (StepText.DefaultStepsKeepOrder) | StepText.ScoreText, StepText.KeyTextSortMisordersSteps | StepText.ScoreTextByValue |
