# Ergo-Prep core, modelled in Dafny

Ergo-Prep is a web app for practising a five-section logic test: Inference, Deduction,
Assumptions, Interpretation and Arguments. This project models the parts of it that decide
things.

- **Quiz assembly.** Query parameters are read and a question quota is planned per
  section. A passage-aware sampler then draws questions from the fetched pool, and the draw
  is regrouped by passage.
- **Quiz session.** The cursor moves over the passage groups. The module covers the pending
  choice, the answer map, the mock-test countdown, the confirmation dialogs and `fin`, which
  reduces the answers to a score, a per-section breakdown and a list of wrong answers.
- **Analytics and dashboard.** Per-section counters cover the answer history. On top of them
  sit the recent-versus-prior trend, the strongest and weakest section, the Logic Profile
  unlock gate and its priority ranking, the calibration progress, the access countdown and
  the score percentages.
- **Small page rules:**
  - results grading and time format;
  - the review page's attempt/question join;
  - the practice setup controls;
  - the mock-test composition;
  - the learning-mode exercises and slide navigation;
  - access stacking in the payment webhook;
  - the profile PATCH whitelist;
  - the authentication context's access check, redirects and profile cache.

One module per source file:

| file | module | source |
|---|---|---|
| quotas.dfy | `Quotas` | quiz page, quota planning |
| sampler.dfy | `Sampler` | quiz page, parameters and sampling |
| passages.dfy | `Passages` | quiz page, grouping by passage |
| session.dfy | `Session` | quiz page, the session state and its handlers |
| scoring.dfy | `Scoring` | quiz page, `fin` |
| analytics.dfy | `Analytics` | analytics page |
| attempts.dfy | `Attempts` | the answer history both statistics pages count |
| dashboard.dfy | `Dashboard` | dashboard page |
| results.dfy | `ResultsPage` | results page |
| review.dfy | `Review` | review page |
| practice.dfy | `Practice` | practice setup page |
| mocktest.dfy | `MockTest` | mock-test page |
| learn.dfy | `Learn` | learning mode |
| webhook.dfy | `Webhook` | payment webhook |
| profile_patch.dfy | `ProfilePatch` | profile PATCH endpoint |
| auth.dfy | `Auth` | authentication context |

Shared helpers:

| file | module | what it holds |
|---|---|---|
| sections.dfy | `Sections` | the canonical section list of `src/lib/theme.ts` |
| percent.dfy | `Percent` | integer `Math.round` percentages and the colour bands |
| text.dfy | `Text` | number rendering and parsing, `padStart`, `join`/`split` |
| seqs.dfy | `Seqs` | the random reordering, `flat()`, toggling |
| wrappers.dfy | `Wrappers` | `Option` |

How the source's JavaScript is rendered:

- **Randomness.** Every `sort(() => Math.random() - 0.5)` becomes `Seqs.Shuffle(xs, d)`. The
  draw `d` names, step by step, which remaining element comes next. `Seqs.ShuffleReaches`
  proves that every reordering is the result of some draw, so each property proved "for all
  draws" holds for whatever order the browser happens to produce.
- **Percentages.** `Math.round(100 * k / n)` is the integer `(200k + n) / (2n)`.
- **Priority.** The Logic Profile priority is an exact `real`.
- **Remainder.** JavaScript's truncating `%` is written out as `Quotas.JsRem`.
- **Section names.** They travel as strings wherever the source compares strings (the URL,
  the stored attempts). They are parsed into an enumeration where the source keys counters.
- **Imperative code.** Code that mutates state keeps that form:
  - the session is a class whose fields are the page's state hooks;
  - `sp`/`sc`, the sampler, `fin`'s walks, the review join and the PATCH filter are loops;
  - the drag-rank reordering shifts an array in place.

  Each such method is proved against a specification function, and the properties are
  proved about that function.

Some behaviour of the code is worth stating up front, since the model keeps it as it is:

- **No error reports.** The code raises no quota or state-transition errors and reports no
  under-filled section; a section that runs short simply contributes fewer questions.
- **Ticks.** The test countdown counts one-second ticks.
- **Re-choosing in a test.** In a mock test an answer may be re-chosen at any time before
  submission.
- **History order.** The answer history is newest first.
- **Priority divisor.** The weight is divided by the literal 40, which equals the sum of the
  test weights (`Analytics.WeightsTotal`).

## Model

| member | source | states |
|---|---|---|
| Sections.AllDistinct | src/lib/theme.ts:45-51 | each of the five sections appears exactly once in SECTIONS, and different sections have different names |
| Sections.Parse | src/app/analytics/page.tsx:43 | a stored section name denotes a section exactly when it is that section's name; any other string denotes none |
| Text.ParseDec | src/app/quiz/page.tsx:32 | parsing the decimal rendering of a number gives the number back |
| Text.SplitJoin | src/app/quiz/page.tsx:58 | splitting a comma-joined list of comma-free names at commas gives the list back |
| Text.Pad2 | src/app/dashboard/page.tsx:44 | a number below 100 is padded to two digits, and the padded text still reads as that number |
| Text.ParseInt | src/app/api/webhook/route.ts:36 | a decimal digit string reads as its value; empty text, text starting with anything but white space, a sign or a digit, and a sign not followed by a digit are `NaN` |
| Text.ParseIntSkipsSpace | src/app/api/webhook/route.ts:36 | leading white space and line terminators are skipped |
| Text.ParseIntSign | src/app/api/webhook/route.ts:36 | one leading "+" keeps the number and one leading "-" negates it; `NaN` stays `NaN` |
| Text.ParseIntDecimal | src/app/api/webhook/route.ts:36 | decimal digits are read up to the first non-digit and the rest is ignored, unless the text begins "0x" or "0X" |
| Text.ParseIntHex | src/app/api/webhook/route.ts:36 | after "0x" or "0X" hexadecimal digits are read up to the first non-hex character; with none the result is `NaN` |
| Text.ParseIntHexExample | src/app/api/webhook/route.ts:36 | "0x10" reads as 16 |
| Text.ParseIntTrailingExample | src/app/api/webhook/route.ts:36 | "5px" reads as 5 |
| Text.ParseIntSpaceExample | src/app/api/webhook/route.ts:36 | " 5" reads as 5 |
| Text.ParseIntSignExample | src/app/api/webhook/route.ts:36 | "-5" reads as −5 |
| Percent.RoundPct | src/app/dashboard/page.tsx:95 | the result is 100·k/n rounded half up; it lies in 0..100 when k ≤ n, is 0 at k = 0 and is 100 at k = n |
| Percent.Pct | src/app/dashboard/page.tsx:95 | the guarded percentage is 0 for an empty denominator and otherwise the rounded percentage, at most 100 |
| Percent.Band | src/app/results/page.tsx:114 | green exactly from 75, the accent colour exactly in 50..74, red exactly below 50 |
| Sampler.ReadParams | src/app/quiz/page.tsx:30-32 | a missing or empty mode means practice; missing sections mean all of SECTIONS; a missing limit means 10; a given value is used as it is |
| Quotas.JsRem | src/app/quiz/page.tsx:69 | JavaScript's remainder is Dafny's on a non-negative dividend; on a negative one it lies in −n+1..0 and completes the quotient truncated toward zero, so it takes the dividend's sign |
| Quotas.Entries | src/app/quiz/page.tsx:65 | the composition's `forEach` gets through exactly the readable elements before the first unreadable one |
| Quotas.ReadComp | src/app/quiz/page.tsx:64-66 | the parsing loop builds the quota map of the entries read |
| Quotas.CompQuotasLastWins | src/app/quiz/page.tsx:65 | a composition sets a quota exactly for the sections it names, each to the count of the last entry naming it |
| Quotas.NoCompMeansEvenSplit | src/app/quiz/page.tsx:64-67 | a missing or unparsable composition, or one whose first element is unreadable, sets no quota |
| Quotas.SplitEvenly | src/app/quiz/page.tsx:67-71 | the even-split loop builds the even split |
| Quotas.PlanQuotas | src/app/quiz/page.tsx:63-71 | a composition that sets a quota wins; otherwise the total is split evenly over the sections |
| Quotas.EvenSplitBalanced | src/app/quiz/page.tsx:68-70 | the even split gives a quota to exactly the listed sections, each ⌊total/n⌋ or one more, and no two differ by more than one |
| Quotas.EvenSplitExact | src/app/quiz/page.tsx:68-70 | for distinct sections and a non-negative total, the first total mod n sections get the extra one, and the quotas add up to the total |
| Quotas.Requests | src/app/quiz/page.tsx:74-76 | exactly the sections with a positive quota are requested, each for four times its quota, capped at 200 rows |
| Quotas.Positive | src/app/quiz/page.tsx:74-76 | the `filter` keeps exactly the named sections with a positive quota |
| Quotas.PositiveCounts | src/app/quiz/page.tsx:74-76 | a section with a positive quota is kept as many times as `secs` names it, and any other section is dropped |
| Quotas.PositiveAppend | src/app/quiz/page.tsx:74-76 | the filter keeps the order of `secs` |
| Quotas.RequestsInOrder | src/app/quiz/page.tsx:74-76 | the request list is one request per kept section, in that order and with repeats, each for min(4·quota, 200) rows |
| Seqs.Shuffle | src/app/quiz/page.tsx:95 | a random reordering is a permutation of its input |
| Seqs.ShuffleReaches | src/app/quiz/page.tsx:95 | every permutation is produced by some draw |
| Seqs.Toggled | src/app/practice/page.tsx:18-19 | toggling flips the membership of the clicked item, leaves every other item as it was and keeps the list free of repeats; a new item goes at the end, and removing one keeps the others in their order |
| Seqs.Without | src/app/practice/page.tsx:19 | filtering an item out keeps exactly the other items, in their order; the list is unchanged when the item is absent and shorter when it is present |
| Seqs.WithoutAppend | src/app/practice/page.tsx:19 | the filter of a concatenation is the concatenation of the filters, so the selection keeps its click order |
| Seqs.ToggledTwice | src/app/practice/page.tsx:18-19 | toggling the same item twice restores every membership |
| Passages.WithKey | src/app/quiz/page.tsx:96-101 | a passage's list holds exactly the questions filed under its key (an empty passage counts as "General") |
| Passages.KeysOf | src/app/quiz/page.tsx:96-101 | the grouping's keys are the distinct passage keys of the questions |
| Passages.Grouped | src/app/quiz/page.tsx:120-127 | there is one group per distinct key, in first-appearance order, each with its questions in order |
| Passages.GroupBy | src/app/quiz/page.tsx:96-101 | the `forEach` that fills the grouping map builds that grouping |
| Passages.GroupedShape | src/app/quiz/page.tsx:120-125 | the grouping has distinct keys and no empty group, files every question under its own key, and holds every question |
| Passages.GroupedPermutation | src/app/quiz/page.tsx:120-127 | grouping only rearranges: the flattened groups are a permutation of the questions |
| Passages.FlatContiguous | src/app/quiz/page.tsx:126-127 | flattening a well-formed grouping keeps the questions of each passage next to each other |
| Passages.ShuffleWellGrouped | src/app/quiz/page.tsx:126 | reordering the groups keeps the grouping well formed |
| Passages.ShuffleFlat | src/app/quiz/page.tsx:126 | reordering the groups permutes the flattened questions |
| Sampler.Room | src/app/quiz/page.tsx:113 | the slice length is never above the room left, never negative, and never above a numeric cap |
| Sampler.SecGroups | src/app/quiz/page.tsx:107 | the section's passages are exactly the groups holding one of its questions |
| Sampler.Avail | src/app/quiz/page.tsx:112 | the candidates are exactly the passage's unused questions of the section |
| Sampler.TakeFrom | src/app/quiz/page.tsx:112-113 | a take has at most min(cap, room) unused questions of the section from that passage; when it is shorter, it took every such question |
| Sampler.FillSection | src/app/quiz/page.tsx:105-117 | one section's picks are pool questions of that section, at most its quota and at most the cap per passage, all of them unused and with distinct ids; a section left short took every question it could |
| Sampler.Select | src/app/quiz/page.tsx:103-118 | the result is the sections' picks one after another; each section's picks obey the quota, the passage cap and exhaustion; ids never repeat for a unique-id pool |
| Sampler.Arrange | src/app/quiz/page.tsx:120-127 | `grp` is the first-appearance grouping of the result, `qs` lists the groups in a random order, both are permutations of the result, and each keeps passages together |
| Sampler.BuildQuiz | src/app/quiz/page.tsx:58-127 | an empty fetch is the error state; otherwise the quiz holds only pool questions of the requested sections; ids never repeat for a unique-id pool; `qs` and `grp` hold the same questions with passages together; the quiz is made of one part per section, each at most its quota and at most min(cap, room) from any passage, and a section left short took every question of its own that the cap allowed |
| Sampler.ShuffleDistinctIds | src/app/quiz/page.tsx:95 | reordering keeps ids distinct |
| Sampler.GroupedDistinctIds | src/app/quiz/page.tsx:96-101 | grouping a unique-id pool gives groups with unique ids |
| Sampler.PermutationDistinctIds | src/app/quiz/page.tsx:126 | every rearrangement of a unique-id list has unique ids |
| Session.Position | src/app/quiz/page.tsx:221 | `cur` lies in 1..totQ and names the cursor's question in the groups laid end to end |
| Session.PositionLast | src/app/quiz/page.tsx:230-233 | the position is the last one exactly at the last question of the last group |
| Session.PositionNextGroup | src/app/quiz/page.tsx:232 | stepping into the next group advances the position by one |
| Session.TicksToExpiry | src/app/quiz/page.tsx:216 | a countdown showing tl ms ends on the tick ⌈tl/1000⌉ |
| Session.TestLength | src/app/quiz/page.tsx:169 | a full mock test lasts 2400 ticks |
| Session.ClockText | src/app/quiz/page.tsx:279 | the label is the whole minutes and the seconds (below 60) of the time left |
| Session.ClockStart | src/app/quiz/page.tsx:169 | a new mock test shows 40:00 |
| Session.QuizSession.constructor | src/app/quiz/page.tsx:163-174 | once the questions are in, the session is at the first question with nothing chosen or answered; the 40-minute clock started at mount and the interval at lines 214-218 has been ticking, so a mock test has lost the seconds it waited and ends after the remaining ticks, while the other modes keep the full 40 minutes |
| Session.QuizSession.Cur | src/app/quiz/page.tsx:220-221 | the displayed position is within 1..totQ |
| Session.QuizSession.Current | src/app/quiz/page.tsx:220 | the displayed question is the one at position `cur` |
| Session.QuizSession.Fin | src/app/quiz/page.tsx:176-212 | `fin` marks the session submitted and stores the summary of the answers |
| Session.QuizSession.SelectOption | src/app/quiz/page.tsx:223 | a choice is ignored after submission, and outside a mock test once the answer is revealed; otherwise it becomes the pending choice |
| Session.QuizSession.Next | src/app/quiz/page.tsx:230-235 | `nxt` moves one position forward and clears the choice; on the last question it opens the submit dialog in a mock test and runs `fin` otherwise |
| Session.QuizSession.Submit | src/app/quiz/page.tsx:224-229 | `subm` with a choice records it and whether it was correct; a mock test then advances, other modes reveal the answer; without a choice it does nothing |
| Session.QuizSession.TryNext | src/app/quiz/page.tsx:236 | in practice, leaving an unrevealed question opens the skip dialog; otherwise it is `nxt` |
| Session.QuizSession.Previous | src/app/quiz/page.tsx:237 | `prv` moves one position back, or stays on the first question, and clears the choice |
| Session.QuizSession.NextButton | src/app/quiz/page.tsx:312 | outside a mock test the Next / Finish button does nothing while nothing is chosen and the answer is unrevealed; otherwise it is `tryNxt` |
| Session.QuizSession.PreviousButton | src/app/quiz/page.tsx:311 | the Previous button does nothing on the first question; elsewhere it moves one position back and clears the choice |
| Session.QuizSession.Tick | src/app/quiz/page.tsx:214-218 | outside a running mock test a tick does nothing; otherwise it takes a second off, or ends the test at 0 when 1000 ms or less are left |
| Session.QuizSession.TestNext | src/app/quiz/page.tsx:312 | on the last question the mock test's button opens the submit dialog, and it is disabled there without a choice; elsewhere it is `nxt` |
| Session.QuizSession.ConfirmSkip | src/app/quiz/page.tsx:319 | Skip closes the dialog and moves on |
| Session.QuizSession.CancelSkip | src/app/quiz/page.tsx:319 | Go back only closes the dialog |
| Session.QuizSession.ConfirmSubmit | src/app/quiz/page.tsx:320 | Submit Test closes the dialog and runs `fin` |
| Session.QuizSession.CancelSubmit | src/app/quiz/page.tsx:320 | Review Answers only closes the dialog |
| Session.AnswersOnlyGrow | src/app/quiz/page.tsx:227-228 | recording an answer never removes one, so the answered count never decreases |
| Scoring.CorrectCount | src/app/quiz/page.tsx:178 | the correct answers are at most the answers |
| Scoring.AnsweredSections | src/app/quiz/page.tsx:181-188 | `sm` has one key per section with an answered question, none twice |
| Scoring.Tallies | src/app/quiz/page.tsx:181-188 | each section's tally counts its answered and its correctly answered questions |
| Scoring.TallySections | src/app/quiz/page.tsx:181-188 | the walk over the groups builds those tallies |
| Scoring.Breakdown | src/app/quiz/page.tsx:189-191 | there is one breakdown row per section tally |
| Scoring.BreakdownShape | src/app/quiz/page.tsx:181-191 | the breakdown lists exactly the answered sections, once each; each row has its own counts, a total of at least one and a percentage in 0..100 |
| Scoring.Incorrects | src/app/quiz/page.tsx:192-196 | the incorrect list holds exactly the answered, wrongly answered questions, each with the answer given |
| Scoring.CollectIncorrect | src/app/quiz/page.tsx:192-196 | the second walk builds that list |
| Scoring.Summarize | src/app/quiz/page.tsx:176-196 | the score is the correct answers over all answers, its percentage is rounded and is 0 with no answers, and the breakdown and incorrect list are those of the walk |
| Scoring.TalliesSum | src/app/quiz/page.tsx:181-188 | the tallies together count every answered question, and every correct one, once |
| Scoring.BreakdownSums | src/app/quiz/page.tsx:181-191 | the breakdown's totals add up to the answered questions of the walk, and its correct counts to the correct ones |
| Scoring.IncorrectsCount | src/app/quiz/page.tsx:192-196 | there is one wrong answer entry per answered, not correct, question |
| Scoring.BreakdownCoversAnswers | src/app/quiz/page.tsx:176-196 | for a quiz with unique ids whose answers belong to it, the breakdown covers every answer, and the incorrect list holds all answers minus the correct ones |
| Attempts.Right | src/app/analytics/page.tsx:45 | a section's correct attempts never exceed its attempts |
| Attempts.CorrectTotal | src/app/analytics/page.tsx:49 | the correct attempts never exceed the history |
| Attempts.UnknownIgnored | src/app/analytics/page.tsx:43 | an attempt naming no known section changes no section's counts |
| Attempts.TriedAppend | src/app/analytics/page.tsx:42-47 | counting a history in two pieces adds the counts |
| Analytics.Stat | src/app/analytics/page.tsx:40-47 | a section counts no more correct attempts than attempts |
| Analytics.Bump | src/app/analytics/page.tsx:42-46 | one row bumps the counter of the section it names, and its correct count when right, and leaves the other counters alone |
| Analytics.TracksStep | src/app/analytics/page.tsx:42-46 | after one more row the counters are those of the longer history |
| Analytics.CountSections | src/app/analytics/page.tsx:40-47 | every section's counter holds its attempts and its correct attempts; unknown sections are ignored |
| Analytics.WindowAcc | src/app/analytics/page.tsx:53-54 | a window's accuracy is a percentage in 0..100 |
| Analytics.Trend | src/app/analytics/page.tsx:51-55 | the trend is the accuracy of the 50 newest rows minus that of the next 50; it is 0 until the prior window has rows, and lies in −100..100 |
| Analytics.AccOf | src/app/analytics/page.tsx:57-61 | a section with rows gets its own total and a percentage in 0..100 |
| Analytics.Accs | src/app/analytics/page.tsx:57-61 | `sectionAccuracies` holds exactly the sections with rows, in SECTIONS order, once each |
| Analytics.StrongestAt | src/app/analytics/page.tsx:62 | the strongest entry has the highest percentage, and no earlier entry has as high a one |
| Analytics.WeakestAt | src/app/analytics/page.tsx:63 | the weakest entry has the lowest percentage, and no earlier entry has as low a one |
| Analytics.Strongest | src/app/analytics/page.tsx:62 | there is no strongest section exactly when no section has rows |
| Analytics.Weakest | src/app/analytics/page.tsx:63 | there is no weakest section exactly when no section has rows |
| Analytics.StrongestWeakest | src/app/analytics/page.tsx:57-63 | every section with rows lies between the weakest and the strongest; on equal percentages the earlier section in SECTIONS is the one chosen |
| Analytics.ShowCardsExactly | src/app/analytics/page.tsx:147 | the two cards appear exactly when two sections with rows differ in accuracy |
| Analytics.ExtremesAt | src/app/analytics/page.tsx:62-63 | when all percentages are equal, strongest and weakest are both the first entry |
| Analytics.Weight | src/app/analytics/page.tsx:66-68 | every test weight is positive |
| Analytics.WeightsTotal | src/app/analytics/page.tsx:66-68 | the test weights add up to 40 |
| Analytics.Accuracy | src/app/analytics/page.tsx:74 | accuracy is a fraction in 0..1 |
| Analytics.Priority | src/app/analytics/page.tsx:75-80 | priority lies between 0 and the section's share of the 40 test questions |
| Analytics.PriorityMonotone | src/app/analytics/page.tsx:74-80 | lower accuracy on a section weighted no less never gives a lower priority |
| Analytics.Item | src/app/analytics/page.tsx:72-81 | a ranking row carries its section, its test weight, its priority and a rounded accuracy in 0..100 |
| Analytics.Insert | src/app/analytics/page.tsx:82 | a stable insertion keeps the rows ranked and adds exactly the new row |
| Analytics.Sort | src/app/analytics/page.tsx:82 | the stable sort is a permutation in non-increasing priority, with ties in SECTIONS order |
| Analytics.Ranking | src/app/analytics/page.tsx:69-83 | the ranking is empty while any section has fewer than 20 attempts; otherwise it is the rows, ranked |
| Analytics.RankingSections | src/app/analytics/page.tsx:71-83 | an unlocked ranking lists each of the five sections exactly once, with its own row, in non-increasing priority |
| Analytics.RankLabel | src/app/analytics/page.tsx:230-233 | ranks 1 and 2 are High Priority, rank 3 is Medium, later ranks are Low |
| Analytics.WeightLabel | src/app/analytics/page.tsx:234 | heavy from 10 test questions, moderate from 6, light below |
| Analytics.AccLabel | src/app/analytics/page.tsx:235 | Low below 50, Moderate below 75, High from 75 |
| Analytics.Labels | src/app/analytics/page.tsx:229-234 | five ranked rows get two High, one Medium and two Low labels; Assumptions and Arguments are heavy, Interpretation moderate, Inference and Deduction light |
| Dashboard.Accuracy | src/app/dashboard/page.tsx:93-95 | overall accuracy is 0 for an empty history and otherwise the rounded share of correct rows, at most 100 |
| Dashboard.CountAttempts | src/app/dashboard/page.tsx:97-101 | `sc` holds each section's attempts and ignores rows naming no section |
| Dashboard.TotC | src/app/dashboard/page.tsx:103 | calibration progress counts each section up to 20 |
| Dashboard.TotCFull | src/app/dashboard/page.tsx:103-104 | progress is full exactly when every listed section has 20 attempts |
| Dashboard.CalibrationTotal | src/app/dashboard/page.tsx:102-104 | `totC` is at most 100, and it is 100 exactly when the profile is unlocked |
| Dashboard.PctDone | src/app/dashboard/page.tsx:684-685 | a section's ring shows five points per attempt, up to 100 |
| Dashboard.ClockParts | src/app/dashboard/page.tsx:40-42 | minutes and seconds are below 60, and the parts cover the time left to the second |
| Dashboard.Countdown | src/app/dashboard/page.tsx:34-45 | an expired pass shows 00:00:00; a live one shows hours, minutes (below 60) and seconds (below 60) covering the time left to the second |
| Dashboard.CountdownReadsBack | src/app/dashboard/page.tsx:34-45 | the countdown text splits at colons into three fields that read back as those hours, minutes and seconds |
| Dashboard.SessionPct | src/app/dashboard/page.tsx:814-817 | a session's score is 0 without questions and otherwise its rounded percentage, at most 100 |
| Dashboard.SessionColour | src/app/dashboard/page.tsx:854 | a session's score is green exactly from 75 percent, the accent colour exactly in 50..74 and red exactly below 50 |
| Dashboard.RecentSessions | src/app/dashboard/page.tsx:126 | the recent list is the first three sessions, or all when fewer |
| ResultsPage.GradeOf | src/app/results/page.tsx:44 | the grade is Excellent from 90, Good in 75..89, Pass in 60..74 and Needs Work below 60; the bands are disjoint and cover every percentage |
| ResultsPage.FormatTime | src/app/results/page.tsx:45 | the time shows whole minutes and the remaining seconds: 60·m + sec = s and sec < 60 |
| ResultsPage.FormatTimeInjective | src/app/results/page.tsx:45 | different times are shown differently |
| ResultsPage.BarColour | src/app/results/page.tsx:114 | a section bar is green exactly from 75 percent, the accent colour exactly in 50..74 and red exactly below 50 |
| ResultsPage.ReviewEnabledExactly | src/app/results/page.tsx:119 | Review is enabled exactly when some answer was wrong |
| ResultsPage.ViewOf | src/app/results/page.tsx:25-45 | a missing or unreadable record gives the No results view; otherwise the view shows the record's grade, counts, time, bar colours and Review state |
| ResultsPage.StoredFields | src/app/quiz/page.tsx:192-196 | a stored wrong answer has the question's own field names plus `userAnswer` |
| ResultsPage.CardAsWrittenLosesFields | src/app/results/page.tsx:59-78 | as written, a review card has no passage, no question text and no correct answer, so no option is marked right |
| ResultsPage.CardRoundTrip | src/app/results/page.tsx:59-78 | read with the stored names, a card shows every field of the wrong answer; the correct option, and only it, is marked right, and the answer given is marked wrong |
| Review.QMap | src/app/review/page.tsx:56 | the question map has exactly the fetched ids as keys, each mapped to a fetched question with that id, and the last question with an id is the one kept |
| Review.Merged | src/app/review/page.tsx:57-61 | the join is never longer than the attempts |
| Review.Merge | src/app/review/page.tsx:57-61 | the `for` loop builds the join |
| Review.MergedOrder | src/app/review/page.tsx:57-61 | each item comes from one attempt with a fetched question, carrying that question and the attempt's answer, in attempt order; no such attempt is skipped |
| Review.Load | src/app/review/page.tsx:38-71 | a missing session id, a failed fetch or no attempts is the error state; otherwise the state is the join |
| Review.LoadAsWritten | src/app/review/page.tsx:52-53 | the questions request is a GET, which the POST-only questions route answers with 405, so the review always ends in the error state |
| Review.NonEmptyExactly | src/app/review/page.tsx:84 | the review has items, which avoids the "No session data found" view, exactly when some attempt's question was fetched |
| Practice.Typed | src/app/practice/page.tsx:72 | typed input is clamped into 1..50, and non-numeric or 0 input becomes 1 |
| Practice.Setup.constructor | src/app/practice/page.tsx:15-16 | setup starts with every section chosen and 20 questions |
| Practice.Setup.Toggle | src/app/practice/page.tsx:18-19 | a click toggles the section's membership and keeps the list free of repeats |
| Practice.Setup.Decrement | src/app/practice/page.tsx:67 | − lowers the count by one, but not below 1 |
| Practice.Setup.Increment | src/app/practice/page.tsx:77 | + raises the count by one, but not above 50 |
| Practice.Setup.Type | src/app/practice/page.tsx:72 | typing sets the clamped count |
| Practice.Setup.Slide | src/app/practice/page.tsx:84 | the slider sets the count |
| Practice.Setup.Start | src/app/practice/page.tsx:93-99 | Start is disabled exactly when no section is chosen; otherwise the link asks for practice over the chosen sections with the count as its limit |
| Practice.ParamsRoundTrip | src/app/practice/page.tsx:93-99 | the quiz reads the practice link back as practice over the chosen sections, in order, with the count as its limit and two questions per passage |
| MockTest.CompositionShape | src/app/test/page.tsx:12-18 | the composition lists each section once, in SECTIONS order, agrees with the analytics weights and adds up to the displayed total of 40 |
| MockTest.StartParams | src/app/test/page.tsx:65-70 | the link asks for a mock test over all of SECTIONS with limit 40 and the composition |
| MockTest.TestLinkRead | src/app/test/page.tsx:65-70 | the quiz reads the link back as a mock test over all sections with limit 40 and three questions per passage |
| MockTest.TestQuotas | src/app/test/page.tsx:69 | on the quiz side the composition gives each section exactly its test weight, 40 in all |
| Learn.IsRightSingle | src/app/learn/page.tsx:68-70 | a single-select is right exactly when the pick is the first correct index |
| Learn.IsRightMultiSets | src/app/learn/page.tsx:68-69 | for repeat-free lists, a multi-select is right exactly when the picked set is the correct set |
| Learn.HasAnswer | src/app/learn/page.tsx:71 | a multi-select has an answer when something is picked; a single-select when a non-negative index is |
| Learn.TruthRight | src/app/learn/page.tsx:142 | a True/False pick is right exactly when it equals the stated truth |
| Learn.Moved | src/app/learn/page.tsx:258-262 | a move is a permutation with the moved item at its target, and the others in their old order |
| Learn.MovedAt | src/app/learn/page.tsx:258-262 | items between the two positions shift one place towards the vacated one; the rest stay put |
| Learn.MoveBack | src/app/learn/page.tsx:257-263 | moving back undoes a move |
| Learn.Splice | src/app/learn/page.tsx:258-261 | the two splices on a copy produce the move |
| Learn.MoveSpoilsOrder | src/app/learn/page.tsx:242 | for distinct items, moving any item from the correct order makes the ranking wrong |
| Learn.Lesson.constructor | src/app/learn/page.tsx:1235 | Begin starts on slide 0 with nothing answered and no explanation, and keeps the info-box flag as it was |
| Learn.Lesson.ChooseOption | src/app/learn/page.tsx:56-66 | before submission a multi-select click toggles the index and a single-select click replaces it; afterwards nothing changes |
| Learn.Lesson.CheckChoice | src/app/learn/page.tsx:112 | Check Answer reveals the explanation only when there is an answer |
| Learn.Lesson.CheckPicked | src/app/learn/page.tsx:166-167 | a True/False Check Answer reveals the explanation once something is picked |
| Learn.Lesson.ChooseTruth | src/app/learn/page.tsx:159 | before submission a True/False click records the pick; afterwards nothing changes |
| Learn.Lesson.InitOrder | src/app/learn/page.tsx:246 | a ranking not yet recorded is stored in its given order |
| Learn.Lesson.Move | src/app/learn/page.tsx:257-263 | the arrow buttons do nothing once submitted or with a target off the list; otherwise they move the item there |
| Learn.Lesson.Drop | src/app/learn/page.tsx:248-256 | a drop does nothing once submitted, with nothing dragged, or onto the dragged row itself; otherwise it moves the dragged item there |
| Learn.Lesson.Go | src/app/learn/page.tsx:1131 | `go` moves exactly one slide and hides the explanation and the info box |
| Learn.Lesson.Previous | src/app/learn/page.tsx:1158 | Previous does nothing on slide 0 and otherwise goes back one slide |
| Learn.Lesson.Next | src/app/learn/page.tsx:1159-1161 | Next moves on one slide; on the last slide it is the exit link, to practice with access and to pricing without |
| Learn.Lesson.Jump | src/app/learn/page.tsx:1166-1170 | a progress dot opens its slide and hides the explanation |
| Learn.Lesson.Exit | src/app/learn/page.tsx:1132 | `exitLearn` resets to slide 0 and clears every answer |
| Learn.Lesson.Back | src/app/learn/page.tsx:1139 | Back asks for confirmation past the first slide and exits at once on it |
| Learn.Lesson.Stay | src/app/learn/page.tsx:1176 | Keep learning only closes the dialog |
| Webhook.Hours | src/app/api/webhook/route.ts:36 | missing or empty metadata means 6 hours; other metadata is read by `parseInt` |
| Webhook.NewExpiry | src/app/api/webhook/route.ts:48-51 | the new expiry is the later of the current expiry and now, plus the hours; it stacks on access still running and starts from now otherwise |
| Webhook.PurchasesAdd | src/app/api/webhook/route.ts:46-51 | a second purchase made while access runs ends it as if both blocks had been bought at once |
| Webhook.ExpiryBounds | src/app/api/webhook/route.ts:48-51 | access never ends sooner than the hours from now, nor sooner than the access held plus the hours |
| Webhook.Handle | src/app/api/webhook/route.ts:33-51 | events other than a completed checkout, and ones without a user, change no profile; otherwise the user's expiry is set, or the handler fails when the hours do not parse |
| ProfilePatch.Whitelisted | src/app/api/profile/route.ts:37-43 | exactly the allowed keys the body holds are kept, with their values unchanged |
| ProfilePatch.Filter | src/app/api/profile/route.ts:37-43 | the loop over the allowed keys builds that filtered map |
| ProfilePatch.Patch | src/app/api/profile/route.ts:27-47 | no user is 401; no allowed field is a 400 with no update; otherwise exactly the whitelisted fields are applied |
| ProfilePatch.ExpiryNeverWritten | src/app/api/profile/route.ts:37-43 | the access expiry and the Stripe customer are never written, whatever the body holds |
| Auth.HasAccess | src/lib/AuthContext.tsx:97-98 | access holds exactly when an expiry is set and lies after now |
| Auth.AccessMonotone | src/lib/AuthContext.tsx:97-98 | access held at a time is held at every earlier time |
| Auth.Redirect | src/lib/AuthContext.tsx:168-197 | a redirect only ever goes to /login, /onboarding or /dashboard |
| Auth.RedirectRules | src/lib/AuthContext.tsx:168-197 | nothing happens while loading or redirecting. /login is chosen exactly for a signed-out visitor with no profile on a non-public page, so public pages never go there. /onboarding is chosen exactly for a user without a university elsewhere. /dashboard is chosen exactly for a user with one on /login or /onboarding |
| Auth.RedirectSettles | src/lib/AuthContext.tsx:168-197 | after following a redirect, the same visitor is not redirected again |
| Auth.ProfileStore.constructor | src/lib/AuthContext.tsx:56-58 | the provider starts loading, with no user and no profile; what session storage already holds stays there |
| Auth.ProfileStore.LoadCache | src/lib/AuthContext.tsx:101-107 | a cached profile is shown at once and stops the loading state; without one nothing changes |
| Auth.ProfileStore.Update | src/lib/AuthContext.tsx:65-68 | `updateProfile` keeps and caches a profile, and clears both for `null`; a profile held is always the cached one |
| Auth.ProfileStore.Refresh | src/lib/AuthContext.tsx:90-95 | with a user signed in, a fetched profile replaces the one held and the cache; otherwise nothing changes |
| Auth.ProfileStore.Init | src/lib/AuthContext.tsx:116-139 | with a session the user is kept and a fetched profile replaces the held one; without a session user, profile and cache are cleared; loading ends either way |
| Auth.ProfileStore.SignedIn | src/lib/AuthContext.tsx:146-150 | a sign-in keeps the user, caches a fetched profile and ends loading |
| Auth.ProfileStore.SignedOut | src/lib/AuthContext.tsx:151-154 | a sign-out clears user, profile and cache, after which every protected page redirects to /login |
| Auth.ProfileStore.SignOut | src/lib/AuthContext.tsx:199-205 | `signOut` clears user, profile and cache and sends the visitor to the public home page |

## Left out

- Network and database I/O, as foreign calls:
  - every `fetch`, Supabase query and Stripe call;
  - webhook signature checks;
  - the attempts POST at the end of a quiz.
- Fetched data. The pool, the history, the sessions, the stored results and the stored profile are inputs. A failed request is an absent input (`None`).
- `sessionStorage` persistence. The stored quiz results are an input of the results page, and the profile cache is a field of `Auth.ProfileStore`.
- The wall clock.
  - `Date.now()` and `new Date()` are parameters.
  - `fin`'s `timeSpent` is not computed. The results page takes it as an input.
  - The practice timer label is not modelled.
- Intervals and timers. The one-second tick is a method the caller invokes. The quiz page's 30-second expiry poll at lines 151-161, and the 1.5 s reset of the redirect guard, are not modelled; the guard is a parameter.
- React scheduling. The model has none of:
  - stale closures, for example a tick that calls an older `fin`;
  - the `isMounted`/`cancelled` flags;
  - the `fetchingProfile` guard;
  - the drag-over highlight state.
- Floating point. Percentages are exact integer rounding, and priority is an exact real. Binary floating-point round-off is not modelled.
- `Text.ParseInt`: reads digits into an exact integer. A number beyond 2^53, which `parseInt` rounds, is not modelled, and neither is `-0`, which is 0 here.
- `Practice.Typed`: the typed value is an integer. `+e.target.value` can be a fraction such as 2.5, which the source keeps as the count, shows as "2.5 questions" and sends as `limit=2.5`, which the quiz reads as 2. Fractional counts are not modelled, so `Practice.ParamsRoundTrip` covers whole counts only.
- The JSON text layer. `JSON.parse` of the composition becomes a choice among three cases: absent, unparsable, or a list of readable and unreadable elements. A composition entry whose count is not a number is not modelled.
- `Session.QuizSession.constructor`: the session exists once the questions are in. Its clock is what is left after the ticks that ran during loading. The source runs the test countdown from mount and does not guard it by `loading` or by an empty grouping. So a mock test can expire on the loading view, on the "Unable to load Quiz" view or on "No questions available", and `fin` then stores a 0/0 record and goes to /results. That expiry before any question is shown is not modelled.
- `Sampler.BuildQuiz`: takes the limit as an integer. A `NaN` limit is left out, because its quotas compare false everywhere and no section is requested.
- `Webhook.Handle`: the stored expiry arrives already read as a time, `None` when there is none. Parsing the stored date text is not modelled. An unreadable stored date gives an Invalid Date, which never compares later than now, so it behaves as `None` and the hours count from now. Only `NaN` hours make `toISOString` throw, which is `Fails`. A sum outside the range of a JavaScript date, which also makes `toISOString` throw, is not modelled.
- `Learn`: an answer of the wrong kind stored under a key is read as no answer, because every exercise here reads only its own key.
- `ProfilePatch.Patch`: the body is the map of its own properties. A JSON body that is not an object, such as `[1]` or `"x"`, has none of the allowed keys and gets the 400, as the model says. Malformed JSON and `null`, where the parse or the property read throws, end in the 500 of the surrounding `try`, which is not modelled.
- `Auth.ProfileStore.Init` leaves out a failing session lookup, which keeps user and profile and only ends loading. The TOKEN_REFRESHED event is left out too; it only re-sets the signed-in user.
- Lesson content. The static slides and texts are left out. So is the ClickID exercise's own grading, `picked === correctIdx`; its click is the single-select choice and its Check Answer is `CheckPicked`.
- Rendering and styling:
  - the JSX, colours and icons;
  - the exit dialogs that only navigate (the quiz's Exit Test / Exit Practice);
  - the options shown on review cards;
  - the session list's own `slice(0, 5)`, which follows the three-row fetch.
- Deprioritising attempted questions, and singleton groups for empty passages, are not modelled, because the source does neither: every empty passage shares the key "General".
- `Dashboard.CountAttempts`, `Analytics.CountSections`: a stored section named after a JavaScript object member such as `toString` would pass the `sp[a.section]` test; the model treats it as unknown.

## Findings

| source | as written | input that shows it | evidently intended | confidence | as-written member | corrected member |
|---|---|---|---|---|---|---|
| src/app/results/page.tsx:59-78 | review cards read `passageText`, `questionText` and `correctAnswer`, but `fin` stores the question row's `passage_text`, `question_text` and `correct_answer` (src/app/quiz/page.tsx:195) | any quiz with one wrong answer: its card shows no passage and no question, and no option is marked correct | the card shows the stored passage, question and correct answer, with the correct option marked | not executed | ResultsPage.CardAsWrittenLosesFields | ResultsPage.CardRoundTrip |
| src/app/review/page.tsx:52-53 | the review page requests `/api/questions?ids=…` with a GET, but src/app/api/questions/route.ts exports only `POST`, so the response is a 405 and `!qRes.ok` throws into the error branch | any stored session with at least one attempt: the page shows "No session data found" | the attempts' questions come back for the ids and the review shows the join | not executed | Review.LoadAsWritten | Review.Load |
