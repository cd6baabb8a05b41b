# 5S audit tracker — verified model

This project models the computational core of a 5S audit tracker: a single-page
application in which an auditor rates a fixed list of questions for a plant
area (SI, PARCIAL, NO or NA), the audit is scored, corrective action items are
generated for every NO or PARCIAL finding, and several screens summarise the
stored audits and actions:

- the **audit form** scores the answers and builds the record and its action items;
- the **dashboard** shows per-area averages sorted best first, the overall
  average, the open/closed action counts and colour bands;
- the **consolidated view** shows each question's compliance, the five worst and
  best questions, and the worst and best areas taken from the two halves of the
  area list sorted by average;
- the **action plan** filters the action items by status and by a
  case-insensitive search over four fields, and counts them per status;
- the **settings** screen adds and deletes areas, responsible persons and
  questions;
- the **application store** holds the records, actions and configuration, saves an
  audit (a new one goes first with its actions, an edited one replaces the stored
  one by id), updates actions, deletes records and, at start-up, merges the
  default questions into a saved configuration.

Modules follow the program: `Types` (the entities), `Seqs` (the array
operations the code uses: `filter`, `find`, `map`, `reduce`, the stable `sort`,
`reverse` and `slice`), `Text` (`trim`, `toUpperCase`, `toLowerCase`,
`includes`), `Scoring` (the score of a list of ratings), `AuditForm`,
`AreaTotals` (the per-area dictionary pass that the dashboard and the
consolidated view both perform), `ConsolidatedView`, `Dashboard`,
`ActionPlanView`, `SettingsView` and `App` (the store, as the class
`AppStore`).

Modelling decisions:

- Points are counted in halves (SI = 2, PARCIAL = 1, NO = NA = 0), and
  `Math.round(x / y)` for positive `y` is the integer `(2x + y) / (2y)`. This
  turns the floating-point percentages into exact integer arithmetic.
- The form's `answers` object is keyed by question id, and JavaScript
  enumerates integer keys in ascending order. So `Object.values` and
  `Object.entries` are modelled on a sequence of answers strictly ascending by
  id, and `handleRatingChange` is a sorted insert-or-replace.
- Other dictionaries keyed by area name (`areaMap`, `areaStats`) are modelled
  as a sequence of entries in first-insertion order.
- The ECMAScript sort is stable. It is modelled by a stable insertion sort; a
  descending comparator is the same sort on the negated key.
- The dashboard's `chartData` rows `{name, score, audits}` use the same type
  as the consolidated view's `{name, average, count}`, with `average` playing
  the part of `score` and `count` the part of `audits`.
- Dates are day numbers: the due date of an action is the audit date plus 7.
  `crypto.randomUUID()` is a parameter `uuids`, where `uuids(0)` is the
  audit's id and `uuids(k)` is the `k`-th action's id. The creation time is a
  parameter `now`.
- `confirm` prompts are boolean parameters. A handler whose guard fails (a
  blank input, a declined prompt) returns `None`, meaning the
  `onUpdateConfig`/`onSave` callback is not called.
- The store's load effect receives what was parsed from storage as `Option`
  values: `None` means nothing was stored or the text did not parse.

## Model

| member | source | states |
|---|---|---|
| Scoring.Points | components/AuditForm.tsx:65-79 | definition: `totalPoints`, counted in halves: 2 for SI, 1 for PARCIAL, 0 for NO and N/A, summed over the ratings in order; `PointsAppend` and `PointsAtMostMax` state it |
| Scoring.MaxPoints | components/AuditForm.tsx:65-79 | definition: `maxPoints`, 1 for every rating but N/A, summed in order; `MaxPointsZeroIff` and `PointsAppend` state it |
| Scoring.Percent | components/AuditForm.tsx:81 | definition: 0 when the maximum is 0, else the points (halves over 2) over the maximum as a percentage rounded half up; `PercentInRange` states it |
| Scoring.Score | components/AuditForm.tsx:64-81 | definition: 0 when no rating counts (none given, or all NA), else the points over the maximum as a percentage rounded half up; its range, NA insensitivity and examples are the Scoring lemmas above and below |
| Scoring.RoundDiv | components/AuditForm.tsx:81 | the result `r` is the nearest integer to `n/d` with halves rounded up: `d(2r-1) <= 2n < d(2r+1)` |
| Scoring.RoundDivUnique | components/AuditForm.tsx:81 | any integer meeting those bounds is the rounded value, so rounding is determined |
| Scoring.RoundDivBetween | components/Dashboard.tsx:47 | the rounded mean of values within `lo..hi` lies within `lo..hi` |
| Scoring.PointsAtMostMax | components/AuditForm.tsx:68-79 | the points never exceed the maximum (in halves, at most twice the maximum) |
| Scoring.PercentInRange | components/AuditForm.tsx:81 | the rounded percentage of at most the maximum lies in 0..100 |
| Scoring.ScoreInRange | components/AuditForm.tsx:64-82 | every list of ratings scores within 0..100 |
| Scoring.MaxPointsZeroIff | components/AuditForm.tsx:68-79 | the maximum is 0 exactly when every rating is NA (or there are none) |
| Scoring.ScoreOfOnlyNA | components/AuditForm.tsx:78-81 | no ratings, or only NA ratings, score 0 |
| Scoring.ScoreOfOnlySI | components/AuditForm.tsx:69-81 | a non-empty list of SI ratings scores 100 |
| Scoring.PointsAppend | components/AuditForm.tsx:68-79 | points and maximum of a concatenation are the sums of the parts |
| Scoring.ScoreIgnoresNA | components/AuditForm.tsx:78 | inserting or removing an NA rating anywhere leaves the score unchanged |
| Scoring.ScoreOfMixedExample | components/AuditForm.tsx:64-82 | SI, NO, PARCIAL, NA scores 50 (1.5 points of 3) |
| AuditForm.ValuesOf | components/AuditForm.tsx:68 | `Object.values` of the answer map, in key order: one rating per entry (the same order as `Object.entries` at line 96); `CalculateScore` uses it |
| AuditForm.RecordOf | components/AuditForm.tsx:115-123 | definition: the saved audit, with the form's area, auditor, person, date and answers under the given id, and `Scoring.Score` of the answers in question order as its score |
| AuditForm.Suggestion | components/AuditForm.tsx:142 | definition: the text `Corregir hallazgo: "` followed by the question text and a closing quote |
| AuditForm.ActionFor | components/AuditForm.tsx:135-147 | definition: the action for one finding, with the given id, the audit's id, area and person, the question's id and text, the finding's rating as issue, the suggestion, a due date seven days after the audit, PENDING status and the creation time; `DerivedActionFields` ties generated actions to it |
| AuditForm.SetRating | components/AuditForm.tsx:60-62 | after rating question `qid`, looking up `qid` gives the new rating, every other id looks up as before, and the length grows only if `qid` was unanswered; ids stay ascending (subset type) |
| AuditForm.SetRatingInserts | components/AuditForm.tsx:60-62 | rating an unanswered question inserts exactly one answer and keeps the others in order |
| AuditForm.AddingNAKeepsScore | components/AuditForm.tsx:60-82 | giving an NA answer to an unanswered question leaves the live score unchanged |
| AuditForm.CalculateScore | components/AuditForm.tsx:64-82 | the accumulator loop over `Object.values(answers)` computes the score of the answers' ratings, which lies in 0..100 |
| AuditForm.ResponsableForArea | components/AuditForm.tsx:55-58 | the name of the first responsible person mapped to the area; if none is, the first person's name; with nobody, the empty name |
| AuditForm.FindQuestion | components/AuditForm.tsx:130 | the first configured question with that id, or `None` exactly when no question has it |
| AuditForm.GenerateActions | components/AuditForm.tsx:126-151 | an edit generates nothing; a new audit generates, in answer order, one action per NO/PARCIAL answer whose question is configured, action `k` built from the `k`-th such answer with id `uuids(k+1)` |
| AuditForm.DerivedActionFields | components/AuditForm.tsx:132-146 | every generated action is PENDING, carries the audit's id, area and responsible person, is due 7 days after the audit, has issue type NO or PARCIAL taken from one of the answers, has the configured question's text and the suggestion `Corregir hallazgo: "<text>"` |
| AuditForm.NoFindingsNoActions | components/AuditForm.tsx:128-131 | SI and NA answers generate no actions |
| AuditForm.FindingsOfConfigured | components/AuditForm.tsx:128-131 | when every answered question is configured, the generating answers are exactly the NO and PARCIAL ones |
| AuditForm.TwoFindingsExample | components/AuditForm.tsx:126-151 | five configured answers with one NO and one PARCIAL generate exactly those two findings, in order |
| AuditForm.Submit | components/AuditForm.tsx:86-153 | nothing is saved exactly when the auditor name is blank or an incomplete form's prompt is declined; otherwise the record carries the form's fields, answers and score under the edited audit's id or a fresh one, and actions are generated only for a new audit |
| AreaTotals.AddRecord | components/ConsolidatedView.tsx:43-49 | definition: one step of the `forEach`. A record with an area not yet in the dictionary appends an entry holding its score and count 1; otherwise its score and 1 are added to that area's entry. Dashboard.tsx:17-23 is the same step. `TotalsSummarise` states what the steps build |
| AreaTotals.Totals | components/ConsolidatedView.tsx:42-49 | definition: the area dictionary in insertion order. A record with a new area adds an entry holding its score and count 1; one with a known area adds its score and 1 to that entry. Dashboard.tsx:15-23 is the same pass. `TotalsSummarise` states what it holds |
| AreaTotals.AreaStats | components/ConsolidatedView.tsx:42-55 | one row per dictionary entry, as many rows as entries (definition: `StatsOf` of `Totals`; the `AreaStats…` lemmas state its meaning) |
| AreaTotals.Accumulate | components/ConsolidatedView.tsx:42-49 | the `forEach` that creates a missing area entry and then adds to its total and count yields the per-area totals |
| AreaTotals.TotalsSummarise | components/ConsolidatedView.tsx:42-49 | the totals have one entry per distinct area; each entry's count and total are the number and score sum of that area's records; every record's area has an entry; the counts add up to the number of records |
| AreaTotals.StatsOf | components/ConsolidatedView.tsx:51-55 | one row per dictionary entry, in the same order, keeping its area and count, whose average is the entry's total over its count rounded to the nearest integer, halves up (requires every count to be positive, which the totals guarantee) |
| AreaTotals.ComputeAreaStats | components/ConsolidatedView.tsx:42-55 | the dictionary pass followed by the `map` gives the area statistics |
| AreaTotals.AreaStatsDistinct | components/ConsolidatedView.tsx:51-55 | no area has two rows |
| AreaTotals.AreaStatsGroups | components/ConsolidatedView.tsx:42-55 | each row's count is the number of that area's records (at least 1) and its average is the rounded mean of their scores |
| AreaTotals.AreaStatsCover | components/ConsolidatedView.tsx:42-55 | every record's area has a row |
| AreaTotals.AreaStatsFromRecords | components/ConsolidatedView.tsx:42-55 | every row names the area of some record |
| AreaTotals.AreaStatsCountAll | components/ConsolidatedView.tsx:42-55 | the counts of the rows add up to the number of records |
| AreaTotals.AreaAveragesInRange | components/ConsolidatedView.tsx:51-55 | with every score in 0..100, every area average is in 0..100 |
| ConsolidatedView.StatFor | components/ConsolidatedView.tsx:13-34 | definition: a question's row, with its id and text, `Scoring.Score` of the first ratings the records give it, and the number of those that are not NA; `StatMeaning` states it |
| ConsolidatedView.StatsFor | components/ConsolidatedView.tsx:13-35 | one row per question of the list, as many rows as questions (definition: `StatFor` at each position) |
| ConsolidatedView.ActiveQuestions | components/ConsolidatedView.tsx:37 | definition: the rows with a positive count, in order; `ActiveQuestionsExact` states it |
| ConsolidatedView.LowestQuestions | components/ConsolidatedView.tsx:38 | definition: the first five of the active rows sorted stably by ascending percentage; `LowestQuestionsFacts` states it |
| ConsolidatedView.HighestQuestions | components/ConsolidatedView.tsx:39 | definition: the first five of the active rows sorted stably by descending percentage; `HighestQuestionsFacts` states it |
| ConsolidatedView.SortedAreas | components/ConsolidatedView.tsx:58 | definition: `sortedAreas`, the area rows sorted stably by ascending average; `AreaListsSorted` and `Seqs.SortBySorted`/`SortByPermutes` state it |
| ConsolidatedView.WorstCandidates | components/ConsolidatedView.tsx:58-63 | definition: the first floor(n/2) areas of the stable ascending sort by average |
| ConsolidatedView.BestCandidates | components/ConsolidatedView.tsx:58-64 | definition: the sorted areas from position floor(n/2) on |
| ConsolidatedView.LowestAreas | components/ConsolidatedView.tsx:67 | definition: the first five worst candidates; `LowestPositions` and `AreaLists…` state it |
| ConsolidatedView.HighestAreas | components/ConsolidatedView.tsx:69 | definition: the first five best candidates, read from the end; `HighestPositions` and `AreaLists…` state it |
| ConsolidatedView.FirstAnswer | components/ConsolidatedView.tsx:18 | a rating is found exactly when some answer is about the question, and it is the rating of the first such answer |
| ConsolidatedView.CountIsCountedRecords | components/ConsolidatedView.tsx:17-34 | a question's count is the number of records whose first answer to it is not NA |
| ConsolidatedView.StatMeaning | components/ConsolidatedView.tsx:13-35 | a question's row keeps its id and text; its percentage is the score of the records' first answers to it and lies in 0..100; its count is the number of records that rate it other than NA |
| ConsolidatedView.UnratedQuestion | components/ConsolidatedView.tsx:33 | a question no record rates other than NA has count 0 and percentage 0 |
| ConsolidatedView.AddRating | components/ConsolidatedView.tsx:20-28 | an answer adds its rating's points, counted in halves, and its weight to the running totals; N/A adds nothing |
| ConsolidatedView.QuestionStatOf | components/ConsolidatedView.tsx:14-34 | the loop accumulating points and maximum over the records yields the question's row |
| ConsolidatedView.QuestionStats | components/ConsolidatedView.tsx:13-35 | one row per question, in question order |
| ConsolidatedView.ActiveQuestionsExact | components/ConsolidatedView.tsx:37 | the active questions are a subsequence of the rows that holds exactly the rows with a positive count, each with all its copies |
| ConsolidatedView.LowestQuestionsFacts | components/ConsolidatedView.tsx:38 | at most five rows (fewer only if fewer are active), ascending by percentage, taken from the active rows, and no left-out row has a lower percentage than a listed one |
| ConsolidatedView.HighestQuestionsFacts | components/ConsolidatedView.tsx:39 | at most five rows, descending by percentage, taken from the active rows, and no left-out row has a higher percentage than a listed one |
| ConsolidatedView.QuestionListsOverlap | components/ConsolidatedView.tsx:38-39 | with one to five active questions, both lists hold all of them, so the lists are not disjoint |
| ConsolidatedView.ReverseInPlace | components/ConsolidatedView.tsx:69 | `Array.prototype.reverse` in place: the array's new contents are its old contents reversed |
| ConsolidatedView.RankAreas | components/ConsolidatedView.tsx:41-69 | the area pass, the ascending sort, the midpoint split, the in-place reverse and the slices yield the worst and best area lists |
| ConsolidatedView.LowestPositions | components/ConsolidatedView.tsx:63-67 | the worst list's `i`-th area is the `i`-th of the sorted areas, from the lower half |
| ConsolidatedView.HighestPositions | components/ConsolidatedView.tsx:64-69 | the best list's `j`-th area is the `j`-th from the end of the sorted areas, from the upper half |
| ConsolidatedView.AreaSplitSizes | components/ConsolidatedView.tsx:61-69 | the halves have `floor(n/2)` and `n - floor(n/2)` areas; each list has at most five; one area gives a best list and two give a worst list |
| ConsolidatedView.AreaListsDisjoint | components/ConsolidatedView.tsx:60-69 | with distinct area names, no area is in both lists |
| ConsolidatedView.AreaListsSorted | components/ConsolidatedView.tsx:58-69 | the worst list is ascending and the best list descending by average |
| ConsolidatedView.AreaListsSeparated | components/ConsolidatedView.tsx:58-69 | every average in the worst list is at most every average in the best list |
| ConsolidatedView.HighestAreaIsBest | components/ConsolidatedView.tsx:58-69 | with at least one area, the first of the best list has the highest average of all |
| ConsolidatedView.AreaListsOfRecords | components/ConsolidatedView.tsx:42-69 | for the stored records, the two lists share no area, and every listed area has at least one audit |
| ConsolidatedView.Consolidate | components/ConsolidatedView.tsx:13-69 | the view's four lists are the lowest and highest active questions and the worst and best areas |
| Dashboard.ChartData | components/Dashboard.tsx:15-31 | definition: the area rows sorted stably by descending average; the `ChartData…` lemmas state it |
| Dashboard.OpenActions | components/Dashboard.tsx:50 | definition: the number of actions whose status is not CLOSED |
| Dashboard.ClosedActions | components/Dashboard.tsx:51 | definition: the number of actions whose status is CLOSED; `OpenPlusClosed` relates the two |
| Dashboard.ScoreColor | components/Dashboard.tsx:34-38 | definition: the green classes from 90, the yellow ones from 70, the red ones below |
| Dashboard.BarColor | components/Dashboard.tsx:40-44 | definition: `#22c55e` from 90, `#eab308` from 70, `#ef4444` below |
| Dashboard.AverageTextColor | components/Dashboard.tsx:205-207 | definition: `text-green-600` from 90, `text-yellow-600` from 70, `text-red-600` below |
| Dashboard.PieData | components/Dashboard.tsx:57-60 | definition: the slices Cumplimiento, with the average, and Brecha, with 100 minus it; `PieFacts` states their sum and range |
| Dashboard.PieColors | components/Dashboard.tsx:61 | definition: the bar colour of the average, then `#f3f4f6` |
| Dashboard.BuildChartData | components/Dashboard.tsx:15-31 | the dictionary pass, `map` and descending sort compute the chart rows |
| Dashboard.ChartDataDistinct | components/Dashboard.tsx:15-31 | one bar per area |
| Dashboard.ChartDataCoversAreas | components/Dashboard.tsx:15-31 | every record's area has a bar |
| Dashboard.ChartDataOnlyAreas | components/Dashboard.tsx:15-31 | every bar is the area of some record |
| Dashboard.ChartDataCountsAll | components/Dashboard.tsx:17-30 | the bars' audit counts add up to the number of records |
| Dashboard.ChartDataDescending | components/Dashboard.tsx:31 | the bars are non-increasing by score |
| Dashboard.AverageScore | components/Dashboard.tsx:46-48 | 0 without records, otherwise the mean of the scores rounded half up |
| Dashboard.AverageScoreInRange | components/Dashboard.tsx:46-48 | with every score in 0..100 the average is in 0..100 |
| Dashboard.AverageOfEqualScores | components/Dashboard.tsx:46-48 | when every audit has the same score, that score is the average |
| Dashboard.OpenPlusClosed | components/Dashboard.tsx:50-51 | open plus closed actions is the number of actions |
| Dashboard.BandOf | components/Dashboard.tsx:34-44 | green exactly from 90, yellow exactly from 70 below 90, red exactly below 70 |
| Dashboard.ColoursAgree | components/Dashboard.tsx:34-44 | the badge classes, the bar colour and the average's text colour (the ternary at line 206) each tell two scores apart exactly when their bands differ, so all three use one set of thresholds |
| Dashboard.PieFacts | components/Dashboard.tsx:57-60 | two slices that add up to 100, each within 0..100 when the average is |
| Dashboard.ChartHeight | components/Dashboard.tsx:54 | at least 300 and at least 60 per bar, and equal to one of the two |
| ActionPlanView.FilteredActions | components/ActionPlanView.tsx:18-26 | definition: the actions passing both the status test and the search test, in order; `FilteredActionsExact` states it |
| ActionPlanView.MatchesStatus | components/ActionPlanView.tsx:19 | definition: the filter is ALL or equals the action's status |
| ActionPlanView.MatchesSearch | components/ActionPlanView.tsx:20-24 | definition: the lower-cased term is included in the lower-cased area, suggested action, question text or person; `SearchMeaning` states it |
| ActionPlanView.StatusCount | components/ActionPlanView.tsx:99-107 | definition: the number of actions with the given status, as each of the three counters shows; `StatusCountsSum` relates them |
| ActionPlanView.StatusLabel | components/ActionPlanView.tsx:28-34 | definition: Pendiente, En Proceso and Cerrado for the three statuses; `StatusLabelInjective` states that they differ |
| ActionPlanView.FilteredActionsExact | components/ActionPlanView.tsx:18-26 | the shown actions are a subsequence of the actions, holding exactly those that match the status filter and the search, each with all its copies; under a status filter every shown action has that status |
| ActionPlanView.NoFilterShowsAll | components/ActionPlanView.tsx:18-26 | with ALL and an empty search every action is shown, in order |
| ActionPlanView.SearchMeaning | components/ActionPlanView.tsx:20-24 | an action matches exactly when the lower-cased term occurs in the lower-cased area, suggested action, question text or responsible person |
| ActionPlanView.SearchIgnoresTermCase | components/ActionPlanView.tsx:20-24 | lower-casing the term first changes nothing |
| ActionPlanView.StatusCountsSum | components/ActionPlanView.tsx:99-107 | the PENDING, IN_PROGRESS and CLOSED counts add up to the number of actions |
| ActionPlanView.StatusLabelInjective | components/ActionPlanView.tsx:28-34 | two statuses get the same label exactly when they are equal |
| SettingsView.Normalised | components/SettingsView.tsx:22 | definition: the entry trimmed, then upper-cased (also line 41); `NormalisedEnds` and `NormalisedIsUpper` state it |
| SettingsView.NormalisedEnds | components/SettingsView.tsx:19-22 | a non-blank entry normalises to a non-empty text with no white space at either end |
| SettingsView.NormalisedIsUpper | components/SettingsView.tsx:22 | a normalised entry is already upper case |
| SettingsView.AddArea | components/SettingsView.tsx:18-26 | a blank entry changes nothing; otherwise the trimmed, upper-cased area is appended and the other fields are kept |
| SettingsView.DeleteArea | components/SettingsView.tsx:28-35 | a declined prompt changes nothing; otherwise every occurrence of the area is removed, every other area keeps all its copies, in order, and the other fields are kept |
| SettingsView.DeleteAddedArea | components/SettingsView.tsx:18-35 | deleting a newly added area restores the configuration |
| SettingsView.AddResponsable | components/SettingsView.tsx:37-45 | a blank entry changes nothing; otherwise the trimmed, upper-cased name is appended with no area |
| SettingsView.DeleteResponsable | components/SettingsView.tsx:47-54 | a declined prompt changes nothing; otherwise exactly the people with that name are removed, every other person keeps all its copies, in order, and the other fields are kept |
| SettingsView.DeleteAddedResponsable | components/SettingsView.tsx:37-54 | deleting a newly added name restores the configuration |
| SettingsView.MaxId | components/SettingsView.tsx:59 | `Math.max` of the ids: at least every id and equal to one of them |
| SettingsView.NextQuestionId | components/SettingsView.tsx:58-60 | 1 for no questions, else one more than the largest id: larger than every id in use |
| SettingsView.AddQuestion | components/SettingsView.tsx:56-68 | a blank entry changes nothing; otherwise the trimmed (not upper-cased) text is appended under the next id |
| SettingsView.AddQuestionKeepsIdsDistinct | components/SettingsView.tsx:56-68 | distinct question ids stay distinct after an addition |
| SettingsView.DeleteQuestion | components/SettingsView.tsx:70-77 | a declined prompt changes nothing; otherwise exactly the questions with that id are removed, every other question keeps all its copies, in order, and the other fields are kept |
| SettingsView.DeleteAddedQuestion | components/SettingsView.tsx:56-77 | deleting a newly added question by its new id restores the configuration |
| App.MergeQuestions | App.tsx:55-58 | definition: the saved questions followed by the default questions whose id is not among them. An empty addition leaves the list as it is, as the length test at line 57 does. `MergeQuestionsMeaning` states it |
| App.DefaultConfig | App.tsx:23-27 | definition of DEFAULT_CONFIG, not a proved property: the default questions and areas, and one responsible person per area mapping, carrying that area |
| App.MergeQuestionsMeaning | App.tsx:53-59 | the merged list starts with the saved questions in order, and then holds, in order, exactly the default questions whose id is not saved, each with as many copies as in the defaults |
| App.MergeCoversDefaults | App.tsx:55-59 | every default question's id is present after the merge |
| App.MergeIdempotent | App.tsx:55-58 | merging an already merged list adds nothing |
| App.AppStore.constructor | App.tsx:31-38 | the home view, no records, no actions, the default configuration, nothing being edited |
| App.AppStore.Load | App.tsx:41-63 | each parsed value replaces its field; a saved configuration gets the missing default questions appended |
| App.AppStore.SaveAudit | App.tsx:78-90 | while editing, the records with the saved id are replaced in place and actions kept; otherwise the record is put first and the new actions, in order, before the old ones; the form closes and the dashboard shows; scores stay in 0..100 |
| App.AppStore.UpdateAction | App.tsx:92-94 | exactly the actions with the updated id are replaced; length, order and everything else are kept |
| App.AppStore.UpdateConfig | App.tsx:96-98 | the configuration is replaced and nothing else changes |
| App.AppStore.Edit | App.tsx:100-103 | the record is being edited and the form is shown |
| App.AppStore.Delete | App.tsx:105-109 | a declined prompt changes nothing; otherwise every record with the id is removed, the others kept in order, and the actions are untouched |
| App.AppStore.CancelForm | App.tsx:111-114 | editing is cleared and the home view is shown |
| App.AppStore.StartNewAudit | App.tsx:128 | editing is cleared and the form is shown |
| App.AppStore.Navigate | App.tsx:137 | a `setView` to any screen but the form changes only the view (the form is opened by `Edit` and `StartNewAudit`) |
| App.AppStore.SubmitForm | App.tsx:165 | the form wired to the store: saved exactly when the form accepts; an edit replaces the stored audit under its id; a new audit goes first with the actions derived from its findings before the old ones; scores stay in 0..100 |
| Seqs.Filter | components/ConsolidatedView.tsx:37 | `filter`: no longer than its input, every kept element passes and comes from the input, and every passing element is kept (order and copies are `FilterIsSubsequence` and `FilterMultiset`) |
| Seqs.SortBy | components/ConsolidatedView.tsx:58 | a stable `sort` by the comparator `key(a) - key(b)`. It keeps the length; order, permutation and stability are `SortBySorted`, `SortByPermutes` and `SortByIsStable` |
| Seqs.Take | components/ConsolidatedView.tsx:67 | `slice(0, n)`: the first min(n, length) elements, unchanged |
| Seqs.Reverse | components/ConsolidatedView.tsx:69 | `reverse`, as a value: same length (the positions are `ReverseAt`) |
| Seqs.ReplaceWhere | App.tsx:93 | definition: `map` replacing each element that passes by the given one; `ReplaceWhereAt` states it |
| Seqs.SumBy | components/Dashboard.tsx:47 | definition: the `reduce` summing a field from 0; `SumByAppend` and `SumByUpdate` state how it splits |
| Seqs.Find | components/AuditForm.tsx:56 | the first index whose element passes, or `None` exactly when none does |
| Seqs.ReplaceWhereAt | App.tsx:80 | `map(r => r.id === id ? x : r)` keeps the length and replaces exactly the matching positions |
| Seqs.FilterIsSubsequence | components/ActionPlanView.tsx:18 | `filter` keeps a subsequence of its input |
| Seqs.FilterPartition | components/Dashboard.tsx:50-51 | filtering by a predicate and by its negation splits the input's length |
| Seqs.FilterMultiset | components/SettingsView.tsx:32 | `filter` keeps every copy of an element that passes and none of one that fails |
| Seqs.SortBySorted | components/ConsolidatedView.tsx:58 | the sort orders by the key |
| Seqs.SortByPermutes | components/ConsolidatedView.tsx:58 | the sort is a permutation of its input |
| Seqs.SortByIsStable | components/ConsolidatedView.tsx:58 | the elements with one key keep their original order |
| Seqs.ReverseOfSorted | components/ConsolidatedView.tsx:69 | reversing an ascending list gives a descending one |
| Seqs.TakeOfSorted | components/ConsolidatedView.tsx:67 | `slice(0, n)` of a sorted list is sorted, comes from it, and nothing left out is below what was kept |
| Text.Trim | components/SettingsView.tsx:19 | definition: `trim`, removing ECMAScript white space at both ends; `TrimIsEmptyIff` and `TrimmedEnds` state it |
| Text.ToUpper | components/SettingsView.tsx:22 | `toUpperCase`: same length, each character upper-cased |
| Text.ToLower | components/ActionPlanView.tsx:21 | `toLowerCase`: same length, each character lower-cased |
| Text.Contains | components/ActionPlanView.tsx:21 | definition: `includes`, recursively on the suffixes; `ContainsIff` states it |
| Text.TrimIsEmptyIff | components/SettingsView.tsx:19 | `trim()` gives the empty text exactly when the text is all white space |
| Text.TrimmedEnds | components/SettingsView.tsx:22 | a trimmed text has no white space at either end |
| Text.ToUpperIdempotent | components/SettingsView.tsx:22 | upper-casing twice is upper-casing once |
| Text.ToLowerIdempotent | components/ActionPlanView.tsx:21 | lower-casing twice is lower-casing once |
| Text.ContainsIff | components/ActionPlanView.tsx:21 | `includes` holds exactly when the needle occurs at some index |
| Text.ContainsEmpty | components/ActionPlanView.tsx:21 | every text includes the empty text |

## Left out

- Floating-point arithmetic: scores and averages are exact integer halves arithmetic with round-half-up. This agrees with `Math.round` except where an IEEE double lands just below an exact half. For example, 11 SI, 1 PARCIAL and 8 NO give 11.5 points out of 20. In doubles, `(11.5 / 20) * 100` is 57.49999999999999, so `Math.round` gives 57, while `Scoring.Score` gives the exact 57.5 rounded up, 58.
- Text.ToUpper: maps ASCII and Latin-1 letters only (with `ÿ` and `µ`); `toUpperCase` on other scripts, and special mappings such as `ß` to `SS`, are not modelled.
- Text.ToLower: maps ASCII and Latin-1 letters only (with `Ÿ`); `toLowerCase` on other scripts is not modelled.
- The optional `comments` field of an action item is not part of `Types.ActionItem`. The history screen reads it, but no modelled operation writes it, and `UpdateAction` replaces whole items, so no computed value depends on it.
- Browser storage and JSON: the load effect receives already-parsed values, and the save effects are not modelled. A saved configuration without a `questions` field, which makes the merge throw, is not modelled.
- `confirm` prompts are boolean parameters. The `alert` for a blank auditor and the `alert` announcing the generated actions are not modelled.
- `crypto.randomUUID()`, `new Date()` and the ISO date formatting are replaced by the `uuids` and `now` parameters and by day numbers. Time zones are not modelled.
- The form's effects (initial field values, the auditor name remembered in storage, filling in the responsible person when the area changes) are not modelled. Neither is loading an edited audit's answers into the form.
- The overdue highlight in the action plan is not modelled, because it depends on the wall clock.
- The history screen, the image editor and its network service are not part of this model.
- The action plan's delete-one and clear-all handlers are not modelled, because the store does not wire them.
- Area names equal to integer-like keys, or to `Object.prototype` members such as `toString`, would change JavaScript's dictionary enumeration order or lookups. The model treats every area name as an ordinary key in first-insertion order.
- The `|| ''` and `|| []` guards for missing fields are not modelled: every field of the model is always present.
- The constants and types files are not part of this model. The question list, areas and area mapping are parameters; the consolidated view is given the fixed question list as its `questions` parameter.
- Rendering, styling classes other than the colour strings, charts and icons are not modelled.
