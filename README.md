# Study planner core, modelled in Dafny

This project models the decision logic of a study-planner web service. The service:

- turns a deadline, a subject and a target number of hours into a study timetable, using a generative text model;
- recommends what to study now;
- tracks study progress;
- generates and scores multiple-choice quizzes;
- keeps a focus-tracking session that counts switches to a distracting app.

The model covers the parts of `backend/app.py` and `backend/focus_tracking.py` that decide things.

The files are:

- `text.dfy` (`Text`): the Python string operations used: `strip`, `find`, `rfind`, `split`, `join`, `replace`, `upper`, `lower`, `title`.
- `dates.dfy` (`Dates`): calendar dates, `parse_deadline`, ISO formatting, and the next day.
- `interpret.dfy` (`Interpret`): reading the generative model's replies. This covers:
  - the `JSON_START:`/`:JSON_END` split;
  - the first-`{`-to-last-`}` span;
  - the `Task:`/`Reason:`/`Duration:` line scan.
- `timetable.dfy` (`Timetables`): the checks of `create_timetable` and the store of the latest timetable.
- `ranker.dfy` (`Ranker`): the recommendation of `get_study_recommendation`.
- `progress.dfy` (`Progress`): `get_progress` and `update_progress` on the progress store.
- `scoring.dfy` (`Scoring`): the scoring loop of `submit_quiz`, the weak/strong classification and `generate_recommendations`.
- `quiz.dfy` (`Quizzes`): `generate_quiz`, `submit_quiz` and `get_quiz_results` on the quiz store.
- `focus.dfy` (`Focus`): the `FocusTracker` class.

The clock, the generative model's replies and `json.loads` are parameters:

- `json.loads` is a partial function that gives `None` where it would raise.
- The `strptime` formats other than `%Y-%m-%d` are an ordered list of opaque partial parsers.
- Hours are `real`.
- Errors that the service reports as HTTP errors are `Err` values of a `Result`.

Behaviour worth knowing, as the code has it:

- **The ranker prefers fewer hours.** It sorts on `(urgency, priority rank, -hours)` with `reverse=True`. At equal urgency and priority, the task with *fewer* hours comes first, although the comment at `backend/app.py:292` says "more hours first". The model follows the code (`Ranker.PickBest`).
- **A 0-hour update counts the topic again.** `update_progress` counts a topic when the subject's new total equals this update's hours. A 0-hour first update therefore counts the topic, and a later positive update counts it again (`Progress.ZeroHoursCountTwice`).
- **Incomplete questions lose their topic.** During question normalisation, an incomplete question gets topic `General` even when it had a topic.
- **Results are empty until a submit.** A generated quiz has empty (falsy) results, so `get_quiz_results` fails until an answer set is submitted.
- **The display cleanup can leave `--`.** It removes `*`, then `--`, then `#`. Removing `#` can bring two dashes together, so the shown text may still contain `--` (`Timetables.CleanDisplayKeepsJoinedDashes`).

## Model

| member | source | states |
|---|---|---|
| Text.Trim | backend/app.py:217-218 | the result is a slice of the input with no junk character at either end, and everything cut off is junk (`strip`) |
| Text.Find | backend/app.py:214-215 | -1 exactly when the pattern does not occur; otherwise the first index where it occurs |
| Text.LastIndexOf | backend/app.py:357 | `rfind` of one character: -1 exactly when it does not occur; otherwise an index holding it with none after it |
| Text.IndexOf | backend/app.py:356 | `find` of one character: -1 exactly when it does not occur; otherwise its first index |
| Text.Head | backend/app.py:218 | `split(sep)[0]`: the prefix up to the first occurrence of the separator, or all of the text |
| Text.SplitPartsLackSeparator | backend/app.py:366 | no part of `split('\n')` contains the separator |
| Text.JoinSplit | backend/app.py:366 | joining the parts of a split on the same separator gives back the text |
| Text.RemoveCharGone | backend/app.py:236 | after `replace(c, '')` the character no longer occurs |
| Text.RemoveOnlyDeletes | backend/app.py:236 | `replace(pat, '')` only deletes: every character of the result was in the input |
| Text.RemoveCharIsWithout | backend/app.py:236 | `replace(c, '')` of one character keeps every other character, in order |
| Text.RemoveWithin | backend/app.py:236 | `replace(pat, '')` deletes only characters of `pat`: with those filtered out, the text before and after agree |
| Text.WithoutTwice | backend/app.py:236 | filtering out one set of characters and then another is filtering out both at once |
| Text.Upper | backend/app.py:558 | same length, and each character is the upper-case form of the input's character at that position |
| Text.TitleAt | backend/app.py:311 | `title()`: a character is upper-cased when it does not follow a letter, and lower-cased when it does |
| Dates.DaysInMonth | backend/app.py:65 | 28 to 31 days; 29 exactly in February of a leap year |
| Dates.MakeDate | backend/app.py:65 | `datetime.date(y, m, d)` succeeds exactly on a valid calendar date (years 1 to 9999) |
| Dates.NextDay | backend/app.py:271 | the following day: a valid date after the given one with no valid date strictly between them; none only after 9999-12-31, where the source overflows |
| Dates.ParseIso | backend/app.py:37 | the `%Y-%m-%d` format yields only valid dates |
| Dates.IsoRoundTrip | backend/app.py:37 | parsing the ISO text of any valid date gives that date back |
| Dates.MonthNumber | backend/app.py:58-63 | a month exactly when the lower-cased word is one of the 23 month keys, and then a month from 1 to 12 |
| Dates.MatchAt | backend/app.py:55 | a match at a position has 1-2 digits, an optional ordinal suffix, whitespace, a word, whitespace and 4 digits |
| Dates.MatchAtSound | backend/app.py:55 | every match reported is a reading of the pattern at that position (digits, optional `st`/`nd`/`rd`/`th`, whitespace run, word run, whitespace run, four digits), with the three groups cut from the text at those positions |
| Dates.MatchAtComplete | backend/app.py:55 | every reading of the pattern at a position is reported, with the same three groups: the pattern matches there exactly when `MatchAt` does |
| Dates.SearchFrom | backend/app.py:55 | `re.search`: the leftmost position where the pattern matches, and no match before it; none when it matches nowhere |
| Dates.FallbackParse | backend/app.py:55-65 | a date exactly when the search finds a match, its word is in the month table and `date(int(year), month, int(day))` exists; the date is that one |
| Dates.FallbackExample | backend/app.py:55-65 | "31st January 2026" reads as 31 January 2026 through the fallback |
| Dates.FirstMatch | backend/app.py:46-50 | none exactly when every format fails; otherwise the result of the first format that succeeds |
| Dates.ParseDeadline | backend/app.py:32-69 | the first format in order that parses wins; when all fail, the regular-expression fallback decides |
| Dates.IsoWins | backend/app.py:36-48 | text in the ISO format is parsed as ISO, whatever the later formats would say |
| Dates.ParseDeadlineValid | backend/app.py:32-69 | with sound later formats, every deadline parsed is a valid calendar date |
| Dates.FormatIso | backend/app.py:270-271 | `isoformat()`: ten characters, zero-padded digits for the year (4), month (2) and day (2) whose values are the date's, with dashes at positions 4 and 7 (read back by `Dates.IsoRoundTrip`) |
| Dates.IsoExample | backend/app.py:37 | "2026-01-31" parses to 31 January 2026 |
| Dates.OrdinalShape | backend/app.py:55 | text shaped like "31st January 2026" matches with those three groups |
| Dates.NoDateExample | backend/app.py:67 | "not a date" gives no date when the later formats reject it |
| Interpret.SplitMarkers | backend/app.py:211-222 | without both markers the prose is the whole reply and nothing is structured; with both, the prose is the stripped text before the first `JSON_START:`, and it contains no start marker |
| Interpret.MarkersDoNotOverlap | backend/app.py:214-218 | an `:JSON_END` that starts before a `JSON_START:` ends before it |
| Interpret.SectionStopsAtMarker | backend/app.py:215-218 | the structured text stops at the first end or start marker after the first start marker, or at the end of the reply |
| Interpret.MarkerSection | backend/app.py:215-222 | the structured data is the parse of the stripped section between the first `JSON_START:` and the next marker |
| Interpret.BracketSpan | backend/app.py:356-359 | none exactly when the opening or closing bracket is missing or every closing one precedes every opening one; otherwise from the first opening to the last closing bracket |
| Interpret.LastLabelled | backend/app.py:371-378 | the last line carrying the label, or -1 exactly when no line does |
| Interpret.LabelsExclusive | backend/app.py:373-377 | a line carries at most one of the three labels, so the `elif` order never matters |
| Interpret.FieldsOfSnoc | backend/app.py:371-378 | reading one more line sets the field its label names to the text after the first colon |
| Interpret.LineFallback | backend/app.py:366-378 | each field is the value of the last stripped line carrying its label, or its placeholder when none does |
| Interpret.InterpretReply | backend/app.py:354-378 | the reading `ReadReply`: the parsed value of the text from the first `{` to the last `}` when there is such a span and it parses; otherwise the fields read from the stripped lines |
| Timetables.CheckRequest | backend/app.py:156-166 | fields missing, unreadable deadline, or deadline not after today, each exactly when it applies; otherwise the parsed deadline |
| Timetables.CleanDisplay | backend/app.py:236 | the shown text has no `*` or `#`; every character comes from the prose; and every character of the prose other than `*`, `#` and `-` is kept, in order (dashes alone may go) |
| Timetables.CleanDisplayKeepsJoinedDashes | backend/app.py:236 | "-#-" is shown as "--": the cleanup can leave a double dash |
| Timetables.TimetableStore.constructor | backend/app.py:14-15 | at start-up there is no timetable |
| Timetables.TimetableStore.Create | backend/app.py:156-236 | on a rejected request nothing changes; otherwise the new timetable replaces the old one and the cleaned prose is returned |
| Ranker.TimeOfDayOf | backend/app.py:256-263 | each hour falls in exactly one bucket: [6,12) morning, [12,17) afternoon, [17,22) evening, otherwise night |
| Ranker.SuggestedDuration | backend/app.py:298-309 | the value is `min(hours, cap)` (at most the cap, and equal to hours when hours are within it); the upper end is 3 in the morning, 2 in the afternoon, 1.5 in the evening, and absent at night |
| Ranker.CandidatesWellFormed | backend/app.py:273-284 | one candidate per task of a day not before today; flagged today exactly when dated today and tomorrow exactly when dated tomorrow |
| Ranker.CollectCandidates | backend/app.py:273-284 | the nested loops collect exactly the tasks of the kept days, in schedule order |
| Ranker.Urgency | backend/app.py:290 | 1 exactly for today, 0.5 exactly for tomorrow and not today, 0 otherwise |
| Ranker.Rank | backend/app.py:288-291 | 3 exactly for `high`, 1 exactly for `low`, 2 for anything else |
| Ranker.KeyLessIsStrictOrder | backend/app.py:289-293 | the tuple order on `(urgency, rank, -hours)` is irreflexive, asymmetric and transitive, and incomparable keys are equal |
| Ranker.PickBest | backend/app.py:286-295 | the first candidate with the largest key: at least as urgent as every other; at equal urgency and priority no more hours than any other |
| Ranker.BestIsUnique | backend/app.py:289-295 | the stable sort's head is determined: two best indices are equal |
| Ranker.TodayBeatsTomorrow | backend/app.py:290 | if any candidate is for today, the chosen one is for today |
| Ranker.ReasonText | backend/app.py:311-316 | the reason is the title-cased priority and " priority task", then ", scheduled for today" exactly when for today, ", scheduled for tomorrow" exactly when for tomorrow and not today, then ", and fits your current ", the bucket's rationale and a full stop |
| Ranker.StudyRecommendation | backend/app.py:249-378 | an error without a timetable, and only then. A structured schedule with candidates recommends its best candidate; without candidates the reply is read by `ReadReply`. The next day past 9999-12-31 is an error |
| Progress.FreshEntry | backend/app.py:398-403 | a new subject has no hours studied; its target is the timetable's when the timetable is for this subject, and 0 otherwise |
| Progress.Tracked | backend/app.py:431-436 | the subject is added when missing, and no other entry changes |
| Progress.Studied | backend/app.py:439-440 | the subject's hours rise by exactly the update's hours, its timestamp is set, and other subjects are unchanged |
| Progress.TopicIncrement | backend/app.py:444-445 | a new topic is counted exactly when the subject had no hours before |
| Progress.StudiedStaysBounded | backend/app.py:439-441 | a non-negative update keeps every subject's hours within the global total |
| Progress.StudiedOnceCountsOnce | backend/app.py:444-445 | after a positive update, another update of that subject is not counted as a new topic |
| Progress.ZeroHoursCountTwice | backend/app.py:444-445 | a 0-hour first update counts the topic, and the next update counts it again |
| Progress.ProgressStore.constructor | backend/app.py:17-24 | at start-up every total is 0 and no subject is tracked |
| Progress.ProgressStore.GetProgress | backend/app.py:396-403 | the subject is added on first sight when non-empty; nothing else changes |
| Progress.ProgressStore.UpdateProgress | backend/app.py:421-445 | an empty subject or negative hours are rejected with nothing changed; otherwise the subject's hours and the total rise by exactly the hours, and topics rise by one exactly on a subject without hours |
| Progress.TwoSessions | backend/app.py:439-445 | 2 then 1.5 hours on a new subject give 3.5 hours and one topic |
| Scoring.CountCorrect | backend/app.py:557-560 | the number of correct answers is at most the number of questions |
| Scoring.CountCorrectCountsHits | backend/app.py:557-560 | `correct_answers` is the number of positions where the upper-cased answers agree |
| Scoring.BumpCounts | backend/app.py:563-576 | one more question adds one to the totals and one to the correct count on a hit; rows stay well counted and one per key |
| Scoring.TallyCounts | backend/app.py:557-576 | a tally's totals sum to the number of questions and its correct counts to the number correct; correct ≤ total per row; one row per key used |
| Scoring.BumpPerKey | backend/app.py:566-576 | a question adds one to the total of its own key's row, and one to its correct count on a hit, and changes no other key's counts |
| Scoring.TallyPerKey | backend/app.py:563-576 | for every key, the tally's counts for it are the number of questions tallied under it and the number of those answered correctly |
| Scoring.TallyRows | backend/app.py:563-576 | each row of a tally holds exactly its key's question count and correct count |
| Scoring.Classified | backend/app.py:579-584 | a topic is strong exactly when at least 80% correct, and weak exactly when at most 50% correct |
| Scoring.NeverBoth | backend/app.py:579-584 | no topic is both strong and weak |
| Scoring.Recommendations | backend/app.py:643-660 | two weak-area lines if any, then two strong-area lines if any, the balanced line only when neither, and always the retake line last |
| Scoring.BalancedOnlyWhenNeither | backend/app.py:651-652 | the balanced line appears exactly when there are no weak and no strong areas |
| Scoring.ScoreIsPercentage | backend/app.py:590 | the score is between 0 and 100 |
| Scoring.ReportTallies | backend/app.py:587-596 | the stored topic and difficulty tallies each sum to the number of questions, their correct counts sum to the score, and no topic is both weak and strong |
| Scoring.Score | backend/app.py:547-599 | answer-count mismatch first; then a question without a correct answer; then an empty quiz (division by zero); otherwise the report |
| Quizzes.Normalise | backend/app.py:506-509 | an incomplete question gets topic `General` and difficulty `medium`; a complete one is unchanged; the answer fields are kept |
| Quizzes.NormaliseIdempotent | backend/app.py:506-509 | normalising twice equals normalising once, and it never adds or drops a correct answer |
| Quizzes.NormaliseInPlace | backend/app.py:506-509 | the in-place loop leaves each question normalised |
| Quizzes.QuizText | backend/app.py:497-503 | exactly the slice of the reply from the first `[` to the last `]` when there is such a span, otherwise the whole reply |
| Quizzes.QuizStore.constructor | backend/app.py:26-30 | at start-up there is no current quiz and the history is empty |
| Quizzes.QuizStore.Results | backend/app.py:621-624 | results exactly when the current quiz has been scored |
| Quizzes.QuizStore.Generate | backend/app.py:463-518 | no timetable, no subject or unreadable questions are errors, each exactly in its case, with nothing changed; otherwise the normalised quiz becomes current, and it has no results yet |
| Quizzes.QuizStore.Submit | backend/app.py:538-608 | `NoActiveQuiz` exactly without a quiz; the scoring errors exactly in their cases; on any error nothing changes; otherwise the quiz keeps the answers and the report, and exactly one history entry is appended |
| Focus.Truncate | backend/focus_tracking.py:28 | `int(x)` truncates toward zero: within one of x, on x's side of zero |
| Focus.FocusTracker.constructor | backend/focus_tracking.py:4-7 | no switches, not tracking, no start time |
| Focus.FocusTracker.StartTracking | backend/focus_tracking.py:9-13 | from any state: tracking, a count of 0, started now |
| Focus.FocusTracker.StopTracking | backend/focus_tracking.py:15-17 | only the flag changes; the count and start time are kept |
| Focus.FocusTracker.RecordSwitch | backend/focus_tracking.py:19-22 | one more switch exactly while tracking; nothing else changes |
| Focus.FocusTracker.GetStats | backend/focus_tracking.py:24-34 | reports the count and the flag; while tracking with a non-zero start time, elapsed is `int(now - start)` (whole seconds, truncated toward zero); 0 otherwise |
| Focus.Session | backend/focus_tracking.py:9-34 | start, n switches, stop and any more switches leave the count at n, and tracking off |

## Left out

- HTTP plumbing: routes, templates, JSON responses and status codes. Failures are `Err` values instead.
- The generative model client and `backend/gemini_client.py`: they call a remote service. Replies are parameters, and prompt construction is not part of this model.
- Clocks: `datetime.now()` and `time.time()` are parameters. `created_at` and `last_updated` are opaque strings.
- Concurrency: the service keeps global singletons without locks, and the model assumes a single writer.
- Character classes are ASCII. Unicode whitespace, Unicode digits in `\d` and `\w`, and non-ASCII case mapping in `upper`, `lower` and `title` are not modelled.
- Dates.ParseDeadline: only `%Y-%m-%d` is modelled concretely, including `strptime`'s one-digit month and day and its space before a one-digit day. The six other formats are opaque parsers, so month names in those formats and locale behaviour are not modelled.
- Dates.SearchFrom: the regular-expression engine is modelled by its backtracking on this one pattern, not in general.
- `json.loads` is a partial function. The JSON value types the code does not expect (a non-list quiz, a question that is not an object, non-string answers) are not modelled: `parse` stands for reading a list of questions. In the source, a reply that is a JSON object is iterated over its keys (backend/app.py:503-518): an empty object `{}` is stored as a quiz with no questions and no error, and a non-empty one fails with a server error.
- Ranker.StudyRecommendation: every day carries a date and hours. In the source, a day without `date` makes the request fail with a server error, but a day without `hours` makes it fail only when the day is kept (dated today or later) and has tasks (backend/app.py:274-280); other such days are skipped. An empty structured object, which the source treats as absent, is modelled as a plan with no days. Both lead to the same fallback, except that for the latter the next-day overflow on 9999-12-31 is also checked.
- Ranker.SuggestedDuration: the rendering of the hours as text (`f"{min(...)}-3 hours"`) is not modelled; the duration is kept as its two numbers, the lower one `min(hours, cap)` and the bucket's upper end.
- Scoring.Classified: the thresholds are compared by cross-multiplication, `correct*100 >= 80*total`, not in floating point. Strong and weak areas are named by topic; the appended percentage text (`"{topic} (87.5%)"`) is not modelled.
- Scoring.ScoreIsPercentage: the score is an exact rational, not a floating-point value.
- Progress.ProgressStore.UpdateProgress: `float(...)` coercion of the input and floating-point rounding in the sums are not modelled; hours are exact reals.
- Focus.FocusTracker.GetStats: time is an exact real, not a floating-point value.
- `get_quiz_history` and the index page are not part of this model: they only return stored data.
