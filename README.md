# fix-life game play-time tracker — a Dafny model

fix-life watches the processes of a Windows desktop, decides which of
them are games, books the time each game runs into a SQLite ledger per
day, and once a game exceeds its daily limit warns the player and,
after repeated violations, kills the game. This project models the
sequential rules underneath its threads, OS calls and SQL:

- `Ledger` (data/orm.py): the `DB` class as a Dafny class whose fields
  are the tables — `isGame`, `timings` keyed by `(exe, date)`,
  `dailyUsage`, `timingSettings`, the `violations` log, `settings` and
  the `populated` markers. Each public method changes exactly the
  tables it writes. The classification upsert keeps the invariant "every
  time-limit setting belongs to a game". `datetime.now()` is a `today`
  or `stamp` parameter.
- `Tracker` (activity/tracker.py): one tick of the accounting loop (the
  daily bootstrap, the per-process pass with backfill and delta
  accumulation, one additive flush per name, cache pruning), the
  enforcement decision of the violation handler, and the seen-set filter
  of the classifying thread. The pid cache, the previous tick and the
  seen set are fields of a `Tracker` class.
- `LegacyTracker` (tracker/main.py): the older accounting rule, which
  credits `max(accumulated + SLEEP_TIME, int(now - create_time))`, and
  its violation handler.
- `Heuristic` (activity/classifier/heuristic_classify.py): the weighted
  score over CPU, GPU, memory, path and fullscreen signals (as exact
  `real`s), the exclusion short-circuit, the fullscreen tolerance test
  and the parsing and summing of GPU counter names.
- `GameClassifier` (activity/classifier/game_classifier.py): exe-name
  normalisation, the top-match search over the matcher's results, the
  `match`/`heuristic`/`unknown` label, `is_game`, and the batch
  `classify`, in which the heuristic verdict decides what is stored.
- `Snapshot` (activity/utils.py): dropping unreadable processes and
  keeping the first process per executable path.
- `WebUtils` (dashboard/web_utils.py): seconds to `HH:MM:SS` and to the
  worded form, with the parse-back round trip.
- `Dataset` (activity/datasets/process_games_dataset.py): choosing the
  title column of a reference table and cleaning its values.
- `Preprocess` (temp.py): process-name preprocessing.
- `Text`, `Numerals`, `Wrappers`: the Python string operations, decimal
  conversion and `int()` parsing the modules share, and `Option`/`Result`.

OS results (the process list, CPU and memory samples, GPU counters,
windows, monitors), clocks and the matcher's scores are inputs. A
notification or a `proc.kill()` is an emitted `Event`.

## Model

| member | source | states |
|---|---|---|
| `Ledger.DB.constructor` | data/orm.py:14-85 | a fresh ledger has every table empty and satisfies the settings-only-for-games invariant |
| `Ledger.Upserted` | data/orm.py:98-115 | after the upsert a name has a limit iff it is a game; an existing limit of a game is kept, a new game gets `(60, 0)`, every other name's limit is untouched |
| `Ledger.DB.UpsertIsGame` | data/orm.py:87-116 | `isGame[exe]` becomes `(game, userMarked)` and no other record changes; the limits change as `Upserted` says; no other table changes; the invariant is preserved |
| `Ledger.DB.GetGameNames` | data/orm.py:118-121 | returns exactly the names classified as games, each once |
| `Ledger.DB.GetAllClassifiedProcesses` | data/orm.py:254-257 | returns exactly the classified names, each once |
| `Ledger.DB.GetIsGame` | data/orm.py:123-128 | true iff the name is present and classified a game (false when absent) |
| `Ledger.DB.GetIsPresent` | data/orm.py:130-135 | true iff the name has an `is_game` record |
| `Ledger.DB.UpdateTimingByDuration` | data/orm.py:137-158 | adds the duration to today's row of the name (an absent row counts as 0) and the same duration to today's daily total; nothing else changes |
| `Ledger.DB.UpdateTimingToSpecificValue` | data/orm.py:160-181 | overwrites today's row of the name and the whole daily total with the value; nothing else changes |
| `Ledger.DB.GetTimingForExe` | data/orm.py:183-192 | today's duration of the name, or 0 when it has no row |
| `Ledger.DB.GetTimingToday` | data/orm.py:194-203 | exactly the names with a row today, each with its duration |
| `Ledger.DB.GetTotalTimeToday` | data/orm.py:205-215 | the sum of today's durations, `None` (SQL `NULL`) when today has no row |
| `Ledger.SumOverRemove` | data/orm.py:211 | the sum over a key set splits into one key plus the sum over the rest, so the total does not depend on row order |
| `Ledger.DB.GetSettings` | data/orm.py:229-234 | the stored value, or the given default when the key is absent |
| `Ledger.DB.SetSettings` | data/orm.py:236-246 | the key's value is replaced; nothing else changes |
| `Ledger.DB.UpdateGlobalTimingSettings` | data/orm.py:295-305 | stores the decimal text of the limit under `global_timing_limit`; nothing else changes |
| `Ledger.DB.GetGlobalTimingLimit` | data/orm.py:363-368 | the stored limit parsed by `int()`, 60 when none is stored, an error for text that is not an integer |
| `Ledger.GlobalLimitRoundTrip` | data/orm.py:295-368 | reading the global limit back after storing it yields the stored limit |
| `Ledger.DB.UpdateTimingSettings` | data/orm.py:307-332 | a name not classified as a game yields the `ValueError` and changes nothing; a game's limit is set to the given pair; the invariant is preserved |
| `Ledger.DB.RefreshTimeLimitList` | data/orm.py:334-355 | every game gains a `(60, 0)` limit if it had none; existing limits are kept; no other name gains one; the invariant is preserved |
| `Ledger.ExceedsOnIntegers` | data/orm.py:401-403 | on integers the test `max > 0.1 and d > 0.1 and d > max*60` holds iff `max >= 1` and `d > max*60` (strict) |
| `Ledger.VerdictFor` | data/orm.py:391-405 | a listed tuple carries the name and its limit: `(n, 0, max)` for a flagged name that is not running, else `(n, d, max)` when the duration exceeds the limit |
| `Ledger.DB.ListViolations` | data/orm.py:371-405 | a tuple is listed iff the name has a limit and `VerdictFor` lists it with the log's flag, the running set and today's duration; each name at most once |
| `Ledger.DB.AddViolations` | data/orm.py:406-416 | appends exactly one row per listed tuple, in order; nothing else changes |
| `Ledger.DB.GetGamesWithTimeViolations` | data/orm.py:371-417 | the listing of `ListViolations` against the log as it was before the call, and the log then extended by one row per listed tuple |
| `Ledger.RowsFor` | data/orm.py:407-415 | one violation row per listed tuple |
| `Ledger.RowsForAt` | data/orm.py:407-415 | row `i` is `RowOf` tuple `i`: that tuple's game, the call's stamp, and a reason holding its limit and its duration in whole minutes (floor division by 60) |
| `Ledger.CountFor` | data/orm.py:425-430 | a name's violation count never exceeds the log's length |
| `Ledger.CountForAppend` | data/orm.py:425-430 | the count over an extended log is the count over each part added |
| `Ledger.FlaggedIffCounted` | data/orm.py:384-387 | a name is in the flagged set iff its violation count is positive |
| `Ledger.RowsCount` | data/orm.py:407-430 | the rows appended for a listing count a name as often as the listing names it |
| `Ledger.ViolationCountRises` | data/orm.py:407-430 | after a listing is logged, a name's count rises by exactly the number of times it was listed |
| `Ledger.ListedCountOfDistinct` | data/orm.py:389-405 | in a listing with distinct names a name is listed once or not at all |
| `Ledger.DB.GetViolationCountForExe` | data/orm.py:425-430 | the number of logged rows for the name |
| `Ledger.DB.GetIsDataPopulatedToday` | data/orm.py:433-444 | true iff today has a marker and it is set; false without one |
| `Ledger.Populated` | data/orm.py:452-464 | the bootstrap keeps every existing row and adds a zero row today for exactly the games lacking one |
| `Ledger.DB.PopulateDataToday` | data/orm.py:446-477 | the timings become `Populated`, the log is emptied, today is marked populated; nothing else changes |
| `Snapshot.DropUnreadable` | activity/utils.py:9-14 | the remove-while-iterating-a-copy loop leaves exactly the readable processes, in order |
| `Snapshot.RemoveFirstAfter` | activity/utils.py:14 | `list.remove` deletes the first equal element only |
| `Snapshot.ReadableOnly` | activity/utils.py:10-14 | every kept process was readable |
| `Snapshot.FirstPerPath` | activity/utils.py:17-21 | every kept process has a non-empty path and comes from the input |
| `Snapshot.IndexByPath` | activity/utils.py:16-24 | the dictionary built by the loop, read back in insertion order, is the first process per path |
| `Snapshot.StagesAreUnique` | activity/utils.py:6-26 | filtering then de-duplicating is the one-pass `Unique` |
| `Snapshot.GetUniqueProcesses` | activity/utils.py:6-26 | returns `Unique` of the enumeration |
| `Snapshot.Unique` | activity/utils.py:6-26 | the one-pass filter: keeps a readable process with a non-empty path when no earlier kept process has that path; its properties are `UniqueEligible`, `UniqueDistinctPaths`, `UniqueSubsequence`, `UniqueKeepsFirst`, and `StagesAreUnique` ties it to the source's two stages |
| `Snapshot.UniqueEligible` | activity/utils.py:10-20 | every returned process was readable, has a non-empty path and comes from the input |
| `Snapshot.UniqueDistinctPaths` | activity/utils.py:17-21 | returned processes have pairwise distinct paths |
| `Snapshot.UniqueSubsequence` | activity/utils.py:7-26 | the result is a subsequence of the input, so no longer than it |
| `Snapshot.UniqueKeepsFirst` | activity/utils.py:19-24 | the first eligible process of each path is returned |
| `WebUtils.Breakdown` | dashboard/web_utils.py:18-20 | `m < 60`, `s < 60` and `h*3600 + m*60 + s` is the total |
| `WebUtils.BreakdownUnique` | dashboard/web_utils.py:18-20 | that split is the only one with those bounds |
| `WebUtils.Pad2` | dashboard/web_utils.py:22 | at least two digits with the number's value; numbers from 10 up are not padded |
| `WebUtils.ClockFields` | dashboard/web_utils.py:5-22 | the clock text is the three padded fields of the split joined by `:` |
| `WebUtils.FieldsRoundTrip` | dashboard/web_utils.py:18-22 | splitting three padded fields on `:` and recombining them gives `h*3600 + m*60 + s` |
| `WebUtils.ClockRoundTrip` | dashboard/web_utils.py:5-22 | for `s >= 0`, parsing the clock text back yields `s` |
| `WebUtils.ToClock` | dashboard/web_utils.py:5-22 | the clock text; `ClockFields` gives its padded fields, `ClockRoundTrip` parses it back to the input and `ClockZeroExactly` says when it is `00:00:00` |
| `WebUtils.ClockZeroExactly` | dashboard/web_utils.py:15-16 | the clock text is `00:00:00` iff `s <= 0` (negatives included) |
| `WebUtils.WordsFields` | dashboard/web_utils.py:25-42 | for `s > 0` the worded text names the unpadded fields of the split, and differs from the clock text |
| `WebUtils.ToWords` | dashboard/web_utils.py:25-42 | the worded text; `WordsFields` gives its unpadded fields and `WordsZeroExactly` says when it is `00:00:00` |
| `WebUtils.WordsZeroExactly` | dashboard/web_utils.py:35-36 | the worded text is `00:00:00` iff `s <= 0` |
| `Dataset.Headers` | activity/datasets/process_games_dataset.py:34 | the column names, lower-cased, one per column |
| `Dataset.FirstPresent` | activity/datasets/process_games_dataset.py:37-44 | the first candidate, in priority order, present among the headers; `None` iff none is |
| `Dataset.CleanNames` | activity/datasets/process_games_dataset.py:47-49 | no duplicates, and exactly the stripped string values of the cells (missing and non-string cells dropped) |
| `Dataset.ProcessDataset` | activity/datasets/process_games_dataset.py:26-51 | `[]` for no or an empty table and when no title column exists; otherwise the cleaned values of the first title column present |
| `Preprocess.TagLenMatchesPattern` | temp.py:15 | a tag is struck at a position iff one of the six tokens starts there and ends at a word boundary |
| `Preprocess.StrikeIdempotent` | temp.py:15 | after the token removal no whole-word token is left, so removing again changes nothing |
| `Preprocess.Strike` | temp.py:15 | the `re.sub` removing whole-word tokens: every character kept comes from the input; `TagLenMatchesPattern` ties a token to the six alternatives and `\b`, `StrikeIdempotent` says no token is left |
| `Preprocess.Squeeze` | temp.py:16 | no two whitespace characters are adjacent; every other character comes from the input |
| `Preprocess.SqueezeTagFree` | temp.py:15-16 | collapsing whitespace creates no new token |
| `Preprocess.StripTagFree` | temp.py:15-17 | stripping creates no new token |
| `Preprocess.StripKeepsShape` | temp.py:16-17 | stripping keeps "no `_`/`-`" and "no double whitespace" |
| `Preprocess.SpacedShape` | temp.py:11-14 | after lower-casing, `.exe` removal and the two replacements no `_` or `-` is left |
| `Preprocess.PreprocessShape` | temp.py:10-17 | the result has no `_` or `-`, no leading or trailing whitespace, no run of whitespace and no whole-word token |
| `Preprocess.PreprocessName` | temp.py:10-17 | the pipeline of lower-casing, `.exe` removal, the two replacements, token removal, whitespace collapse and strip; `PreprocessShape` states its guarantees |
| `Heuristic.Points` | activity/classifier/heuristic_classify.py:73-95 | the score lies in `[0, 6.5]` |
| `Heuristic.Label` | activity/classifier/heuristic_classify.py:52 | the label is `game` or `non-game` |
| `Heuristic.LabelIsThreshold` | activity/classifier/heuristic_classify.py:26-52 | the label is `game` iff the score is at least 3.0 |
| `Heuristic.SignalsFired` | activity/classifier/heuristic_classify.py:75-93 | at most five signals can fire |
| `Heuristic.GameNeedsTwoSignals` | activity/classifier/heuristic_classify.py:75-93 | a process labelled a game fired at least two signals |
| `Heuristic.PointsMonotone` | activity/classifier/heuristic_classify.py:75-93 | stronger signals never lower the score |
| `Heuristic.AllSignalsScore` | activity/classifier/heuristic_classify.py:75-93 | every reading with CPU above 15, GPU above 50, memory above 700 MB, a game path and a fullscreen window scores 6.5, a game |
| `Heuristic.ModerateCpuAlone` | activity/classifier/heuristic_classify.py:75-93 | every reading with CPU above 5 and at most 15 and no other signal scores 0.5, a non-game |
| `Heuristic.NormalizedCpu` | activity/classifier/heuristic_classify.py:66-68 | usage up to 100 is kept; above 100 it is divided by the core count |
| `Heuristic.GpuPidOfName` | activity/classifier/heuristic_classify.py:108-110 | the pid is the number after the last `pid_` up to the next `_` |
| `Heuristic.GpuPid` | activity/classifier/heuristic_classify.py:108-112 | the pid read from a counter name, none when `int()` rejects the piece; `GpuPidOfName` describes the piece |
| `Numerals.ParseIntToDecimal` | activity/classifier/heuristic_classify.py:110 | `int()` of a number's decimal text yields the number |
| `Numerals.ParseIntRejects` | activity/classifier/heuristic_classify.py:109-112 | a text holding a character that is no digit, sign or whitespace does not parse, so its counter is skipped |
| `Heuristic.ParsedPidsAt` | activity/classifier/heuristic_classify.py:106-112 | entry `i` of `ParsedPids` is the pid parsed from counter `i`'s name, or none when the name does not parse |
| `Heuristic.UsageMapSums` | activity/classifier/heuristic_classify.py:105-114 | a pid has an entry iff it occurs among the `ParsedPids` of the counters, and the entry is the sum of that pid's utilisations; a pid without an entry sums to zero |
| `Heuristic.UsageMap` | activity/classifier/heuristic_classify.py:105-114 | the dictionary the loop builds; `UsageMapSums` and `UsageMapStep` give its keys and values |
| `Heuristic.UsageMapStep` | activity/classifier/heuristic_classify.py:113 | each counter adds its utilisation to its pid's entry (from 0) or is skipped when unparsable |
| `Heuristic.GpuUsagePercent` | activity/classifier/heuristic_classify.py:100-117 | the usage map of the counters, empty when the query fails |
| `Heuristic.TopWindowsOf` | activity/classifier/heuristic_classify.py:138-146 | only visible, titled windows of the enumeration are kept |
| `Heuristic.TopWindowsComplete` | activity/classifier/heuristic_classify.py:139-141 | every visible, titled window is kept |
| `Heuristic.TopWindows` | activity/classifier/heuristic_classify.py:138-146 | the callback loop returns `TopWindowsOf` the enumeration |
| `Heuristic.IsFullscreen` | activity/classifier/heuristic_classify.py:126-136 | true iff the window is visible and some monitor matches its width and height within 50 |
| `Heuristic.CheckFullscreen` | activity/classifier/heuristic_classify.py:119-124 | true iff some top window of the process is fullscreen |
| `Heuristic.ScoreOf` | activity/classifier/heuristic_classify.py:55-98 | a score in `[0, 6.5]`, and 0 for a process that vanished or refused access |
| `Heuristic.HeuristicProcessScore` | activity/classifier/heuristic_classify.py:55-98 | the step-by-step score equals `ScoreOf` |
| `Heuristic.ClassifyProcess` | activity/classifier/heuristic_classify.py:39-53 | an excluded name (lower-cased) is a non-game with score 0; otherwise the score is `ScoreOf`; the label is `game` iff not excluded and score at least 3.0 |
| `GameClassifier.CleanName` | activity/classifier/game_classifier.py:100 | no `_`, `-` or `.` remains, and the length is that of the text after `.exe` removal |
| `GameClassifier.CleanNameIdempotent` | activity/classifier/game_classifier.py:100 | normalising a normalised name changes nothing |
| `GameClassifier.TopMatch` | activity/classifier/game_classifier.py:108-114 | the earliest result with the strictly greatest positive score, or `(None, 0.0)` |
| `GameClassifier.TopIsUnique` | activity/classifier/game_classifier.py:108-114 | that top match is determined by the results |
| `GameClassifier.KindOf` | activity/classifier/game_classifier.py:116-122 | `match` iff the top score is at least 0.75; `heuristic` iff below and a keyword occurs in the cleaned name; `unknown` otherwise |
| `GameClassifier.IsSimilarGame` | activity/classifier/game_classifier.py:99-122 | the label of the top score and cleaned name, with the title only for a match |
| `GameClassifier.IsGame` | activity/classifier/game_classifier.py:124-135 | a non-process is a `ValueError`, an empty name is false, otherwise the ledger's flag (false when absent) |
| `GameClassifier.Processed` | activity/classifier/game_classifier.py:58-97 | the handled candidates are a prefix of the batch, all with readable names |
| `GameClassifier.ProcessedPrefix` | activity/classifier/game_classifier.py:92-97 | the batch is handled up to the first unreadable name, where an exception raised in the error handler ends the batch (the handler's `print_exc(file=<str>)`, or its log line naming the unbound `process_name`, raises before `sys.exit(1)`) |
| `GameClassifier.ClassifiedKeepsPresent` | activity/classifier/game_classifier.py:62-67 | a name classified before the batch keeps its record |
| `GameClassifier.ClassifiedNames` | activity/classifier/game_classifier.py:58-91 | after the batch the classified names are the earlier ones plus the handled candidates' names |
| `GameClassifier.ClassifiedFirstDecides` | activity/classifier/game_classifier.py:69-91 | a new name's record is the heuristic's verdict on its first candidate, with `user_marked = 0`, whatever the similarity label |
| `GameClassifier.SettingsAfterAt` | activity/classifier/game_classifier.py:91 | after the batch, a newly classified name has a limit iff it was classified a game; every other name's limit is untouched |
| `GameClassifier.SettingsAfterValid` | activity/classifier/game_classifier.py:58-91 | the batch preserves "every limit belongs to a game" |
| `GameClassifier.ClassifyOne` | activity/classifier/game_classifier.py:59-91 | a present name changes nothing; a new one is upserted with the heuristic verdict and `user_marked = 0` |
| `GameClassifier.Classify` | activity/classifier/game_classifier.py:52-97 | an empty or missing list means the full process list; the ledger ends as `Classified` and `SettingsAfter` over the handled prefix; the outcome says whether and where the batch aborted |
| `Tracker.Trunc` | activity/tracker.py:121 | `int()` of a float truncates toward zero |
| `Tracker.RunPassInert` | activity/tracker.py:100-112 | entries that cannot be read, are not games or whose lookup raises change nothing |
| `Tracker.PassCacheAt` | activity/tracker.py:116-117 | after the pass a pid is cached iff it was cached or some counting entry has it; cached entries are kept; a new entry holds that process's name and creation time |
| `Tracker.PassCacheFirst` | activity/tracker.py:116-117 | a pid first seen as a game is cached with its own name and creation time |
| `Tracker.BackfillStep` | activity/tracker.py:119-123 | a first-seen pid whose name has no time today sets today's value and the daily total to `int(now - create_time)` and adds no delta |
| `Tracker.CreditStep` | activity/tracker.py:125-127 | every other counting entry adds the tick length to its name's accumulator when it is positive, and writes nothing |
| `Tracker.PassAccAt` | activity/tracker.py:125-127 | a non-positive tick leaves the accumulator untouched; accumulated values never shrink; only names of counting entries appear |
| `Tracker.KeyOrder` | activity/tracker.py:78 | the names of the accumulator, each once, in some order |
| `Tracker.FlushedAt` | activity/tracker.py:78-79 | after the flush each accumulated name's row today is its old value (0 if absent) plus its accumulated time; every other row is unchanged |
| `Tracker.SumSeqIsSumOver` | activity/tracker.py:78-79 | the time added over the flushed names is their accumulator's sum, whatever the order |
| `Tracker.FlushedDaysTotal` | activity/tracker.py:78-79 | the flush adds the accumulator's total to today's daily total, and touches nothing when empty |
| `Tracker.FlushInOrder` | activity/tracker.py:78-79 | one additive ledger update per name, as `Flushed` and `FlushedDays` say |
| `Tracker.FlushUpdates` | activity/tracker.py:78-79 | the flush covers every accumulated name exactly once |
| `Tracker.Pruned` | activity/tracker.py:82-85 | exactly the cached pids that are live, with their entries unchanged |
| `Tracker.DecideCases` | activity/tracker.py:165-178 | kill iff the count is at least 3; warn iff below 3 and the time is at least the tuple's field; otherwise nothing |
| `Tracker.Decide` | activity/tracker.py:165-178 | the warn/kill/ignore branch, shared with tracker/main.py:171-184; `DecideCases` and `DecideEscalates` state it |
| `Tracker.DecideEscalates` | activity/tracker.py:165-178 | once a count kills, every higher count kills |
| `Tracker.ThirdListingKills` | activity/tracker.py:151-178 | a listed game with two earlier violations has three after the pass's row is appended, and is killed |
| `Tracker.ListedNeverIgnored` | activity/tracker.py:160-168 | because the tuple's field is the listed duration, a running listed game is always warned about or killed |
| `Tracker.KillsOf` | activity/tracker.py:172-177 | one kill for every process with the game's name, and for no other |
| `Tracker.ActivityTargets` | activity/tracker.py:160 | each listed tuple is handled with its game and its second field |
| `Tracker.EventsForKillNotice` | activity/tracker.py:161-178 | one tuple emits a kill notice iff its game is running and its count is at least 3 |
| `Tracker.EventsForWarn` | activity/tracker.py:161-169 | one tuple emits a warning iff its game is running, its count is below 3 and its time today is at least the field |
| `Tracker.EventsForKill` | activity/tracker.py:170-177 | one tuple kills only processes with its game's name, and only at a count of at least 3 |
| `Tracker.KillNoticeIff` | activity/tracker.py:156-178 | a kill notice is sent iff the game was listed, runs and has at least 3 violations |
| `Tracker.WarnIff` | activity/tracker.py:156-169 | a warning is sent iff the tuple was listed, the game runs, has fewer than 3 violations and its time is at least the field |
| `Tracker.KillOnlyAtLimit` | activity/tracker.py:170-177 | every killed pid belongs to a listed game with at least 3 violations |
| `Tracker.HandleTargets` | activity/tracker.py:156-178 | the handler's loop emits `Enforcement` of the tuples against the ledger it reads |
| `Tracker.Enforcement` | activity/tracker.py:156-178 | the events of the handler's pass, target by target in order; `EventsForWarn`, `EventsForKillNotice`, `EventsForKill`, `WarnIff`, `KillNoticeIff` and `KillOnlyAtLimit` state them |
| `Tracker.NewExes` | activity/tracker.py:45-47 | exactly the candidates whose names are not in the seen set, in order |
| `Tracker.ClassifiedWithinBatch` | activity/tracker.py:49-54 | a pass classifies no name outside the batch |
| `Tracker.Tracker.constructor` | activity/tracker.py:23-29 | the seen set starts as every classified name; the cache is empty |
| `Tracker.Tracker.HandleFirstRunToday` | activity/tracker.py:217-222 | the bootstrap runs iff today is not marked: then the timings become `Populated` and the log is emptied; today ends marked |
| `Tracker.Tracker.GetUpdatedGames` | activity/tracker.py:96-129 | the cache, the accumulator and the two timing tables end as `RunPass` says, with the tick `int(current - previous)` |
| `Tracker.Tracker.Visit` | activity/tracker.py:100-127 | one entry changes the state as `EntryStep` says |
| `Tracker.EntryStep` | activity/tracker.py:100-127 | one entry of the pass: skip, backfill a first-seen game, or credit the tick; `RunPassInert`, `BackfillStep` and `CreditStep` state the cases |
| `Tracker.RunPass` | activity/tracker.py:96-129 | the pass as a fold of `EntryStep` over the entries; `PassCacheAt`, `PassCacheFirst` and `PassAccAt` state its cache and accumulator |
| `Tracker.Tracker.UpdateGameTimingsTick` | activity/tracker.py:67-88 | bootstrap, pass, one additive update per accumulated name, then the cache holds exactly the live pids that were cached or newly seen as games; the seen-set invariant is kept |
| `Tracker.Tracker.CheckAndHandleTimingViolations` | activity/tracker.py:139-185 | the ledger lists and logs violations with the snapshot's names as the running set; the events are `Enforcement` against the appended log |
| `Tracker.Tracker.ClassifyNewProcesses` | activity/tracker.py:41-59 | an unreadable name classifies nothing; otherwise the unseen candidates are classified and all added to the seen set, which only grows |
| `Tracker.Tracker.ClassifyUnseen` | activity/tracker.py:45-54 | only unseen names go to `classify`; all of them are then seen; the invariant "every classified name is seen" is kept |
| `LegacyTracker.Credited` | tracker/main.py:112-122 | the credit is the larger of `previous + SLEEP_TIME` and the elapsed time |
| `LegacyTracker.RunLegacySplit` | tracker/main.py:83-122 | a pass over a snapshot is a pass over its prefix followed by one over the rest |
| `LegacyTracker.LegacyAccFloor` | tracker/main.py:112-122 | every accumulated value is at least `SLEEP_TIME` |
| `LegacyTracker.LegacyGrows` | tracker/main.py:98-122 | accumulated values never shrink, names stay, cached entries are kept |
| `LegacyTracker.LegacyCreditCovers` | tracker/main.py:112-122 | a credited name's flushed value is at least the earlier value plus `SLEEP_TIME` and at least the time since its cached process started |
| `LegacyTracker.LegacyCacheKeys` | tracker/main.py:97-99 | a pid is cached iff it was, or some counting entry has it |
| `LegacyTracker.LegacyTargets` | tracker/main.py:166 | each tuple is handled with its game and its second field |
| `LegacyTracker.LegacyWarnMeansOverLimit` | tracker/main.py:166-175 | a warning is sent iff the game runs, has fewer than 3 violations and its time is at least the tuple's `max_time` |
| `LegacyTracker.LegacyTracker.constructor` | tracker/main.py:74-75 | the cache starts empty over the given ledger |
| `LegacyTracker.LegacyTracker.LegacyPass` | tracker/main.py:80-122 | the cache, accumulator and timing tables end as `RunLegacy` says |
| `LegacyTracker.LegacyTracker.LegacyVisit` | tracker/main.py:83-122 | one entry changes the state as `Step` says: skip, backfill, or credit `max(previous + SLEEP_TIME, elapsed)` |
| `LegacyTracker.Step` | tracker/main.py:83-122 | one entry of the legacy pass: skip, backfill, or credit `max(previous + SLEEP_TIME, elapsed)`; `Credited` gives the credit |
| `LegacyTracker.RunLegacy` | tracker/main.py:80-122 | the legacy pass as a fold of `Step`; `RunLegacySplit`, `LegacyAccFloor`, `LegacyGrows`, `LegacyCreditCovers` and `LegacyCacheKeys` state its properties |
| `LegacyTracker.LegacyTracker.UpdateGameTimingsTick` | tracker/main.py:77-136 | the pass, one additive update per accumulated name, and the cache pruned to the live pids |
| `LegacyTracker.LegacyTracker.CheckAndHandleTimingViolations` | tracker/main.py:159-184 | the events are `Enforcement` of the listed tuples against the ledger |

## Left out

- OS access: the process enumeration, `cpu_percent` with its one-second sleep, memory and exe queries, the WMI GPU counters, window enumeration and the monitor list are inputs (`Snapshot.OsProcess`, `Heuristic.Probe`, `Heuristic.GpuCounter`, `Heuristic.Window`, `Heuristic.Monitor`).
- Clocks: every `time.time()` and `datetime.now()` reading is a parameter (`currentTick`, `tickEnd`, `clock`, `now`, `today`, `stamp`).
- Concurrency: the three threads, `stop_event`, the sleeps between iterations, `join` timeouts and the global `_LOCK` are not modelled; one call models one iteration.
- Loop-level error handling: an exception in a tick ending the accounting loop (tracker/main.py:138-143, activity/tracker.py:90-94) and the handlers' `traceback.print_exc` calls are not modelled, because those handlers raise themselves and give no stable contract.
- `Tracker.HandleTargets` and `LegacyTracker.LegacyTracker.CheckAndHandleTimingViolations`: a `proc.kill()` that raises (activity/tracker.py:177, tracker/main.py:183) abandons the rest of the pass in the source, including that game's kill notice and every later target, and the handler's `print_exc(file=<str>)` then raises too and ends the thread; the model emits every event of the pass.
- Default arguments: `update_timing_settings`'s `max_time=60, notify_limit=60` (data/orm.py:307-309) and `update_global_timing_settings`'s `limit=60` (data/orm.py:295) are not modelled; `Ledger.DB.UpdateTimingSettings` and `Ledger.DB.UpdateGlobalTimingSettings` always take every value explicitly.
- Notifications and kills: the PowerShell message boxes and `proc.kill()` are `Warn`, `KillNotice` and `Kill` events.
- `check_if_processes_running`: both versions are psutil scans; the model uses one process table (`Tracker.ProcessRow`) for the running check and the kill loop, where the source enumerates twice.
- Similarity back-ends: rapidfuzz's scores are abstract `MatchResult`s, and `round(score, 2)` in `is_similar_game` is not modelled.
- `Ledger.Violation`: a row's `reason` column is held as its two numbers (`Ledger.Reason`); the text the source stores is `Ledger.ReasonText` of them, and its timestamp is an opaque `stamp` string. Every row of one call carries the same `stamp`, whereas data/orm.py:414 reads `datetime.now()` once per row, so the rows of one call carry distinct, non-decreasing stamps in the source.
- Storage plumbing: SQLite connections, the DDL, `migrate_add_column` and the timings table's conflicting primary keys; tables are maps, with `timings` keyed by `(exe, date)`.
- `set_timing_settings_for_exe` is not modelled: it re-acquires the non-reentrant lock through `get_is_present` and would deadlock.
- Pass-throughs not modelled separately: `add_violation` (the log append is `Ledger.DB.AddViolations`), `get_all_processes`, `get_daily_timings`, `get_all_timing_settings`, `get_all_violations`, `get_timing_settings_for_exe`.
- `Heuristic.CpuCount`: `psutil.cpu_count()` returning `None` is not modelled; the core count is at least 1. A list-valued CPU sample is not modelled; the sample is one number.
- Text: `lower()` and `\w` are ASCII-only here (`\s` and `strip()` use Python's full `str.isspace` set, `Text.IsSpace`); `int()`'s underscores and non-ASCII digits are not accepted by `Numerals.ParseInt`.
- `Dataset`: the table is abstract columns of cells; the order of `list(set(...))` is unspecified in the source, and `Dataset.CleanNames` keeps first occurrences. A column name shared by two columns is a `Failure`, since pandas then yields a table, not a column.
- `Tracker.KeyOrder`: the iteration order of `updated_games` is not fixed; the flush is proved for every order.
- `Tracker.Tracker.HandleFirstRunToday`: the call in `start` (activity/tracker.py:231) is the same method; thread start-up is not modelled.
- `LegacyTracker`: the older database package and classifier are not part of this model. `Ledger` stands in for the database, and the legacy `is_game` is `GameClassifier.IsGame`, whose logic is the same. The legacy violation tuples are an input. The legacy tracker has no daily bootstrap.
- `Tracker.Tracker`: the pid cache and previous tick, locals of the accounting loop, are fields, and the seen set of the classifying thread is a field too.
- `Tracker.ActivityTargets`: the handler compares today's time with the tuple's second field, which is the listed duration, not the limit; this is modelled as written, and `Tracker.ListedNeverIgnored` states its consequence.
- `Tracker.Tracker.ClassifyNewProcesses`: the log line and the sleep between passes are not modelled.
- The dashboard's Flask routes, the settings page's JavaScript, the tray launcher, logging set-up and the migration script are outside this model.
