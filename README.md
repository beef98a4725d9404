# System monitor core in Dafny

This project models the server-side core of a small system-monitoring web
application, in Dafny.

- **Metrics collector.** It samples CPU and memory usage on a timer. Each
  sample is stored as a metric record. When a reading crosses its configured
  threshold, the collector raises a WARNING or CRITICAL alert. Alerts of the
  same metric type are at least 60 seconds apart.
- **In-memory store.** It keeps users, sessions, metrics (capped at 1000
  records), alerts and per-type threshold configurations.
- **Log analyzer.** It classifies the lines of an uploaded log file as INFO,
  WARN or ERROR. It counts each level and ranks the five most frequent error
  messages.
- **Request handlers.** The model covers the decisions made by register,
  login, logout, the threshold update, the log upload and the summary
  report. It also covers the validation schemas those handlers apply.

Each module follows one source file:

| Dafny file | Module | Models |
|---|---|---|
| `wrappers.dfy` | `Wrappers` | `Option` and `Result` helper types |
| `filter.dfy` | `Filters` | `Array.prototype.filter` |
| `ordered_map.dfy` | `OrderedMaps` | The JavaScript `Map`: a key lookup that also remembers insertion order |
| `stable_sort.dfy` | `StableSort` | `Array.prototype.sort` with a descending numeric comparator (stable), and `slice(0, n)` |
| `text.dfy` | `Text` | The string primitives: `trim`, `split('\n')`, `toUpperCase`, `includes`, and `${v}` formatting of one-decimal numbers |
| `schema.dfy` | `Schema` | The records and zod validators of `shared/schema.ts` |
| `log_analyzer.dfy` | `LogAnalyzer` | `server/services/log-analyzer.ts` |
| `storage.dfy` | `Storage` | `MemStorage` in `server/storage.ts` |
| `metrics_collector.dfy` | `Collector` | `MetricsCollector` in `server/services/metrics-collector.ts` |
| `routes.dfy` | `Routes` | The handlers in `server/routes.ts` listed above |

## Representation choices

**Numbers and time**

- Percentages are integers counting tenths of a percent: `853` stands for
  85.3%.
- The raw telemetry reading is given in hundredths. Rounding to one decimal
  is `(h + 5) / 10`, which is `Math.round(h / 10)` for non-negative readings.
- Timestamps are integers counting milliseconds.
- The clock, generated identifiers, password hashing and the telemetry
  sample are parameters of the operations that use them.

**State**

- `MemStorage` and `MetricsCollector` are classes whose fields the methods
  update in place.
- Each class has a snapshot function, `State()` or `Status()`. Method
  postconditions state the complete new state against `old(State())`, so
  they also say that nothing else changes.
- A JavaScript `Map` is an `OrderedMap`: a sequence of keys in insertion
  order plus a Dafny `map`. `Values` lists the values in that order, as
  `Array.from(map.values())` does.
- Sorting is `StableSort.SortDesc`, which is a stable insertion sort. That is
  the behaviour ECMAScript requires of `Array.prototype.sort`. Its key
  functions are `MetricTime`, `AlertTime` and `CountKey`.

**Log analyzer**

- `parseLine` is a pure function over the line's characters.
- Each of the four regular expressions is modelled by its own matcher. The
  matcher reproduces the regex's leftmost, lazy-then-greedy choice of the
  level and message groups.
- The fallback keyword search runs on the upper-cased line.
- A line whose first matching pattern names some other level ("DEBUG") is
  tried against the remaining patterns, as the source's loop does.

**Points of the code worth noting**

- The collector rounds samples and never clamps them, so the model does not
  clamp: a stored metric value can lie outside 0 to 100 when a reading does.
- The registration form's `confirmPassword` check (`registerSchema`) is only
  applied on the client. The server's register handler validates with
  `insertUserSchema`. `Routes.Register` uses the latter. `Schema.RegisterIssues`
  models the client-side schema on its own.
- zod's string length checks compare JavaScript's `length`, which counts UTF-16
  code units. `Schema.JsLength` counts a character outside the Basic
  Multilingual Plane as two.
- `Array.prototype.filter` is `Filters.Filter`. `Filters.FilterPositions` ties
  every filter result to the increasing list of positions it keeps. The blank
  line filter, the per-type metric filter and the per-type alert filter are
  instances of it.

## Model

| member | source | states |
|---|---|---|
| Text.LeadingSpacesMeaning | server/services/log-analyzer.ts:68 | the run `trim()` strips from the front is all whitespace and stops at the first character that is not |
| Text.TrailingSpacesMeaning | server/services/log-analyzer.ts:68 | the run `trim()` strips from the back is all whitespace and stops at the last character that is not |
| Text.TrimMeaning | server/services/log-analyzer.ts:68 | the result is the slice of the input between its leading and trailing whitespace; it starts and ends with non-whitespace, and is empty exactly when the line is all whitespace |
| Text.JoinSplit | server/services/log-analyzer.ts:9 | splitting on `'\n'` and joining with `'\n'` gives back the text |
| Text.SplitPieces | server/services/log-analyzer.ts:9 | no piece produced by `split('\n')` contains a line feed |
| Text.SplitJoin | server/services/log-analyzer.ts:9 | splitting a join of newline-free pieces gives back the pieces |
| Text.UpperSlice | server/services/log-analyzer.ts:64 | upper-casing commutes with taking a slice, so upper-casing a captured group equals taking that group from the upper-cased line |
| Filters.FilterPositions | server/services/log-analyzer.ts:9 | `filter` keeps the passing elements at exactly their positions in the input, in increasing order, each position once |
| Filters.FilterAppend | server/services/log-analyzer.ts:9 | filtering a concatenation is the concatenation of the filtered parts, so one more element adds at most itself, at the end |
| Text.ContainsMeaning | server/services/log-analyzer.ts:76-82 | `Contains(s, pat)` holds exactly when `pat` occurs at some position of `s` |
| Text.FormatTenthsRoundTrip | server/services/metrics-collector.ts:79 | parsing the decimal text written for a one-decimal percentage gives back the same value |
| Text.DigitStringValue | server/services/metrics-collector.ts:79 | the decimal digits written for a number read back to that number |
| OrderedMaps.Get | server/storage.ts:80 | lookup gives the stored value for a present key and nothing for an absent one |
| OrderedMaps.SetMeaning | server/services/log-analyzer.ts:29-30 | after `set`, the key maps to the new value, other keys keep theirs, and the key order gains the key at the end only when it was new |
| OrderedMaps.Delete | server/storage.ts:100 | after deleting, the key is absent and every other key keeps its value; deleting an absent key changes nothing |
| OrderedMaps.RemoveKeys | server/storage.ts:134-141 | removing a set of keys keeps exactly the keys outside the set, each with its old value |
| OrderedMaps.RemoveKeysTwice | server/storage.ts:134-141 | removing one key set after another equals removing their union |
| OrderedMaps.Values | server/storage.ts:187 | the values listing has one element per key, in insertion order, and consists of exactly the stored values |
| OrderedMaps.ValuesSetNew | server/storage.ts:204 | inserting a new key appends its value to the end of the values listing |
| OrderedMaps.ValuesSetExisting | server/storage.ts:244 | overwriting an existing key replaces its value in place in the values listing, keeping its position |
| StableSort.SortDesc | server/services/log-analyzer.ts:38 | the result is a permutation of the input sorted by non-increasing key |
| StableSort.SortDescStable | server/services/log-analyzer.ts:38 | the sort is stable: elements with equal keys keep their input order |
| StableSort.SortDescTies | server/services/log-analyzer.ts:36-38 | elements with equal keys appear ordered by any ranking under which the input was ordered |
| StableSort.Take | server/services/log-analyzer.ts:39 | `slice(0, n)` yields the prefix of length `min(n, length)` |
| StableSort.TakeOmitted | server/services/log-analyzer.ts:36-39 | an element of a descending list that was cut off by `Take` has a key no larger than every kept element's key |
| StableSort.TakeKeepsOrder | server/services/log-analyzer.ts:36-39 | cutting a descending list with ties in a given order leaves it descending with ties in that order |
| Schema.ParseMetricType | shared/schema.ts:50 | accepts exactly the strings "CPU" and "MEMORY" and names them back |
| Schema.ParseSeverity | shared/schema.ts:70 | accepts exactly "CRITICAL", "WARNING" and "INFO" and names them back |
| Schema.ParseLogLevel | shared/schema.ts:103 | accepts exactly "INFO", "WARN" and "ERROR" |
| Schema.EnumNamesRoundTrip | shared/schema.ts:102-106 | every enumeration value parses back from its name |
| Schema.Percentage | shared/schema.ts:51 | a value has an issue exactly when it lies outside 0..100 percent |
| Schema.MetricTypeIssues | shared/schema.ts:50 | a type string has an issue exactly when it is neither "CPU" nor "MEMORY" |
| Schema.JsLengthBounds | shared/schema.ts:17-18 | JavaScript's `length`, which zod's `min` and `max` compare, counts each character as one or two UTF-16 code units, and equals the number of characters exactly when none lies outside the Basic Multilingual Plane |
| Schema.InsertUserIssues | shared/schema.ts:13-19 | a body is rejected exactly when the username is shorter than 3 or longer than 50 UTF-16 code units or the password is shorter than 8; a short username is the first issue reported |
| Schema.LoginIssues | shared/schema.ts:141-144 | a login body is rejected exactly when the username is shorter than 3 UTF-16 code units or the password is empty |
| Schema.RegisterIssues | shared/schema.ts:146-153 | a registration form is rejected exactly when a user-field rule fails or the two passwords differ; a mismatch is the last issue, reported on `confirmPassword` |
| Schema.ParseInsertMetric | shared/schema.ts:49-52 | a metric body is accepted exactly when its type is known and its value is a percentage, and then carries them unchanged |
| Schema.ParseInsertAlert | shared/schema.ts:68-74 | an alert body is accepted exactly when its type and severity are known, and then carries type, severity, message, value and threshold unchanged |
| Schema.ParseInsertThreshold | shared/schema.ts:87-91 | a threshold body is accepted exactly when its type is known and both levels are percentages |
| Schema.UpdateThresholdIssues | shared/schema.ts:93-96 | an update is rejected exactly when a level that is present lies outside 0..100; absent levels are never an issue |
| LogAnalyzer.MatchTailMeaning | server/services/log-analyzer.ts:55-56 | the `\s+(.+)$` tail matches exactly when at least one whitespace character follows and the rest of the line is non-empty and free of line terminators; the message group is that rest with the maximal whitespace run consumed |
| LogAnalyzer.AtSome | server/services/log-analyzer.ts:55-58 | when a pattern matches at a position, its level group is the word there, up to the word boundary, and the text after the separator matches `\s+(.+)$` |
| LogAnalyzer.AtNone | server/services/log-analyzer.ts:55-58 | when a pattern fails at a position, no level group it could take there is followed by a matching `\s+(.+)$` |
| LogAnalyzer.ScanLeftmost | server/services/log-analyzer.ts:57-58 | after the date, the lazy `.*?` picks the leftmost position, reachable without crossing a line terminator, where the rest of the pattern matches; no earlier one matches, and the pattern fails exactly when none does |
| LogAnalyzer.FirstAcceptedMeaning | server/services/log-analyzer.ts:61-73 | the pattern loop returns the entry of the first pattern that matches with a known level, and none exactly when every pattern fails or names another level |
| LogAnalyzer.TokenInLine | server/services/log-analyzer.ts:64 | the level group is a slice of the line, so upper-casing it agrees with the upper-cased line |
| LogAnalyzer.ParseLineCounted | server/services/log-analyzer.ts:52-85 | a line yields an entry exactly when its upper-cased text contains ERROR, WARN or INFO, and the entry's level name occurs in the upper-cased line |
| LogAnalyzer.ParseLineStructured | server/services/log-analyzer.ts:61-73 | when a pattern accepts, the entry is that pattern's level and trimmed message |
| LogAnalyzer.ParseLineSniffed | server/services/log-analyzer.ts:75-84 | when no pattern accepts, the keyword search decides: ERROR before WARN before INFO on the upper-cased line, with the whole line as message, and no entry when none occurs |
| LogAnalyzer.NonBlankMeaning | server/services/log-analyzer.ts:9 | a line passes `line.trim()` exactly when it has a non-whitespace character, and the kept lines are the pieces at exactly those positions, in increasing order, each once, so `totalLines` counts the non-blank pieces |
| LogAnalyzer.ClassifyAt | server/services/log-analyzer.ts:21-25 | the classification of a line list is the parse of each line, position by position |
| LogAnalyzer.CountsPartition | server/services/log-analyzer.ts:21-33 | INFO, WARN and ERROR counts plus the unparsed lines add up to the number of lines |
| LogAnalyzer.SkippedLines | server/services/log-analyzer.ts:24 | every line is counted exactly when each line contains ERROR, WARN or INFO in any letter case |
| LogAnalyzer.AnalysisStep | server/services/log-analyzer.ts:24-31 | one more line raises exactly the counter of its level, and appends to the error messages only when it is an ERROR |
| LogAnalyzer.FrequenciesCount | server/services/log-analyzer.ts:28-31 | each message's frequency is the number of ERROR entries carrying it, and the keys are exactly the ERROR messages |
| LogAnalyzer.FrequenciesOrder | server/services/log-analyzer.ts:18 | the frequency map lists messages in order of first occurrence |
| LogAnalyzer.EntriesTotal | server/services/log-analyzer.ts:28-31 | the frequencies add up to the ERROR count |
| LogAnalyzer.RankingEntries | server/services/log-analyzer.ts:36-38 | the ranking is a permutation of the `{message, count}` entries, sorted by non-increasing count |
| LogAnalyzer.TopErrorsEntries | server/services/log-analyzer.ts:36-39 | the top list holds at most five entries, each pairing an ERROR message with its exact frequency |
| LogAnalyzer.TopErrorsDistinct | server/services/log-analyzer.ts:36-39 | no message appears twice in the top list |
| LogAnalyzer.TopErrorsOrder | server/services/log-analyzer.ts:36-39 | the top list has non-increasing counts, and equal counts appear in order of first occurrence in the log |
| LogAnalyzer.TopErrorsComplete | server/services/log-analyzer.ts:36-39 | an ERROR message missing from the top list occurs no more often than any listed message |
| LogAnalyzer.AnalysisBounds | server/services/log-analyzer.ts:41-45 | `totalLines` counts the non-blank lines, the level counts sum to at most that, and the top list has at most five entries, each with a count between 1 and the ERROR count |
| LogAnalyzer.Record | server/services/log-analyzer.ts:22-32 | processing one line updates the counters and frequency map exactly as the analysis function does for one more line |
| LogAnalyzer.Tally | server/services/log-analyzer.ts:21-33 | the loop over the lines yields the counters and frequency map of the analysis function |
| LogAnalyzer.Analyze | server/services/log-analyzer.ts:8-46 | the returned result equals the reference definition of the analysis |
| Storage.SliceFromStart | server/storage.ts:147 | `slice(0, limit)` yields the first `limit` elements for a non-negative limit, and drops the last `-limit` for a negative one |
| Storage.FindMeaning | server/storage.ts:84-86 | `find` returns the first element satisfying the predicate, and nothing exactly when none does |
| Storage.MetricsOfType | server/storage.ts:152-153 | the filter keeps exactly the metrics of the given type |
| Storage.MetricsOfTypePositions | server/storage.ts:152-153 | the filter result is the metrics of the type at their stored positions, in stored order, each stored occurrence once |
| Storage.Capped | server/storage.ts:175-180 | at most 1000 records remain, and within the cap nothing changes |
| Storage.CappedMeaning | server/storage.ts:175-180 | the capped history holds only records that were there, and above the cap it is newest first |
| Storage.CappedDropsOldest | server/storage.ts:175-180 | going over the cap drops a record no newer than every record kept |
| Storage.CappedKeepsNewer | server/storage.ts:175-180 | going one record over the cap keeps every record that is strictly newer than some other stored record |
| Storage.LatestMeaning | server/storage.ts:150-163 | the latest metric of a type is one of that type with no stored metric of that type newer than it, and absent exactly when none exists |
| Storage.AcknowledgeMeaning | server/storage.ts:208-213 | acknowledging sets the flag and keeps every other field of the alert |
| Storage.AcknowledgeIdempotent | server/storage.ts:208-213 | acknowledging twice is the same as acknowledging once |
| Storage.Merge | server/storage.ts:237-242 | the merged configuration keeps id and type, takes each supplied level, keeps each omitted one and stamps the update time |
| Storage.MergeEmpty | server/storage.ts:237-242 | an update supplying no level changes only the update time |
| Storage.SessionExpiryBoundary | server/storage.ts:97-110 | a session expiring exactly now is neither removed by the lookup by token nor returned by the lookup by user |
| Storage.OwnedByStep | server/storage.ts:136-140 | one loop step adds the token to the removed set exactly when its session belongs to the user |
| Storage.MemStorage.constructor | server/storage.ts:54-76 | the store starts empty except the CPU (60/80) and memory (70/85) threshold configurations |
| Storage.MemStorage.GetUser | server/storage.ts:79-81 | returns the user with that id, or nothing |
| Storage.MemStorage.GetUserByUsername | server/storage.ts:83-87 | returns `find` over the users in creation order, that is the first user with that username (through `Storage.FindMeaning`), and nothing exactly when no user has it |
| Storage.MemStorage.CreateUser | server/storage.ts:89-94 | stores and returns a user built from the input under the given id, changing nothing else |
| Storage.MemStorage.GetSession | server/storage.ts:97-104 | an expired session is deleted and not returned; a live one is returned unchanged |
| Storage.MemStorage.GetSessionByUserId | server/storage.ts:106-110 | returns the first session, in insertion order, of the user that has not expired, and nothing exactly when there is none; nothing changes |
| Storage.MemStorage.CreateSession | server/storage.ts:112-128 | stores a session that expires 24 hours after now, under the given token |
| Storage.MemStorage.DeleteSession | server/storage.ts:130-132 | removes exactly that token's session |
| Storage.MemStorage.DeleteSessionsByUserId | server/storage.ts:134-141 | removes exactly the sessions of the user and keeps every other session |
| Storage.MemStorage.GetMetrics | server/storage.ts:144-148 | sorts the stored metrics newest first in place and returns the first `limit` of them |
| Storage.MemStorage.GetLatestMetrics | server/storage.ts:150-163 | returns the newest CPU and the newest memory metric, each absent when no metric of its type exists |
| Storage.MemStorage.CreateMetric | server/storage.ts:165-183 | appends the new metric and applies the 1000-record cap, changing nothing else |
| Storage.MemStorage.GetAlerts | server/storage.ts:186-189 | returns every stored alert exactly once, newest first |
| Storage.MemStorage.GetAlert | server/storage.ts:191-193 | returns the alert with that id, or nothing |
| Storage.MemStorage.CreateAlert | server/storage.ts:195-206 | stores an unacknowledged alert with the given id and time, changing nothing else |
| Storage.MemStorage.AcknowledgeAlert | server/storage.ts:208-213 | marks an existing alert acknowledged and returns it; an unknown id changes nothing |
| Storage.MemStorage.ClearAllAlerts | server/storage.ts:215-217 | empties the alert store and keeps everything else |
| Storage.MemStorage.GetThresholds | server/storage.ts:220-222 | returns every configuration in insertion order |
| Storage.MemStorage.GetThreshold | server/storage.ts:224-226 | returns the configuration of that type, or nothing |
| Storage.MemStorage.UpdateThreshold | server/storage.ts:228-246 | an absent type fails with "Threshold config for X not found" and changes nothing; otherwise the merged configuration replaces the stored one |
| Collector.RoundTenths | server/services/metrics-collector.ts:36 | the rounded value is the nearest tenth, halves rounded up |
| Collector.AlertMessageValue | server/services/metrics-collector.ts:79 | the alert message ends in the value's text, which reads back to the value |
| Collector.AlertFor | server/services/metrics-collector.ts:72-98 | an alert is raised exactly when more than 60 s have passed since the type's last alert and the value reaches a level; CRITICAL with the critical threshold takes precedence over WARNING |
| Collector.CooldownShared | server/services/metrics-collector.ts:72-98 | within 60 s of any alert of a type, even a critical reading of that type raises nothing |
| Collector.TickLatest | server/services/metrics-collector.ts:44-52 | after a tick stores two fresh metrics newer than all before, they are the latest of their types, so the next trend is against them |
| Collector.MetricsCollector.constructor | server/services/metrics-collector.ts:6-15 | a new collector is stopped, with zero previous values and no alert history, over the given store |
| Collector.MetricsCollector.CheckThresholds | server/services/metrics-collector.ts:64-128 | records the CPU alert then the memory alert as decided by the alert rule, and moves each type's last-alert time to now exactly when it alerted |
| Collector.MetricsCollector.StoreSamples | server/services/metrics-collector.ts:33-45 | stores the CPU metric then the memory metric with the given ids and time, changing nothing else in storage; when every stored metric is older than the tick, they become the latest metric of their types |
| Collector.MetricsCollector.CollectMetrics | server/services/metrics-collector.ts:21-58 | when stopped or without telemetry nothing changes; otherwise both rounded metrics are stored, thresholds checked and the previous values replaced, and those become the latest stored values |
| Collector.MetricsCollector.Start | server/services/metrics-collector.ts:134-150 | starting sets the running flag and a timer, and is a no-op when already running |
| Collector.MetricsCollector.Stop | server/services/metrics-collector.ts:155-162 | stopping clears the timer and the running flag and keeps the rest |
| Collector.MetricsCollector.GetCurrentMetrics | server/services/metrics-collector.ts:167-184 | reports each type's latest stored value or 0, with trend equal to that value minus the previous sample |
| Routes.Register | server/routes.ts:35-76 | fails with 400 and the first issue on an invalid body, with 400 "Username already taken" for a used name; succeeds exactly otherwise, storing the user and a session |
| Routes.Login | server/routes.ts:82-123 | 400 with the first issue on an invalid body; 401 "Invalid credentials" for an unknown user; for the first user with the name, success exactly when the password matches its hash and otherwise 401 "Invalid credentials"; a failure changes nothing; on success the payload is the new token and the username |
| Routes.ReplaceSessions | server/routes.ts:106-113 | the user's sessions are all removed and the new one added, everything else unchanged, so the user holds exactly the new session |
| Routes.Logout | server/routes.ts:140-154 | always answers success; removes the presented token's session, and changes nothing without a token |
| Routes.UpdateThresholdRoute | server/routes.ts:257-280 | rejects an unknown type, then an invalid body, with 400; a missing configuration gives 500; otherwise returns the merged configuration |
| Routes.LogUpload | server/routes.ts:290-311 | without a file fails with 400 "No log file uploaded"; otherwise returns the analysis of the file's text |
| Routes.AlertsOfTypePositions | server/routes.ts:328-331 | each per-type alert list is the alerts of that type at their positions, in order, each once |
| Routes.BreakdownTotal | server/routes.ts:328-331 | the CPU and memory alert counts add up to the total |
| Routes.Recent | server/routes.ts:334-338 | the recent list holds the first ten alerts projected to type, time and value |
| Routes.Average | server/routes.ts:341-358 | the average is the sum divided by the count, rounded to a tenth with halves up, and 0 for no metrics |
| Routes.AverageBounds | server/routes.ts:341-358 | averages of percentages stay within 0..100 percent |
| Routes.SummarizeMeaning | server/routes.ts:322-361 | the report counts all alerts, splits them by type, lists the ten newest and averages each type over the ten newest metrics |
| Routes.Summary | server/routes.ts:322-361 | the handler's report is the summary of all alerts newest first and the ten newest metrics, and leaves the metrics re-sorted |

## Left out

- Floating point is not modelled. Percentages are exact tenths, and the
  telemetry reading arrives in hundredths. Binary rounding effects of
  `Math.round(x * 10) / 10` on doubles are therefore not captured.
- The `systeminformation` calls are not modelled. Their result is the
  `sample` parameter, and a failed call is the `None` sample.
- Timers are not modelled. `setInterval` and `clearInterval` become the
  `hasTimer` flag. `Start` does not run the first tick itself, and
  overlapping asynchronous ticks are not modelled. A tick runs atomically
  with one clock reading.
- The clock, `randomUUID` and bcrypt are parameters:
  - `now` is given in milliseconds;
  - the generated identifiers and tokens are given to each operation;
  - the password hash is given to `Register`;
  - the password comparison is the `matches` function given to `Login`.
- Collector.MetricsCollector.CollectMetrics does not model the failure path
  after the metrics are stored. In-memory storage never throws, so that path
  cannot arise.
- The `timestamp` field that `parseLine` fills with the current time is not
  modelled. The analysis never reads it.
- Case mapping is ASCII only. `toUpperCase` is modelled on ASCII letters;
  Unicode case mapping such as "ß" to "SS" is left out.
- Upload decoding is left out. The uploaded file is given as decoded text,
  so UTF-8 decoding and the 10 MB upload limit are not modelled.
- Request bodies are typed values. Zod's type errors for a missing field or
  a wrongly typed one are not modelled, and neither are JSON parsing errors.
- The HTTP layer is not modelled:
  - responses carry only a status code and an error text;
  - the session-checking middleware is left out;
  - cookies and headers are left out;
  - console logging is left out;
  - 500 responses from unexpected exceptions are modelled only for the
    threshold update.
- The handlers that only forward to a modelled storage or collector method
  have no route model of their own: current metrics, history, alerts,
  acknowledge, clear and list thresholds.
- Object aliasing is not modelled. `acknowledgeAlert` changes an alert
  object that earlier `getAlerts` results share. In the model, results are
  values, so earlier results do not change.
- The browser client is not part of this model.
