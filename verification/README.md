# Verified model of the oo-agent daemon

oo-agent collects metrics on a host and pushes them to one HTTPS endpoint. This project models the
parts of it whose behaviour is a matter of state over time, and proves what they promise:

- **the cron next-run engine**: the crontab field parser, the proleptic Gregorian calendar it
  searches, and the day/hour/minute search with its 732-day horizon;
- **store-and-forward delivery**: the bounded on-disk queue, the retrying client, the batched drain,
  the re-enrolment flow, and `push_sink`, which ties them together;
- **the collection loop**: due selection, backoff, isolation and payload assembly;
- **the rate tracker**, and the parser of `systemctl show` output.

Code that changes state is a class or a method with loops (`DiskQueue`, `Client`, `Drain`,
`ReclaimFlow`, `PushSink`, `Entry`, `Result`, `Scheduler`, `RateTracker`, `ParseField`, `Search`,
`ParseShowBlocks`). Each is proved equal to a specification function; the lemmas are about those
functions, over every input and every run.

| file | holds |
|---|---|
| `Prelude.dfy`, `Text.dfy` | options; the Python string operations used |
| `Calendar.dfy` | civil dates, day numbers, weekdays |
| `CronFields.dfy`, `CronRun.dfy`, `CronNotation.dfy`, `CronExamples.dfy` | field grammar; search against scan; schedules as written, in decimal numbers, names and keywords; three concrete schedules |
| `DiskQueue.dfy`, `QueueHistory.dfy`, `CrashSteps.dfy` | the queue; its contents over runs; runs with crashes |
| `Transport.dfy`, `Reclaim.dfy` | client and drain; re-enrolment |
| `Sink.dfy`, `SinkHistory.dfy`, `SinkLedger.dfy`, `SinkCalls.dfy` | `push_sink`; its state machine; conservation; each call by the replies it meets, and the token its requests carry |
| `Assembly.dfy`, `SchedulerSpec.dfy`, `Scheduler.dfy`, `Cadence.dfy`, `Payloads.dfy` | merging; the loop; its methods; pacing; payload contents |
| `Rates.dfy`, `ShowBlocks.dfy` | rates; block parsing |

## How things are represented

- **Time.** Cron works in naive local minutes (minute t is on day t / 1440); clocks elsewhere are
  real numbers given as inputs, one value for each reading the code makes.
- **The network** is an arbitrary infinite trace of replies (`Replies`), or one arbitrary answer per
  re-enrolment step. A reply is an exception or a status code.
- **The queue table** is the sequence of its rows in id order with the next AUTOINCREMENT id. `push`
  and `ack` commit once each, so they are atomic; `CrashSteps` lets the process die between any two
  of push, peek, single delivery and ack, and `Transport.Drain` returns the crash-free step list it
  performs.
- **Python dicts returned by collectors** are their items in iteration order.

## Where the code and its documentation disagree

The model follows the code.

- `oo_agent/cli.py:19-20` speaks of consecutive auth rejections before a wipe. Replies 401, 400, 400
  wipe the token after a single one (`SinkHistory.OneAuthRejectionCanWipe`): the code counts every
  permanent rejection of a live push while an auth rejection stands uncleared. The third consecutive
  auth rejection always wipes, and a wipe departs from the rule exactly when one of its strikes is a
  plain rejection (`WipedAtThirdAuthRejection`); `CounterIsAuthStreak` is the exact condition for the
  counter itself. A new token does not clear the pending rejection (`NewTokenInheritsRejection`).
- `oo_agent/collectors/cron.py:276` names the Vixie rule. The code asks only whether a day field
  starts with a star. `CronRun.DayRuleIsVixie` is the exact condition on a schedule under which both
  give the same minutes, `SteppedStarIsNotVixie` a schedule that fails it.
- `oo_agent/collectors/cron.py:262-263` promises the next trigger time. A 29 February schedule can get
  None although it will run (`NoneExactly`, `NoneMissesLeapRuns`, `LeapOnlyGetsNone`).
- `oo_agent/core/registry.py:154-157` only warns of duplicate names. Entries are independent exactly
  when no two enabled ones share a name (`IndependentExactly`).
- `oo_agent/core/scheduler.py:7-8` says one broken collector never kills the agent.
  `LivesExactlyWhile` gives every way it can: the sink raises, or a due collection returns a payload
  that `_merge` cannot read (a sensor mirrored to a metric but without an id among them), raises
  outside `Exception`, or raises for the 1025th time in a row, when `2 ** (failures - 1)` no longer
  fits a float and the handler itself raises. The minimal plugin in the repository's README, lines
  172-181, ends the loop at once (`DocumentedPluginEndsLoop`); a collector that always raises ends it
  at its 1025th attempt (`EndlessFailureEndsLoop`), no sooner than 42 days in (`OverflowComesLate`).
- Line 211 of the repository's README says a raising plugin is disabled until restart. It is retried,
  on the first tick past its interval and cooldown (`StartsExactlyWhenReady`,
  `RetriedAtFirstReadyTick`).
- docs/PAYLOAD.md:317 lets a POST answer with the token at once. `ReclaimFlow` ignores it
  (`ImmediateTokenIsIgnored`). An explicit null token is taken for the text "None"
  (`NullTokenFinishes`, `TokenIsIssuedUnlessNull`).
- docs/PAYLOAD.md:13-15 calls 5xx and network errors transient; so are 3xx replies
  (`Transport.TransientExactly`).

## Model

| member | source | states |
|---|---|---|
| Calendar.NextDayCounts | oo_agent/collectors/cron.py:301 | `day + timedelta(days=1)` raises the day number by exactly one, across month ends, leap days and centuries |
| Calendar.FromOrdinalCorrect | oo_agent/collectors/cron.py:282-283 | the date counted off from 1 January of year 1 is valid and has the day number it was counted to |
| Calendar.OrdinalRoundTrip | oo_agent/collectors/cron.py:282-283 | day numbers and valid civil dates are in bijection |
| Calendar.YearCoversMonthDay | oo_agent/collectors/cron.py:284 | any 366 consecutive days contain every month/day but 29 February |
| Calendar.WeekdayMeetsDate | oo_agent/collectors/cron.py:285-287 | every weekday falls on every month and day some year has, 29 February included |
| Calendar.KnownSunday | oo_agent/collectors/cron.py:154-155 | the weekday count is anchored: 12 July 2026 is a Sunday |
| Calendar.YearLayout | oo_agent/collectors/cron.py:301 | in every year the months begin on the days the civil calendar gives, and the year has 365 or 366 days |
| Text.IntOfDecimal | oo_agent/collectors/cron.py:233 | `int` reads back every natural number written in decimal |
| CronFields.ParseField | oo_agent/collectors/cron.py:224-258 | the loop over parts, with its early exits, returns what the field denotes: the union of its parts when all parse and the union is a non-empty subset of [lo, hi] |
| CronFields.FieldMeaning | oo_agent/collectors/cron.py:235-258 | against a grammar of parts: accepted exactly when the written items denote a non-empty subset of [lo, hi], and then the result is what they denote |
| CronFields.FieldGrammar | oo_agent/collectors/cron.py:224-258 | the field is accepted with a given set exactly when its parts have a reading in the grammar that denotes that set, non-empty and in range |
| CronFields.RenderedPart | oo_agent/collectors/cron.py:236-255 | every well-formed part (star, value, range, each with or without step) is accepted and stands for its arithmetic progression; `v/1` is just v, `v/2` runs to hi, an empty part is a star |
| CronFields.AcceptedPart | oo_agent/collectors/cron.py:237-254 | nothing outside the grammar is accepted |
| CronFields.OrderIrrelevant | oo_agent/collectors/cron.py:235 | the outcome, None included, does not depend on the order or repetition of parts |
| CronFields.CommaIsUnion | oo_agent/collectors/cron.py:235 | joining two accepted specs with a comma yields the union of their sets |
| CronNotation.SteppedStar | oo_agent/collectors/cron.py:237-244 | `*/k` in decimal, for every k from 1, denotes exactly the values of the range at a multiple of k from its start |
| CronNotation.SteppedValue | oo_agent/collectors/cron.py:237-249 | `a/k` with k above 1 denotes every k-th value from a to the end of the range |
| CronNotation.UnsteppedValue | oo_agent/collectors/cron.py:248-252 | `a/1` and `a` denote a alone |
| CronNotation.SteppedRange | oo_agent/collectors/cron.py:245-255 | `a-b/k` denotes every k-th value from a to b |
| CronNotation.PlainRange | oo_agent/collectors/cron.py:245-255 | `a-b` denotes a to b |
| CronNotation.BadStep | oo_agent/collectors/cron.py:237-241 | a step that is 0 or no number spoils the whole field, whatever stands around it |
| CronNotation.MonthNames | oo_agent/collectors/cron.py:69-74 | the month names, in any case, are 1 to 12 |
| CronNotation.DayNames | oo_agent/collectors/cron.py:75-77 | the names of the days of the week, in any case, are 0 to 6 |
| Text.WordsJoin | oo_agent/collectors/cron.py:265 | splitting on white space recovers words joined by spaces |
| CronNotation.FiveFieldsParse | oo_agent/collectors/cron.py:264-278 | a text that is no keyword parses exactly when it is five fields each valid in its own range; day 7 is Sunday, a day field is starred by its first character |
| CronNotation.Keywords | oo_agent/collectors/cron.py:60-68 | each keyword parses as its five-field spec; any other text without five fields, `@reboot` too, gets None |
| CronNotation.MatchesAt | oo_agent/collectors/cron.py:285-300 | a schedule matches a civil date and time exactly when month, hour and minute are listed and the four-way day rule holds |
| CronNotation.HorizonIs732Days | oo_agent/collectors/cron.py:282-302 | a parsed schedule gets a time exactly when it runs at a minute after now within the 732 days from that of the first whole minute after now |
| CronRun.SearchHour | oo_agent/collectors/cron.py:295-300 | the minute loop finds the first allowed minute of the hour not before start, or there is none |
| CronRun.SearchDay | oo_agent/collectors/cron.py:294-300 | the hour loop finds the first allowed minute of the day not before start, or there is none |
| CronRun.Search | oo_agent/collectors/cron.py:282-302 | the day search equals a minute-by-minute scan of the whole horizon |
| CronRun.CronNextRun | oo_agent/collectors/cron.py:261-302 | from schedule text and clock: equals parsing and scanning every minute from the first whole minute after now |
| CronRun.NextRunIsFirst | oo_agent/collectors/cron.py:261-263 | a returned time matches all fields, is strictly after now, and no minute between does |
| CronRun.FoundOnDay | oo_agent/collectors/cron.py:284-300 | a time is found exactly when some matching day of the window has an allowed minute left |
| CronRun.WeekdaysComeRound | oo_agent/collectors/cron.py:288-293 | a schedule not confined to days of the month has a matching day within any 373 |
| CronRun.NoneExactly | oo_agent/collectors/cron.py:284-302 | None exactly when day of week is starred, day of month is not, every listed date is impossible but for 29 February, and no usable 29 February lies in the window |
| CronRun.NextRunNoneExactly | oo_agent/collectors/cron.py:261-302 | the same from schedule text and clock, or the text does not parse |
| CronRun.NoneMissesLeapRuns | oo_agent/collectors/cron.py:262-263 | a None for a parsed schedule misses a real later run exactly when 29 February is listed |
| CronRun.DayRuleIsVixie | oo_agent/collectors/cron.py:276-293 | the code runs a schedule at exactly the minutes the Vixie rule would if and only if a starred day of month lists every day its months have and a starred day of week lists the whole week (or the unstarred day of month names no date at all) |
| CronExamples.SteppedStarIsNotVixie | oo_agent/collectors/cron.py:276-278 | a stepped day-of-month star runs at a minute the Vixie rule would not |
| CronExamples.LeapOnlyGetsNone | oo_agent/collectors/cron.py:284-302 | a 29 February schedule gets None on 1 March 2024 though a run exists |
| CronExamples.WeeklyIsSundayMidnight | oo_agent/collectors/cron.py:60-68 | from any moment `@weekly` next runs at midnight of a Sunday |
| DiskQueue.DiskQueue.Push | oo_agent/buffer/queue.py:43-49 | one commit: insert with a fresh id, drop rows older than the cutoff, drop the oldest beyond the cap; ids stay increasing and at most `max_rows` remain |
| DiskQueue.PushKeepsUpToCap | oo_agent/buffer/queue.py:70-84 | after a push the table is all the unaged rows while they number at most `max_rows`, otherwise exactly the newest `max_rows` of them |
| DiskQueue.NewRow | oo_agent/buffer/queue.py:43-47 | a pushed payload gets the next id and its own `ts`, or the second of arrival rounded towards zero |
| DiskQueue.DiskQueue.Ack | oo_agent/buffer/queue.py:58-65 | deletes exactly the rows with the given ids |
| DiskQueue.DiskQueue.Peek | oo_agent/buffer/queue.py:51-56 | a prefix of the table of the asked length, all of it for a negative or larger limit; every row not returned has a higher id than every row returned |
| DiskQueue.AckPrefix | oo_agent/buffer/queue.py:72-74 | acknowledging the ids of the first n rows removes exactly that prefix |
| QueueHistory.QueueIsSuffix | oo_agent/buffer/queue.py:70-84 | with timestamps in order, under any interleaving of pushes and acknowledged prefixes the queue is a contiguous suffix of everything enqueued |
| QueueHistory.PushesKeepNewest | oo_agent/buffer/queue.py:70-84 | with no drains and an advancing clock each push leaves exactly the newest `max_rows` of the not-yet-aged payloads ever enqueued |
| QueueHistory.QueueIsSubsequence | oo_agent/buffer/queue.py:43-74 | whatever the timestamps, the queue is an in-order subsequence of everything enqueued |
| QueueHistory.AgeTrimExactly | oo_agent/buffer/queue.py:71-74 | the age trim leaves a suffix if and only if no aged row stands behind a fresh one |
| QueueHistory.LateTimestampBreaksSuffix | oo_agent/buffer/queue.py:70-84 | two pushes, the second with a late timestamp, leave a queue that is no suffix of what was enqueued |
| QueueHistory.AgedMeansOld | oo_agent/buffer/queue.py:71-74 | a row is aged exactly when its whole second lies `max_age` or more in the past; below a clock of `max_age`, where `int` truncates upwards, exactly when it is older than `max_age` |
| CrashSteps.NothingLost | oo_agent/transport/client.py:167-184 | with crashes anywhere, every committed payload is queued until accepted, permanently rejected or trimmed |
| CrashSteps.TrimsAgedOrOldest | oo_agent/buffer/queue.py:70-84 | a push trims rows past the cutoff, and of the others only the oldest beyond the cap |
| CrashSteps.ResendsPerCrash | oo_agent/transport/client.py:167-184 | deliveries repeating a finished row number at most one batch per crash inside a drain |
| CrashSteps.CrashSafety | oo_agent/transport/client.py:167-184 | both halves of crash safety over every run from any stored table |
| Transport.Client.Push | oo_agent/transport/client.py:110-160 | the retry loop equals the specification of one push: outcome, recorded auth status, requests made |
| Transport.PushMeaning | oo_agent/transport/client.py:126-160 | one request or two, the second only after a transient first, same token and body; the outcome is that of the last; auth status cleared by acceptance only, set by 401/403/410 only |
| Transport.FirstReplyDecides | oo_agent/transport/client.py:136-155 | a first reply below 300 is accepted and clears the auth status; 401, 403, 410 reject and are recorded; any other 4xx rejects and leaves the status; one request is made |
| Transport.SecondReplyDecides | oo_agent/transport/client.py:126-160 | after a network error, 3xx or 5xx the second reply decides alike, or two requests are all there is to show |
| Transport.TransientExactly | oo_agent/transport/client.py:128-153 | an answer is transient if and only if it is a network error, a 3xx or 500 and above |
| Transport.Drain | oo_agent/transport/client.py:167-184 | for every batch size but 0 and every reply trace: terminates with the same requests, client state, removed rows and count as sending one payload at a time, and follows the crash model's steps |
| Transport.DrainTakesLongestPrefix | oo_agent/transport/client.py:168-184 | the drain removes exactly the longest prefix not failing transiently and stops right behind the failing payload |
| Transport.DrainRound | oo_agent/transport/client.py:172-184 | one batch and then the rest is the one-at-a-time drain |
| Reclaim.ReclaimFlow.Step | oo_agent/transport/reclaim.py:73-126 | one step: new state, request made and token returned equal the specification |
| Reclaim.UnthrottledRequests | oo_agent/transport/reclaim.py:76-107 | a throttled step does nothing; any other makes its request, POST without an id and GET with one, and sets the throttle |
| Reclaim.PostGrantsId | oo_agent/transport/reclaim.py:81-103 | a POST below 400 gives the id it carries; otherwise none is held |
| Reclaim.RejectionStartsOver | oo_agent/transport/reclaim.py:105-116 | a GET answered 400 or above, rejected or expired makes the next unthrottled step a POST; any other answer keeps the id |
| Reclaim.TokenExactly | oo_agent/transport/reclaim.py:76-126 | a step returns token t if and only if an unthrottled GET was answered below 400, not rejected or expired, with t |
| Reclaim.RequestsAreSpaced | oo_agent/transport/reclaim.py:76-79 | any two requests of a run are at least `min_interval` apart |
| Reclaim.GetsAskForGrantedId | oo_agent/transport/reclaim.py:81-119 | every GET uses the id of the latest successful POST not invalidated since; every token comes from the answer to such a GET |
| Reclaim.TwoRequestsFinish | oo_agent/transport/reclaim.py:31-33 | once the backend cooperates the second request finishes at the latest, from any state, through any throttled steps |
| Reclaim.TokenIsIssuedUnlessNull | oo_agent/transport/reclaim.py:117-126 | a returned token is the text the backend sent, unless it sent null |
| Reclaim.NullTokenFinishes | oo_agent/transport/reclaim.py:117-126 | an approval with a null token ends the flow with the text "None" |
| Reclaim.ImmediateTokenIsIgnored | docs/PAYLOAD.md:317 | against a backend that answers POST with a token and no id the flow never finishes |
| Sink.PushSink.Push | oo_agent/cli.py:268-308 | one call of the closure equals the specification step on token, auth status, strike count, flow and queue |
| SinkCalls.ReclaimingCall | oo_agent/cli.py:269-277 | the token issued becomes the client's, ends the re-enrolment and clears the strikes; without one only the flow moves |
| SinkCalls.TokenIsLatestIssued | oo_agent/cli.py:272-276 | on every run, outside re-enrolment the client holds the token issued last, or its first one if none was |
| SinkCalls.RequestsCarryLatestToken | oo_agent/cli.py:268-308 | on every run each request carries the token issued last before its call; while re-enrolling nothing is sent |
| SinkCalls.LiveRequests | oo_agent/cli.py:279-308 | a live call first sends its own payload, and keeps its token unless it wipes it |
| SinkCalls.AcceptedCall | oo_agent/cli.py:279-306 | a live reply below 300 clears the strikes and books the payload as accepted |
| SinkCalls.StruckCall | oo_agent/cli.py:280-300 | 401, 403, 410, or another 4xx while one of them stands, is a strike and touches no queue; the third wipes the token and starts a new flow |
| SinkCalls.PlainlyRejectedCall | oo_agent/cli.py:279-306 | another 4xx with none standing is booked as rejected and clears the strikes |
| SinkCalls.DrainingCall | oo_agent/cli.py:301-306 | the call then removes exactly the oldest rows that do not fail transiently, in order |
| SinkCalls.DeferredCall | oo_agent/cli.py:307-308 | two transient replies queue the payload and change nothing else |
| SinkHistory.RunIsRunState | oo_agent/cli.py:268-308 | the run with its history and the run with its ledger pass through the same states |
| SinkHistory.RunKeepsInv | oo_agent/cli.py:268-308 | in every reachable state: token empty exactly while re-enrolling, exactly at three strikes, strikes imply an auth status, fields agree with the history, no request ever carried an empty token |
| SinkHistory.UnenrolledTouchesNothing | oo_agent/cli.py:269-277 | while unenrolled nothing is sent and the queue is untouched |
| SinkHistory.WipedAtThirdStrike | oo_agent/cli.py:279-300 | a wipe happens exactly at the third strike, as the history defines strikes |
| SinkHistory.WipeMeaning | oo_agent/cli.py:279-300 | a wipe needs three live permanent rejections with no push accepted and no new token since the first, and an auth rejection since the last acceptance |
| SinkHistory.WipedAtThirdAuthRejection | oo_agent/cli.py:19-21 | the third consecutive auth rejection always wipes; a wipe comes at it exactly when none of its strikes is a plain rejection; so a call departs from the documented rule exactly when it wipes over a plain strike |
| SinkHistory.CounterIsAuthStreak | oo_agent/cli.py:280-282 | on every run the counter is the run of consecutive auth rejections all along if and only if no plain rejection came while an auth rejection was pending |
| SinkHistory.PlainStrikesTell | oo_agent/cli.py:280-282 | strikes are at least the consecutive auth rejections, and equal exactly when none of them is plain |
| SinkHistory.StrikesAreAuthStreak | oo_agent/cli.py:280-282 | the same equivalence on every history whose drains fall where no strike stands |
| SinkHistory.OneAuthRejectionCanWipe | oo_agent/cli.py:280-300 | replies 401, 400, 400 wipe the token at the third call, after one auth rejection |
| SinkHistory.NewTokenInheritsRejection | oo_agent/cli.py:272-276 | after re-enrolment the old auth rejection still stands: the first rejection of any kind of the new token is a strike |
| SinkHistory.WipedAtThirdRejection | oo_agent/cli.py:279-300 | the counter is the number of live rejections since the last accepted live push or new token, and a wipe comes exactly at the third, if and only if each was an auth rejection or came while one was pending |
| SinkHistory.ThreeStrikes | oo_agent/cli.py:280-282 | three strikes are three live rejections with nothing accepted from the first on |
| SinkHistory.RecoveryEmptiesQueue | oo_agent/cli.py:279-306 | once the backend accepts again, one call delivers its payload and the whole backlog and clears the strikes |
| SinkLedger.BookBalances | oo_agent/cli.py:268-308 | each call keeps the books balanced |
| SinkLedger.Conservation | oo_agent/cli.py:268-308 | over every run each payload is in exactly one of accepted, rejected, dropped unenrolled, trimmed aged, trimmed overflow, queued; with a queue none is dropped otherwise |
| SinkCalls.OverflowOnlyBeyondCap | oo_agent/buffer/queue.py:75-82 | nothing is booked as overflow while the unaged rows fit the cap, else the oldest that do not |
| SinkCalls.SettledByOutcome | oo_agent/transport/client.py:174-182 | a drained row is booked as accepted or rejected by its own outcome |
| Assembly.Result.Merge | oo_agent/core/scheduler.py:60-76 | the three loops over one contribution equal the specification; false exactly when the payload or a section is of the wrong type, a metric key is no string, a sensor is unreadable or a mirrored sensor lacks an id |
| Assembly.WritesAre | oo_agent/core/scheduler.py:61-68 | the keys of a contribution: its metrics in order, behind `custom.<name>.` from a custom collector, then the mirrored sensors |
| Assembly.MirrorKeys | oo_agent/core/scheduler.py:64-68 | numeric readings in C, rpm, V, W, A mirror to sensor.temp, fan, volt, power, curr with the id in brackets; no other reading does |
| Payloads.MetricIsLastWrite | oo_agent/core/scheduler.py:61-68 | a metric key holds the last write over all prefixed metrics and sensor mirrors in entry order |
| Payloads.InventoryIsCombined | oo_agent/core/scheduler.py:69-76 | an inventory key holds its last non-list value or the concatenation of its lists since; sensors are concatenated |
| Payloads.SentExactlyWhen | oo_agent/core/scheduler.py:106-136 | a pass reaches the sink exactly when some metric, mirrored sensor or inventory key was written |
| Payloads.TickSends | oo_agent/core/scheduler.py:131-136 | one tick hands the sink exactly the payload of its due entries when something was written and no collection was fatal, otherwise nothing |
| Payloads.RunSends | oo_agent/core/scheduler.py:123-137 | over every run the sink is handed the payload of each such tick, in order, and nothing else |
| Payloads.CollectedReachesSink | oo_agent/core/scheduler.py:100-136 | on every run a metric returned by a collection is in the one payload handed over at its tick, under its full key |
| SchedulerSpec.Entry.Run | oo_agent/core/scheduler.py:37-57 | success clears the backoff state; a failure counts and sets the retry time; an exception leaves it exactly when the collection exits or the backoff power overflows at the 1025th failure in a row |
| Scheduler.Scheduler.RunAndMerge | oo_agent/core/scheduler.py:103-105 | one included entry: health, merge, and whether it takes the pass down |
| Scheduler.Scheduler.RunOnce | oo_agent/core/scheduler.py:90-108 | one pass over the included active entries in order, up to an escaping exception |
| Scheduler.Scheduler.RunForever | oo_agent/core/scheduler.py:110-137 | the loop over any tick trace equals the tick-by-tick specification: entry state, payloads handed to the sink, whether it survived collectors and sink |
| SchedulerSpec.Independent | oo_agent/core/scheduler.py:110-137 | when no two enabled entries share a name each entry's next run, failures, retry time and started collections equal those of a loop running it alone |
| SchedulerSpec.IndependentExactly | oo_agent/core/scheduler.py:121-133 | every entry's track is always its own loop's if and only if no two enabled entries share a name, for any intervals |
| SchedulerSpec.SameAttemptsExactly | oo_agent/core/scheduler.py:121-133 | the same condition, for positive intervals, decides whether every entry always starts the collections its own loop would |
| SchedulerSpec.AttemptIsLost | oo_agent/core/scheduler.py:121-133 | of any two enabled entries of one name, with positive intervals, one loses an attempt on the given ticks |
| SchedulerSpec.DiesOnlyOfOne | oo_agent/core/scheduler.py:100-136 | the shared loop ends exactly when the sink raises or some entry's own loop would end |
| SchedulerSpec.LivesExactlyWhile | oo_agent/core/scheduler.py:37-136 | the loop survives exactly as long as the sink does not raise and no due collection returns an unmergeable payload, exits, or raises after 1024 failures in a row |
| SchedulerSpec.KillsExactly | oo_agent/core/scheduler.py:45-76 | a collection is fatal exactly when it exits, raises after 1024 failures in a row, or returns a wrongly typed section, a metric key that is no string, an unreadable sensor or a mirrored one without id |
| SchedulerSpec.EndlessFailureEndsLoop | oo_agent/core/scheduler.py:49-51 | a collector raising at every hourly attempt is survived for exactly 1024 of them |
| SchedulerSpec.DocumentedPluginEndsLoop | README.md:172-181 | the documented minimal plugin ends the loop at its first tick |
| SchedulerSpec.SharedNamesInterfere | oo_agent/core/scheduler.py:121-133 | an example without failures: an entry with interval 10 beside one of its name with interval 100 runs once where alone it runs twice |
| Cadence.EveryEntryKeepsPace | oo_agent/core/scheduler.py:45-51 | in the shared loop `failures` is the run of failures since the last success, attempts are an interval apart, and an attempt after the k-th failure waits out min(300·2^(k-1), 3600) s |
| Cadence.StartsExactlyWhenReady | oo_agent/core/scheduler.py:126-134 | an entry starts at a tick if and only if its interval and, after the k-th failure in a row, the k-th cooldown have passed |
| Cadence.RetriedAtFirstReadyTick | oo_agent/core/scheduler.py:5-6 | the next attempt, after a failure too, falls on the first ready tick |
| Cadence.OverflowComesLate | oo_agent/core/scheduler.py:49-51 | an attempt after 1024 failures in a row comes at least 4500 + 3600·1020 s after the first of them, if handlers read the clock no earlier than their attempt started |
| Cadence.FailuresSpan | oo_agent/core/scheduler.py:23-25 | n consecutive failures and the next attempt span at least 4500 + 3600 (n - 4) s for n >= 4 |
| Cadence.CooldownTable | oo_agent/core/scheduler.py:50 | the k-th cooldown is 300, 600, 1200, 2400 and from the fifth on 3600 seconds |
| Cadence.SharedFailuresSpan | oo_agent/core/scheduler.py:49-51 | the same of every entry of the shared loop |
| Rates.RateTracker.Rates | oo_agent/core/rates.py:29-41 | result and new state equal the specification, unprimed and non-advancing clocks included |
| Rates.RatesBetween | oo_agent/core/rates.py:29-41 | between two samples: nothing on a clock that has not advanced, else one rate per counter of the later one, 0 for a new or fallen counter, otherwise covering the increment; the first sample yields nothing |
| Rates.RatesConserve | oo_agent/core/rates.py:36-39 | rates times the time they cover add up to the positive increments, that is last minus first plus the drops at resets |
| Rates.SteadyCounter | oo_agent/core/rates.py:36-39 | a counter that never falls is reported in full |
| Rates.RatesNonNegative | oo_agent/core/rates.py:3-5 | no rate is negative |
| ShowBlocks.ParseShowBlocks | oo_agent/collectors/cron.py:135-150 | the loop over lines equals the block specification |
| ShowBlocks.NoKeyIsSkipped | oo_agent/collectors/cron.py:145-147 | a line without `=` is skipped and does not end its block |
| ShowBlocks.WhiteLineEndsBlock | oo_agent/collectors/cron.py:140-144 | a line of spaces and tabs, or none, ends a block that has begun |
| ShowBlocks.LineEnds | oo_agent/collectors/cron.py:139 | each line boundary of `splitlines` ends a line once, CR LF together |
| ShowBlocks.ParseUndoesPrint | oo_agent/collectors/cron.py:135-150 | parsing printed units, with one or more blank lines between, returns the same list of dicts |

## Left out

- Local timezone and DST conversion, and the year range of Python's dates: cron time is naive and unbounded.
- Spellings `int`, `split`, `lower` and `isdigit` accept beyond ASCII, and underscores in numerals.
- HTTP, gzip, JSON text, SQLite and file mechanics, including a failing write of the token file or the queue.
- A missing httpx installation, whose `TransportError` escapes `push`.
- Starting without a server or token: the sink then only logs.
- Self-update and the update throttle: no effect on delivery state.
- The blocking enrolment command, config files, plugin discovery, logging, the service wrappers.
- `capabilities` in the payload, the agent block and the payload timestamp.
- Aliasing in `_merge`: `existing.extend` appends to the first collector's own list object; the model copies lists.
- Floating-point rounding: clocks, cooldowns and rates are exact; only the overflow of the backoff power is modelled.
- Exceptions out of `agent_info`, sdnotify, `should_stop` or the clocks, and values whose own `get`, `__bool__` or `__format__` raise, beyond the wrong types above.
- Crontab text parsing, job names, log files, journal lines and timestamps: regular expressions, no state.
- Collectors that read hardware, containers, security state and the file system.
- Rates.RatesConserve: needs the key present in every sample and each reading after the previous prime, since a sample without them is skipped or has no predecessor.
- QueueHistory.QueueIsSuffix: needs nondecreasing timestamps over a whole run; for one trim AgeTrimExactly is exact, and LateTimestampBreaksSuffix shows a run without them.
